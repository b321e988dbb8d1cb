# Verified models of deepin-system-monitor

Dafny models of the parts of the system monitor that compute something: the smooth curves of the
graphs, the sample windows behind them, the two concurrent protocols, and three smaller loops.
`dafny verify dfyconfig.toml` checks everything.

| file | models |
|---|---|
| `Tridiagonal.dfy` | the in-place tridiagonal solver |
| `Spline.dfy`, `SplineTheorems.dfy` | what the control points are, and what follows from that |
| `SmoothCurveGenerator.dfy` | the code that turns points into a painter path |
| `Traces.dfy`, `Monitors.dfy` | sample windows, scaling and paths of the monitors |
| `NetworkTrafficFilter.dfy` | the mailbox between the nethogs thread and the GUI |
| `SettingsInstance.dfy` | double-checked locking of the settings singleton |
| `Units.dfy`, `InteractiveKill.dfy`, `Tokenizer.dfy` | unit scaling, window picking, command lines |
| `Wrappers.dfy` | the shared option type |

How to read the models:

- `double` is `real`: all results are about exact arithmetic. Widths of `int` play no role in them.
- The solver, its pivots and the right-hand sides are as in the code. `Solution` is defined as
  the one sequence that satisfies all rows; `Elimination` is the recursive form of the two passes, and
  both are proved to be the same.
- A path is *natural* (`NaturalPath`) if it goes through the points, its velocity and acceleration
  agree at every inner point and the acceleration vanishes at both ends. `Taylor` shows that
  `Velocity` and `Acceleration` are the derivatives of the Bézier polynomial.
- A text with a number is a `Decimal`, the digits before and after the point; `Shows` says by reading
  the digits back which decimal stands for a value.
- Products of two variables are mostly written `Times(a, b)`; it is plain multiplication.
- In the monitors a ghost field records every sample received, and the object invariant relates window
  and path to that history, so it speaks about every run of `UpdateStatus`.
- The mailbox and the singleton are step relations; a run is any sequence of steps. A critical section
  of the mailbox is one step, every access of `instance()` to shared state is one step.
- Four facts about the code that one might expect otherwise, each with its exact condition and an
  input: the two unit scalers disagree on exact powers of 1024 (`ScalersAgree`,
  `ScalersDisagreeAt1024`); the window highlighted and the window killed differ on screens whose origin
  is not (0, 0) (`OriginMatters`, `SecondScreenDisagrees`); a press can kill a window other than the
  topmost one under the cursor (`KilledWindowIsHovered`, `NeighbourIsKilled`); a press can close the
  widget without killing anything if a window has a negative size (`PressWithoutKill`).

## Model

| member | source | states |
|---|---|---|
| Tridiagonal.CalculateFirstControlPoints | src/smooth_curve_generator.cpp:48-66 | for every n >= 1 and right-hand side the two in-place passes leave a vector that satisfies all rows of the system; nothing depends on the unassigned `tmp[0]`, and aliasing of the arrays does no harm |
| Tridiagonal.UniqueSolution | src/smooth_curve_generator.cpp:48-66 | exactly one vector satisfies the rows, for every right-hand side |
| Tridiagonal.SolutionIsElimination | src/smooth_curve_generator.cpp:51-63 | the solution is what forward elimination and back substitution compute |
| Tridiagonal.PivotRecurrence | src/smooth_curve_generator.cpp:51-59 | every pivot divided by is at least 2; before the last row pivots increase below 4 with b*b - 4b + 1 negative and divided by the squared previous pivot at each row; the last pivot is in [3, 3.25) |
| Tridiagonal.DiagonalDominance | src/smooth_curve_generator.cpp:51-63 | a right-hand side bounded by the diagonal's margin times a bound gives a solution within that bound |
| Tridiagonal.DecayTowardsTop | src/smooth_curve_generator.cpp:51-63 | above the first non-zero right-hand side the solution alternates in sign and grows by at least 2, then 3.5, per row |
| Tridiagonal.DecayTowardsBottom | src/smooth_curve_generator.cpp:51-63 | below the last non-zero right-hand side it alternates and shrinks by at least 3.5 per row |
| Spline.Taylor | src/smooth_curve_generator.cpp:40-43 | the exact expansion of a Bézier segment: velocity and acceleration are its derivatives |
| Spline.BendingIsTheIntegral | src/smooth_curve_generator.cpp:40-43 | `Energy` is 0 at 0, has the squared acceleration as its derivative by an exact expansion, and is 12(A*A + A*B + B*B) at 1: that is the integral over the segment |
| Spline.PieceJoinsKnots | src/smooth_curve_generator.cpp:38-43 | every segment runs from its knot to the next, whatever the control values |
| Spline.NaturalIsSolution | src/smooth_curve_generator.cpp:93-118 | the natural spline conditions hold exactly if the first control values solve the system set up by the code and the second ones are derived as in the code |
| Spline.GeneratesNaturalSpline | src/smooth_curve_generator.cpp:76-118 | for two or more knots, control values make a twice continuously differentiable curve with unbent ends exactly if they are the generated ones |
| SplineTheorems.ReversalSymmetry | src/smooth_curve_generator.cpp:76-118 | reversing the knots swaps first and second control values and reverses them |
| SplineTheorems.ProgressionIsStraight | src/smooth_curve_generator.cpp:93-118 | knots in arithmetic progression have control values at one and two thirds of every step |
| SplineTheorems.GeneratorIsAdditive | src/smooth_curve_generator.cpp:76-118 | the control values of a difference of knot lists are the differences of the control values |
| SplineTheorems.BoundedOvershoot | src/smooth_curve_generator.cpp:76-118 | knots in [lo, hi] give first and second control values in [lo-(hi-lo), hi+(hi-lo)] |
| SplineTheorems.CurveOvershoot | src/smooth_curve_generator.cpp:40-43 | such a segment leaves [lo, hi] by at most three quarters of hi-lo |
| SplineTheorems.FirstLocality | src/smooth_curve_generator.cpp:51-63 | moving knot j by d moves first control value i by at most 2\|d\|/2^k, k the distance from i to [j-1, j] |
| SplineTheorems.MovementsAlternate | src/smooth_curve_generator.cpp:51-63 | outside [j-1, j] these movements alternate in sign and shrink by at least 2 (then 3.5) leftwards and 3.5 rightwards |
| SplineTheorems.SecondLocality | src/smooth_curve_generator.cpp:107-118 | the same bound for the second control values |
| SplineTheorems.BendingAddsUp | src/smooth_curve_generator.cpp:68-118 | any smooth piecewise cubic through the knots bends by the generated curve's bending plus that of its deviation |
| SplineTheorems.LeastBending | src/smooth_curve_generator.cpp:68-118 | the generated values bend least among all smooth piecewise cubics through the knots, and are the only ones that do |
| SmoothCurveGenerator.CalculateControlPoints | src/smooth_curve_generator.cpp:68-124 | the control points returned are those of the natural spline in both coordinates, the two-knot case included |
| SmoothCurveGenerator.GenerateSmoothCurve | src/smooth_curve_generator.cpp:26-46 | the path returned is empty for fewer than two points, otherwise a natural path through the points |
| SmoothCurveGenerator.NaturalPathIsUnique | src/smooth_curve_generator.cpp:26-46 | there is only one such path |
| SmoothCurveGenerator.GeneratorCommutesWithReversal | src/smooth_curve_generator.cpp:26-118 | the path through the reversed points is the reversed path |
| SmoothCurveGenerator.ReversedPathPoints | src/smooth_curve_generator.cpp:40-43 | a reversed path consists of the same curve points at reversed parameters |
| SmoothCurveGenerator.LeastBendingPath | src/smooth_curve_generator.cpp:26-118 | of all smooth cubic paths through the points the generated one bends least, strictly |
| Traces.PushSample | src/compact_network_monitor.cpp:97-102 | append and pop keep the window equal to the last `pointsNumber` elements of initial zeros followed by all samples |
| Traces.MaxHeight | src/compact_network_monitor.cpp:104-109 | the scan finds the peak: the largest sample, or zero if all are negative |
| Traces.BuildPoints | src/compact_network_monitor.cpp:132-143 | the points are five apart and show their samples: unchanged if all are below the limit H, otherwise times H over the divisor, with 1/2 for less in a floored trace; the division is always defined |
| Traces.HeightShows | src/compact_network_monitor.cpp:132-143 | the same for every single height: y = sample, or y * divisor = sample * H, or 1/2 exactly for 0 < sample * H < divisor/2 |
| Traces.HeightOf | src/compact_network_monitor.cpp:132-143 | a height never exceeds the limit, has the sign of its sample, is zero only for zero, respects the floor, and reaches the limit at the divisor |
| Traces.HeightsInRange | src/compact_network_monitor.cpp:127-157 | all heights lie in [0, H] exactly if no sample in the window is negative |
| Traces.HeightsKeepOrder | src/compact_network_monitor.cpp:132-157 | heights are ordered as the samples of the trace, floor included |
| Traces.AbscissaIsLinear | src/compact_network_monitor.cpp:133-145 | segment i covers its five units of x linearly in the curve parameter |
| Traces.PathIsAGraph | src/compact_network_monitor.cpp:133-159 | no two points of a painted path lie above each other |
| Traces.PathStaysNearStrip | src/compact_network_monitor.cpp:127-159 | for samples that are not negative control points stay in [-H, 2H] and the curve in [-3H/4, 7H/4] |
| Monitors.PairMonitor.constructor | src/compact_network_monitor.cpp:55-65 | both windows start as zeros, no paths yet |
| Monitors.PairMonitor.UpdateStatus | src/network_monitor.cpp:114-189 | under shared or own rescaling, any update keeps windows and painted paths as the history of samples determines them: the windows hold the latest samples, and the knots show them unchanged or with the largest sample at the render height |
| Monitors.PairMonitor.PathsShowWindows | src/compact_network_monitor.cpp:97-159 | after any run with an update: entry i of a window is the sample received n-i updates ago, or zero; a knot y is its sample if all of its window are below H, otherwise y * M = sample * H for the largest sample M of both windows (shared, H two below the render height, 1/2 for 0 < sample * H < M/2) or of its own |
| Monitors.PairMonitor.PaintedNearStrips | src/compact_disk_monitor.cpp:86-154 | after any run with samples that are not negative both painted paths stay near their strips |
| Monitors.PairMonitor.PaintedGraphs | src/disk_monitor.cpp:94-154 | after any run both painted paths are graphs with x = 5(i + t) |
| Monitors.CpuMonitor.UpdateStatus | src/cpu_monitor.cpp:118-147 | the same for the single trace of the CPU monitor |
| Monitors.CpuMonitor.PathShowsWindow | src/cpu_monitor.cpp:118-144 | after any run with an update: the knots are at x = 5i - 8 and y = sample if all in the window are below the render height H, otherwise y * M = sample * H for the largest sample M |
| Monitors.CpuMonitor.PaintedGraphNearStrip | src/cpu_monitor.cpp:126-144 | after any run the CPU path is a graph with x = 5(i + t) - 8, near its strip |
| NetworkTrafficFilter.Filter.GetRowUpdate | src/network_traffic_filter.cpp:31-39 | takes out the update with the least id, or reports an empty mailbox |
| NetworkTrafficFilter.Filter.SetRowUpdate | src/network_traffic_filter.cpp:53-65 | a removal, or an update with bytes sent or received, becomes the row of its id and leaves all other rows alone; any other update changes nothing |
| NetworkTrafficFilter.LatestIsNeverLost | src/network_traffic_filter.cpp:31-65 | in every run, per id, deliveries plus what is pending form a subsequence of the accepted updates that ends with the last accepted one |
| NetworkTrafficFilter.TrafficIsNeverLost | src/network_traffic_filter.cpp:31-65 | in every run the last callback of an id that is a removal or reports bytes sent or received is the pending row of that id, or else its last delivery |
| NetworkTrafficFilter.NothingWithoutTraffic | src/network_traffic_filter.cpp:53-65 | an id without such a callback is neither pending nor ever delivered |
| NetworkTrafficFilter.EachIsConserved | src/network_traffic_filter.cpp:31-65 | in every run each update is accepted as often as it is delivered, overwritten and pending together |
| NetworkTrafficFilter.Conservation | src/network_traffic_filter.cpp:31-65 | as multisets, the accepted updates are the delivered ones, the overwritten ones and those still to be drained |
| NetworkTrafficFilter.BoundedBypass | src/network_traffic_filter.cpp:31-65 | in every interleaving a pending id waits for at most 1 + smaller ids pending + smaller ids accepted later gets |
| NetworkTrafficFilter.Quiescence | src/network_traffic_filter.cpp:41-76 | after a status other than OK was read and a later get found nothing, the mailbox stays empty for ever |
| NetworkTrafficFilter.DrainedInOrder | src/network_traffic_filter.cpp:31-39 | undisturbed draining yields as many updates as there are rows, in strictly increasing id order |
| NetworkTrafficFilter.DrainsEveryRow | src/network_traffic_filter.cpp:31-39 | it yields exactly the rows |
| NetworkTrafficFilter.GetsDrain | src/network_traffic_filter.cpp:31-39 | every one of up to as many gets as there are rows succeeds, and what they return is the start of that list |
| NetworkTrafficFilter.CollectRowUpdates | src/process/stats_collector.cpp:379-392 | the reader's loop empties the mailbox and knows exactly the processes of which a row reports traffic, each by the record with the largest row id |
| NetworkTrafficFilter.CollectedIsLatest | src/process/stats_collector.cpp:379-392 | with any steps between the gets, the reader ends up with the record of the last fetched update that reports traffic of the process, and that was the latest accepted one of its id when fetched |
| NetworkTrafficFilter.NothingFetched | src/process/stats_collector.cpp:379-392 | a process of which nothing was fetched is unknown |
| NetworkTrafficFilter.LargestRowWins | src/process/stats_collector.cpp:379-392 | afterwards a process is known exactly if a row reported traffic of it, by the record with the largest row id |
| SettingsInstance.Statics.Instance | src/settings.h:44-56 | one thread alone gets the published object, or publishes a new one |
| SettingsInstance.Singleton | src/settings.h:44-56 | for any threads and interleaving at most one Settings is constructed, all calls return the published non-null pointer, and it never changes |
| SettingsInstance.MutualExclusion | src/settings.h:48-53 | at most one thread is inside the locked part |
| SettingsInstance.NoDeadlock | src/settings.h:44-56 | while a call is under way, some thread with a call under way can move |
| SettingsInstance.HolderReturns | src/settings.h:48-56 | a thread holding the lock returns within five steps of its own, whatever the others do |
| SettingsInstance.CallCompletes | src/settings.h:44-56 | in every run a thread that makes eight steps of its own that are not waits for the lock returns from a call meanwhile, with the published object, which is not null |
| SettingsInstance.AloneFromStart | src/settings.h:44-56 | a thread alone constructs the object, publishes it, releases the lock and returns the object in eight steps |
| SettingsInstance.LockedAtMostOnce | src/settings.h:44-56 | in every run each thread takes the mutex at most once, however many calls it makes |
| SettingsInstance.WaitingIsBounded | src/settings.h:47-54 | after publication only threads that had read null take the mutex, once each, and a waiting thread is overtaken only by threads that waited with it |
| SettingsInstance.FastPath | src/settings.h:46-55 | after publication a call returns within two steps of its own, whoever holds the lock |
| Units.FormatUnit | src/utils.h:128-144 | the text read back as a decimal number with `prec` digits after the point is within half a last place of the given size in the unit shown, with an even last digit if it is midway; the suffix index leaves the table exactly if size * 1024^base > 1024^7 |
| Units.FormatUnitSize | src/utils.h:180-196 | the same reading back; the order is the first with a value below 1024, or the last |
| Units.ShownExactlyOnce | src/utils.h:140-142 | to any number of places every value has exactly one such text, the one that is formatted |
| Units.FifteenHundredBytes | src/utils.h:128-142 | 1536 bytes to one place are 1.5 of the second unit and nothing else |
| Units.ShownBelowNextUnit | src/utils.h:184-189 | before the last unit the text read back is at most 1024, and 1024 exactly for values within half a last place of it |
| Units.FormatByteCount | src/utils.h:209-219 | the same with the five byte suffixes |
| Units.ScalersAgree | src/utils.h:134-137 | the two scalers choose the same unit exactly for sizes up to 1024^5 that are none of 1024 .. 1024^4 |
| Units.ScalersDisagreeAt1024 | src/utils.h:183-187 | 1024 bytes: one scaler stays in bytes, the other moves on |
| InteractiveKill.CollectWindows | src/interactive_kill.cpp:60-70 | rectangles and process ids stay paired, entry by entry, for the windows kept |
| InteractiveKill.KeptInOrder | src/interactive_kill.cpp:60-70 | the windows kept are in their order, each once |
| InteractiveKill.KeptAreEligible | src/interactive_kill.cpp:64-65 | they are exactly those whose class is neither the screen recorder nor the desktop |
| InteractiveKill.InteractiveKill.MouseHoverWindow | src/interactive_kill.h:49-60 | tells whether some window contains the position |
| InteractiveKill.InteractiveKill.MouseMoveEvent | src/interactive_kill.cpp:106-136 | remembers the index and the rectangle, relative to the screen origin, of the topmost window hit, if any, and otherwise keeps the old ones |
| InteractiveKill.MovedIsHit | src/interactive_kill.cpp:115-123 | the remembered rectangle is hit, and covers pixels, where the window does at positions shifted by the screen origin |
| InteractiveKill.InteractiveKill.MousePressEvent | src/interactive_kill.cpp:138-160 | a press over a window closes and emits exactly one signal, for the topmost window hit if there is one; any other press emits none |
| InteractiveKill.InteractiveKill.PaintEvent | src/interactive_kill.cpp:162-191 | shades only over a window, by subtracting the listed rectangles that do not enclose the remembered one |
| InteractiveKill.PixelsAreContained | src/interactive_kill.cpp:169-180 | the pixels of a region made from a rectangle are those the hover test accepts, unless the rectangle is inverted |
| InteractiveKill.InteractiveKill.ShadedWindowIsKilled | src/interactive_kill.cpp:167-181 | with origin (0, 0), after any events, where a press would kill, what is shaded is the window it kills minus all windows above it; that is always so unless a window has a negative size |
| InteractiveKill.OriginMatters | src/interactive_kill.cpp:115-120 | move and press handler pick the same window for all cursors and all windows of positive size exactly if the origin is (0, 0) |
| InteractiveKill.SecondScreenDisagrees | src/interactive_kill.cpp:115-123 | two windows on a second screen where they do not |
| InteractiveKill.KilledWindowIsHovered | src/interactive_kill.cpp:140-153 | the window killed is the topmost one by the hover test exactly if every window that has the cursor on its right or lower edge (or is inverted and contains it) lies below one that contains it |
| InteractiveKill.PressWithoutKill | src/interactive_kill.cpp:138-160 | a press closes without a kill exactly if an inverted window contains the cursor and no other window has it within its closed edges |
| InteractiveKill.NeighbourIsKilled | src/interactive_kill.cpp:138-160 | two adjacent windows where the left one is killed |
| Tokenizer.Explode | src/utils.cpp:675-693 | the loop computes the recursive tokenizer |
| Tokenizer.TokensAreWords | src/utils.cpp:675-693 | tokens are not empty and free of the separator |
| Tokenizer.TokensKeepLetters | src/utils.cpp:675-693 | concatenated tokens are the input without separators |
| Tokenizer.TokensSplit | src/utils.cpp:675-693 | explode(a + c + b) = explode(a) + explode(b) |
| Tokenizer.JoinThenExplode | src/utils.cpp:675-693 | joining and exploding gives a list back exactly if it consists of words |
| Tokenizer.FirstArgumentExists | src/utils.cpp:302-349 | `args[0]` exists exactly for command lines that are not empty after trimming |
| Tokenizer.TrimmedOfSpaces | src/utils.cpp:309 | trimming removes spaces at both ends and nothing else |
| Tokenizer.ArgumentsAreTerminated | src/utils.cpp:302-346 | strings without spaces, each ended by a zero byte, come out as the arguments, with backslashes made slashes |
| Tokenizer.GetProcessNameFromCmdLine | src/utils.cpp:336-375 | the name is what follows the last slash of the first argument, or for script programs of the first absolute path, or else of the first argument that is no option |

## Left out

- All drawing, fonts, themes, animations, tooltips, cursors and translations: user interface.
- Reading `/proc`, DBus, X11, desktop files and icons: input and output. A command line and the window list are parameters.
- Rounding, NaN and infinities of `double`: the models use exact reals.
- The nethogs library: any sequence of callbacks, then any returned status. Record fields that neither the mailbox nor the modelled part of its reader looks at (name, device, user, rates) are omitted.
- NetworkTrafficFilter.CollectRowUpdates: the method itself runs without callbacks in between; `CollectedIsLatest` covers the reader's loop with any steps in between.
- SettingsInstance.Statics.Instance: the mutex is a comment in the sequential method; it is a step of its own in the interleaved model. A throwing constructor is not modelled.
- Traces.HeightsKeepOrder: says nothing about samples of two different traces; each trace decides by its own peak whether it is rescaled, so their order can change.
- Units.FormatUnit: a text is given by its digits before and after the point, its sign and its suffix, not as characters; rounding is to nearest with ties to even, and a negative value keeps its sign when it is shown as zero.
- Tokenizer.FirstArgumentExists: conversion between byte strings and Unicode is not modelled.
- InteractiveKill.InteractiveKill.MouseHoverWindow: `QRect` and `QRegion` are those of Qt 5; `adjustRectInScreenArea` is not part of this model, so any rectangles are accepted.
- The memory monitors and the compact CPU monitor: they do not use the curve generator.
