// src/interactive_kill.cpp and .h: picking a window to kill by pointing at it.
module InteractiveKill {
  import opened Wrappers

  datatype Rect = Rect(x: int, y: int, width: int, height: int)

  datatype Window = Window(windowClass: string, rect: Rect, pid: int)

  // The hit test of the move and press handlers: all four edges belong to the rectangle.
  predicate Hits(r: Rect, px: int, py: int) {
    r.x <= px <= r.x + r.width && r.y <= py <= r.y + r.height
  }

  // QRect::contains of Qt 5. The right and lower edge do not belong to the rectangle; one that extends
  // to the left or upwards is turned round.
  predicate Contains(r: Rect, px: int, py: int) {
    Spans(r.x, r.width, px) && Spans(r.y, r.height, py)
  }

  predicate Spans(start: int, size: int, p: int) {
    if size < 0 then start + size - 1 <= p <= start else start <= p < start + size
  }

  predicate Inverted(r: Rect) {
    r.width < 0 || r.height < 0
  }

  // The pixels of a QRegion made from a QRect; none if the rectangle is inverted or empty.
  function Pixels(r: Rect): set<(int, int)> {
    set px, py | r.x <= px < r.x + r.width && r.y <= py < r.y + r.height :: (px, py)
  }

  // They are what QRect::contains accepts, unless the rectangle is inverted.
  lemma PixelsAreContained(r: Rect, p: (int, int))
    ensures p in Pixels(r) <==> !Inverted(r) && Contains(r, p.0, p.1)
  {
  }

  ghost predicate Sized(rects: seq<Rect>) {
    forall i :: 0 <= i < |rects| ==> !Inverted(rects[i])
  }

  predicate Hovers(rects: seq<Rect>, px: int, py: int) {
    exists i :: 0 <= i < |rects| && Contains(rects[i], px, py)
  }

  // The topmost window hit at (px, py), or -1: windows are listed from top to bottom.
  function HitIndex(rects: seq<Rect>, px: int, py: int): (k: int)
    ensures -1 <= k < |rects|
    ensures 0 <= k ==> Hits(rects[k], px, py) && forall i :: 0 <= i < k ==> !Hits(rects[i], px, py)
    ensures k == -1 ==> forall i :: 0 <= i < |rects| ==> !Hits(rects[i], px, py)
  {
    if rects == [] then -1
    else
      var last := |rects| - 1;
      var k := HitIndex(rects[..last], px, py);
      if 0 <= k then k else if Hits(rects[last], px, py) then last else -1
  }

  function Moved(r: Rect, dx: int, dy: int): Rect {
    Rect(r.x - dx, r.y - dy, r.width, r.height)
  }

  // A rectangle moved by the screen origin is hit where the original is hit by the shifted position.
  lemma MovedIsHit(r: Rect, dx: int, dy: int, px: int, py: int)
    ensures Hits(Moved(r, dx, dy), px, py) <==> Hits(r, px + dx, py + dy)
    ensures forall qx, qy :: (qx, qy) in Pixels(Moved(r, dx, dy)) <==> (qx + dx, qy + dy) in Pixels(r)
  {
  }

  // ----- the windows taken over by the constructor

  predicate Eligible(w: Window) {
    w.windowClass != "deepin-screen-recorder" && w.windowClass != "Desktop"
  }

  // The positions of the eligible ones among the first n windows.
  function KeptAt(windows: seq<Window>, n: nat): (at: seq<nat>)
    requires n <= |windows|
    ensures forall i :: 0 <= i < |at| ==> at[i] < n
  {
    if n == 0 then []
    else KeptAt(windows, n - 1) + (if Eligible(windows[n - 1]) then [n - 1] else [])
  }

  function Kept(windows: seq<Window>): (kept: seq<Window>)
    ensures |kept| == |KeptAt(windows, |windows|)|
    ensures forall i :: 0 <= i < |kept| ==> kept[i] == windows[KeptAt(windows, |windows|)[i]]
  {
    var at := KeptAt(windows, |windows|);
    seq(|at|, i requires 0 <= i < |at| => windows[at[i]])
  }

  // The two lists run in parallel: entry i of both comes from the i-th window kept.
  method CollectWindows(windows: seq<Window>) returns (windowRects: seq<Rect>, windowPids: seq<int>)
    ensures |windowRects| == |windowPids| == |Kept(windows)|
    ensures forall i :: 0 <= i < |windowRects| ==>
              windowRects[i] == Kept(windows)[i].rect && windowPids[i] == Kept(windows)[i].pid
  {
    windowRects, windowPids := [], [];
    for i := 0 to |windows|
      invariant |windowRects| == |windowPids| == |KeptAt(windows, i)|
      invariant forall k :: 0 <= k < |windowRects| ==> windowRects[k] == windows[KeptAt(windows, i)[k]].rect
      invariant forall k :: 0 <= k < |windowPids| ==> windowPids[k] == windows[KeptAt(windows, i)[k]].pid
    {
      if windows[i].windowClass != "deepin-screen-recorder" && windows[i].windowClass != "Desktop" {
        windowRects := windowRects + [windows[i].rect];
        windowPids := windowPids + [windows[i].pid];
      }
    }
  }

  // The windows kept are in their order, each once ...
  lemma {:induction false} KeptInOrder(windows: seq<Window>, n: nat)
    requires n <= |windows|
    ensures forall i, j :: 0 <= i < j < |KeptAt(windows, n)| ==> KeptAt(windows, n)[i] < KeptAt(windows, n)[j]
  {
    if n > 0 {
      KeptInOrder(windows, n - 1);
    }
  }

  lemma MemberOfSum(init: seq<nat>, last: seq<nat>, k: nat)
    ensures k in init + last <==> k in init || k in last
  {
  }

  // ... and they are exactly the eligible ones.
  lemma {:induction false} KeptAreEligible(windows: seq<Window>, n: nat, k: nat)
    requires k < n <= |windows|
    ensures k in KeptAt(windows, n) <==>
              windows[k].windowClass != "deepin-screen-recorder" && windows[k].windowClass != "Desktop"
  {
    var init, last := KeptAt(windows, n - 1), if Eligible(windows[n - 1]) then [n - 1] else [];
    assert KeptAt(windows, n) == init + last;
    MemberOfSum(init, last, k);
    if k < n - 1 {
      KeptAreEligible(windows, n - 1, k);
    } else {
      assert k !in init;
    }
  }

  // ----- the widget

  class InteractiveKill {
    const screenX: int
    const screenY: int
    const windowRects: seq<Rect>
    const windowPids: seq<int>

    var killWindowRect: Rect
    var killWindowIndex: int
    var cursorX: int
    var cursorY: int
    var startTooltip: bool
    ghost var moved: bool

    // Once the cursor has moved, the remembered window is the topmost one hit, if any is.
    ghost predicate Valid()
      reads this
    {
      && |windowRects| == |windowPids|
      && (!moved ==> cursorX == -1 == cursorY)
      && (moved ==>
            var k := HitIndex(windowRects, cursorX + screenX, cursorY + screenY);
            0 <= k ==> killWindowIndex == k && killWindowRect == Moved(windowRects[k], screenX, screenY))
      && killWindowIndex < |windowRects|
    }

    constructor (screenX: int, screenY: int, windows: seq<Window>)
      ensures Valid() && !moved
      ensures this.screenX == screenX && this.screenY == screenY
      ensures |windowRects| == |Kept(windows)|
      ensures forall i :: 0 <= i < |windowRects| ==>
                windowRects[i] == Kept(windows)[i].rect && windowPids[i] == Kept(windows)[i].pid
    {
      this.screenX, this.screenY := screenX, screenY;
      var rects, pids := CollectWindows(windows);
      windowRects, windowPids := rects, pids;
      killWindowRect := *;  // not initialised
      killWindowIndex, cursorX, cursorY := -1, -1, -1;
      startTooltip, moved := true, false;
    }

    method MouseHoverWindow(px: int, py: int) returns (hover: bool)
      ensures hover <==> Hovers(windowRects, px, py)
    {
      hover := false;
      for i := 0 to |windowRects|
        invariant !hover
        invariant forall k :: 0 <= k < i ==> !Contains(windowRects[k], px, py)
      {
        if Contains(windowRects[i], px, py) {
          hover := true;
          break;
        }
      }
    }

    // Returns whether the kill cursor is shown.
    method MouseMoveEvent(px: int, py: int) returns (killCursor: bool)
      requires Valid()
      modifies this
      ensures Valid() && moved && cursorX == px && cursorY == py
      ensures killCursor <==> Hovers(windowRects, px, py)
      ensures var k := HitIndex(windowRects, px + screenX, py + screenY);
              0 <= k ==>
                && killWindowIndex == k
                && killWindowRect.x + screenX == windowRects[k].x && killWindowRect.width == windowRects[k].width
                && killWindowRect.y + screenY == windowRects[k].y && killWindowRect.height == windowRects[k].height
      ensures HitIndex(windowRects, px + screenX, py + screenY) == -1 ==>
                killWindowIndex == old(killWindowIndex) && killWindowRect == old(killWindowRect)
      ensures startTooltip == old(startTooltip)
    {
      cursorX, cursorY, moved := px, py, true;
      for i := 0 to |windowRects|
        invariant forall k :: 0 <= k < i ==> !Hits(windowRects[k], px + screenX, py + screenY)
        invariant killWindowIndex == old(killWindowIndex) && killWindowRect == old(killWindowRect)
        invariant cursorX == px && cursorY == py && moved && startTooltip == old(startTooltip)
      {
        var rect := windowRects[i];
        if cursorX + screenX >= rect.x && cursorX + screenX <= rect.x + rect.width &&
           cursorY + screenY >= rect.y && cursorY + screenY <= rect.y + rect.height {
          killWindowRect := Moved(rect, screenX, screenY);
          killWindowIndex := i;
          break;
        }
      }
      killCursor := MouseHoverWindow(cursorX, cursorY);
    }

    // Returns the killWindow signals emitted and whether the widget closes. A press over a window closes
    // it and emits exactly one signal, for the topmost window hit, if there is one; see PressWithoutKill.
    // Any other press emits none.
    method MousePressEvent(px: int, py: int) returns (killed: seq<int>, closed: bool)
      requires Valid()
      modifies this`startTooltip
      ensures Valid()
      ensures closed <==> Hovers(windowRects, px, py)
      ensures closed ==>
                var k := HitIndex(windowRects, px, py);
                !startTooltip && killed == if 0 <= k then [windowPids[k]] else []
      ensures !closed ==> killed == [] && startTooltip == old(startTooltip)
    {
      killed, closed := [], false;
      var hover := MouseHoverWindow(px, py);
      if hover {
        startTooltip := false;
        for i := 0 to |windowRects|
          invariant killed == [] && !startTooltip
          invariant forall k :: 0 <= k < i ==> !Hits(windowRects[k], px, py)
        {
          var rect := windowRects[i];
          if px >= rect.x && px <= rect.x + rect.width && py >= rect.y && py <= rect.y + rect.height {
            killed := killed + [windowPids[i]];
            break;
          }
        }
        closed := true;
      }
    }

    // The region that is shaded red, if any.
    method PaintEvent() returns (shaded: Option<set<(int, int)>>)
      requires Valid()
      ensures shaded.Some? <==> 0 <= cursorX && 0 <= cursorY && Hovers(windowRects, cursorX, cursorY)
      ensures shaded.Some? ==> shaded.value == Visible(windowRects, killWindowRect, killWindowIndex)
    {
      shaded := None;
      var hover := MouseHoverWindow(cursorX, cursorY);
      if cursorX >= 0 && cursorY >= 0 && hover {
        var windowRegion := Pixels(killWindowRect);
        for i := 0 to if killWindowIndex < 0 then 0 else killWindowIndex
          invariant windowRegion == Visible(windowRects, killWindowRect, i)
        {
          var rect := windowRects[i];
          if rect.x > killWindowRect.x || rect.x + rect.width < killWindowRect.x + killWindowRect.width ||
             rect.y > killWindowRect.y || rect.y + rect.height < killWindowRect.y + killWindowRect.height {
            windowRegion := windowRegion - Pixels(rect);
          }
        }
        shaded := Some(windowRegion);
      }
    }

    // On a screen with origin (0, 0): whenever something is shaded and a press there would kill, it is
    // the window that would be killed, the topmost one hit, without all windows above it.
    lemma ShadedWindowIsKilled(shaded: set<(int, int)>)
      requires Valid() && screenX == 0 == screenY
      requires 0 <= cursorX && 0 <= cursorY && Hovers(windowRects, cursorX, cursorY)
      requires shaded == Visible(windowRects, killWindowRect, killWindowIndex)
      ensures Sized(windowRects) ==> 0 <= HitIndex(windowRects, cursorX, cursorY)
      ensures 0 <= HitIndex(windowRects, cursorX, cursorY) ==>
                && killWindowIndex == HitIndex(windowRects, cursorX, cursorY)
                && killWindowRect == windowRects[killWindowIndex]
                && forall p :: p in shaded <==>
                     && p in Pixels(windowRects[killWindowIndex])
                     && forall i :: 0 <= i < killWindowIndex ==> p !in Pixels(windowRects[i])
    {
      PressWithoutKill(windowRects, cursorX, cursorY);
      if 0 <= HitIndex(windowRects, cursorX, cursorY) {
        assert moved;
        VisibleIsUncovered(windowRects, cursorX, cursorY, killWindowIndex);
      }
    }
  }

  // What is left of rectangle r without the first n windows, passing over those that enclose r.
  function Visible(rects: seq<Rect>, r: Rect, n: int): set<(int, int)>
    requires n <= |rects|
  {
    if n <= 0 then Pixels(r)
    else if Encloses(rects[n - 1], r) then Visible(rects, r, n - 1)
    else Visible(rects, r, n - 1) - Pixels(rects[n - 1])
  }

  predicate Encloses(outer: Rect, r: Rect) {
    && outer.x <= r.x && r.x + r.width <= outer.x + outer.width
    && outer.y <= r.y && r.y + r.height <= outer.y + outer.height
  }

  // The test for enclosing windows never passes over a window above the topmost one hit.
  lemma {:induction false} VisibleIsUncovered(rects: seq<Rect>, px: int, py: int, n: nat)
    requires n <= HitIndex(rects, px, py)
    ensures forall p :: p in Visible(rects, rects[HitIndex(rects, px, py)], n) <==>
              p in Pixels(rects[HitIndex(rects, px, py)]) && forall i :: 0 <= i < n ==> p !in Pixels(rects[i])
  {
    if n > 0 {
      VisibleIsUncovered(rects, px, py, n - 1);
      assert !Hits(rects[n - 1], px, py);
      assert !Encloses(rects[n - 1], rects[HitIndex(rects, px, py)]);
    }
  }

  // ----- where the handlers disagree

  // The move handler looks at the cursor shifted by the screen origin, the press and paint handlers at
  // the cursor itself. They pick the same window for all cursors and all lists of windows with a
  // positive size exactly when the screen origin is (0, 0).
  ghost predicate MoveAgreesWithPress(screenX: int, screenY: int) {
    forall rects: seq<Rect>, px: nat, py: nat | Positive(rects) && Hovers(rects, px, py) ::
      HitIndex(rects, px + screenX, py + screenY) == HitIndex(rects, px, py)
  }

  ghost predicate Positive(rects: seq<Rect>) {
    forall i :: 0 <= i < |rects| ==> 0 < rects[i].width && 0 < rects[i].height
  }

  lemma OriginMatters(screenX: int, screenY: int)
    ensures MoveAgreesWithPress(screenX, screenY) <==> screenX == 0 == screenY
  {
    if screenX != 0 || screenY != 0 {
      var x, y := if screenX < 0 then screenX - 1 else screenX, if screenY < 0 then screenY - 1 else screenY;
      var rects := [Rect(x, y, 1, 1), Rect(0, 0, 1, 1)];
      assert Contains(rects[1], 0, 0);
      assert Hits(rects[0], screenX, screenY) && !Hits(rects[0], 0, 0);
      assert HitIndex(rects, 0 + screenX, 0 + screenY) != HitIndex(rects, 0, 0);
    }
  }

  // On a second screen to the right of one of width 1920: the window highlighted is not the one killed.
  lemma SecondScreenDisagrees()
    ensures var rects := [Rect(1920, 0, 100, 100), Rect(0, 0, 100, 100)];
            Hovers(rects, 5, 5) && HitIndex(rects, 5 + 1920, 5 + 0) == 0 && HitIndex(rects, 5, 5) == 1
  {
    var rects := [Rect(1920, 0, 100, 100), Rect(0, 0, 100, 100)];
    assert Contains(rects[1], 5, 5) && Hits(rects[0], 1925, 5) && Hits(rects[1], 5, 5);
    assert !Hits(rects[0], 5, 5);
  }

  // The topmost window under (px, py) by the hover test, or -1.
  function HoverIndex(rects: seq<Rect>, px: int, py: int): (k: int)
    ensures -1 <= k < |rects|
    ensures 0 <= k ==> Contains(rects[k], px, py) && forall i :: 0 <= i < k ==> !Contains(rects[i], px, py)
    ensures k == -1 <==> !Hovers(rects, px, py)
  {
    if rects == [] then -1
    else
      var last := |rects| - 1;
      var k := HoverIndex(rects[..last], px, py);
      if 0 <= k then k else if Contains(rects[last], px, py) then last else -1
  }

  // (px, py) is on the right or lower edge of the rectangle.
  predicate OnFarEdge(r: Rect, px: int, py: int) {
    && r.x <= px <= r.x + r.width && r.y <= py <= r.y + r.height
    && (px == r.x + r.width || py == r.y + r.height)
  }

  // (px, py) is where the two hit tests disagree about the rectangle.
  predicate Misleads(r: Rect, px: int, py: int) {
    OnFarEdge(r, px, py) || (Inverted(r) && Contains(r, px, py))
  }

  lemma TestsDisagree(r: Rect, px: int, py: int)
    ensures Misleads(r, px, py) <==> Hits(r, px, py) != Contains(r, px, py)
  {
  }

  // A press kills the topmost window under the cursor exactly if every window that has the cursor on
  // its right or lower edge, or that is inverted and contains it, lies below a window that contains it.
  lemma KilledWindowIsHovered(rects: seq<Rect>, px: int, py: int)
    requires Hovers(rects, px, py)
    ensures HitIndex(rects, px, py) == HoverIndex(rects, px, py) <==>
              forall i :: 0 <= i < |rects| && Misleads(rects[i], px, py) ==>
                exists j :: 0 <= j < i && Contains(rects[j], px, py)
    ensures Sized(rects) ==>
              (HitIndex(rects, px, py) == HoverIndex(rects, px, py) <==>
                 forall i :: 0 <= i < |rects| && OnFarEdge(rects[i], px, py) ==>
                   exists j :: 0 <= j < i && Contains(rects[j], px, py))
  {
    var h, k := HoverIndex(rects, px, py), HitIndex(rects, px, py);
    forall i | 0 <= i < |rects|
      ensures Misleads(rects[i], px, py) <==> Hits(rects[i], px, py) != Contains(rects[i], px, py)
    {
      TestsDisagree(rects[i], px, py);
    }
    if k == h {
      forall i | 0 <= i < |rects| && Misleads(rects[i], px, py)
        ensures exists j :: 0 <= j < i && Contains(rects[j], px, py)
      {
        assert h < i;
      }
    } else {
      // The first window on which the tests disagree is the killed or the hovered one.
      var i := if 0 <= k < h then k else h;
      assert Misleads(rects[i], px, py);
      assert forall j :: 0 <= j < i ==> !Contains(rects[j], px, py);
    }
  }

  // Two windows side by side: pressing on the left column of the right one kills the left one.
  lemma NeighbourIsKilled()
    ensures var rects := [Rect(0, 0, 10, 10), Rect(10, 0, 10, 10)];
            HoverIndex(rects, 10, 5) == 1 && HitIndex(rects, 10, 5) == 0
  {
    var rects := [Rect(0, 0, 10, 10), Rect(10, 0, 10, 10)];
    assert Contains(rects[1], 10, 5) && Hits(rects[0], 10, 5);
  }

  // A press closes the widget without killing anything exactly if some inverted window contains the
  // cursor and no other window has it within its closed edges.
  lemma PressWithoutKill(rects: seq<Rect>, px: int, py: int)
    ensures Hovers(rects, px, py) && HitIndex(rects, px, py) == -1 <==>
              && (exists i :: 0 <= i < |rects| && Inverted(rects[i]) && Contains(rects[i], px, py))
              && (forall i :: 0 <= i < |rects| && !Inverted(rects[i]) ==> !Hits(rects[i], px, py))
  {
    forall i | 0 <= i < |rects|
      ensures Hits(rects[i], px, py) ==> !Inverted(rects[i])
      ensures Contains(rects[i], px, py) && !Inverted(rects[i]) ==> Hits(rects[i], px, py)
    {
    }
  }
}
