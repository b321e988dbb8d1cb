// src/network_traffic_filter.cpp: the mailbox between the nethogs thread and the GUI.
//
// Every shared access of the source happens under one mutex, so each critical section is one step.
// The class holds the shared fields; the step relation below describes all interleavings.
module NetworkTrafficFilter {
  import opened Wrappers

  // The fields of NethogsMonitorRecord that the mailbox and its reader look at.
  datatype Record = Record(recordId: int, pid: int, sentBytes: nat, recvBytes: nat)

  datatype Update = Update(action: int, record: Record)

  const NETHOGS_APP_ACTION_REMOVE := 2
  const NETHOGS_STATUS_OK := 0

  type Rows = map<int, Update>

  predicate Accepts(action: int, record: Record) {
    action == NETHOGS_APP_ACTION_REMOVE || record.sentBytes != 0 || record.recvBytes != 0
  }

  lemma SomeMember<T>(s: set<T>) returns (x: T)
    requires |s| > 0
    ensures x in s
  {
    x :| x in s;
  }

  predicate IsLeast(k: int, ids: set<int>) {
    k in ids && forall j :: j in ids ==> k <= j
  }

  lemma {:induction false} LeastMember(ids: set<int>) returns (k: int)
    requires |ids| > 0
    ensures IsLeast(k, ids)
    decreases |ids|
  {
    var some := SomeMember(ids);
    var rest := ids - {some};
    assert ids == rest + {some};
    k := some;
    if |rest| > 0 {
      var least := LeastMember(rest);
      if least < some {
        k := least;
      }
    }
  }

  lemma LeastExists(ids: set<int>)
    requires |ids| > 0
    ensures exists k :: IsLeast(k, ids)
  {
    var k := LeastMember(ids);
  }

  // The key of std::map::begin.
  function FirstId(rows: Rows): (k: int)
    requires |rows| > 0
    ensures k in rows && forall j :: j in rows ==> k <= j
  {
    LeastExists(rows.Keys);
    var k :| k in rows.Keys && IsLeast(k, rows.Keys);
    k
  }

  function Put(rows: Rows, action: int, record: Record): Rows {
    if Accepts(action, record) then rows[record.recordId := Update(action, record)] else rows
  }

  function Rest(rows: Rows): (r: Rows)
    requires |rows| > 0
    ensures |r| == |rows| - 1
  {
    var r := rows - {FirstId(rows)};
    assert r.Keys == rows.Keys - {FirstId(rows)};
    r
  }

  class Filter {
    var rowUpdates: Rows
    var monitorStatus: int

    constructor ()
      ensures rowUpdates == map[] && monitorStatus == NETHOGS_STATUS_OK
    {
      rowUpdates := map[];
      monitorStatus := NETHOGS_STATUS_OK;
    }

    method GetRowUpdate() returns (update: Option<Update>)
      modifies this`rowUpdates
      ensures |old(rowUpdates)| == 0 ==> update == None && rowUpdates == old(rowUpdates)
      ensures |old(rowUpdates)| > 0 ==>
                var k := FirstId(old(rowUpdates));
                && update == Some(old(rowUpdates)[k]) && rowUpdates == old(rowUpdates) - {k}
                && rowUpdates == Rest(old(rowUpdates))
    {
      if |rowUpdates| == 0 {
        return None;
      }
      var begin := FirstId(rowUpdates);
      update := Some(rowUpdates[begin]);
      rowUpdates := rowUpdates - {begin};
    }

    method GetNetHogsMonitorStatus() returns (status: int)
      ensures status == monitorStatus
    {
      status := monitorStatus;
    }

    method SetNetHogsMonitorStatus(status: int)
      modifies this`monitorStatus
      ensures monitorStatus == status
    {
      monitorStatus := status;
    }

    method SetRowUpdate(action: int, record: Record)
      modifies this`rowUpdates
      ensures action == NETHOGS_APP_ACTION_REMOVE || 0 < record.sentBytes || 0 < record.recvBytes ==>
                rowUpdates == old(rowUpdates)[record.recordId := Update(action, record)]
      ensures action != NETHOGS_APP_ACTION_REMOVE && record.sentBytes == 0 == record.recvBytes ==>
                rowUpdates == old(rowUpdates)
      ensures rowUpdates == Put(old(rowUpdates), action, record)
    {
      if action == NETHOGS_APP_ACTION_REMOVE || record.sentBytes != 0 || record.recvBytes != 0 {
        rowUpdates := rowUpdates[record.recordId := Update(action, record)];
      }
    }
  }

  // ----- the two threads as one step relation

  // Where the nethogs thread is: in nethogsmonitor_loop, back from it with a status, or past
  // publishing that status.
  datatype Monitor = Looping | Returned(status: int) | Finished

  datatype State = State(rows: Rows, status: int, monitor: Monitor)

  datatype Step =
    | Callback(action: int, record: Record)  // nethogs thread: onNethogsUpdate
    | LoopReturns(status: int)               // nethogs thread: nethogsmonitor_loop returns
    | PublishStatus                          // nethogs thread: setNetHogsMonitorStatus
    | GetRow                                 // any reader: getRowUpdate
    | ReadStatus                             // any reader: getNetHogsMonitorStatus

  const START := State(map[], NETHOGS_STATUS_OK, Looping)

  predicate Enabled(s: State, step: Step) {
    match step
    case Callback(_, _) => s.monitor.Looping?
    case LoopReturns(_) => s.monitor.Looping?
    case PublishStatus => s.monitor.Returned?
    case GetRow => true
    case ReadStatus => true
  }

  function Next(s: State, step: Step): State {
    match step
    case Callback(action, record) => s.(rows := Put(s.rows, action, record))
    case LoopReturns(status) => s.(monitor := Returned(status))
    case PublishStatus => if s.monitor.Returned? then s.(status := s.monitor.status, monitor := Finished) else s
    case GetRow => if |s.rows| > 0 then s.(rows := Rest(s.rows)) else s
    case ReadStatus => s
  }

  // The state after a run; the list of what the successful gets returned; the list of what was put in.
  function After(s: State, run: seq<Step>): State {
    if run == [] then s else Next(After(s, run[..|run| - 1]), run[|run| - 1])
  }

  predicate Legal(s: State, run: seq<Step>) {
    run != [] ==> Legal(s, run[..|run| - 1]) && Enabled(After(s, run[..|run| - 1]), run[|run| - 1])
  }

  function Got(s: State, step: Step): seq<Update> {
    if step.GetRow? && |s.rows| > 0 then [s.rows[FirstId(s.rows)]] else []
  }

  function Delivered(s: State, run: seq<Step>): seq<Update> {
    if run == [] then []
    else Delivered(s, run[..|run| - 1]) + Got(After(s, run[..|run| - 1]), run[|run| - 1])
  }

  function Entered(step: Step): seq<Update> {
    if step.Callback? && Accepts(step.action, step.record) then [Update(step.action, step.record)] else []
  }

  function Accepted(run: seq<Step>): seq<Update> {
    if run == [] then [] else Accepted(run[..|run| - 1]) + Entered(run[|run| - 1])
  }

  function OfId(updates: seq<Update>, k: int): seq<Update> {
    if updates == [] then []
    else OfId(updates[..|updates| - 1], k)
         + (if updates[|updates| - 1].record.recordId == k then [updates[|updates| - 1]] else [])
  }

  lemma {:induction false} OfIdAppend(a: seq<Update>, b: seq<Update>, k: int)
    ensures OfId(a + b, k) == OfId(a, k) + OfId(b, k)
  {
    if b == [] {
      assert a + b == a;
    } else {
      OfIdAppend(a, b[..|b| - 1], k);
      assert (a + b)[..|a + b| - 1] == a + b[..|b| - 1];
    }
  }

  // Rows are filed under the id of their record.
  predicate WellKeyed(rows: Rows) {
    forall k :: k in rows ==> rows[k].record.recordId == k
  }

  lemma {:induction false} StaysWellKeyed(s: State, run: seq<Step>)
    requires WellKeyed(s.rows)
    ensures WellKeyed(After(s, run).rows)
  {
    if run != [] {
      StaysWellKeyed(s, run[..|run| - 1]);
    }
  }

  // ----- the latest update is never lost

  // a is obtained from b by leaving out elements.
  predicate Subsequence<T(==)>(a: seq<T>, b: seq<T>)
    decreases |b|
  {
    a == [] ||
    (b != [] &&
      (Subsequence(a, b[..|b| - 1]) ||
       (a[|a| - 1] == b[|b| - 1] && Subsequence(a[..|a| - 1], b[..|b| - 1]))))
  }

  lemma SubsequenceSkip<T>(a: seq<T>, b: seq<T>, x: T)
    requires Subsequence(a, b)
    ensures Subsequence(a, b + [x])
    ensures Subsequence(a + [x], b + [x])
  {
    assert (b + [x])[..|b|] == b && (a + [x])[..|a|] == a;
  }

  lemma {:induction false} SubsequenceInit<T>(a: seq<T>, x: T, b: seq<T>)
    requires Subsequence(a + [x], b)
    ensures Subsequence(a, b)
    decreases |b|
  {
    var c := b[..|b| - 1];
    assert (a + [x])[..|a|] == a;
    assert b == c + [b[|b| - 1]];
    if Subsequence(a + [x], c) {
      SubsequenceInit(a, x, c);
    }
    SubsequenceSkip(a, c, b[|b| - 1]);
  }

  function Pending(rows: Rows, k: int): seq<Update> {
    if k in rows then [rows[k]] else []
  }

  // Nothing but older updates is missing: `kept` is a subsequence of `all` that ends as `all` does.
  predicate KeepsLatest(kept: seq<Update>, all: seq<Update>) {
    && Subsequence(kept, all)
    && (kept == [] <==> all == [])
    && (all != [] ==> kept != [] && kept[|kept| - 1] == all[|all| - 1])
  }

  lemma NewestReplacesPending(delivered: seq<Update>, pending: seq<Update>, all: seq<Update>, x: Update)
    requires KeepsLatest(delivered + pending, all) && |pending| <= 1
    ensures KeepsLatest(delivered + [x], all + [x])
  {
    if |pending| == 1 {
      assert pending == [pending[0]];
      SubsequenceInit(delivered, pending[0], all);
    } else {
      assert delivered + pending == delivered;
    }
    SubsequenceSkip(delivered, all, x);
  }

  lemma SingleOfId(x: Update, k: int)
    ensures OfId([x], k) == if x.record.recordId == k then [x] else []
  {
    assert [x][..0] == [];
  }

  // In every run and for every id, what was delivered, followed by what is still pending, keeps the
  // order of the accepted updates, uses none of them twice, and ends with the last accepted one.
  lemma {:induction false} LatestIsNeverLost(run: seq<Step>, k: int)
    ensures KeepsLatest(OfId(Delivered(START, run), k) + Pending(After(START, run).rows, k), OfId(Accepted(run), k))
  {
    if run != [] {
      var before, step := run[..|run| - 1], run[|run| - 1];
      LatestIsNeverLost(before, k);
      StaysWellKeyed(START, before);
      OfIdAppend(Delivered(START, before), Got(After(START, before), step), k);
      OfIdAppend(Accepted(before), Entered(step), k);
      LatestAfterStep(After(START, before), step, k, OfId(Delivered(START, before), k), OfId(Accepted(before), k));
    }
  }

  lemma LatestAfterAccept(s: State, step: Step, k: int, delivered: seq<Update>, all: seq<Update>)
    requires WellKeyed(s.rows) && KeepsLatest(delivered + Pending(s.rows, k), all)
    requires OfId(Entered(step), k) != []
    ensures KeepsLatest(delivered + Pending(Next(s, step).rows, k), all + OfId(Entered(step), k))
    ensures Got(s, step) == []
  {
    var x := Update(step.action, step.record);
    SingleOfId(x, k);
    NewestReplacesPending(delivered, Pending(s.rows, k), all, x);
    assert Pending(Next(s, step).rows, k) == [x];
  }

  lemma LatestAfterStep(s: State, step: Step, k: int, delivered: seq<Update>, all: seq<Update>)
    requires WellKeyed(s.rows) && KeepsLatest(delivered + Pending(s.rows, k), all)
    ensures KeepsLatest(
              delivered + OfId(Got(s, step), k) + Pending(Next(s, step).rows, k), all + OfId(Entered(step), k))
  {
    if OfId(Entered(step), k) != [] {
      LatestAfterAccept(s, step, k, delivered, all);
      assert delivered + OfId(Got(s, step), k) == delivered;
    } else {
      DeliveryKeeps(s, step, k);
      SameLatest(delivered, OfId(Got(s, step), k), Pending(Next(s, step).rows, k), all);
      assert all + OfId(Entered(step), k) == all;
    }
  }

  lemma SameLatest(delivered: seq<Update>, got: seq<Update>, pending: seq<Update>, all: seq<Update>)
    requires KeepsLatest(delivered + (got + pending), all)
    ensures KeepsLatest(delivered + got + pending, all)
  {
    assert delivered + got + pending == delivered + (got + pending);
  }

  // A step that accepts nothing for id k at most moves its pending update to the delivered ones.
  lemma DeliveryKeeps(s: State, step: Step, k: int)
    requires WellKeyed(s.rows) && OfId(Entered(step), k) == []
    ensures OfId(Got(s, step), k) + Pending(Next(s, step).rows, k) == Pending(s.rows, k)
  {
    if step.Callback? && Accepts(step.action, step.record) {
      SingleOfId(Update(step.action, step.record), k);
    } else if step.GetRow? && |s.rows| > 0 {
      SingleOfId(s.rows[FirstId(s.rows)], k);
    }
  }

  // A callback for id k that reports traffic in either direction, or the removal.
  predicate Brings(step: Step, k: int) {
    && step.Callback? && step.record.recordId == k
    && (step.action == NETHOGS_APP_ACTION_REMOVE || 0 < step.record.sentBytes || 0 < step.record.recvBytes)
  }

  // Step n is the last such one.
  ghost predicate LastBringer(run: seq<Step>, k: int, n: nat) {
    n < |run| && Brings(run[n], k) && forall m :: n < m < |run| ==> !Brings(run[m], k)
  }

  lemma EnteredIfBrought(step: Step, k: int)
    ensures OfId(Entered(step), k) == if Brings(step, k) then [Update(step.action, step.record)] else []
  {
    if step.Callback? && Accepts(step.action, step.record) {
      SingleOfId(Update(step.action, step.record), k);
    }
  }

  lemma {:induction false} LastBrought(run: seq<Step>, k: int, n: nat)
    requires LastBringer(run, k, n)
    ensures var all := OfId(Accepted(run), k);
            all != [] && all[|all| - 1] == Update(run[n].action, run[n].record)
  {
    var before, step := run[..|run| - 1], run[|run| - 1];
    OfIdAppend(Accepted(before), Entered(step), k);
    EnteredIfBrought(step, k);
    if n < |run| - 1 {
      LastBrought(before, k, n);
    }
  }

  // u is the pending row of k or, if none is pending, the last delivery of k.
  predicate Holds(rows: Rows, delivered: seq<Update>, k: int, u: Update) {
    if k in rows then rows[k] == u else delivered != [] && delivered[|delivered| - 1] == u
  }

  // In every run the last callback that reports traffic of id k in either direction, or its removal, is
  // the pending row of k or, if none is pending, the last delivery of k.
  lemma TrafficIsNeverLost(run: seq<Step>, k: int, n: nat)
    requires LastBringer(run, k, n)
    ensures Holds(After(START, run).rows, OfId(Delivered(START, run), k), k, Update(run[n].action, run[n].record))
  {
    LastBrought(run, k, n);
    LatestIsNeverLost(run, k);
    var delivered := OfId(Delivered(START, run), k);
    assert k !in After(START, run).rows ==> delivered + Pending(After(START, run).rows, k) == delivered;
  }

  // No other callback leaves a trace: without such a one for id k, k is neither pending nor delivered.
  lemma {:induction false} NothingWithoutTraffic(run: seq<Step>, k: int)
    requires forall m :: 0 <= m < |run| ==> !Brings(run[m], k)
    ensures k !in After(START, run).rows && OfId(Delivered(START, run), k) == []
  {
    NothingBrought(run, k);
    LatestIsNeverLost(run, k);
  }

  lemma {:induction false} NothingBrought(run: seq<Step>, k: int)
    requires forall m :: 0 <= m < |run| ==> !Brings(run[m], k)
    ensures OfId(Accepted(run), k) == []
  {
    if run != [] {
      var before, step := run[..|run| - 1], run[|run| - 1];
      OfIdAppend(Accepted(before), Entered(step), k);
      EnteredIfBrought(step, k);
      NothingBrought(before, k);
    }
  }

  // ----- conservation

  // The pending updates replaced by newer ones of their id.
  function Overwritten(s: State, run: seq<Step>): seq<Update> {
    if run == [] then []
    else
      var before, step := run[..|run| - 1], run[|run| - 1];
      Overwritten(s, before) + Replaced(After(s, before).rows, step)
  }

  function Replaced(rows: Rows, step: Step): seq<Update> {
    if Entered(step) != [] && step.record.recordId in rows then [rows[step.record.recordId]] else []
  }

  function Count(updates: seq<Update>, u: Update): nat {
    if updates == [] then 0
    else Count(updates[..|updates| - 1], u) + (if updates[|updates| - 1] == u then 1 else 0)
  }

  function CountPending(rows: Rows, u: Update): nat {
    if u.record.recordId in rows && rows[u.record.recordId] == u then 1 else 0
  }

  function Single(updates: seq<Update>, u: Update): nat {
    if updates == [u] then 1 else 0
  }

  lemma CountAppend(updates: seq<Update>, last: seq<Update>, u: Update)
    requires |last| <= 1
    ensures Count(updates + last, u) == Count(updates, u) + Single(last, u)
  {
    if last == [] {
      assert updates + last == updates;
    } else {
      assert (updates + last)[..|updates|] == updates;
      assert last == [last[0]];
    }
  }

  lemma CountsAfterPut(rows: Rows, v: Update, u: Update)
    requires WellKeyed(rows)
    ensures var k := v.record.recordId;
            CountPending(rows, u) + Single([v], u)
            == (if k in rows then Single([rows[k]], u) else 0) + CountPending(rows[k := v], u)
  {
  }

  lemma CountsAfterGet(rows: Rows, u: Update)
    requires WellKeyed(rows) && |rows| > 0
    ensures CountPending(rows, u) == Single([rows[FirstId(rows)]], u) + CountPending(Rest(rows), u)
  {
  }

  lemma CountsAfterStep(s: State, step: Step, u: Update)
    requires WellKeyed(s.rows)
    ensures CountPending(s.rows, u) + Single(Entered(step), u)
            == Single(Got(s, step), u) + Single(Replaced(s.rows, step), u) + CountPending(Next(s, step).rows, u)
  {
    match step {
      case Callback(action, record) => CountsAfterPut(s.rows, Update(action, record), u);
      case GetRow =>
        if |s.rows| > 0 {
          CountsAfterGet(s.rows, u);
        }
      case _ =>
    }
  }

  // Every acceptance of an update ends in exactly one way: it is delivered, or overwritten by a newer
  // one of its id, or it is pending.
  lemma {:induction false} EachIsConserved(run: seq<Step>, u: Update)
    ensures Count(Accepted(run), u)
            == Count(Delivered(START, run), u) + Count(Overwritten(START, run), u)
               + CountPending(After(START, run).rows, u)
  {
    if run != [] {
      var before, step := run[..|run| - 1], run[|run| - 1];
      var s := After(START, before);
      EachIsConserved(before, u);
      StaysWellKeyed(START, before);
      CountsAfterStep(s, step, u);
      CountAppend(Accepted(before), Entered(step), u);
      CountAppend(Delivered(START, before), Got(s, step), u);
      CountAppend(Overwritten(START, before), Replaced(s.rows, step), u);
    }
  }

  lemma {:induction false} CountIsMultiplicity(updates: seq<Update>, u: Update)
    ensures multiset(updates)[u] == Count(updates, u)
  {
    if updates != [] {
      var init, last := updates[..|updates| - 1], updates[|updates| - 1];
      CountIsMultiplicity(init, u);
      assert updates == init + [last];
    }
  }

  // ----- bounded bypass

  function Below(rows: Rows, k: int): set<int> {
    set j | j in rows && j < k
  }

  function Gets(run: seq<Step>): nat {
    if run == [] then 0 else Gets(run[..|run| - 1]) + (if run[|run| - 1].GetRow? then 1 else 0)
  }

  function AcceptedBelow(run: seq<Step>, k: int): nat {
    if run == [] then 0
    else AcceptedBelow(run[..|run| - 1], k)
         + (if Entered(run[|run| - 1]) != [] && run[|run| - 1].record.recordId < k then 1 else 0)
  }

  lemma PutBelow(rows: Rows, action: int, record: Record, k: int)
    ensures |Below(Put(rows, action, record), k)|
            <= |Below(rows, k)| + (if Accepts(action, record) && record.recordId < k then 1 else 0)
  {
    var id := record.recordId;
    if Accepts(action, record) {
      if id < k {
        assert Below(Put(rows, action, record), k) == Below(rows, k) + {id};
      } else {
        assert Below(Put(rows, action, record), k) == Below(rows, k);
      }
    }
  }

  lemma RestBelow(rows: Rows, k: int)
    requires k in rows
    ensures |rows| > 0
    ensures FirstId(rows) != k ==> k in Rest(rows) && |Below(Rest(rows), k)| == |Below(rows, k)| - 1
  {
    assert k in rows.Keys;
    if FirstId(rows) != k {
      assert FirstId(rows) in Below(rows, k);
      assert Below(Rest(rows), k) == Below(rows, k) - {FirstId(rows)};
    }
  }

  lemma {:induction false} PendingUntilDelivered(s: State, run: seq<Step>, k: int)
    requires WellKeyed(s.rows) && k in s.rows && OfId(Delivered(s, run), k) == []
    ensures k in After(s, run).rows
    ensures Gets(run) + |Below(After(s, run).rows, k)| <= |Below(s.rows, k)| + AcceptedBelow(run, k)
  {
    if run != [] {
      var before, step := run[..|run| - 1], run[|run| - 1];
      var t := After(s, before);
      OfIdAppend(Delivered(s, before), Got(t, step), k);
      PendingUntilDelivered(s, before, k);
      StaysWellKeyed(s, before);
      match step {
        case Callback(action, record) => PutBelow(t.rows, action, record, k);
        case GetRow =>
          RestBelow(t.rows, k);
          SingleOfId(t.rows[FirstId(t.rows)], k);
          assert FirstId(t.rows) != k;
        case _ =>
      }
    }
  }

  // A pending id k waits for at most 1 + (ids below k then pending) + (later acceptances below k) gets,
  // whatever the interleaving.
  lemma BoundedBypass(s: State, run: seq<Step>, k: int)
    requires WellKeyed(s.rows) && k in s.rows
    requires Gets(run) >= 1 + |Below(s.rows, k)| + AcceptedBelow(run, k)
    ensures OfId(Delivered(s, run), k) != []
  {
    if OfId(Delivered(s, run), k) == [] {
      PendingUntilDelivered(s, run, k);
      assert false;
    }
  }

  // ----- quiescence

  lemma {:induction false} StatusMeansFinished(run: seq<Step>)
    requires Legal(START, run)
    ensures After(START, run).status != NETHOGS_STATUS_OK ==> After(START, run).monitor.Finished?
  {
    if run != [] {
      StatusMeansFinished(run[..|run| - 1]);
    }
  }

  lemma {:induction false} LegalAppend(s: State, a: seq<Step>, b: seq<Step>)
    ensures After(s, a + b) == After(After(s, a), b)
    ensures Legal(s, a + b) <==> Legal(s, a) && Legal(After(s, a), b)
  {
    if b == [] {
      assert a + b == a;
    } else {
      LegalAppend(s, a, b[..|b| - 1]);
      assert (a + b)[..|a + b| - 1] == a + b[..|b| - 1];
    }
  }

  lemma {:induction false} FinishedOnlyDrains(s: State, run: seq<Step>)
    requires s.monitor.Finished? && Legal(s, run)
    ensures After(s, run).monitor.Finished?
    ensures After(s, run).rows.Keys <= s.rows.Keys
  {
    if run != [] {
      FinishedOnlyDrains(s, run[..|run| - 1]);
    }
  }

  // Once a reader has seen a status other than OK and later found the mailbox empty, the mailbox is
  // empty for ever.
  lemma Quiescence(before: seq<Step>, between: seq<Step>, later: seq<Step>)
    requires Legal(START, before + [ReadStatus] + between + [GetRow] + later)
    requires After(START, before).status != NETHOGS_STATUS_OK
    requires Delivered(After(START, before + [ReadStatus] + between), [GetRow]) == []
    ensures After(START, before + [ReadStatus] + between + [GetRow] + later).rows == map[]
  {
    var r1 := before + [ReadStatus];
    var r2, r3 := r1 + between, r1 + between + [GetRow];
    LegalAppend(START, r3, later);
    LegalAppend(START, r2, [GetRow]);
    LegalAppend(START, r1, between);
    LegalAppend(START, before, [ReadStatus]);
    StatusMeansFinished(before);
    var s1, s2 := After(START, r1), After(START, r2);
    assert After(After(START, before), [ReadStatus]) == After(START, before) by {
      assert [ReadStatus][..0] == [];
    }
    FinishedOnlyDrains(s1, between);
    assert [GetRow][..0] == [];
    assert |s2.rows| == 0;
    FinishedOnlyDrains(After(START, r3), later);
  }

  // ----- draining

  // What a reader gets that is not interrupted by the nethogs thread.
  function Drained(rows: Rows): seq<Update>
    decreases |rows|
  {
    if |rows| == 0 then [] else [rows[FirstId(rows)]] + Drained(Rest(rows))
  }

  lemma {:induction false} DrainsEveryRow(rows: Rows, u: Update)
    requires WellKeyed(rows)
    ensures u in Drained(rows) <==> u.record.recordId in rows && rows[u.record.recordId] == u
    decreases |rows|
  {
    if |rows| > 0 {
      DrainsEveryRow(Rest(rows), u);
    } else {
      assert u.record.recordId !in rows.Keys;
    }
  }

  // It gets every row once, in increasing order of ids.
  lemma {:induction false} DrainedInOrder(rows: Rows)
    requires WellKeyed(rows)
    ensures |Drained(rows)| == |rows|
    ensures forall i, j :: 0 <= i < j < |rows| ==> Drained(rows)[i].record.recordId < Drained(rows)[j].record.recordId
    decreases |rows|
  {
    if |rows| > 0 {
      var k, rest := FirstId(rows), Rest(rows);
      DrainedInOrder(rest);
      forall i | 0 <= i < |rest|
        ensures k < Drained(rest)[i].record.recordId
      {
        DrainsEveryRow(rest, Drained(rest)[i]);
      }
      assert Drained(rows) == [rows[k]] + Drained(rest);
    }
  }

  lemma {:induction false} DrainedPending(rows: Rows, u: Update)
    requires WellKeyed(rows)
    ensures multiset(Drained(rows))[u] == CountPending(rows, u)
    decreases |rows|
  {
    if |rows| > 0 {
      DrainedPending(Rest(rows), u);
      assert Drained(rows) == [rows[FirstId(rows)]] + Drained(Rest(rows));
    } else {
      assert u.record.recordId !in rows.Keys;
    }
  }

  // The accepted updates are, each as often as it was accepted, the delivered ones, the overwritten
  // ones and those that draining would still deliver.
  lemma Conservation(run: seq<Step>)
    ensures multiset(Accepted(run))
            == multiset(Delivered(START, run)) + multiset(Overwritten(START, run))
               + multiset(Drained(After(START, run).rows))
  {
    StaysWellKeyed(START, run);
    forall u: Update
      ensures multiset(Accepted(run))[u]
              == multiset(Delivered(START, run))[u] + multiset(Overwritten(START, run))[u]
                 + multiset(Drained(After(START, run).rows))[u]
    {
      EachIsConserved(run, u);
      CountIsMultiplicity(Accepted(run), u);
      CountIsMultiplicity(Delivered(START, run), u);
      CountIsMultiplicity(Overwritten(START, run), u);
      DrainedPending(After(START, run).rows, u);
    }
  }

  lemma {:induction false} GetsDrain(s: State, run: seq<Step>)
    requires forall i :: 0 <= i < |run| ==> run[i].GetRow?
    requires |run| <= |s.rows|
    ensures |After(s, run).rows| == |s.rows| - |run| && |Delivered(s, run)| == |run|
    ensures Delivered(s, run) + Drained(After(s, run).rows) == Drained(s.rows)
  {
    if run != [] {
      var before := run[..|run| - 1];
      GetsDrain(s, before);
      assert run[|run| - 1] == GetRow;
      DrainByGet(After(s, before), Delivered(s, before));
    }
  }

  lemma DrainByGet(s: State, got: seq<Update>)
    requires |s.rows| > 0
    ensures |Next(s, GetRow).rows| == |s.rows| - 1 && |Got(s, GetRow)| == 1
    ensures got + Got(s, GetRow) + Drained(Next(s, GetRow).rows) == got + Drained(s.rows)
  {
    DrainStep(s.rows, got);
  }

  lemma DrainStep(rows: Rows, got: seq<Update>)
    requires |rows| > 0
    ensures got + Drained(rows) == got + [rows[FirstId(rows)]] + Drained(Rest(rows))
  {
  }

  // ----- the reader in src/process/stats_collector.cpp

  // The record of the last update other than a removal, for every process.
  function Collected(updates: seq<Update>): map<int, Record> {
    if updates == [] then map[]
    else
      var collected, u := Collected(updates[..|updates| - 1]), updates[|updates| - 1];
      if u.action != NETHOGS_APP_ACTION_REMOVE then collected[u.record.pid := u.record] else collected
  }

  lemma CollectedNext(updates: seq<Update>, u: Update)
    ensures Collected(updates + [u]) ==
              if u.action != NETHOGS_APP_ACTION_REMOVE then Collected(updates)[u.record.pid := u.record]
              else Collected(updates)
  {
    assert (updates + [u])[..|updates|] == updates;
  }

  predicate Reports(u: Update, pid: int) {
    u.action != NETHOGS_APP_ACTION_REMOVE && u.record.pid == pid
  }

  lemma {:induction false} CollectedLast(updates: seq<Update>, pid: int) returns (i: int)
    ensures pid !in Collected(updates) ==> forall j :: 0 <= j < |updates| ==> !Reports(updates[j], pid)
    ensures pid in Collected(updates) ==>
              0 <= i < |updates| && Reports(updates[i], pid) && Collected(updates)[pid] == updates[i].record
    ensures pid in Collected(updates) ==> forall j :: i < j < |updates| ==> !Reports(updates[j], pid)
  {
    i := -1;
    if updates != [] {
      i := CollectedLast(updates[..|updates| - 1], pid);
      if Reports(updates[|updates| - 1], pid) {
        i := |updates| - 1;
      }
    }
  }

  // ----- the reader while the nethogs thread goes on

  // Step n of the run `loop` after the run `prior` is a get that returns u.
  predicate Fetches(prior: seq<Step>, loop: seq<Step>, n: int, u: Update) {
    0 <= n < |loop| && Got(After(START, prior + loop[..n]), loop[n]) == [u]
  }

  // u is the last update that the run accepts for its id.
  predicate LatestAccepted(run: seq<Step>, u: Update) {
    var all := OfId(Accepted(run), u.record.recordId);
    all != [] && all[|all| - 1] == u
  }

  lemma PendingIsLatest(delivered: seq<Update>, u: Update, all: seq<Update>)
    requires KeepsLatest(delivered + [u], all)
    ensures all != [] && all[|all| - 1] == u
  {
  }

  // What a get returns is the latest update accepted for its id up to then.
  lemma FetchIsLatest(run: seq<Step>)
    requires |After(START, run).rows| > 0
    ensures LatestAccepted(run, After(START, run).rows[FirstId(After(START, run).rows)])
  {
    var rows := After(START, run).rows;
    var k := FirstId(rows);
    StaysWellKeyed(START, run);
    LatestIsNeverLost(run, k);
    PendingIsLatest(OfId(Delivered(START, run), k), rows[k], OfId(Accepted(run), k));
  }

  // The fetch that decides what the reader knows of a process.
  ghost predicate LastFetch(prior: seq<Step>, loop: seq<Step>, n: int, u: Update, pid: int) {
    && Fetches(prior, loop, n, u) && Reports(u, pid)
    && forall m, v :: n < m && Fetches(prior, loop, m, v) ==> !Reports(v, pid)
  }

  lemma FetchesBefore(prior: seq<Step>, loop: seq<Step>, n: int, u: Update)
    requires loop != [] && n < |loop| - 1
    ensures Fetches(prior, loop, n, u) <==> Fetches(prior, loop[..|loop| - 1], n, u)
  {
    if 0 <= n {
      assert loop[..|loop| - 1][..n] == loop[..n];
    }
  }

  lemma StaysLastFetch(prior: seq<Step>, loop: seq<Step>, n: int, u: Update, pid: int)
    requires loop != [] && LastFetch(prior, loop[..|loop| - 1], n, u, pid)
    requires forall v :: Fetches(prior, loop, |loop| - 1, v) ==> !Reports(v, pid)
    ensures LastFetch(prior, loop, n, u, pid)
  {
    FetchesBefore(prior, loop, n, u);
    forall m, v | n < m && Fetches(prior, loop, m, v)
      ensures !Reports(v, pid)
    {
      if m < |loop| - 1 {
        FetchesBefore(prior, loop, m, v);
      }
    }
  }

  lemma {:induction false} CollectedLastFetch(prior: seq<Step>, loop: seq<Step>, pid: int) returns (n: int, u: Update)
    requires pid in Collected(Delivered(After(START, prior), loop))
    ensures LastFetch(prior, loop, n, u, pid)
    ensures Collected(Delivered(After(START, prior), loop))[pid] == u.record
  {
    var before, step := loop[..|loop| - 1], loop[|loop| - 1];
    var s := After(START, prior);
    AfterAppend(START, prior, before);
    var got := Got(After(s, before), step);
    CollectedStep(Delivered(s, before), got, pid);
    if got != [] && Reports(got[0], pid) {
      n, u := |loop| - 1, got[0];
    } else {
      n, u := CollectedLastFetch(prior, before, pid);
      StaysLastFetch(prior, loop, n, u, pid);
    }
  }

  lemma {:induction false} AfterAppend(s: State, a: seq<Step>, b: seq<Step>)
    ensures After(s, a + b) == After(After(s, a), b)
  {
    LegalAppend(s, a, b);
  }

  lemma CollectedStep(updates: seq<Update>, got: seq<Update>, pid: int)
    requires |got| <= 1
    ensures pid in Collected(updates + got) <==>
              pid in Collected(updates) || (got != [] && Reports(got[0], pid))
    ensures pid in Collected(updates + got) ==>
              Collected(updates + got)[pid] ==
                if got != [] && Reports(got[0], pid) then got[0].record else Collected(updates)[pid]
  {
    if got == [] {
      assert updates + got == updates;
    } else {
      assert got == [got[0]];
      CollectedNext(updates, got[0]);
    }
  }

  // Whatever steps lie between the gets of the reader's loop: for every process it ends up with the
  // record of the last update it fetched that reports traffic of that process, and that update was the
  // latest accepted one of its id when it was fetched.
  lemma CollectedIsLatest(prior: seq<Step>, loop: seq<Step>, pid: int) returns (n: int, u: Update)
    requires pid in Collected(Delivered(After(START, prior), loop))
    ensures LastFetch(prior, loop, n, u, pid) && LatestAccepted(prior + loop[..n], u)
    ensures Collected(Delivered(After(START, prior), loop))[pid] == u.record
  {
    n, u := CollectedLastFetch(prior, loop, pid);
    FetchIsLatest(prior + loop[..n]);
  }

  // A process of which nothing was fetched is unknown.
  lemma {:induction false} NothingFetched(prior: seq<Step>, loop: seq<Step>, pid: int)
    requires forall n, u :: Fetches(prior, loop, n, u) ==> !Reports(u, pid)
    ensures pid !in Collected(Delivered(After(START, prior), loop))
  {
    if pid in Collected(Delivered(After(START, prior), loop)) {
      var n, u := CollectedLastFetch(prior, loop, pid);
    }
  }

  // After draining, a process is known exactly if some row reports its traffic, and then by the record
  // of the largest such row id.
  lemma LargestRowWins(rows: Rows, pid: int)
    requires WellKeyed(rows)
    ensures pid in Collected(Drained(rows)) <==> exists k :: k in rows && Reports(rows[k], pid)
    ensures pid in Collected(Drained(rows)) ==>
              var r := Collected(Drained(rows))[pid];
              && r.recordId in rows && rows[r.recordId].record == r && Reports(rows[r.recordId], pid)
              && forall k :: k in rows && Reports(rows[k], pid) ==> k <= r.recordId
  {
    var all := Drained(rows);
    DrainedInOrder(rows);
    var i := CollectedLast(all, pid);
    if pid in Collected(all) {
      DrainsEveryRow(rows, all[i]);
    }
    forall k | k in rows && Reports(rows[k], pid)
      ensures pid in Collected(all) && k <= all[i].record.recordId
    {
      DrainsEveryRow(rows, rows[k]);
      var j :| 0 <= j < |all| && all[j] == rows[k];
    }
  }

  // Row k is the one with the largest id among those that report traffic of the process.
  ghost predicate LargestReport(rows: Rows, k: int, pid: int) {
    && k in rows && rows[k].action != NETHOGS_APP_ACTION_REMOVE && rows[k].record.pid == pid
    && forall j :: j in rows && rows[j].action != NETHOGS_APP_ACTION_REMOVE && rows[j].record.pid == pid ==> j <= k
  }

  lemma LargestRowIsKept(rows: Rows, pid: int)
    requires WellKeyed(rows)
    ensures forall k :: LargestReport(rows, k, pid) ==>
              pid in Collected(Drained(rows)) && Collected(Drained(rows))[pid] == rows[k].record
    ensures pid in Collected(Drained(rows)) ==> exists k :: LargestReport(rows, k, pid)
  {
    LargestRowWins(rows, pid);
    if pid in Collected(Drained(rows)) {
      assert LargestReport(rows, Collected(Drained(rows))[pid].recordId, pid);
    }
  }

  // The reader's loop, when the nethogs thread does not interfere.
  method CollectRowUpdates(filter: Filter) returns (procNetIO: map<int, Record>)
    modifies filter`rowUpdates
    ensures |filter.rowUpdates| == 0
    ensures procNetIO == Collected(Drained(old(filter.rowUpdates)))
    ensures WellKeyed(old(filter.rowUpdates)) ==>
              && (forall pid, k :: LargestReport(old(filter.rowUpdates), k, pid) ==>
                    pid in procNetIO && procNetIO[pid] == old(filter.rowUpdates)[k].record)
              && (forall pid :: pid in procNetIO ==> exists k :: LargestReport(old(filter.rowUpdates), k, pid))
  {
    ghost var got: seq<Update> := [];
    procNetIO := map[];
    while true
      invariant got + Drained(filter.rowUpdates) == Drained(old(filter.rowUpdates))
      invariant procNetIO == Collected(got)
      decreases |filter.rowUpdates|
    {
      ghost var rows := filter.rowUpdates;
      var update := filter.GetRowUpdate();
      if update.None? {
        assert got + [] == got;
        break;
      }
      DrainStep(rows, got);
      CollectedNext(got, update.value);
      got := got + [update.value];
      if update.value.action != NETHOGS_APP_ACTION_REMOVE {
        procNetIO := procNetIO[update.value.record.pid := update.value.record];
      }
    }
    forall pid | WellKeyed(old(filter.rowUpdates))
      ensures forall k :: LargestReport(old(filter.rowUpdates), k, pid) ==>
                pid in procNetIO && procNetIO[pid] == old(filter.rowUpdates)[k].record
      ensures pid in procNetIO ==> exists k :: LargestReport(old(filter.rowUpdates), k, pid)
    {
      LargestRowIsKept(old(filter.rowUpdates), pid);
    }
  }
}
