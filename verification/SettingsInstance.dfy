// Settings::instance() of src/settings.h: double-checked locking around a sequentially consistent
// atomic pointer.
module SettingsInstance {
  import opened Wrappers

  // ----- one thread alone

  class Settings {
    constructor () {
    }
  }

  // The static members.
  class Statics {
    var instance: Settings?

    method Instance() returns (sin: Settings)
      modifies this
      ensures sin == instance
      ensures old(instance) != null ==> sin == old(instance)
      ensures old(instance) == null ==> fresh(sin)
    {
      var loaded := instance;
      if loaded == null {
        // The mutex is taken here.
        loaded := instance;
        if loaded == null {
          loaded := new Settings();
          instance := loaded;
        }
      }
      sin := loaded;
    }
  }

  // ----- any number of threads, every access to shared state a step of its own

  type Tid = nat

  // Objects are numbered from 1 in the order of their construction; 0 is the null pointer.
  type Pointer = nat

  datatype Pc =
    | Idle
    | FirstLoad                 // sin = m_instance.load()
    | Lock                      // lock_guard takes m_mutex, or waits for it
    | SecondLoad                // sin = m_instance.load()
    | Construct                 // sin = new Settings()
    | Store(sin: Pointer)       // m_instance.store(sin)
    | Unlock(sin: Pointer)      // the lock_guard is destroyed
    | Return(sin: Pointer)      // return sin

  datatype Returned = Returned(thread: Tid, sin: Pointer)

  datatype State = State(
    instance: Pointer, holder: Option<Tid>, constructed: nat, pcs: map<Tid, Pc>, results: seq<Returned>)

  const START := State(0, None, 0, map[], [])

  function At(s: State, t: Tid): Pc {
    if t in s.pcs then s.pcs[t] else Idle
  }

  predicate Enabled(s: State, t: Tid) {
    At(s, t).Lock? ==> s.holder.None?
  }

  function Goto(s: State, t: Tid, pc: Pc): State {
    s.(pcs := s.pcs[t := pc])
  }

  // One step of thread t; a thread that waits for the mutex stays where it is.
  function Next(s: State, t: Tid): State {
    match At(s, t)
    case Idle => Goto(s, t, FirstLoad)
    case FirstLoad => Goto(s, t, if s.instance != 0 then Return(s.instance) else Lock)
    case Lock => if s.holder.None? then Goto(s.(holder := Some(t)), t, SecondLoad) else s
    case SecondLoad => Goto(s, t, if s.instance != 0 then Unlock(s.instance) else Construct)
    case Construct => Goto(s.(constructed := s.constructed + 1), t, Store(s.constructed + 1))
    case Store(sin) => Goto(s.(instance := sin), t, Unlock(sin))
    case Unlock(sin) => Goto(s.(holder := None), t, Return(sin))
    case Return(sin) => Goto(s.(results := s.results + [Returned(t, sin)]), t, Idle)
  }

  // The state after any schedule: the thread that makes each step.
  function After(s: State, schedule: seq<Tid>): State {
    if schedule == [] then s else Next(After(s, schedule[..|schedule| - 1]), schedule[|schedule| - 1])
  }

  lemma {:induction false} AfterAppend(s: State, a: seq<Tid>, b: seq<Tid>)
    ensures After(s, a + b) == After(After(s, a), b)
  {
    if b == [] {
      assert a + b == a;
    } else {
      AfterAppend(s, a, b[..|b| - 1]);
      assert (a + b)[..|a + b| - 1] == a + b[..|b| - 1];
    }
  }

  predicate Critical(pc: Pc) {
    pc.SecondLoad? || pc.Construct? || pc.Store? || pc.Unlock?
  }

  // What the program counter of one thread says about the shared state.
  predicate ThreadOk(s: State, t: Tid) {
    && (Critical(At(s, t)) <==> s.holder == Some(t))
    && match At(s, t)
       case Construct => s.constructed == 0
       case Store(sin) => s.instance == 0 && s.constructed == 1 == sin
       case Unlock(sin) => s.instance == sin == 1
       case Return(sin) => s.instance == sin == 1
       case _ => true
  }

  ghost predicate Inv(s: State) {
    && s.instance <= s.constructed <= 1
    && (s.instance < s.constructed ==> s.holder.Some? && At(s, s.holder.value).Store?)
    && (forall t: Tid :: ThreadOk(s, t))
    && (forall i :: 0 <= i < |s.results| ==> s.results[i].sin == 1)
    && (s.results != [] ==> s.instance == 1)
  }

  lemma StepKeepsInv(s: State, t: Tid)
    requires Inv(s)
    ensures Inv(Next(s, t))
    ensures s.instance != 0 ==> Next(s, t).instance == s.instance
  {
    assert ThreadOk(s, t);
    var n := Next(s, t);
    forall u: Tid
      ensures ThreadOk(n, u)
    {
      assert ThreadOk(s, u);
      assert u != t ==> At(n, u) == At(s, u);
    }
  }

  lemma {:induction false} InvHolds(s: State, schedule: seq<Tid>)
    requires Inv(s)
    ensures Inv(After(s, schedule))
    ensures s.instance != 0 ==> After(s, schedule).instance == s.instance
  {
    if schedule != [] {
      InvHolds(s, schedule[..|schedule| - 1]);
      StepKeepsInv(After(s, schedule[..|schedule| - 1]), schedule[|schedule| - 1]);
    }
  }

  // In every interleaving of any number of threads and calls at most one Settings is constructed, every
  // call returns the published pointer and never null, and a published pointer never changes.
  lemma Singleton(schedule: seq<Tid>, more: seq<Tid>)
    ensures var s := After(START, schedule);
            && s.constructed <= 1
            && (forall i :: 0 <= i < |s.results| ==> s.results[i].sin == s.instance != 0)
            && (s.instance != 0 ==> After(START, schedule + more).instance == s.instance)
  {
    InvHolds(START, schedule);
    AfterAppend(START, schedule, more);
    InvHolds(After(START, schedule), more);
  }

  // No two threads are between taking and releasing the mutex.
  lemma MutualExclusion(schedule: seq<Tid>, t: Tid, u: Tid)
    requires Critical(At(After(START, schedule), t)) && Critical(At(After(START, schedule), u))
    ensures t == u
  {
    var s := After(START, schedule);
    InvHolds(START, schedule);
    assert ThreadOk(s, t) && ThreadOk(s, u);
  }

  // Nobody waits for ever: as long as some call is under way, some thread with a call under way can
  // make a step that is not a wait.
  lemma NoDeadlock(schedule: seq<Tid>, t: Tid)
    requires !At(After(START, schedule), t).Idle?
    ensures exists u: Tid :: !At(After(START, schedule), u).Idle? && Enabled(After(START, schedule), u)
  {
    var s := After(START, schedule);
    InvHolds(START, schedule);
    if !Enabled(s, t) {
      var u := s.holder.value;
      assert ThreadOk(s, u);
      assert Enabled(s, u) && !At(s, u).Idle?;
    }
  }

  // ----- bounded calls

  // An upper bound on a thread's own steps to the end of its call, waits not counted. A thread that is
  // idle is about to make the next call.
  function StepsLeft(pc: Pc): (n: nat)
    ensures 1 <= n <= 8
  {
    match pc
    case Idle => 8
    case FirstLoad => 7
    case Lock => 6
    case SecondLoad => 5
    case Construct => 4
    case Store(_) => 3
    case Unlock(_) => 2
    case Return(_) => 1
  }

  function OwnSteps(schedule: seq<Tid>, t: Tid): nat {
    if schedule == [] then 0
    else OwnSteps(schedule[..|schedule| - 1], t) + (if schedule[|schedule| - 1] == t then 1 else 0)
  }

  function ReturnsOf(results: seq<Returned>, t: Tid): nat {
    if results == [] then 0
    else ReturnsOf(results[..|results| - 1], t) + (if results[|results| - 1].thread == t then 1 else 0)
  }

  lemma ReturnsOfAppend(results: seq<Returned>, r: Returned, t: Tid)
    ensures ReturnsOf(results + [r], t) == ReturnsOf(results, t) + if r.thread == t then 1 else 0
  {
    assert (results + [r])[..|results|] == results;
  }

  lemma StepReturns(s: State, u: Tid, t: Tid)
    ensures ReturnsOf(Next(s, u).results, t)
            == ReturnsOf(s.results, t) + (if u == t && At(s, t).Return? then 1 else 0)
  {
    if At(s, u).Return? {
      ReturnsOfAppend(s.results, Returned(u, At(s, u).sin), t);
    }
  }

  lemma OwnStep(s: State, t: Tid)
    requires Critical(At(s, t))
    ensures var pc := At(Next(s, t), t);
            (Critical(pc) || pc.Return?) && StepsLeft(pc) < StepsLeft(At(s, t))
  {
  }

  lemma StepProgress(s: State, u: Tid, t: Tid)
    ensures ReturnsOf(Next(s, u).results, t)
            == ReturnsOf(s.results, t) + (if u == t && At(s, t).Return? then 1 else 0)
    ensures u != t ==> At(Next(s, u), t) == At(s, t)
    ensures u == t && Critical(At(s, t)) ==>
              var pc := At(Next(s, u), t);
              (Critical(pc) || pc.Return?) && StepsLeft(pc) < StepsLeft(At(s, t))
    ensures u == t && At(s, t).FirstLoad? && s.instance != 0 ==> At(Next(s, u), t).Return?
  {
    StepReturns(s, u, t);
    if u == t && Critical(At(s, t)) {
      OwnStep(s, t);
    }
  }

  lemma {:induction false} CountsDown(s: State, schedule: seq<Tid>, t: Tid)
    requires Inv(s)
    ensures ReturnsOf(After(s, schedule).results, t) >= ReturnsOf(s.results, t)
    ensures Critical(At(s, t)) || At(s, t).Return? ==>
              || ReturnsOf(After(s, schedule).results, t) > ReturnsOf(s.results, t)
              || (var pc := At(After(s, schedule), t);
                  && (Critical(pc) || pc.Return?)
                  && StepsLeft(pc) + OwnSteps(schedule, t) <= StepsLeft(At(s, t)))
  {
    if schedule != [] {
      var before, u := schedule[..|schedule| - 1], schedule[|schedule| - 1];
      CountsDown(s, before, t);
      InvHolds(s, before);
      StepProgress(After(s, before), u, t);
    }
  }

  // A thread that holds the mutex returns from its call after at most five more steps of its own,
  // whatever the other threads do in between.
  lemma HolderReturns(schedule: seq<Tid>, more: seq<Tid>, t: Tid)
    requires After(START, schedule).holder == Some(t)
    requires OwnSteps(more, t) >= 5
    ensures ReturnsOf(After(START, schedule + more).results, t) > ReturnsOf(After(START, schedule).results, t)
  {
    InvHolds(START, schedule);
    AfterAppend(START, schedule, more);
    assert ThreadOk(After(START, schedule), t);
    CountsDown(After(START, schedule), more, t);
  }

  lemma {:induction false} UnlockedCall(s: State, schedule: seq<Tid>, t: Tid)
    requires Inv(s) && s.instance != 0 && At(s, t).FirstLoad?
    ensures ReturnsOf(After(s, schedule).results, t) >= ReturnsOf(s.results, t)
    ensures || ReturnsOf(After(s, schedule).results, t) > ReturnsOf(s.results, t)
            || (OwnSteps(schedule, t) == 0 && At(After(s, schedule), t).FirstLoad?)
            || (OwnSteps(schedule, t) == 1 && At(After(s, schedule), t).Return?)
  {
    if schedule != [] {
      var before, u := schedule[..|schedule| - 1], schedule[|schedule| - 1];
      UnlockedCall(s, before, t);
      InvHolds(s, before);
      StepProgress(After(s, before), u, t);
    }
  }

  // Once the pointer is published, a call returns within two steps of its own, whoever holds the mutex.
  lemma FastPath(schedule: seq<Tid>, more: seq<Tid>, t: Tid)
    requires After(START, schedule).instance != 0 && At(After(START, schedule), t).FirstLoad?
    requires OwnSteps(more, t) >= 2
    ensures ReturnsOf(After(START, schedule + more).results, t) > ReturnsOf(After(START, schedule).results, t)
  {
    InvHolds(START, schedule);
    AfterAppend(START, schedule, more);
    UnlockedCall(After(START, schedule), more, t);
  }

  // How often thread t makes a step that is not a wait for the mutex.
  function Moves(s: State, schedule: seq<Tid>, t: Tid): nat {
    if schedule == [] then 0
    else
      var before := schedule[..|schedule| - 1];
      Moves(s, before, t) + (if schedule[|schedule| - 1] == t && Enabled(After(s, before), t) then 1 else 0)
  }

  lemma MoveCountsDown(s: State, t: Tid)
    ensures !Enabled(s, t) ==> Next(s, t) == s
    ensures Enabled(s, t) && !At(s, t).Return? ==> StepsLeft(At(Next(s, t), t)) < StepsLeft(At(s, t))
  {
  }

  lemma {:induction false} MovesCountDown(s: State, schedule: seq<Tid>, t: Tid)
    ensures ReturnsOf(After(s, schedule).results, t) >= ReturnsOf(s.results, t)
    ensures || ReturnsOf(After(s, schedule).results, t) > ReturnsOf(s.results, t)
            || StepsLeft(At(After(s, schedule), t)) + Moves(s, schedule, t) <= StepsLeft(At(s, t))
  {
    if schedule != [] {
      var before, u := schedule[..|schedule| - 1], schedule[|schedule| - 1];
      MovesCountDown(s, before, t);
      StepReturns(After(s, before), u, t);
      if u == t {
        MoveCountsDown(After(s, before), t);
      } else {
        assert At(Next(After(s, before), u), t) == At(After(s, before), t);
      }
    }
  }

  lemma {:induction false} ResultsGrow(s: State, schedule: seq<Tid>)
    ensures s.results <= After(s, schedule).results
  {
    if schedule != [] {
      ResultsGrow(s, schedule[..|schedule| - 1]);
    }
  }

  lemma {:induction false} NewReturn(older: seq<Returned>, results: seq<Returned>, t: Tid) returns (i: nat)
    requires older <= results && ReturnsOf(older, t) < ReturnsOf(results, t)
    ensures |older| <= i < |results| && results[i].thread == t
    decreases |results|
  {
    i := |results| - 1;
    assert results[..|older|] == older && results[..|results|] == results;
    if results[i].thread != t {
      i := NewReturn(older, results[..i], t);
    }
  }

  // In every run a thread that makes eight steps of its own that are not waits returns from a call
  // meanwhile, with the published object.
  lemma CallCompletes(schedule: seq<Tid>, more: seq<Tid>, t: Tid) returns (i: nat)
    requires Moves(After(START, schedule), more, t) >= 8
    ensures var older, s := After(START, schedule).results, After(START, schedule + more);
            && ReturnsOf(older, t) < ReturnsOf(s.results, t)
            && older <= s.results && |older| <= i < |s.results|
            && s.results[i].thread == t && s.results[i].sin == s.instance != 0
  {
    var s := After(START, schedule);
    AfterAppend(START, schedule, more);
    MovesCountDown(s, more, t);
    ResultsGrow(s, more);
    i := NewReturn(s.results, After(s, more).results, t);
    Singleton(schedule + more, []);
  }

  // Thread t makes n steps and nobody else makes any.
  function Alone(t: Tid, n: nat): seq<Tid> {
    seq(n, _ => t)
  }

  lemma AloneNext(s: State, t: Tid, n: nat)
    ensures After(s, Alone(t, n + 1)) == Next(After(s, Alone(t, n)), t)
  {
    assert Alone(t, n + 1)[..n] == Alone(t, n);
  }

  lemma AloneToStore(t: Tid)
    ensures After(START, Alone(t, 5)) == State(0, Some(t), 1, map[t := Store(1)], [])
  {
    AloneNext(START, t, 0);
    AloneNext(START, t, 1);
    AloneNext(START, t, 2);
    AloneNext(START, t, 3);
    AloneNext(START, t, 4);
  }

  lemma AloneToReturn(t: Tid)
    ensures After(START, Alone(t, 7)) == State(1, None, 1, map[t := Return(1)], [])
  {
    AloneToStore(t);
    AloneNext(START, t, 5);
    assert After(START, Alone(t, 6)) == State(1, Some(t), 1, map[t := Unlock(1)], []);
    AloneNext(START, t, 6);
  }

  // A thread that runs alone from the start constructs the object, publishes it and returns it, in
  // eight steps.
  lemma AloneFromStart(t: Tid)
    ensures After(START, Alone(t, 8)) == State(1, None, 1, map[t := Idle], [Returned(t, 1)])
  {
    AloneToReturn(t);
    AloneNext(START, t, 7);
  }

  // ----- bounded waiting

  predicate TakesLock(s: State, t: Tid, u: Tid) {
    u == t && At(s, t).Lock? && s.holder.None?
  }

  // How often thread t takes the mutex.
  function LocksTaken(s: State, schedule: seq<Tid>, t: Tid): nat {
    if schedule == [] then 0
    else
      var before := schedule[..|schedule| - 1];
      LocksTaken(s, before, t) + (if TakesLock(After(s, before), t, schedule[|schedule| - 1]) then 1 else 0)
  }

  // After publication only a thread that has already read null can still take the mutex, and only once.
  lemma {:induction false} LocksAfterPublication(s: State, schedule: seq<Tid>, t: Tid)
    requires Inv(s) && s.instance != 0
    ensures LocksTaken(s, schedule, t) + (if At(After(s, schedule), t).Lock? then 1 else 0)
            <= if At(s, t).Lock? then 1 else 0
  {
    if schedule != [] {
      var before := schedule[..|schedule| - 1];
      LocksAfterPublication(s, before, t);
      InvHolds(s, before);
      OnlyNullReadersLock(After(s, before), schedule[|schedule| - 1], t);
    }
  }

  lemma OnlyNullReadersLock(s: State, u: Tid, t: Tid)
    requires Inv(s) && s.instance != 0
    ensures At(Next(s, u), t).Lock? ==> At(s, t).Lock? && !TakesLock(s, t, u)
  {
  }

  // In every run each thread takes the mutex at most once, however many calls it makes.
  lemma {:induction false} LockedAtMostOnce(schedule: seq<Tid>, t: Tid)
    ensures LocksTaken(START, schedule, t) <= 1
    ensures LocksTaken(START, schedule, t) == 1 ==>
              var s := After(START, schedule);
              Critical(At(s, t)) || (s.instance != 0 && !At(s, t).Lock?)
  {
    if schedule != [] {
      var before, u := schedule[..|schedule| - 1], schedule[|schedule| - 1];
      LockedAtMostOnce(before, t);
      InvHolds(START, before);
      LockStep(After(START, before), u, t);
    }
  }

  lemma LockStep(s: State, u: Tid, t: Tid)
    requires Inv(s)
    ensures TakesLock(s, t, u) ==> Critical(At(Next(s, u), t))
    ensures Critical(At(s, t)) || (s.instance != 0 && !At(s, t).Lock?) ==>
              Critical(At(Next(s, u), t)) || (Next(s, u).instance != 0 && !At(Next(s, u), t).Lock?)
  {
    assert ThreadOk(s, t);
    StepKeepsInv(s, u);
    StepProgress(s, u, t);
  }

  function TotalLocks(s: State, schedule: seq<Tid>): nat {
    if schedule == [] then 0
    else
      var before, u := schedule[..|schedule| - 1], schedule[|schedule| - 1];
      TotalLocks(s, before) + (if TakesLock(After(s, before), u, u) then 1 else 0)
  }

  function Waiting(s: State): set<Tid> {
    set t | t in s.pcs && s.pcs[t].Lock?
  }

  lemma WaitingAfterTake(s: State, u: Tid)
    requires TakesLock(s, u, u)
    ensures |Waiting(Next(s, u))| + 1 == |Waiting(s)|
  {
    assert Waiting(Next(s, u)) == Waiting(s) - {u};
  }

  lemma WaitingAfterOther(s: State, u: Tid)
    requires s.instance != 0 && !TakesLock(s, u, u)
    ensures Waiting(Next(s, u)) == Waiting(s)
  {
    var pc := At(Next(s, u), u);
    assert pc.Lock? <==> At(s, u).Lock?;
    forall t: Tid
      ensures t in Waiting(Next(s, u)) <==> t in Waiting(s)
    {
      assert t != u ==> At(Next(s, u), t) == At(s, t);
    }
  }

  lemma WaitingAfterStep(s: State, u: Tid)
    requires s.instance != 0
    ensures |Waiting(Next(s, u))| + (if TakesLock(s, u, u) then 1 else 0) == |Waiting(s)|
  {
    if TakesLock(s, u, u) {
      WaitingAfterTake(s, u);
    } else {
      WaitingAfterOther(s, u);
    }
  }

  // From publication on every time the mutex is taken one of the threads waiting for it then stops
  // waiting, and no other thread starts to wait.
  lemma {:induction false} BoundedOvertaking(s: State, schedule: seq<Tid>)
    requires Inv(s) && s.instance != 0
    ensures TotalLocks(s, schedule) + |Waiting(After(s, schedule))| == |Waiting(s)|
  {
    if schedule != [] {
      var before, u := schedule[..|schedule| - 1], schedule[|schedule| - 1];
      BoundedOvertaking(s, before);
      InvHolds(s, before);
      WaitingAfterStep(After(s, before), u);
    }
  }

  // The same for every run: while a thread waits after publication, fewer threads have taken the mutex
  // than were waiting then, and a thread takes it once more only if it was among them.
  lemma WaitingIsBounded(schedule: seq<Tid>, more: seq<Tid>, t: Tid)
    requires After(START, schedule).instance != 0
    ensures var s := After(START, schedule);
            && TotalLocks(s, more) <= |Waiting(s)|
            && LocksTaken(s, more, t) <= (if At(s, t).Lock? then 1 else 0)
            && (At(s, t).Lock? && At(After(s, more), t).Lock? ==> TotalLocks(s, more) < |Waiting(s)|)
  {
    var s := After(START, schedule);
    InvHolds(START, schedule);
    BoundedOvertaking(s, more);
    LocksAfterPublication(s, more, t);
    if At(After(s, more), t).Lock? {
      assert t in Waiting(After(s, more));
    }
  }
}
