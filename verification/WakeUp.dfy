/**
 The wake-up protocol between dispatchers and one data-driven coroutine.

 A dispatcher (cyber/data/data_dispatcher.h, data_notifier.h) fills the buffer and then runs the notify
 callback, which reads the routine's state and, if the routine waits, clears its `updated_` flag
 (cyber/scheduler/policy/scheduler_classic.cc).  A processor acquires the routine, runs UpdateState,
 resumes it if it is READY, and releases it (classic_context.cc, processor.cc).  The routine itself is the
 single-channel loop of cyber/croutine/routine_factory.h.  Any number of dispatchers and processors
 interleave step by step; the user function may suspend the routine in any state any number of times.
 */
module WakeUp {
  import opened Options
  import DataPath

  type Tid = nat

  datatype RoutineState = READY | SLEEP | IO_WAIT | DATA_WAIT

  predicate IsWait(s: RoutineState) {
    s == DATA_WAIT || s == IO_WAIT
  }

  /** Where the routine continues when it is resumed next. */
  datatype Resumption = LoopTop | InUser

  datatype Pc =
    | Idle
    // a dispatcher, after its fill
    | Filled
    | LoadState
    | LoadStateAgain
    | ClearFlag
    // a processor, between Acquire and Release
    | CheckSleep
    | TestAndSet
    | Wake(wasClear: bool)
    | Resume
    | SetDataWait
    | TryFetch
    | UserCode
    | Release

  /** `pending` is that `updated_` is clear: an event is waiting to be noticed.  `parked` is history: the
      routine last suspended itself after a failed TryFetch and has not been made READY since.  `holder`
      and `delivered` are history: who locked it last, and how many messages reached the user function. */
  datatype Routine = Routine(
    state: RoutineState,
    pending: bool,
    locked: bool,
    holder: Tid,
    resumption: Resumption,
    parked: bool,
    next: nat,
    delivered: nat)

  datatype System = System(size: nat, tail: nat, r: Routine, threads: map<Tid, Pc>)

  /** `dispatch`: an idle thread dispatches a message rather than serving the routine; `flag`: the sleep is
      over, or the user function returns; `yieldAs`: the state in which the user function suspends. */
  datatype Choice = Choice(dispatch: bool, flag: bool, yieldAs: RoutineState)

  function Init(size: nat, threads: set<Tid>): System {
    System(size, 0, Routine(READY, false, false, 0, LoopTop, false, 0, 0), map t | t in threads :: Idle)
  }

  /** TryFetch would succeed. */
  predicate HasNews(s: System) {
    s.tail > 0 && s.r.next != s.tail + 1
  }

  function Step(s: System, t: Tid, pc: Pc, c: Choice): (System, Pc)
    requires s.r.next <= s.tail + 1
    ensures var s' := Step(s, t, pc, c).0; s'.r.next <= s'.tail + 1 && s'.threads == s.threads && s'.size == s.size
  {
    var r := s.r;
    match pc
    case Idle =>
      if c.dispatch then (s.(tail := s.tail + 1), Filled)
      else if r.locked then (s, Idle)
      else (s.(r := r.(locked := true, holder := t)), CheckSleep)
    case Filled => (s, LoadState)
    case LoadState => (s, if r.state == DATA_WAIT then ClearFlag else LoadStateAgain)
    case LoadStateAgain => (s, if r.state == IO_WAIT then ClearFlag else Idle)
    case ClearFlag => (s.(r := r.(pending := true)), Idle)
    case CheckSleep =>
      if r.state == SLEEP && c.flag then (s.(r := r.(state := READY)), Resume) else (s, TestAndSet)
    case TestAndSet => (s.(r := r.(pending := false)), Wake(r.pending))
    case Wake(wasClear) =>
      if wasClear && IsWait(r.state) then (s.(r := r.(state := READY, parked := false)), Resume)
      else (s, if r.state == READY then Resume else Release)
    case Resume => (s, if r.resumption == LoopTop then SetDataWait else UserCode)
    case SetDataWait => (s.(r := r.(state := DATA_WAIT)), TryFetch)
    case TryFetch =>
      (match DataPath.FetchPosition(s.tail, s.size, r.next)
       case Some(p) => (s.(r := r.(next := p + 1, delivered := r.delivered + 1)), UserCode)
       case None => (s.(r := r.(resumption := LoopTop, parked := true)), Release))
    case UserCode =>
      if c.flag then (s.(r := r.(state := READY, resumption := LoopTop)), Release)
      else (s.(r := r.(state := c.yieldAs, resumption := InUser)), Release)
    case Release => (s.(r := r.(locked := false)), Idle)
  }

  function Exec(s: System, t: Tid, c: Choice): (s': System)
    requires s.r.next <= s.tail + 1
    ensures s'.r.next <= s'.tail + 1
  {
    if t !in s.threads then s else
      var (s', pc) := Step(s, t, s.threads[t], c);
      s'.(threads := s'.threads[t := pc])
  }

  type Schedule = seq<(Tid, Choice)>

  function Run(s: System, sched: Schedule): (s': System)
    requires s.r.next <= s.tail + 1
    ensures s'.r.next <= s'.tail + 1
    decreases |sched|
  {
    if sched == [] then s else Run(Exec(s, sched[0].0, sched[0].1), sched[1..])
  }

  // ----- The invariant

  /** A dispatcher that has filled the buffer and, seeing a parked routine, will clear its flag. */
  predicate InFlight(pc: Pc) {
    pc == Filled || pc == LoadState || pc == ClearFlag
  }

  predicate Serving(pc: Pc) {
    || pc.CheckSleep? || pc.TestAndSet? || pc.Wake? || pc.Resume?
    || pc.SetDataWait? || pc.TryFetch? || pc.UserCode? || pc.Release?
  }

  /** Some thread is about to make the parked routine runnable. */
  ghost predicate NoticePending(s: System) {
    s.r.pending || exists t :: t in s.threads && (InFlight(s.threads[t]) || s.threads[t] == Wake(true))
  }

  /** The lock has at most one holder, who is the one serving the routine. */
  ghost predicate MutexOk(s: System) {
    forall t :: t in s.threads ==> (Serving(s.threads[t]) <==> s.r.locked && s.r.holder == t)
  }

  /** A routine at the top of its loop is READY or parked, except while it runs. */
  ghost predicate RoutineOk(r: Routine) {
    && (r.parked ==> r.state == DATA_WAIT && r.resumption == LoopTop)
    && (!r.locked && r.resumption == LoopTop && !r.parked ==> r.state == READY)
  }

  ghost predicate Inv(s: System) {
    && s.r.next <= s.tail + 1
    && MutexOk(s)
    && RoutineOk(s.r)
    && (s.r.locked ==> s.r.holder in s.threads && ServingOk(s.r, s.threads[s.r.holder]))
    && (s.r.parked && HasNews(s) ==> NoticePending(s))
  }

  ghost predicate ServingOk(r: Routine, pc: Pc) {
    match pc
    case CheckSleep => r.resumption == LoopTop && !r.parked ==> r.state == READY
    case TestAndSet => r.resumption == LoopTop && !r.parked ==> r.state == READY
    case Wake(_) => r.resumption == LoopTop && !r.parked ==> r.state == READY
    case Resume => !r.parked && r.state == READY
    case SetDataWait => !r.parked && r.resumption == LoopTop
    case TryFetch => !r.parked && r.state == DATA_WAIT && r.resumption == LoopTop
    case UserCode => !r.parked
    case Release => r.resumption == LoopTop && !r.parked ==> r.state == READY
    case _ => true
  }

  lemma InitInv(size: nat, threads: set<Tid>)
    ensures Inv(Init(size, threads))
  {
  }

  lemma StepMutex(s: System, t: Tid, c: Choice)
    requires Inv(s)
    ensures MutexOk(Exec(s, t, c))
  {
    hide NoticePending, ServingOk, DataPath.FetchPosition;
  }

  lemma StepRoutine(s: System, t: Tid, c: Choice)
    requires Inv(s)
    ensures var r, ts := Exec(s, t, c).r, Exec(s, t, c).threads;
      RoutineOk(r) && (r.locked ==> r.holder in ts && ServingOk(r, ts[r.holder]))
  {
    hide NoticePending, DataPath.FetchPosition;
    if t in s.threads {
      assert Serving(s.threads[t]) <==> s.r.locked && s.r.holder == t;
    }
  }

  lemma StepNotice(s: System, t: Tid, c: Choice)
    requires Inv(s)
    ensures var s' := Exec(s, t, c); s'.r.parked && HasNews(s') ==> NoticePending(s')
  {
    if t in s.threads {
      var s' := Exec(s, t, c);
      if s'.r.parked && HasNews(s') && !s'.r.pending {
        if InFlight(s'.threads[t]) || s'.threads[t] == Wake(true) {
        } else {
          assert s.r.parked && HasNews(s);
          var u :| u in s.threads && (InFlight(s.threads[u]) || s.threads[u] == Wake(true));
          assert u != t;
          assert s'.threads[u] == s.threads[u];
        }
      }
    }
  }

  lemma StepInv(s: System, t: Tid, c: Choice)
    requires Inv(s)
    ensures Inv(Exec(s, t, c))
  {
    hide NoticePending, MutexOk, RoutineOk, ServingOk, Step;
    StepMutex(s, t, c);
    StepRoutine(s, t, c);
    StepNotice(s, t, c);
  }

  lemma {:induction false} RunInv(s: System, sched: Schedule)
    requires Inv(s)
    ensures Inv(Run(s, sched))
    decreases |sched|
  {
    hide Exec, NoticePending, MutexOk, RoutineOk, ServingOk;
    if sched != [] {
      StepInv(s, sched[0].0, sched[0].1);
      RunInv(Exec(s, sched[0].0, sched[0].1), sched[1..]);
    }
  }

  /**
   No lost wake-up.  In every reachable state in which the routine is suspended after a failed TryFetch,
   the buffer holds something to fetch and no dispatcher is between its fill and its notice, the flag
   is clear, so the next UpdateState makes the routine READY.
   */
  lemma NoLostWakeUp(size: nat, threads: set<Tid>, sched: Schedule)
    ensures var s := Run(Init(size, threads), sched);
      s.r.parked && !s.r.locked && HasNews(s) && (forall t :: t in s.threads ==> !InFlight(s.threads[t])) ==>
        s.r.state == DATA_WAIT && s.r.pending
  {
    InitInv(size, threads);
    RunInv(Init(size, threads), sched);
  }

  /** `n` steps of one thread. */
  function Solo(s: System, t: Tid, c: Choice, n: nat): (s': System)
    requires s.r.next <= s.tail + 1
    ensures s'.r.next <= s'.tail + 1
    decreases n
  {
    if n == 0 then s else Solo(Exec(s, t, c), t, c, n - 1)
  }

  /** UpdateState at a suspended routine: READY and about to be resumed. */
  lemma SoloToResume(s: System, t: Tid, c: Choice)
    requires s.r.next <= s.tail + 1 && t in s.threads && s.threads[t] == Idle && !c.dispatch && !s.r.locked
    requires s.r.state == READY || (s.r.state == DATA_WAIT && s.r.pending)
    ensures var s' := Solo(s, t, c, 4);
      && s'.threads == s.threads[t := Resume] && s'.tail == s.tail && s'.size == s.size
      && s'.r.state == READY
      && s'.r.(state := s.r.state, pending := s.r.pending, locked := false, holder := s.r.holder,
               parked := s.r.parked) == s.r
  {
    var s1 := Exec(s, t, c);
    var s2 := Exec(s1, t, c);
    var s3 := Exec(s2, t, c);
    var s4 := Exec(s3, t, c);
    assert s2.threads == s.threads[t := TestAndSet];
    assert s4.threads == s.threads[t := Resume];
    assert Solo(s, t, c, 4) == s4;
  }

  /** The loop of the routine from its top through TryFetch. */
  lemma SoloFetch(s: System, t: Tid, c: Choice)
    requires s.r.next <= s.tail + 1 && t in s.threads && s.threads[t] == Resume
    requires s.r.resumption == LoopTop && HasNews(s)
    ensures var s' := Solo(s, t, c, 3);
      && s'.threads[t] == UserCode && s'.r.delivered == s.r.delivered + 1
      && Some(s'.r.next - 1) == DataPath.FetchPosition(s.tail, s.size, s.r.next)
  {
    var s1 := Exec(s, t, c);
    var s2 := Exec(s1, t, c);
    assert Solo(s, t, c, 3) == Exec(s2, t, c);
  }

  lemma {:induction false} SoloSplit(s: System, t: Tid, c: Choice, a: nat, b: nat)
    requires s.r.next <= s.tail + 1
    ensures Solo(s, t, c, a + b) == Solo(Solo(s, t, c, a), t, c, b)
    decreases a
  {
    hide Exec;
    if a > 0 {
      SoloSplit(Exec(s, t, c), t, c, a - 1, b);
    }
  }

  /**
   Delivery.  From any reachable state in which the routine is suspended at the top of its loop with
   something to fetch and no notice in flight, seven undisturbed steps of any idle processor hand the
   message to the user function.
   */
  lemma Delivers(s: System, t: Tid, c: Choice)
    requires Inv(s) && t in s.threads && s.threads[t] == Idle && !c.dispatch
    requires !s.r.locked && s.r.resumption == LoopTop && HasNews(s)
    requires forall u :: u in s.threads ==> !InFlight(s.threads[u])
    ensures var s' := Solo(s, t, c, 7);
      && s'.threads[t] == UserCode && s'.r.delivered == s.r.delivered + 1
      && Some(s'.r.next - 1) == DataPath.FetchPosition(s.tail, s.size, s.r.next)
  {
    hide Solo, Exec, ServingOk;
    assert s.r.parked ==> s.r.pending;
    SoloToResume(s, t, c);
    SoloFetch(Solo(s, t, c, 4), t, c);
    SoloSplit(s, t, c, 4, 3);
  }

  /** A step of a thread that does nothing but move on. */
  lemma ExecAt(s: System, t: Tid, c: Choice, pc: Pc)
    requires s.r.next <= s.tail + 1 && t in s.threads
    ensures var at := s.(threads := s.threads[t := pc]);
      Exec(at, t, c) == Step(at, t, pc, c).0.(threads := s.threads[t := Step(at, t, pc, c).1])
  {
    hide Step;
    var pc' := Step(s.(threads := s.threads[t := pc]), t, pc, c).1;
    assert s.threads[t := pc][t := pc'] == s.threads[t := pc'];
  }

  lemma SoloOne(s: System, t: Tid, c: Choice, n: nat)
    requires s.r.next <= s.tail + 1
    ensures Solo(s, t, c, n + 1) == Exec(Solo(s, t, c, n), t, c)
  {
    hide Exec;
    SoloSplit(s, t, c, n, 1);
    var s' := Solo(s, t, c, n);
    assert Solo(s', t, c, 1) == Solo(Exec(s', t, c), t, c, 0);
  }

  /** The system with thread `t` at `pc`. */
  function At(s: System, t: Tid, pc: Pc): System {
    s.(threads := s.threads[t := pc])
  }

  /** A step of a dispatcher that has filled its message in. */
  lemma NoticeStep(s: System, t: Tid, c: Choice, pc: Pc)
    requires s.r.next <= s.tail + 1 && t in s.threads
    ensures pc == Filled ==> Exec(At(s, t, pc), t, c) == At(s, t, LoadState)
    ensures pc == LoadState ==>
              Exec(At(s, t, pc), t, c) == At(s, t, if s.r.state == DATA_WAIT then ClearFlag else LoadStateAgain)
    ensures pc == LoadStateAgain ==>
              Exec(At(s, t, pc), t, c) == At(s, t, if s.r.state == IO_WAIT then ClearFlag else Idle)
    ensures pc == ClearFlag ==> Exec(At(s, t, pc), t, c) == At(s.(r := s.r.(pending := true)), t, Idle)
  {
    hide DataPath.FetchPosition, Exec;
    ExecAt(s, t, c, pc);
  }

  lemma FillStep(s: System, t: Tid, c: Choice)
    requires s.r.next <= s.tail + 1 && t in s.threads && s.threads[t] == Idle && c.dispatch
    ensures Exec(s, t, c) == At(s.(tail := s.tail + 1), t, Filled)
  {
  }

  lemma AtHome(s: System, t: Tid)
    requires t in s.threads && s.threads[t] == Idle
    ensures At(s, t, Idle) == s
  {
    assert s.threads[t := Idle] == s.threads;
  }

  /** An undisturbed dispatch fills one message in and, if the routine waits, clears its flag. */
  lemma SoloDispatch(s: System, t: Tid, c: Choice)
    requires s.r.next <= s.tail + 1 && t in s.threads && s.threads[t] == Idle && c.dispatch
    ensures var n := if s.r.state == IO_WAIT then 5 else 4;
      Solo(s, t, c, n) == s.(tail := s.tail + 1, r := s.r.(pending := s.r.pending || IsWait(s.r.state)))
  {
    hide Exec, At;
    var filled := s.(tail := s.tail + 1);
    var noticed := filled.(r := s.r.(pending := true));
    AtHome(filled, t);
    AtHome(noticed, t);
    FillStep(s, t, c);
    NoticeStep(filled, t, c, Filled);
    NoticeStep(filled, t, c, LoadState);
    NoticeStep(filled, t, c, LoadStateAgain);
    NoticeStep(filled, t, c, ClearFlag);
    ThreeSteps(s, t, c);
    var s3 := Exec(Exec(Exec(s, t, c), t, c), t, c);
    SoloOne(s, t, c, 3);
    SoloOne(s, t, c, 4);
    assert s.r.state == DATA_WAIT ==> s3 == At(filled, t, ClearFlag) && Exec(s3, t, c) == noticed;
    assert s.r.state == IO_WAIT ==> Exec(s3, t, c) == At(filled, t, ClearFlag);
    assert !IsWait(s.r.state) ==> Exec(s3, t, c) == filled;
  }

  lemma ThreeSteps(s: System, t: Tid, c: Choice)
    requires s.r.next <= s.tail + 1
    ensures Solo(s, t, c, 3) == Exec(Exec(Exec(s, t, c), t, c), t, c)
  {
    hide Exec;
    SoloOne(s, t, c, 0);
    SoloOne(s, t, c, 1);
    SoloOne(s, t, c, 2);
  }

  lemma {:induction false} SoloInv(s: System, t: Tid, c: Choice, n: nat)
    requires Inv(s)
    ensures Inv(Solo(s, t, c, n))
    decreases n
  {
    hide Exec, MutexOk, RoutineOk, ServingOk, NoticePending;
    if n > 0 {
      StepInv(s, t, c);
      SoloInv(Exec(s, t, c), t, c, n - 1);
    }
  }

  /** From end to end: a routine that waits for data is handed the very message that is dispatched next. */
  lemma DispatchDelivers(s: System, t: Tid, c: Choice, u: Tid, d: Choice)
    requires Inv(s) && t in s.threads && s.threads[t] == Idle && c.dispatch
    requires u in s.threads && s.threads[u] == Idle && !d.dispatch
    requires !s.r.locked && s.r.resumption == LoopTop && !HasNews(s)
    requires forall v :: v in s.threads ==> !InFlight(s.threads[v])
    ensures var dispatched := Solo(s, t, c, 4);
      var s' := Solo(dispatched, u, d, 7);
      s'.threads[u] == UserCode && s'.r.delivered == s.r.delivered + 1 && s'.r.next - 1 == s.tail + 1 == dispatched.tail
  {
    hide Exec, Solo, MutexOk, ServingOk, NoticePending;
    SoloDispatch(s, t, c);
    SoloInv(s, t, c, 4);
    Delivers(Solo(s, t, c, 4), u, d);
  }

  /** There is news exactly if TryFetch would succeed. */
  lemma NewsIsFetchable(s: System)
    ensures HasNews(s) <==> DataPath.FetchPosition(s.tail, s.size, s.r.next).Some?
  {
  }

  /** UpdateState: a processor resumes a suspended routine exactly if it is READY, or waits and its flag is clear, or
      sleeps and its time is over; otherwise the routine's state stays what it was. */
  lemma ResumesExactlyWhen(s: System, t: Tid, c: Choice)
    requires s.r.next <= s.tail + 1 && t in s.threads && s.threads[t] == Idle && !c.dispatch && !s.r.locked
    ensures var over := s.r.state == SLEEP && c.flag;
      var ready := s.r.state == READY || over || ((s.r.state == DATA_WAIT || s.r.state == IO_WAIT) && s.r.pending);
      var s' := Solo(s, t, c, if over then 2 else 4);
      && t in s'.threads && s'.threads[t] == (if ready then Resume else Release)
      && s'.r.state == (if ready then READY else s.r.state) && s'.tail == s.tail && s'.r.next == s.r.next
  {
    var s1 := Exec(s, t, c);
    var s2 := Exec(s1, t, c);
    var s3 := Exec(s2, t, c);
    assert Solo(s, t, c, 2) == s2;
    assert Solo(s, t, c, 4) == Exec(s3, t, c);
    assert s1.threads == s.threads[t := CheckSleep];
    assert s2.threads == s.threads[t := s2.threads[t]];
  }

  /** Without news the routine parks: it waits for data, the lock is free again and the processor too. */
  lemma SoloPark(s: System, t: Tid, c: Choice)
    requires s.r.next <= s.tail + 1 && t in s.threads && s.threads[t] == Resume
    requires s.r.resumption == LoopTop && !HasNews(s)
    ensures var s' := Solo(s, t, c, 4);
      && s'.r == s.r.(state := DATA_WAIT, parked := true, locked := false) && s'.threads == s.threads[t := Idle]
  {
    var s1 := Exec(s, t, c);
    var s2 := Exec(s1, t, c);
    var s3 := Exec(s2, t, c);
    assert s2.threads == s.threads[t := TryFetch];
    assert s3.threads == s.threads[t := Release];
    assert Solo(s, t, c, 4) == Exec(s3, t, c);
    assert s3.threads[t := Idle] == s.threads[t := Idle];
  }

  /** A user function that returns leaves the routine READY at the top of its loop; one that suspends leaves it in the
      state it chose, to be continued there. */
  lemma SoloReturn(s: System, t: Tid, c: Choice)
    requires s.r.next <= s.tail + 1 && t in s.threads && s.threads[t] == UserCode
    ensures var s' := Solo(s, t, c, 2);
      && s'.threads == s.threads[t := Idle]
      && s'.r == s.r.(state := if c.flag then READY else c.yieldAs, resumption := if c.flag then LoopTop else InUser,
                      locked := false)
  {
    var s1 := Exec(s, t, c);
    assert Solo(s, t, c, 2) == Exec(s1, t, c);
    assert s1.threads[t := Idle] == s.threads[t := Idle];
  }
}
