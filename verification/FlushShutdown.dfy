/**
 The end of RecordFileWriter::Close (cyber/record/file/record_file_writer.cc:97-102), when both chunks are empty
 and stay so: it clears is_writing_, notifies the flush thread and joins it.  It does so without flush_mutex_,
 while the flush thread goes round its loop (lines 240-256).  Nobody else uses the mutex by then.
 */
module FlushShutdown {
  /** The flush thread: at the test of its loop, before the lock, before testing the predicate of its wait, between
      a test that failed and going to sleep, asleep, and finished. */
  datatype Flusher = CheckLoop | Acquire | Test | AboutToBlock | Asleep | Done

  datatype Closer = ClearFlag | Notify | Join | Joined

  /** `missed` is history: the notification came between the test and the sleep. */
  datatype State = State(flusher: Flusher, closer: Closer, writing: bool, missed: bool)

  datatype Action = FlusherStep | CloserStep | SpuriousWake

  function Exec(s: State, a: Action): State {
    match a
    case FlusherStep =>
      (match s.flusher
       case CheckLoop => s.(flusher := if s.writing then Acquire else Done)
       case Acquire => s.(flusher := Test)
       case Test => s.(flusher := if s.writing then AboutToBlock else Done)
       case AboutToBlock => s.(flusher := Asleep)
       case _ => s)
    case CloserStep =>
      (match s.closer
       case ClearFlag => s.(writing := false, closer := Notify)
       case Notify =>
         s.(flusher := if s.flusher.Asleep? then Test else s.flusher, closer := Join, missed := s.flusher.AboutToBlock?)
       case Join => if s.flusher.Done? then s.(closer := Joined) else s
       case Joined => s)
    case SpuriousWake => if s.flusher.Asleep? then s.(flusher := Test) else s
  }

  function Run(s: State, actions: seq<Action>): State
    decreases |actions|
  {
    if actions == [] then s else Run(Exec(s, actions[0]), actions[1..])
  }

  /** Close has seen the chunk empty; the flush thread is anywhere in its loop. */
  predicate Start(s: State) {
    s.closer.ClearFlag? && s.writing && !s.missed && !s.flusher.Done?
  }

  predicate Sleepy(s: State) {
    s.flusher.AboutToBlock? || s.flusher.Asleep?
  }

  predicate NoSpuriousWake(actions: seq<Action>) {
    SpuriousWake !in actions
  }

  ghost predicate Inv(s: State) {
    && (s.writing <==> s.closer.ClearFlag?)
    && (s.missed ==> s.closer.Join?)
    && (s.closer.Join? ==> (s.missed <==> Sleepy(s)))
    && (s.closer.Joined? ==> s.flusher.Done?)
  }

  lemma {:induction false} RunInv(s: State, actions: seq<Action>)
    requires Inv(s) && NoSpuriousWake(actions)
    ensures Inv(Run(s, actions))
    ensures s.missed ==> Run(s, actions).missed
    decreases |actions|
  {
    if actions != [] {
      assert actions[0] in actions;
      RunInv(Exec(s, actions[0]), actions[1..]);
    }
  }

  /** Without spurious wake-ups, the join never returns exactly if the notification fell between the flush
      thread's test and its sleep. */
  lemma HangsExactlyWhen(start: State, actions: seq<Action>)
    requires Start(start) && NoSpuriousWake(actions) && Run(start, actions).closer.Join?
    ensures var s := Run(start, actions);
      s.missed <==> forall more :: NoSpuriousWake(more) ==> !Run(s, more).closer.Joined?
  {
    RunInv(start, actions);
    var s := Run(start, actions);
    if s.missed {
      forall more | NoSpuriousWake(more)
        ensures !Run(s, more).closer.Joined?
      {
        RunInv(s, more);
      }
    } else {
      Ends(s);
    }
  }

  /** Otherwise two steps of the flush thread are enough. */
  lemma Ends(s: State)
    requires Inv(s) && s.closer.Join? && !s.missed
    ensures NoSpuriousWake([FlusherStep, FlusherStep, CloserStep])
    ensures Run(s, [FlusherStep, FlusherStep, CloserStep]).closer.Joined?
  {
    var three := [FlusherStep, FlusherStep, CloserStep];
    assert three[1..] == [FlusherStep, CloserStep] && three[1..][1..] == [CloserStep];
    var s1 := Exec(s, FlusherStep);
    var s2 := Exec(s1, FlusherStep);
    assert Run(s2, [CloserStep]) == Run(Exec(s2, CloserStep), [CloserStep][1..]);
    assert Run(s1, three[1..]) == Run(s2, three[1..][1..]);
    assert Run(s, three) == Run(s1, three[1..]);
  }

  /** Such a run: the flush thread tests, Close clears the flag and notifies, the flush thread falls asleep. */
  lemma CloseCanHang()
    ensures var s := Run(State(Test, ClearFlag, true, false), [FlusherStep, CloserStep, CloserStep, FlusherStep]);
      Start(State(Test, ClearFlag, true, false)) && s.closer.Join? && s.flusher.Asleep? && s.missed
  {
    var a := [FlusherStep, CloserStep, CloserStep, FlusherStep];
    assert a[1..] == [CloserStep, CloserStep, FlusherStep] && a[1..][1..] == [CloserStep, FlusherStep];
    assert a[1..][1..][1..] == [FlusherStep] && a[1..][1..][1..][1..] == [];
    var s0 := State(Test, ClearFlag, true, false);
    var s1 := Exec(s0, FlusherStep);
    var s2 := Exec(s1, CloserStep);
    var s3 := Exec(s2, CloserStep);
    assert Run(s3, a[1..][1..][1..]) == Exec(s3, FlusherStep);
    assert Run(s2, a[1..][1..]) == Run(s3, a[1..][1..][1..]);
    assert Run(s1, a[1..]) == Run(s2, a[1..][1..]);
  }
}
