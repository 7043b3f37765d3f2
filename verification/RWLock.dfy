/**
 The reader/writer lock of cyber/base/atomic_rw_lock.h.  Threads take it only through the guards of
 cyber/base/rw_lock_guard.h, so every lock is followed by its unlock.  Each load, swap and fetch-add is
 one step; the retry counter only decides when to yield and is left out.
 */
module RWLock {
  type Tid = nat

  datatype Pc =
    | Idle
    | ReadLoad
    | ReadGate(seen: int)
    | ReadSwap(seen: int)
    | Reading
    | WriteIncrement
    | WriteSwap
    | WriteDecrement
    | Writing

  /** `write`: an idle thread asks for the write lock; `spurious`: a weak CAS fails for no reason. */
  datatype Choice = Choice(write: bool, spurious: bool)

  const FREE := 0
  const EXCLUSIVE := -1

  datatype Lock = Lock(writeFirst: bool, lockNum: int, waitNum: int, threads: map<Tid, Pc>)
  {
    function Goto(t: Tid, pc: Pc): Lock {
      this.(threads := threads[t := pc])
    }
  }

  function Init(writeFirst: bool, threads: set<Tid>): Lock {
    Lock(writeFirst, FREE, 0, map t | t in threads :: Idle)
  }

  function Exec(l: Lock, t: Tid, c: Choice): Lock {
    if t !in l.threads then l else
    match l.threads[t]
    case Idle => l.Goto(t, if c.write then WriteIncrement else ReadLoad)
    case ReadLoad => l.Goto(t, ReadGate(l.lockNum))
    case ReadGate(seen) =>
      if seen < FREE || (l.writeFirst && l.waitNum > 0) then l.Goto(t, ReadLoad) else l.Goto(t, ReadSwap(seen))
    case ReadSwap(seen) =>
      if l.lockNum == seen && !c.spurious then l.(lockNum := seen + 1).Goto(t, Reading)
      else l.Goto(t, ReadGate(l.lockNum))
    case Reading => l.(lockNum := l.lockNum - 1).Goto(t, Idle)
    case WriteIncrement => l.(waitNum := l.waitNum + 1).Goto(t, WriteSwap)
    case WriteSwap =>
      if l.lockNum == FREE && !c.spurious then l.(lockNum := EXCLUSIVE).Goto(t, WriteDecrement) else l
    case WriteDecrement => l.(waitNum := l.waitNum - 1).Goto(t, Writing)
    case Writing => l.(lockNum := l.lockNum + 1).Goto(t, Idle)
  }

  type Schedule = seq<(Tid, Choice)>

  function Run(l: Lock, sched: Schedule): Lock
    decreases |sched|
  {
    if sched == [] then l else Run(Exec(l, sched[0].0, sched[0].1), sched[1..])
  }

  // ----- Who is where

  function Readers(l: Lock): set<Tid> {
    set t | t in l.threads && l.threads[t].Reading?
  }

  /** Writers own the lock from their swap on, also while they still count as waiting. */
  function Writers(l: Lock): set<Tid> {
    set t | t in l.threads && IsWriter(l.threads[t])
  }

  function Waiting(l: Lock): set<Tid> {
    set t | t in l.threads && (l.threads[t].WriteSwap? || l.threads[t].WriteDecrement?)
  }

  /** Threads past the writer gate that have yet to swap. */
  function PastGate(l: Lock): set<Tid> {
    set t | t in l.threads && l.threads[t].ReadSwap?
  }

  ghost predicate WaitOk(l: Lock) {
    l.waitNum == |Waiting(l)|
  }

  /** Either one writer and no reader, or exactly `lockNum` readers and no writer. */
  ghost predicate LockOk(l: Lock) {
    Counts(l.lockNum, Readers(l), Writers(l))
  }

  ghost predicate Counts(lockNum: int, readers: set<Tid>, writers: set<Tid>) {
    if lockNum == EXCLUSIVE then |writers| == 1 && readers == {} else writers == {} && lockNum == |readers|
  }

  ghost predicate GateOk(l: Lock) {
    forall t :: t in l.threads && l.threads[t].ReadSwap? ==> l.threads[t].seen >= FREE
  }

  ghost predicate Inv(l: Lock) {
    WaitOk(l) && LockOk(l) && GateOk(l)
  }

  lemma InitInv(writeFirst: bool, threads: set<Tid>)
    ensures Inv(Init(writeFirst, threads))
  {
    var l := Init(writeFirst, threads);
    assert Readers(l) == {} && Writers(l) == {} && Waiting(l) == {} && PastGate(l) == {};
  }

  /** How a move from one program point to another changes the sets. */
  lemma Moved(l: Lock, t: Tid, pc: Pc, l': Lock)
    requires t in l.threads && l'.threads == l.threads[t := pc]
    ensures Readers(l') == if pc.Reading? then Readers(l) + {t} else Readers(l) - {t}
    ensures Writers(l') == if IsWriter(pc) then Writers(l) + {t} else Writers(l) - {t}
    ensures Waiting(l') == if pc.WriteSwap? || pc.WriteDecrement? then Waiting(l) + {t} else Waiting(l) - {t}
    ensures PastGate(l') == if pc.ReadSwap? then PastGate(l) + {t} else PastGate(l) - {t}
    ensures t in Readers(l) <==> l.threads[t].Reading?
    ensures t in Writers(l) <==> IsWriter(l.threads[t])
    ensures t in Waiting(l) <==> l.threads[t].WriteSwap? || l.threads[t].WriteDecrement?
    ensures t in PastGate(l) <==> l.threads[t].ReadSwap?
  {
  }

  lemma AddOne(s: set<Tid>, t: Tid)
    ensures t in s ==> s + {t} == s
    ensures t !in s ==> |s + {t}| == |s| + 1
  {
  }

  lemma RemoveOne(s: set<Tid>, t: Tid)
    ensures t !in s ==> s - {t} == s
    ensures t in s ==> |s - {t}| == |s| - 1
  {
  }

  lemma OnlyOne(s: set<Tid>, a: Tid, b: Tid)
    requires |s| <= 1 && a in s && b in s
    ensures a == b
  {
    RemoveOne(s, a);
    assert s - {a} == {};
    assert b !in s - {a};
  }

  lemma StepWait(l: Lock, t: Tid, c: Choice)
    requires WaitOk(l) && t in l.threads
    ensures WaitOk(Exec(l, t, c))
  {
    hide Readers, Writers, Waiting, PastGate;
    var l' := Exec(l, t, c);
    assert l'.threads == l.threads[t := l'.threads[t]];
    Moved(l, t, l'.threads[t], l');
    AddOne(Waiting(l), t);
    RemoveOne(Waiting(l), t);
  }

  /** A reader comes or goes. */
  lemma CountReader(n: int, readers: set<Tid>, writers: set<Tid>, t: Tid)
    requires Counts(n, readers, writers)
    ensures n >= FREE && t !in readers ==> Counts(n + 1, readers + {t}, writers)
    ensures t in readers ==> Counts(n - 1, readers - {t}, writers)
  {
    AddOne(readers, t);
    RemoveOne(readers, t);
  }

  /** A writer comes or goes. */
  lemma CountWriter(n: int, readers: set<Tid>, writers: set<Tid>, t: Tid)
    requires Counts(n, readers, writers)
    ensures n == FREE && t !in writers ==> Counts(EXCLUSIVE, readers, writers + {t})
    ensures t in writers ==> Counts(n + 1, readers, writers - {t})
  {
    if t in writers {
      RemoveOne(writers, t);
      assert writers - {t} == {};
    }
  }

  /** A move that makes no difference to who is in. */
  lemma SameSets(l: Lock, t: Tid, pc: Pc, l': Lock)
    requires t in l.threads && l'.threads == l.threads[t := pc]
    ensures pc.Reading? == l.threads[t].Reading? ==> Readers(l') == Readers(l)
    ensures IsWriter(pc) == IsWriter(l.threads[t]) ==> Writers(l') == Writers(l)
  {
    hide Readers, Writers, Waiting, PastGate;
    Moved(l, t, pc, l');
    assert t !in Readers(l) ==> Readers(l) - {t} == Readers(l);
    assert t in Readers(l) ==> Readers(l) + {t} == Readers(l);
    assert t !in Writers(l) ==> Writers(l) - {t} == Writers(l);
    assert t in Writers(l) ==> Writers(l) + {t} == Writers(l);
  }

  lemma ReaderMoves(l: Lock, t: Tid, pc: Pc, l': Lock)
    requires LockOk(l) && t in l.threads && l'.threads == l.threads[t := pc]
    requires if pc.Reading? then l.lockNum >= FREE && l'.lockNum == l.lockNum + 1 else l'.lockNum == l.lockNum - 1
    requires pc.Reading? != l.threads[t].Reading?
    ensures Counts(l'.lockNum, Readers(l'), Writers(l))
  {
    hide Readers, Writers, Waiting, PastGate, Counts;
    Moved(l, t, pc, l');
    CountReader(l.lockNum, Readers(l), Writers(l), t);
  }

  lemma WriterMoves(l: Lock, t: Tid, pc: Pc, l': Lock)
    requires LockOk(l) && t in l.threads && l'.threads == l.threads[t := pc]
    requires if IsWriter(pc) then l.lockNum == FREE && l'.lockNum == EXCLUSIVE else l'.lockNum == l.lockNum + 1
    requires IsWriter(pc) != IsWriter(l.threads[t])
    ensures Counts(l'.lockNum, Readers(l), Writers(l'))
  {
    hide Readers, Writers, Waiting, PastGate, Counts;
    Moved(l, t, pc, l');
    CountWriter(l.lockNum, Readers(l), Writers(l), t);
  }

  predicate IsWriter(pc: Pc) {
    pc.WriteDecrement? || pc.Writing?
  }

  /** How a step changes the lock number, by whether the thread is a reader or a writer before and after. */
  lemma StepNumber(l: Lock, t: Tid, c: Choice)
    requires GateOk(l) && t in l.threads
    ensures var l' := Exec(l, t, c);
      && t in l'.threads && l'.threads == l.threads[t := l'.threads[t]]
      && var (r, r') := (l.threads[t].Reading?, l'.threads[t].Reading?);
         var (w, w') := (IsWriter(l.threads[t]), IsWriter(l'.threads[t]));
         && (r == r' || w == w')
         && (r == r' && w == w' ==> l'.lockNum == l.lockNum)
         && (!r && r' ==> l.lockNum >= FREE && l'.lockNum == l.lockNum + 1)
         && (r && !r' ==> l'.lockNum == l.lockNum - 1)
         && (!w && w' ==> l.lockNum == FREE && l'.lockNum == EXCLUSIVE)
         && (w && !w' ==> l'.lockNum == l.lockNum + 1)
  {
  }

  lemma StepLock(l: Lock, t: Tid, c: Choice)
    requires LockOk(l) && GateOk(l) && t in l.threads
    ensures LockOk(Exec(l, t, c))
  {
    hide Readers, Writers, Waiting, PastGate, Counts, Exec, IsWriter;
    var l' := Exec(l, t, c);
    StepNumber(l, t, c);
    var pc, pc' := l.threads[t], l'.threads[t];
    SameSets(l, t, pc', l');
    if pc.Reading? != pc'.Reading? {
      ReaderMoves(l, t, pc', l');
    } else if IsWriter(pc) != IsWriter(pc') {
      WriterMoves(l, t, pc', l');
    }
  }

  lemma StepInv(l: Lock, t: Tid, c: Choice)
    requires Inv(l)
    ensures Inv(Exec(l, t, c))
  {
    hide WaitOk, LockOk;
    if t in l.threads {
      StepWait(l, t, c);
      StepLock(l, t, c);
    }
  }

  lemma {:induction false} RunInv(l: Lock, sched: Schedule)
    requires Inv(l)
    ensures Inv(Run(l, sched))
    decreases |sched|
  {
    hide Exec, Inv;
    if sched != [] {
      StepInv(l, sched[0].0, sched[0].1);
      RunInv(Exec(l, sched[0].0, sched[0].1), sched[1..]);
    }
  }

  /** Mutual exclusion and exact counting in every reachable state: a writer is alone, `lockNum` is -1
      for it and otherwise the number of readers, and `waitNum` is the number of writers that have
      announced themselves and not yet withdrawn. */
  lemma Excludes(writeFirst: bool, threads: set<Tid>, sched: Schedule)
    ensures var l := Run(Init(writeFirst, threads), sched);
      && (forall w, t :: w in Writers(l) && t in Readers(l) + Writers(l) ==> t == w)
      && (l.lockNum == EXCLUSIVE <==> Writers(l) != {})
      && (l.lockNum != EXCLUSIVE ==> l.lockNum == |Readers(l)|)
      && l.waitNum == |Waiting(l)|
  {
    hide Readers, Writers, Waiting, Exec;
    InitInv(writeFirst, threads);
    RunInv(Init(writeFirst, threads), sched);
    var l := Run(Init(writeFirst, threads), sched);
    forall w, t | w in Writers(l) && t in Writers(l)
      ensures t == w
    {
      OnlyOne(Writers(l), w, t);
    }
  }

  // ----- Writers first

  /** The threads that take the read lock, in the order of their swaps. */
  function ReadLocks(l: Lock, sched: Schedule): seq<Tid>
    decreases |sched|
  {
    if sched == [] then [] else
      var (t, c) := sched[0];
      (if TakesReadLock(l, t, c) then [t] else []) + ReadLocks(Exec(l, t, c), sched[1..])
  }

  predicate TakesReadLock(l: Lock, t: Tid, c: Choice) {
    t in l.threads && l.threads[t].ReadSwap? && l.lockNum == l.threads[t].seen && !c.spurious
  }

  /** Writer `w` is between its increment and its decrement all along. */
  ghost predicate WaitsThroughout(l: Lock, sched: Schedule, w: Tid)
    decreases |sched|
  {
    w in Waiting(l) && (sched != [] ==> WaitsThroughout(Exec(l, sched[0].0, sched[0].1), sched[1..], w))
  }

  lemma StepGate(l: Lock, t: Tid, c: Choice)
    requires l.writeFirst && l.waitNum > 0
    ensures var l' := Exec(l, t, c);
      && l'.writeFirst && PastGate(l') <= PastGate(l)
      && (TakesReadLock(l, t, c) ==> t in PastGate(l) && t !in PastGate(l'))
  {
    hide Readers, Writers, Waiting, PastGate;
    if t in l.threads {
      var l' := Exec(l, t, c);
      assert l'.threads == l.threads[t := l'.threads[t]];
      Moved(l, t, l'.threads[t], l');
    }
  }

  /**
   Bounded overtaking.  While a writer waits, the read lock goes only to threads that had already passed
   the gate when the wait began, and to each of them at most once.
   */
  lemma {:induction false} BoundedOvertaking(l: Lock, sched: Schedule, w: Tid)
    requires Inv(l) && l.writeFirst && WaitsThroughout(l, sched, w)
    ensures forall t :: t in ReadLocks(l, sched) ==> t in PastGate(l)
    ensures forall i, j :: 0 <= i < j < |ReadLocks(l, sched)| ==> ReadLocks(l, sched)[i] != ReadLocks(l, sched)[j]
    ensures |ReadLocks(l, sched)| <= |PastGate(l)|
    decreases |sched|
  {
    hide Exec, PastGate, Waiting, TakesReadLock;
    if sched != [] {
      var (t, c) := sched[0];
      var l' := Exec(l, t, c);
      RemoveOne(Waiting(l), w);
      StepInv(l, t, c);
      StepGate(l, t, c);
      BoundedOvertaking(l', sched[1..], w);
      Shrinks(PastGate(l'), PastGate(l), t);
    }
  }

  lemma Shrinks(a: set<Tid>, b: set<Tid>, t: Tid)
    requires a <= b
    ensures |a| <= |b|
    ensures t in b && t !in a ==> |a| < |b|
  {
    assert b == a + (b - a);
    if t in b && t !in a {
      assert t in b - a;
    }
  }

  // ----- Progress

  /** A waiting writer takes a free lock at its next swap that does not fail spuriously, and a reader
      that meets an unclaimed lock is in after four steps. */
  lemma FreeLockIsTaken(l: Lock, t: Tid, c: Choice)
    requires Inv(l) && t in l.threads && !c.spurious
    ensures l.threads[t].WriteSwap? && Readers(l) == {} == Writers(l) ==> t in Writers(Exec(l, t, c))
    ensures l.threads[t].Idle? && Writers(l) == {} && l.waitNum == 0 && !c.write ==>
      Readers(Exec(Exec(Exec(Exec(l, t, c), t, c), t, c), t, c)) == Readers(l) + {t}
  {
    if l.threads[t].WriteSwap? {
      assert l.lockNum == EXCLUSIVE ==> |Writers(l)| == 1;
    }
    if l.threads[t].Idle? && Writers(l) == {} && l.waitNum == 0 && !c.write {
      var l4 := Exec(Exec(Exec(Exec(l, t, c), t, c), t, c), t, c);
      assert l4.threads == l.threads[t := Reading];
      Moved(l, t, Reading, l4);
    }
  }

  /** Unlocking gives back exactly what the thread had, and a writer withdraws its claim once it is in. */
  lemma UnlockReleases(l: Lock, t: Tid, c: Choice)
    requires Inv(l) && t in l.threads
    ensures var l' := Exec(l, t, c);
      && (l.threads[t].Reading? ==>
            Readers(l') == Readers(l) - {t} && l'.lockNum == |Readers(l)| - 1 && l'.threads[t] == Idle)
      && (l.threads[t].Writing? ==> Writers(l') == {} == Readers(l') && l'.lockNum == FREE && l'.threads[t] == Idle)
      && (l.threads[t].WriteDecrement? ==>
            Writers(l') == {t} && Waiting(l') == Waiting(l) - {t} && l'.waitNum == |Waiting(l)| - 1)
  {
    hide Readers, Writers, Waiting, PastGate;
    var l' := Exec(l, t, c);
    assert l'.threads == l.threads[t := l'.threads[t]];
    Moved(l, t, l'.threads[t], l');
    if t in Writers(l) {
      forall w | w in Writers(l)
        ensures w == t
      {
        OnlyOne(Writers(l), w, t);
      }
      assert Writers(l) == {t};
    }
  }

  // ----- Calls and their ends

  datatype Status = Outside | WantsRead | HasRead | WantsWrite | HasWrite

  function StatusOf(pc: Pc): Status {
    match pc
    case Idle => Outside
    case Reading => HasRead
    case Writing => HasWrite
    case ReadLoad => WantsRead
    case ReadGate(_) => WantsRead
    case ReadSwap(_) => WantsRead
    case _ => WantsWrite
  }

  /** ReadLock returns only with the read lock and WriteLock only with the write lock; a holder's next step of its own
      is its unlock; and no step moves another thread. */
  lemma StepStatus(l: Lock, t: Tid, c: Choice)
    requires t in l.threads
    ensures var l' := Exec(l, t, c);
      && t in l'.threads
      && var (st, st') := (StatusOf(l.threads[t]), StatusOf(l'.threads[t]));
         && (st == Outside ==> st' == if c.write then WantsWrite else WantsRead)
         && (st == WantsRead ==> st' == WantsRead || st' == HasRead)
         && (st == WantsWrite ==> st' == WantsWrite || st' == HasWrite)
         && (st == HasRead || st == HasWrite ==> st' == Outside)
         && (st' == HasRead <==> t in Readers(l'))
         && (st' == HasWrite ==> t in Writers(l'))
    ensures forall u :: u in l.threads && u != t ==> Exec(l, t, c).threads[u] == l.threads[u]
  {
  }

  /** `n` steps of one thread. */
  function Solo(l: Lock, t: Tid, c: Choice, n: nat): Lock
    decreases n
  {
    if n == 0 then l else Solo(Exec(l, t, c), t, c, n - 1)
  }

  /** Nobody has or claims the write lock, as far as readers look. */
  ghost predicate OpenToReaders(l: Lock) {
    Writers(l) == {} && (l.writeFirst ==> l.waitNum == 0)
  }

  function ReadStepsLeft(l: Lock, pc: Pc): nat {
    match pc
    case Idle => 4
    case ReadLoad => 3
    case ReadGate(seen) => if seen == l.lockNum then 2 else 4
    case ReadSwap(seen) => if seen == l.lockNum then 1 else 3
    case _ => 0
  }

  lemma OneReadStepLess(l: Lock, t: Tid, c: Choice)
    requires Inv(l) && OpenToReaders(l) && t in l.threads && !c.spurious && !c.write
    requires StatusOf(l.threads[t]) == WantsRead || l.threads[t].Idle?
    ensures var l' := Exec(l, t, c);
      && t in l'.threads && ReadStepsLeft(l', l'.threads[t]) < ReadStepsLeft(l, l.threads[t])
      && (l'.threads[t].Reading? || (StatusOf(l'.threads[t]) == WantsRead && OpenToReaders(l')))
  {
    hide Readers, Writers, Waiting, PastGate;
    var l' := Exec(l, t, c);
    assert l'.threads == l.threads[t := l'.threads[t]];
    SameSets(l, t, l'.threads[t], l');
    assert l.lockNum >= FREE;
  }

  /** A reader gets in from wherever it is in ReadLock, also after it was turned away, once no writer has or claims the
      lock and nobody disturbs it. */
  lemma {:induction false} ReaderGetsIn(l: Lock, t: Tid, c: Choice) returns (n: nat)
    requires Inv(l) && OpenToReaders(l) && t in l.threads && !c.spurious && !c.write
    requires StatusOf(l.threads[t]) == WantsRead || l.threads[t].Idle?
    ensures n <= 4 && t in Solo(l, t, c, n).threads && Solo(l, t, c, n).threads[t].Reading?
    ensures n <= ReadStepsLeft(l, l.threads[t])
    decreases ReadStepsLeft(l, l.threads[t])
  {
    hide Exec, Inv, OpenToReaders;
    OneReadStepLess(l, t, c);
    StepInv(l, t, c);
    var l' := Exec(l, t, c);
    if l'.threads[t].Reading? {
      n := 1;
      assert Solo(l, t, c, 1) == Solo(l', t, c, 0);
    } else {
      var k := ReaderGetsIn(l', t, c);
      n := k + 1;
    }
  }

  /** A writer gets in from wherever it is in WriteLock, once the lock is free and nobody disturbs it. */
  lemma WriterGetsIn(l: Lock, t: Tid, c: Choice) returns (n: nat)
    requires Inv(l) && t in l.threads && !c.spurious && (l.threads[t].Idle? ==> c.write)
    requires StatusOf(l.threads[t]) == WantsWrite || l.threads[t].Idle?
    requires l.threads[t].WriteDecrement? || Readers(l) == {} == Writers(l)
    ensures n <= 4 && t in Solo(l, t, c, n).threads && Solo(l, t, c, n).threads[t].Writing?
  {
    hide Readers, Writers, Waiting, PastGate;
    assert l.threads[t].WriteDecrement? || l.lockNum == FREE;
    var l1 := Exec(l, t, c);
    var l2 := Exec(l1, t, c);
    var l3 := Exec(l2, t, c);
    assert Solo(l, t, c, 1) == l1 && Solo(l, t, c, 2) == l2 by { assert Solo(l1, t, c, 1) == l2; }
    assert Solo(l, t, c, 3) == l3 by { assert Solo(l1, t, c, 2) == Solo(l2, t, c, 1) == l3; }
    assert Solo(l, t, c, 4) == Exec(l3, t, c) by {
      assert Solo(l1, t, c, 3) == Solo(l2, t, c, 2) == Solo(l3, t, c, 1) == Exec(l3, t, c);
    }
    var pc := l.threads[t];
    n := if pc.WriteDecrement? then 1 else if pc.WriteSwap? then 2 else if pc.WriteIncrement? then 3 else 4;
  }
}
