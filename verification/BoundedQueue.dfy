/**
 The multi-producer, multi-consumer ring of cyber/base/bounded_queue.h as a state machine.

 Every atomic load, every compare-and-swap and every slot access is one step of one thread.
 A schedule picks, step by step, the thread that moves and resolves what the code leaves open:
 which call an idle thread makes, whether a weak compare-and-swap fails spuriously, and what a
 racing copy yields.  A slot write takes two steps; a read that meets a slot between them gets an
 arbitrary value.  If a read and a write overlap at all they share an instant, so taking the read
 to be instantaneous loses no behaviour.
 */
module BoundedQueue {
  import opened Options
  import opened Rings

  type Tid = nat

  datatype Slot<T> = Slot(value: T, writing: bool)

  /** Where a thread stands; the fields are the locals of Enqueue and Dequeue. */
  datatype Pc<T> =
    | Idle
    | EnqLoadTail(elem: T)
    | EnqCheckFull(elem: T, oldTail: nat)
    | EnqReserve(elem: T, oldTail: nat)
    | EnqWrite(elem: T, oldTail: nat)
    | EnqWriting(elem: T, oldTail: nat)
    | EnqCommit(elem: T, oldTail: nat)
    | DeqLoadHead
    | DeqCheckEmpty(oldHead: nat)
    | DeqRead(oldHead: nat)
    | DeqAdvance(oldHead: nat, value: T)

  /** `enqueue`: an idle thread calls Enqueue(elem) rather than Dequeue; `spurious`: a weak CAS fails
      for no reason; `elem`: the argument of Enqueue, and what a torn read yields. */
  datatype Choice<T> = Choice(enqueue: bool, elem: T, spurious: bool)

  /** The shared variables.  `reserved` and `owner` are history: the elements in the order of their
      tail CAS, and the threads that reserved them. */
  datatype Memory<T> = Memory(
    poolSize: nat,
    head: nat,
    tail: nat,
    commit: nat,
    pool: seq<Slot<T>>,
    reserved: seq<T>,
    owner: seq<Tid>)
  {
    predicate WellSized() {
      poolSize >= 2 && |pool| == poolSize
    }

    function At(num: nat): Slot<T>
      requires WellSized()
    {
      pool[GetIndex(num, poolSize)]
    }

    function Write(num: nat, slot: Slot<T>): (m: Memory<T>)
      requires WellSized()
      ensures m.WellSized()
    {
      this.(pool := pool[GetIndex(num, poolSize) := slot])
    }

    predicate LooksFull(oldTail: nat)
      requires WellSized()
    {
      GetIndex(oldTail + 1, poolSize) == GetIndex(head, poolSize)
    }
  }

  datatype Queue<T> = Queue(m: Memory<T>, threads: map<Tid, Pc<T>>)

  function GetIndex(num: nat, poolSize: nat): (index: nat)
    requires poolSize > 0
    ensures index < poolSize
  {
    num - (num / poolSize) * poolSize
  }

  function Init<T>(size: nat, threads: set<Tid>, blank: T): (q: Queue<T>)
    ensures q.m.WellSized()
  {
    Queue(Memory(size + 2, 0, 1, 1, seq(size + 2, _ => Slot(blank, false)), [], []),
          map t | t in threads :: Idle)
  }

  /** One step of thread `t` from program point `pc`: the new shared variables and the new point. */
  function Step<T>(m: Memory<T>, t: Tid, pc: Pc<T>, c: Choice<T>): (r: (Memory<T>, Pc<T>))
    requires m.WellSized()
    ensures r.0.WellSized() && r.0.poolSize == m.poolSize
  {
    match pc
    case Idle => (m, if c.enqueue then EnqLoadTail(c.elem) else DeqLoadHead)
    case EnqLoadTail(e) => (m, EnqCheckFull(e, m.tail))
    case EnqCheckFull(e, oldTail) => (m, if m.LooksFull(oldTail) then Idle else EnqReserve(e, oldTail))
    case EnqReserve(e, oldTail) =>
      if m.tail == oldTail && !c.spurious
      then (m.(tail := oldTail + 1, reserved := m.reserved + [e], owner := m.owner + [t]), EnqWrite(e, oldTail))
      else (m, EnqCheckFull(e, m.tail))
    case EnqWrite(e, oldTail) => (m.Write(oldTail, m.At(oldTail).(writing := true)), EnqWriting(e, oldTail))
    case EnqWriting(e, oldTail) => (m.Write(oldTail, Slot(e, false)), EnqCommit(e, oldTail))
    case EnqCommit(e, oldTail) =>
      if m.commit == oldTail && !c.spurious then (m.(commit := oldTail + 1), Idle) else (m, pc)
    case DeqLoadHead => (m, DeqCheckEmpty(m.head))
    case DeqCheckEmpty(oldHead) => (m, if oldHead + 1 == m.commit then Idle else DeqRead(oldHead))
    case DeqRead(oldHead) =>
      var slot := m.At(oldHead + 1);
      (m, DeqAdvance(oldHead, if slot.writing then c.elem else slot.value))
    case DeqAdvance(oldHead, _) =>
      if m.head == oldHead && !c.spurious then (m.(head := oldHead + 1), Idle) else (m, DeqCheckEmpty(m.head))
  }

  function Exec<T>(q: Queue<T>, t: Tid, c: Choice<T>): (q': Queue<T>)
    requires q.m.WellSized()
    ensures q'.m.WellSized() && q'.m.poolSize == q.m.poolSize
  {
    if t !in q.threads then q else
      var (m, pc) := Step(q.m, t, q.threads[t], c);
      Queue(m, q.threads[t := pc])
  }

  /** What a step means to callers.  `Dequeued(x)` is the return of Dequeue with *element == x. */
  datatype Event<T> =
    | Silent
    | Reserved(elem: T)
    | Enqueued(elem: T)
    | EnqueueFailed
    | Dequeued(elem: T)
    | DequeueFailed

  function EventOf<T>(q: Queue<T>, t: Tid, c: Choice<T>): Event<T>
    requires q.m.WellSized()
  {
    if t !in q.threads then Silent else
    match q.threads[t]
    case EnqCheckFull(e, oldTail) => if q.m.LooksFull(oldTail) then EnqueueFailed else Silent
    case EnqReserve(e, oldTail) => if q.m.tail == oldTail && !c.spurious then Reserved(e) else Silent
    case EnqCommit(e, oldTail) => if q.m.commit == oldTail && !c.spurious then Enqueued(e) else Silent
    case DeqCheckEmpty(oldHead) => if oldHead + 1 == q.m.commit then DequeueFailed else Silent
    case DeqAdvance(oldHead, v) => if q.m.head == oldHead && !c.spurious then Dequeued(v) else Silent
    case _ => Silent
  }

  type Schedule<T> = seq<(Tid, Choice<T>)>

  function Run<T>(q: Queue<T>, sched: Schedule<T>): (q': Queue<T>)
    requires q.m.WellSized()
    ensures q'.m.WellSized() && q'.m.poolSize == q.m.poolSize
    decreases |sched|
  {
    if sched == [] then q else Run(Exec(q, sched[0].0, sched[0].1), sched[1..])
  }

  function History<T>(q: Queue<T>, sched: Schedule<T>): seq<Event<T>>
    requires q.m.WellSized()
    decreases |sched|
  {
    if sched == [] then [] else
      [EventOf(q, sched[0].0, sched[0].1)] + History(Exec(q, sched[0].0, sched[0].1), sched[1..])
  }

  // ----- The sequential first-in-first-out queue

  /** The effect of an event on a plain FIFO queue; None when the queue does not allow it. */
  function Apply<T(==)>(fifo: seq<T>, e: Event<T>): Option<seq<T>> {
    match e
    case Enqueued(x) => Some(fifo + [x])
    case Dequeued(x) => if fifo != [] && fifo[0] == x then Some(fifo[1..]) else None
    case DequeueFailed => if fifo == [] then Some(fifo) else None
    case _ => Some(fifo)
  }

  function Replay<T(==)>(fifo: seq<T>, history: seq<Event<T>>): Option<seq<T>>
    decreases |history|
  {
    if history == [] then Some(fifo) else
    match Apply(fifo, history[0])
    case None => None
    case Some(next) => Replay(next, history[1..])
  }

  /** The arguments of the Reserved events and the results of the Dequeued events, in order. */
  function ReservedIn<T>(history: seq<Event<T>>): seq<T> {
    if history == [] then [] else
      (if history[0].Reserved? then [history[0].elem] else []) + ReservedIn(history[1..])
  }

  function DequeuedIn<T>(history: seq<Event<T>>): seq<T> {
    if history == [] then [] else
      (if history[0].Dequeued? then [history[0].elem] else []) + DequeuedIn(history[1..])
  }

  // ----- The invariant

  predicate Holds<T>(pc: Pc<T>, position: nat) {
    (pc.EnqWrite? || pc.EnqWriting? || pc.EnqCommit?) && pc.oldTail == position
  }

  /** The shared variables agree with each other. */
  ghost predicate MemoryOk<T>(m: Memory<T>) {
    && m.WellSized()
    && m.head < m.commit <= m.tail < m.head + m.poolSize
    && |m.reserved| == |m.owner| == m.tail - 1
    && (forall p: nat :: m.head < p < m.commit ==> m.At(p) == Slot(m.reserved[p - 1], false))
  }

  /** A thread's locals agree with the shared variables. */
  ghost predicate ThreadOk<T>(m: Memory<T>, t: Tid, pc: Pc<T>)
    requires MemoryOk(m)
  {
    match pc
    case EnqCheckFull(_, oldTail) => oldTail <= m.tail
    case EnqReserve(_, oldTail) => oldTail <= m.tail && (oldTail == m.tail ==> m.tail + 1 < m.head + m.poolSize)
    case EnqWrite(e, p) => Owns(m, t, e, p)
    case EnqWriting(e, p) => Owns(m, t, e, p)
    case EnqCommit(e, p) => Owns(m, t, e, p) && m.At(p) == Slot(e, false)
    case DeqCheckEmpty(oldHead) => oldHead <= m.head
    case DeqRead(oldHead) => oldHead <= m.head && (oldHead == m.head ==> m.head + 1 < m.commit)
    case DeqAdvance(oldHead, v) =>
      oldHead <= m.head && (oldHead == m.head ==> m.head + 1 < m.commit && v == m.reserved[m.head])
    case _ => true
  }

  ghost predicate Owns<T>(m: Memory<T>, t: Tid, e: T, position: nat)
    requires MemoryOk(m)
  {
    m.commit <= position < m.tail && m.owner[position - 1] == t && m.reserved[position - 1] == e
  }

  ghost predicate Inv<T>(q: Queue<T>) {
    && MemoryOk(q.m)
    && (forall t :: t in q.threads ==> ThreadOk(q.m, t, q.threads[t]))
    && (forall i :: q.m.commit - 1 <= i < |q.m.owner| ==>
         q.m.owner[i] in q.threads && Holds(q.threads[q.m.owner[i]], i + 1))
  }

  /** The committed, unconsumed elements. */
  ghost function Contents<T>(m: Memory<T>): seq<T>
    requires MemoryOk(m)
  {
    m.reserved[m.head..m.commit - 1]
  }

  /** The division form is the remainder. */
  lemma IndexIsModulo(num: nat, poolSize: nat)
    requires poolSize > 0
    ensures GetIndex(num, poolSize) == num % poolSize
  {
  }

  /** Positions closer than the pool size never share a slot. */
  lemma IndexInjective(p: nat, q: nat, poolSize: nat)
    requires 0 < q - p < poolSize
    ensures GetIndex(p, poolSize) != GetIndex(q, poolSize)
  {
    hide GetIndex;
    IndexIsModulo(p, poolSize);
    IndexIsModulo(q, poolSize);
    SlotsDiffer(p, q, poolSize);
  }

  /** Positions one pool size apart share a slot. */
  lemma IndexPeriodic(p: nat, poolSize: nat)
    requires poolSize > 0
    ensures GetIndex(p + poolSize, poolSize) == GetIndex(p, poolSize)
  {
    hide GetIndex;
    IndexIsModulo(p, poolSize);
    IndexIsModulo(p + poolSize, poolSize);
    SlotsRepeat(p, poolSize);
  }

  lemma InitInv<T>(size: nat, threads: set<Tid>, blank: T)
    ensures Inv(Init(size, threads, blank))
  {
  }

  lemma WriteKeeps<T>(m: Memory<T>, w: nat, slot: Slot<T>)
    requires MemoryOk(m) && m.commit <= w < m.tail
    ensures forall p: nat :: m.head < p < m.tail && p != w ==> m.Write(w, slot).At(p) == m.At(p)
    ensures MemoryOk(m.Write(w, slot))
  {
    hide GetIndex;
    var m' := m.Write(w, slot);
    forall p: nat | m.head < p < m.tail && p != w
      ensures m'.At(p) == m.At(p)
    {
      if p < w { IndexInjective(p, w, m.poolSize); } else { IndexInjective(w, p, m.poolSize); }
    }
  }

  /** A step keeps the shared variables and its own thread's locals in order. */
  lemma StepOwn<T>(m: Memory<T>, t: Tid, pc: Pc<T>, c: Choice<T>)
    requires MemoryOk(m) && ThreadOk(m, t, pc)
    ensures MemoryOk(Step(m, t, pc, c).0)
    ensures ThreadOk(Step(m, t, pc, c).0, t, Step(m, t, pc, c).1)
  {
    hide GetIndex;
    match pc
    case EnqCheckFull(e, oldTail) =>
      IndexPeriodic(m.head, m.poolSize);
    case EnqWrite(e, p) => WriteKeeps(m, p, m.At(p).(writing := true));
    case EnqWriting(e, p) => WriteKeeps(m, p, Slot(e, false));
    case _ => assert forall p: nat :: Step(m, t, pc, c).0.At(p) == m.At(p);
  }

  /** A step does not disturb another thread. */
  lemma StepOther<T>(m: Memory<T>, t: Tid, pc: Pc<T>, c: Choice<T>, u: Tid, other: Pc<T>)
    requires MemoryOk(m) && ThreadOk(m, t, pc) && ThreadOk(m, u, other) && u != t
    requires MemoryOk(Step(m, t, pc, c).0)
    ensures ThreadOk(Step(m, t, pc, c).0, u, other)
  {
    hide GetIndex;
    match pc
    case EnqWrite(e, p) => WriteKeeps(m, p, m.At(p).(writing := true));
    case EnqWriting(e, p) => WriteKeeps(m, p, Slot(e, false));
    case _ =>
  }

  lemma StepInv<T>(q: Queue<T>, t: Tid, c: Choice<T>)
    requires Inv(q)
    ensures Inv(Exec(q, t, c))
  {
    hide GetIndex, ThreadOk;
    if t in q.threads {
      StepOwn(q.m, t, q.threads[t], c);
      forall u | u in q.threads && u != t
        ensures ThreadOk(Exec(q, t, c).m, u, q.threads[u])
      {
        StepOther(q.m, t, q.threads[t], c, u, q.threads[u]);
      }
    }
  }

  /** The effect of one step on the counters and the reserved elements. */
  lemma StepOrder<T>(q: Queue<T>, t: Tid, c: Choice<T>)
    requires Inv(q)
    ensures var m, m', e := q.m, Exec(q, t, c).m, EventOf(q, t, c);
      && m'.reserved == (if e.Reserved? then m.reserved + [e.elem] else m.reserved)
      && m'.head == (if e.Dequeued? then m.head + 1 else m.head)
      && m'.commit == (if e.Enqueued? then m.commit + 1 else m.commit)
      && (e.Dequeued? ==> m.head + 1 < m.commit && m.reserved[m.head] == e.elem)
      && (e.Enqueued? ==> m.commit < m.tail && m.reserved[m.commit - 1] == e.elem)
      && (e.DequeueFailed? ==> m.head + 1 == m.commit)
  {
    hide GetIndex;
    if t in q.threads {
      assert ThreadOk(q.m, t, q.threads[t]);
    }
  }

  /** Each event has its FIFO effect at the very step that causes it, and no other step has one. */
  lemma StepRefines<T>(q: Queue<T>, t: Tid, c: Choice<T>)
    requires Inv(q)
    ensures Inv(Exec(q, t, c))
    ensures Apply(Contents(q.m), EventOf(q, t, c)) == Some(Contents(Exec(q, t, c).m))
  {
    hide GetIndex, Exec, EventOf, ThreadOk;
    StepInv(q, t, c);
    StepOrder(q, t, c);
    var m, m' := q.m, Exec(q, t, c).m;
    match EventOf(q, t, c)
    case Enqueued(x) => assert Contents(m') == Contents(m) + [x];
    case Dequeued(x) => assert Contents(m') == Contents(m)[1..];
    case _ => assert Contents(m') == Contents(m);
  }

  /**
   Linearizability.  In every interleaving the calls take effect one at a time, each at a step of its
   own: replaying the events on a plain FIFO queue is legal throughout (a Dequeue gets the oldest
   element; it fails only when there is none) and ends with the committed contents.
   */
  lemma {:induction false} Linearizable<T>(q: Queue<T>, sched: Schedule<T>)
    requires Inv(q)
    ensures Inv(Run(q, sched))
    ensures Replay(Contents(q.m), History(q, sched)) == Some(Contents(Run(q, sched).m))
    decreases |sched|
  {
    hide GetIndex, Exec, EventOf, ThreadOk, Contents;
    if sched != [] {
      var (t, c) := sched[0];
      StepRefines(q, t, c);
      Linearizable(Exec(q, t, c), sched[1..]);
      assert History(q, sched)[1..] == History(Exec(q, t, c), sched[1..]);
    }
  }

  /** Head and tail CAS order agree: what was dequeued is the reserved elements from the old head on. */
  lemma {:induction false} InOrder<T>(q: Queue<T>, sched: Schedule<T>)
    requires Inv(q)
    ensures Inv(Run(q, sched))
    ensures var q', h := Run(q, sched), History(q, sched);
      && q.m.head <= q'.m.head <= |q'.m.reserved|
      && q'.m.reserved == q.m.reserved + ReservedIn(h)
      && q'.m.reserved[q.m.head..q'.m.head] == DequeuedIn(h)
    decreases |sched|
  {
    hide GetIndex, Exec, EventOf, ThreadOk;
    if sched != [] {
      var (t, c) := sched[0];
      StepInv(q, t, c);
      StepOrder(q, t, c);
      var next := Exec(q, t, c);
      InOrder(next, sched[1..]);
      assert History(q, sched)[1..] == History(next, sched[1..]);
      var q' := Run(q, sched);
      if EventOf(q, t, c).Dequeued? {
        assert q'.m.reserved[q.m.head..q'.m.head] == [q'.m.reserved[q.m.head]] + q'.m.reserved[next.m.head..q'.m.head];
      }
    }
  }

  /** Nothing is lost, duplicated, reordered or torn: from a new queue, the dequeued elements are a
      prefix of the reserved ones. */
  lemma DequeuedIsPrefix<T>(size: nat, threads: set<Tid>, blank: T, sched: Schedule<T>)
    ensures var h := History(Init(size, threads, blank), sched); DequeuedIn(h) <= ReservedIn(h)
  {
    hide Inv, Run, History, ReservedIn, DequeuedIn;
    var q := Init(size, threads, blank);
    InitInv(size, threads, blank);
    InOrder(q, sched);
    assert q.m.reserved == [] && q.m.head == 0;
    var q', h := Run(q, sched), History(q, sched);
    assert q'.m.reserved == ReservedIn(h);
    assert DequeuedIn(h) == ReservedIn(h)[..q'.m.head];
  }

  /** In every reachable state at most `size` elements are reserved and unconsumed. */
  lemma Bounded<T>(size: nat, threads: set<Tid>, blank: T, sched: Schedule<T>)
    ensures var m := Run(Init(size, threads, blank), sched).m;
      && m.head < m.commit <= m.tail <= m.head + size + 1
      && MemoryOk(m) && |Contents(m)| <= m.tail - m.head - 1 <= size
  {
    InitInv(size, threads, blank);
    Linearizable(Init(size, threads, blank), sched);
  }

  /** A producer never writes a slot that holds an unconsumed element or that another producer writes. */
  lemma ProducersDisjoint<T>(q: Queue<T>, t: Tid, p: nat)
    requires Inv(q) && t in q.threads && Holds(q.threads[t], p)
    ensures forall k: nat :: q.m.head < k < q.m.commit ==> GetIndex(k, q.m.poolSize) != GetIndex(p, q.m.poolSize)
    ensures forall u :: u in q.threads && u != t ==> forall k: nat :: Holds(q.threads[u], k) ==>
      GetIndex(k, q.m.poolSize) != GetIndex(p, q.m.poolSize)
  {
    hide GetIndex;
    assert ThreadOk(q.m, t, q.threads[t]);
    forall k: nat | q.m.head < k < q.m.tail && k != p
      ensures GetIndex(k, q.m.poolSize) != GetIndex(p, q.m.poolSize)
    {
      if k < p { IndexInjective(k, p, q.m.poolSize); } else { IndexInjective(p, k, q.m.poolSize); }
    }
    forall u, k: nat | u in q.threads && u != t && Holds(q.threads[u], k)
      ensures q.m.head < k < q.m.tail && k != p
    {
      assert ThreadOk(q.m, u, q.threads[u]);
    }
  }

  // ----- Progress

  /** `n` steps of one thread. */
  function Solo<T>(q: Queue<T>, t: Tid, c: Choice<T>, n: nat): (q': Queue<T>)
    requires q.m.WellSized()
    ensures q'.m.WellSized() && q'.m.poolSize == q.m.poolSize
    decreases n
  {
    if n == 0 then q else Solo(Exec(q, t, c), t, c, n - 1)
  }

  /** While anything is reserved but not committed, the owner of the next position can commit it in at
      most three steps of its own; the others are that much closer to their turn. */
  lemma SomeProducerCanCommit<T>(q: Queue<T>, c: Choice<T>) returns (t: Tid, n: nat)
    requires Inv(q) && q.m.commit < q.m.tail && !c.spurious
    ensures t in q.threads && Holds(q.threads[t], q.m.commit) && n <= 3
    ensures Solo(q, t, c, n).m.commit == q.m.commit + 1
    ensures Solo(q, t, c, n).m.tail == q.m.tail
  {
    hide GetIndex;
    t := q.m.owner[q.m.commit - 1];
    n := if q.threads[t].EnqWrite? then 3 else if q.threads[t].EnqWriting? then 2 else 1;
    var q1 := Exec(q, t, c);
    var q2 := Exec(q1, t, c);
    assert Solo(q, t, c, 1) == q1;
    assert Solo(q, t, c, 2) == q2;
    assert Solo(q, t, c, 3) == Exec(q2, t, c);
  }

  /** A producer waiting to commit position `p` returns at its turn; until then every commit brings its
      turn one closer and nothing pushes it back. */
  lemma SpinnerAdvances<T>(q: Queue<T>, u: Tid, t: Tid, c: Choice<T>)
    requires Inv(q) && u in q.threads && q.threads[u].EnqCommit?
    ensures var p, q' := q.threads[u].oldTail, Exec(q, t, c);
      && (t == u && p == q.m.commit && !c.spurious ==> q'.threads[u] == Idle)
      && (!(t == u && p == q.m.commit && !c.spurious) ==> q'.threads[u] == q.threads[u])
      && p - q'.m.commit == p - q.m.commit - (if EventOf(q, t, c).Enqueued? then 1 else 0)
  {
    hide GetIndex, ThreadOk;
  }

  /** Exactly one thread holds each reserved, uncommitted position. */
  lemma OneOwner<T>(q: Queue<T>, p: nat)
    requires Inv(q) && q.m.commit <= p < q.m.tail
    ensures exists t :: t in q.threads && Holds(q.threads[t], p)
    ensures forall t, u :: t in q.threads && u in q.threads && Holds(q.threads[t], p) && Holds(q.threads[u], p) ==>
              t == u
  {
    hide GetIndex;
    assert Holds(q.threads[q.m.owner[p - 1]], p);
    forall t | t in q.threads && Holds(q.threads[t], p)
      ensures t == q.m.owner[p - 1]
    {
      assert ThreadOk(q.m, t, q.threads[t]);
    }
  }

  // ----- Uncontended calls, and what a failed Enqueue says

  lemma {:induction false} IndexCongruent(a: nat, b: nat, poolSize: nat)
    requires a <= b && poolSize > 0
    ensures GetIndex(a, poolSize) == GetIndex(b, poolSize) <==> GetIndex(b - a, poolSize) == 0
    decreases b
  {
    if b == a {
      assert 0 / poolSize == 0;
    } else if b - a < poolSize {
      IndexInjective(a, b, poolSize);
      assert (b - a) / poolSize == 0;
    } else {
      IndexPeriodic(b - poolSize, poolSize);
      IndexPeriodic(b - a - poolSize, poolSize);
      IndexCongruent(a, b - poolSize, poolSize);
    }
  }

  ghost predicate Full<T>(m: Memory<T>) {
    m.tail - m.head - 1 == m.poolSize - 2
  }

  /**
   When Enqueue gives up: either its tail is current and the queue is full, or its tail is stale,
   already behind the head by a multiple of the pool size, and the answer says nothing about fullness.
   */
  lemma EnqueueFailsExactlyWhen<T>(q: Queue<T>, t: Tid, c: Choice<T>)
    requires Inv(q) && t in q.threads && q.threads[t].EnqCheckFull?
    ensures var m, seen := q.m, q.threads[t].oldTail;
      EventOf(q, t, c).EnqueueFailed? <==>
        (seen == m.tail && Full(m)) || (seen < m.head && GetIndex(m.head - seen - 1, m.poolSize) == 0)
  {
    hide GetIndex;
    var m, seen := q.m, q.threads[t].oldTail;
    assert ThreadOk(m, t, q.threads[t]);
    if seen < m.head {
      IndexCongruent(seen + 1, m.head, m.poolSize);
    } else if seen + 1 < m.head + m.poolSize {
      IndexInjective(m.head, seen + 1, m.poolSize);
    } else {
      IndexPeriodic(m.head, m.poolSize);
    }
  }

  /** The tail that the thread has loaded is the current one. */
  predicate Current<T>(q: Queue<T>, t: Tid) {
    t in q.threads && (q.threads[t].EnqCheckFull? || q.threads[t].EnqReserve? ==> q.threads[t].oldTail == q.m.tail)
  }

  lemma {:induction false} StaysCurrent<T>(q: Queue<T>, sched: Schedule<T>, t: Tid)
    requires Inv(q) && Current(q, t)
    requires forall i :: 0 <= i < |History(q, sched)| ==> !History(q, sched)[i].Reserved?
    ensures Inv(Run(q, sched)) && Current(Run(q, sched), t)
    decreases |sched|
  {
    hide GetIndex, ThreadOk;
    if sched != [] {
      var (u, c) := sched[0];
      assert !History(q, sched)[0].Reserved?;
      StepInv(q, u, c);
      assert Exec(q, u, c).m.tail == q.m.tail;
      var all, rest := History(q, sched), History(Exec(q, u, c), sched[1..]);
      assert all == [all[0]] + rest;
      assert forall i :: 0 <= i < |rest| ==> rest[i] == all[i + 1];
      StaysCurrent(Exec(q, u, c), sched[1..], t);
    }
  }

  /**
   An Enqueue that overlaps no other producer's reservation, whatever the consumers do: it gives up exactly
   if the queue is full at its test, and its swap fails only spuriously.
   */
  lemma LoneProducer<T>(q: Queue<T>, sched: Schedule<T>, t: Tid, c: Choice<T>)
    requires Inv(q) && t in q.threads && q.threads[t].Idle?
    requires forall i :: 0 <= i < |History(q, sched)| ==> !History(q, sched)[i].Reserved?
    ensures var q' := Run(q, sched);
      && t in q'.threads
      && (q'.threads[t].EnqCheckFull? ==> (EventOf(q', t, c).EnqueueFailed? <==> Full(q'.m)))
      && (q'.threads[t].EnqReserve? && !c.spurious ==> EventOf(q', t, c) == Reserved(q'.threads[t].elem))
  {
    hide GetIndex, ThreadOk, Exec;
    StaysCurrent(q, sched, t);
    var q' := Run(q, sched);
    if q'.threads[t].EnqCheckFull? {
      assert q'.m.head < q'.m.tail;
      EnqueueFailsExactlyWhen(q', t, c);
    }
  }

  lemma {:induction false} SoloInv<T>(q: Queue<T>, t: Tid, c: Choice<T>, n: nat)
    requires Inv(q)
    ensures Inv(Solo(q, t, c, n))
    decreases n
  {
    hide GetIndex, Exec, ThreadOk;
    if n > 0 {
      StepInv(q, t, c);
      SoloInv(Exec(q, t, c), t, c, n - 1);
    }
  }

  lemma {:induction false} SoloSplit<T>(q: Queue<T>, t: Tid, c: Choice<T>, a: nat, b: nat)
    requires q.m.WellSized()
    ensures Solo(q, t, c, a + b) == Solo(Solo(q, t, c, a), t, c, b)
    decreases a
  {
    hide Exec;
    if a > 0 {
      SoloSplit(Exec(q, t, c), t, c, a - 1, b);
    }
  }

  /** Enqueue up to its test for fullness. */
  lemma SoloToCheck<T>(q: Queue<T>, t: Tid, c: Choice<T>)
    requires q.m.WellSized() && t in q.threads && q.threads[t].Idle? && c.enqueue
    ensures Solo(q, t, c, 2) == Queue(q.m, q.threads[t := EnqCheckFull(c.elem, q.m.tail)])
  {
    hide GetIndex;
    assert q.threads[t := EnqLoadTail(c.elem)][t := EnqCheckFull(c.elem, q.m.tail)]
        == q.threads[t := EnqCheckFull(c.elem, q.m.tail)];
  }

  /** Enqueue from its test, which succeeds, to the reservation. */
  lemma SoloToReserve<T>(q: Queue<T>, t: Tid, c: Choice<T>, x: T)
    requires q.m.WellSized() && t in q.threads && q.threads[t] == EnqCheckFull(x, q.m.tail) && !c.spurious
    requires !q.m.LooksFull(q.m.tail)
    ensures Solo(q, t, c, 2) == Queue(
      q.m.(tail := q.m.tail + 1, reserved := q.m.reserved + [x], owner := q.m.owner + [t]),
      q.threads[t := EnqWrite(x, q.m.tail)])
  {
    hide GetIndex;
    assert q.threads[t := EnqReserve(x, q.m.tail)][t := EnqWrite(x, q.m.tail)] == q.threads[t := EnqWrite(x, q.m.tail)];
  }

  /** Enqueue from the reservation of the next position to be committed to its return. */
  lemma SoloToCommit<T>(q: Queue<T>, t: Tid, c: Choice<T>, x: T)
    requires q.m.WellSized() && t in q.threads && q.threads[t] == EnqWrite(x, q.m.commit) && !c.spurious
    ensures var q' := Solo(q, t, c, 3);
      && q'.threads == q.threads[t := Idle]
      && q'.m.(pool := q.m.pool) == q.m.(commit := q.m.commit + 1)
      && Solo(q, t, c, 2).m.(pool := q.m.pool) == q.m
      && Solo(q, t, c, 2).threads == q.threads[t := EnqCommit(x, q.m.commit)]
  {
    hide GetIndex;
    var q1 := Exec(q, t, c);
    var q2 := Exec(q1, t, c);
    assert Solo(q, t, c, 2) == q2;
    assert Solo(q, t, c, 3) == Exec(q2, t, c);
    assert q2.threads == q.threads[t := EnqCommit(x, q.m.commit)];
  }

  /** An Enqueue that no other thread disturbs fails when the queue is full and leaves it alone ... */
  lemma SoloEnqueueFull<T>(q: Queue<T>, t: Tid, c: Choice<T>)
    requires Inv(q) && t in q.threads && q.threads[t].Idle? && c.enqueue && !c.spurious
    requires Full(q.m)
    ensures Solo(q, t, c, 3) == q && EventOf(Solo(q, t, c, 2), t, c).EnqueueFailed?
  {
    hide GetIndex, ThreadOk;
    SoloToCheck(q, t, c);
    var q2 := Solo(q, t, c, 2);
    SoloInv(q, t, c, 2);
    EnqueueFailsExactlyWhen(q2, t, c);
    SoloSplit(q, t, c, 2, 1);
    assert Exec(q2, t, c).threads == q.threads;
  }

  /** ... and otherwise appends its element. */
  lemma SoloEnqueue<T>(q: Queue<T>, t: Tid, c: Choice<T>)
    requires Inv(q) && t in q.threads && q.threads[t].Idle? && c.enqueue && !c.spurious
    requires !Full(q.m) && q.m.commit == q.m.tail
    ensures var q' := Solo(q, t, c, 7);
      && Inv(q') && q'.threads == q.threads && EventOf(Solo(q, t, c, 6), t, c) == Enqueued(c.elem)
      && Contents(q'.m) == Contents(q.m) + [c.elem]
      && q'.m.head == q.m.head && q'.m.commit == q'.m.tail == q.m.tail + 1
  {
    hide GetIndex, ThreadOk, Solo, Exec;
    SoloToCheck(q, t, c);
    var q2 := Solo(q, t, c, 2);
    SoloInv(q, t, c, 2);
    EnqueueFailsExactlyWhen(q2, t, c);
    SoloToReserve(q2, t, c, c.elem);
    var q4 := Solo(q2, t, c, 2);
    SoloToCommit(q4, t, c, c.elem);
    SoloSplit(q, t, c, 2, 2);
    SoloSplit(q, t, c, 4, 2);
    SoloSplit(q, t, c, 4, 3);
    SoloInv(q, t, c, 7);
    var q7 := Solo(q4, t, c, 3);
    assert q7.threads == q.threads;
    assert q7.m.reserved == q.m.reserved + [c.elem];
  }

  /** A Dequeue that overlaps nothing takes the oldest element if there is one. */
  lemma SoloDequeue<T>(q: Queue<T>, t: Tid, c: Choice<T>)
    requires Inv(q) && t in q.threads && q.threads[t].Idle? && !c.enqueue && !c.spurious
    requires Contents(q.m) != []
    ensures var q' := Solo(q, t, c, 5);
      && Inv(q') && q'.threads == q.threads && EventOf(Solo(q, t, c, 4), t, c) == Dequeued(Contents(q.m)[0])
      && q'.m == q.m.(head := q.m.head + 1)
  {
    hide GetIndex, ThreadOk;
    var m := q.m;
    var ts: map<Tid, Pc<T>> := q.threads;
    assert Solo(q, t, c, 2) == Queue(m, ts[t := DeqCheckEmpty(m.head)]) by {
      assert ts[t := DeqLoadHead][t := DeqCheckEmpty(m.head)] == ts[t := DeqCheckEmpty(m.head)];
    }
    var q2 := Solo(q, t, c, 2);
    var x := Contents(m)[0];
    assert m.At(m.head + 1) == Slot(x, false);
    assert Solo(q2, t, c, 2) == Queue(m, ts[t := DeqAdvance(m.head, x)]) by {
      assert ts[t := DeqCheckEmpty(m.head)][t := DeqRead(m.head)][t := DeqAdvance(m.head, x)]
          == ts[t := DeqAdvance(m.head, x)];
    }
    SoloSplit(q, t, c, 2, 2);
    SoloSplit(q, t, c, 4, 1);
    SoloInv(q, t, c, 5);
    assert ts[t := DeqAdvance(m.head, x)][t := Idle] == ts;
  }

  /** On an empty queue it fails and changes nothing. */
  lemma SoloDequeueEmpty<T>(q: Queue<T>, t: Tid, c: Choice<T>)
    requires Inv(q) && t in q.threads && q.threads[t].Idle? && !c.enqueue
    requires Contents(q.m) == []
    ensures Solo(q, t, c, 3) == q && EventOf(Solo(q, t, c, 2), t, c).DequeueFailed?
  {
    hide GetIndex, ThreadOk;
    var q1 := Exec(q, t, c);
    var q2 := Exec(q1, t, c);
    assert Solo(q, t, c, 2) == q2;
    assert Solo(q, t, c, 3) == Exec(q2, t, c);
    assert Exec(q2, t, c).threads == q.threads;
  }

  lemma {:induction false} RunAppend<T>(q: Queue<T>, a: Schedule<T>, b: Schedule<T>)
    requires q.m.WellSized()
    ensures Run(q, a + b) == Run(Run(q, a), b)
    decreases |a|
  {
    hide Exec;
    if a == [] {
      assert a + b == b;
    } else {
      assert (a + b)[1..] == a[1..] + b;
      RunAppend(Exec(q, a[0].0, a[0].1), a[1..], b);
    }
  }

  lemma {:induction false} SoloIsRun<T>(q: Queue<T>, t: Tid, c: Choice<T>, n: nat)
    requires q.m.WellSized()
    ensures Run(q, seq(n, _ => (t, c))) == Solo(q, t, c, n)
    decreases n
  {
    hide Exec;
    if n > 0 {
      assert seq(n, _ => (t, c))[1..] == seq(n - 1, _ => (t, c));
      SoloIsRun(Exec(q, t, c), t, c, n - 1);
    }
  }

  /** Extends a schedule by `n` steps of one thread. */
  lemma Extend<T>(q: Queue<T>, sched: Schedule<T>, t: Tid, c: Choice<T>, n: nat) returns (longer: Schedule<T>)
    requires q.m.WellSized()
    ensures Run(q, longer) == Solo(Run(q, sched), t, c, n)
  {
    longer := sched + seq(n, _ => (t, c));
    RunAppend(q, sched, seq(n, _ => (t, c)));
    SoloIsRun(Run(q, sched), t, c, n);
  }

  /** "Enqueue failed, so the queue was full" is false: a producer that stalls after loading the tail
      can be turned away from an empty queue with room for one. */
  lemma EnqueueCanFailOnEmptyQueue<T>(x: T) returns (sched: Schedule<T>, t: Tid, c: Choice<T>)
    ensures var q := Run(Init(1, {0, 1}, x), sched);
      Inv(q) && EventOf(q, t, c).EnqueueFailed? && Contents(q.m) == [] && q.m.tail == q.m.commit
  {
    hide GetIndex, Exec, EventOf, Solo, ThreadOk;
    var q0 := Init(1, {0, 1}, x);
    var d := Choice(false, x, false);
    t, c := 0, Choice(true, x, false);
    InitInv(1, {0, 1}, x);
    SoloToCheck(q0, 0, c);
    SoloInv(q0, 0, c, 2);
    sched := Extend(q0, [], 0, c, 2);
    var qa := Run(q0, sched);
    SoloEnqueue(qa, 1, c);
    sched := Extend(q0, sched, 1, c, 7);
    SoloDequeue(Run(q0, sched), 1, d);
    sched := Extend(q0, sched, 1, d, 5);
    SoloEnqueue(Run(q0, sched), 1, c);
    sched := Extend(q0, sched, 1, c, 7);
    SoloDequeue(Run(q0, sched), 1, d);
    sched := Extend(q0, sched, 1, d, 5);
    assert GetIndex(0, 3) == 0 by { IndexCongruent(0, 0, 3); }
    EnqueueFailsExactlyWhen(Run(q0, sched), t, c);
  }

  // ----- Calls and their answers

  /** What a thread is in the middle of: nothing, an Enqueue before or after its reservation, a Dequeue. */
  datatype Status<T> = NoCall | Enqueueing(arg: T) | Committing(arg: T) | Dequeueing

  function StatusOf<T>(pc: Pc<T>): Status<T> {
    match pc
    case Idle => NoCall
    case EnqLoadTail(x) => Enqueueing(x)
    case EnqCheckFull(x, _) => Enqueueing(x)
    case EnqReserve(x, _) => Enqueueing(x)
    case EnqWrite(x, _) => Committing(x)
    case EnqWriting(x, _) => Committing(x)
    case EnqCommit(x, _) => Committing(x)
    case _ => Dequeueing
  }

  /** The event `e` of a thread's own step is right for what it is in the middle of, and leads to `next`.  A call
      ends only with its answer, and an Enqueue keeps its argument from its start to its answer. */
  ghost predicate Answers<T>(st: Status<T>, c: Choice<T>, e: Event<T>, next: Status<T>) {
    match st
    case NoCall => e == Silent && next == if c.enqueue then Enqueueing(c.elem) else Dequeueing
    case Enqueueing(x) =>
      || (e == Silent && next == st)
      || (e == Reserved(x) && next == Committing(x))
      || (e == EnqueueFailed && next == NoCall)
    case Committing(x) => (e == Silent && next == st) || (e == Enqueued(x) && next == NoCall)
    case Dequeueing => (e == Silent && next == st) || ((e.Dequeued? || e == DequeueFailed) && next == NoCall)
  }

  lemma StepAnswers<T>(q: Queue<T>, t: Tid, c: Choice<T>)
    requires q.m.WellSized() && t in q.threads
    ensures Answers(StatusOf(q.threads[t]), c, EventOf(q, t, c), StatusOf(Exec(q, t, c).threads[t]))
    ensures forall u :: u in q.threads && u != t ==> Exec(q, t, c).threads[u] == q.threads[u]
  {
    hide GetIndex;
  }

  /** The statuses of thread `t` along a schedule fit the events of its steps. */
  ghost predicate AllAnswered<T>(sts: seq<Status<T>>, sched: Schedule<T>, history: seq<Event<T>>, t: Tid) {
    && |sts| == |sched| + 1 && |history| == |sched|
    && forall i :: 0 <= i < |sched| ==> AnsweredAt(sts, sched, history, t, i)
  }

  ghost predicate AnsweredAt<T>(sts: seq<Status<T>>, sched: Schedule<T>, history: seq<Event<T>>, t: Tid, i: nat)
    requires i < |sched| && |sts| == |sched| + 1 && |history| == |sched|
  {
    if sched[i].0 == t then Answers(sts[i], sched[i].1, history[i], sts[i + 1]) else sts[i + 1] == sts[i]
  }

  /**
   In every schedule each call is answered: from its start, with the argument given there, a thread stays inside its
   call, retrying as often as it takes, until a step whose event is that call's answer.
   */
  lemma {:induction false} EveryCallIsAnswered<T>(q: Queue<T>, sched: Schedule<T>, t: Tid) returns (sts: seq<Status<T>>)
    requires q.m.WellSized() && t in q.threads
    ensures t in Run(q, sched).threads && AllAnswered(sts, sched, History(q, sched), t)
    ensures sts[0] == StatusOf(q.threads[t]) && sts[|sched|] == StatusOf(Run(q, sched).threads[t])
    decreases |sched|
  {
    hide Exec, EventOf, Answers, StatusOf;
    if sched == [] {
      sts := [StatusOf(q.threads[t])];
    } else {
      var (u, c) := sched[0];
      var q' := Exec(q, u, c);
      KeepsThreads(q, u, c);
      if u in q.threads { StepAnswers(q, u, c); }
      var rest := EveryCallIsAnswered(q', sched[1..], t);
      sts := [StatusOf(q.threads[t])] + rest;
      var history := History(q, sched);
      assert history == [EventOf(q, u, c)] + History(q', sched[1..]);
      forall i | 0 <= i < |sched|
        ensures AnsweredAt(sts, sched, history, t, i)
      {
        if i > 0 {
          var j := i - 1;
          assert AnsweredAt(rest, sched[1..], History(q', sched[1..]), t, j);
        }
      }
    }
  }

  lemma KeepsThreads<T>(q: Queue<T>, t: Tid, c: Choice<T>)
    requires q.m.WellSized()
    ensures Exec(q, t, c).threads.Keys == q.threads.Keys
    ensures t !in q.threads ==> Exec(q, t, c) == q
  {
    hide Step;
  }

  /** No other producer is between its reservation and its commit. */
  ghost predicate Alone<T>(q: Queue<T>, t: Tid) {
    t in q.threads && forall p: nat :: q.m.commit <= p < q.m.tail ==> Holds(q.threads[t], p)
  }

  /** How many steps a thread is from the end of its call, if it is not disturbed. */
  function StepsLeft<T>(m: Memory<T>, pc: Pc<T>): nat {
    match pc
    case Idle => 0
    case EnqLoadTail(_) => 6
    case EnqCheckFull(_, seen) => if seen == m.tail then 5 else 7
    case EnqReserve(_, seen) => if seen == m.tail then 4 else 6
    case EnqWrite(_, _) => 3
    case EnqWriting(_, _) => 2
    case EnqCommit(_, _) => 1
    case DeqLoadHead => 4
    case DeqCheckEmpty(seen) => if seen == m.head then 3 else 6
    case DeqRead(seen) => if seen == m.head then 2 else 5
    case DeqAdvance(seen, _) => if seen == m.head then 1 else 4
  }

  lemma OneStepLess<T>(q: Queue<T>, t: Tid, c: Choice<T>)
    requires Inv(q) && Alone(q, t) && !c.spurious && !q.threads[t].Idle?
    ensures var q' := Exec(q, t, c);
      Alone(q', t) && StepsLeft(q'.m, q'.threads[t]) < StepsLeft(q.m, q.threads[t])
  {
    hide GetIndex;
    var pc := q.threads[t];
    assert ThreadOk(q.m, t, pc);
    assert q.m.commit < q.m.tail ==> Holds(pc, q.m.commit);
    var q' := Exec(q, t, c);
    forall p: nat | q'.m.commit <= p < q'.m.tail
      ensures Holds(q'.threads[t], p)
    {
      if p < q.m.tail { assert Holds(pc, p); }
    }
  }

  /** A thread that is disturbed by nobody, and waits for no other producer, finishes its call from wherever it is. */
  lemma {:induction false} ObstructionFree<T>(q: Queue<T>, t: Tid, c: Choice<T>) returns (n: nat)
    requires Inv(q) && Alone(q, t) && !c.spurious
    ensures n <= StepsLeft(q.m, q.threads[t]) <= 7
    ensures t in Solo(q, t, c, n).threads && Solo(q, t, c, n).threads[t].Idle?
    decreases StepsLeft(q.m, q.threads[t])
  {
    hide Exec, Alone, ThreadOk, Contents;
    assert t in q.threads by { AloneIn(q, t); }
    if q.threads[t].Idle? {
      n := 0;
    } else {
      OneStepLess(q, t, c);
      StepInv(q, t, c);
      AloneIn(Exec(q, t, c), t);
      var k := ObstructionFree(Exec(q, t, c), t, c);
      n := k + 1;
    }
  }

  lemma AloneIn<T>(q: Queue<T>, t: Tid)
    requires Alone(q, t)
    ensures t in q.threads
  {
  }

  /** A queue made for `size` elements is full with exactly so many. */
  lemma FullMeansSize<T>(size: nat, threads: set<Tid>, blank: T, sched: Schedule<T>)
    ensures var m := Run(Init(size, threads, blank), sched).m;
      Full(m) <==> m.tail - m.head - 1 == size
  {
  }
}
