/**
 The lock-free object pool of cyber/base/concurrent_object_pool.h: a free list threaded through an
 arena of nodes, with a head that pairs a pointer with a change counter.

 Threads run FindFreeHead (under GetObject) and ReleaseObject.  The atomic head is read and swapped in
 one step; the plain `next` field is written in two, and a read that meets a write in progress, or
 that follows a stray pointer, yields anything.  A client returns only what it holds, once, as the
 deleter of the shared pointer does.
 */
module ObjectPool {
  import opened Options

  type Tid = nat

  datatype Ptr = Null | Node(i: nat)
  datatype Cell = Cell(next: Ptr, writing: bool)
  datatype Head = Head(count: nat, node: Ptr)

  /** Who answers for a node: the free list, a client, or a thread on its way to give it back. */
  datatype Place = Free | Held | Releasing(releaser: Tid)

  datatype Pc =
    | Idle
    | GetLoad
    | GetRead(seen: Head)
    | GetSwap(seen: Head, next: Ptr)
    | PutLoad(node: nat)
    | PutWrite(node: nat, seen: Head)
    | PutWriting(node: nat, seen: Head)
    | PutSwap(node: nat, seen: Head)

  /** `get`: an idle thread calls GetObject rather than releasing `node`; `spurious`: a weak CAS fails
      for no reason; `junk`: what a racing or stray read yields. */
  datatype Choice = Choice(get: bool, node: nat, junk: Ptr, spurious: bool)

  /** The arena and the head.  `free` and `place` are history: the order of the free list, and who
      answers for each node. */
  datatype Memory = Memory(arena: seq<Cell>, head: Head, free: seq<nat>, place: seq<Place>)
  {
    function Load(p: Ptr, junk: Ptr): Ptr {
      if p.Node? && p.i < |arena| && !arena[p.i].writing then arena[p.i].next else junk
    }

    function Store(i: nat, cell: Cell): Memory {
      if i < |arena| then this.(arena := arena[i := cell]) else this
    }

    function Move(i: nat, p: Place): Memory {
      if i < |place| then this.(place := place[i := p]) else this
    }

    predicate ClientHolds(i: nat) {
      i < |place| && place[i] == Held
    }
  }

  datatype Pool = Pool(m: Memory, threads: map<Tid, Pc>)

  /** The links that the constructor sets up: every node points to the following one. */
  function Linked(capacity: nat): (cells: seq<Cell>)
    ensures |cells| == capacity
  {
    seq(capacity, (i: nat) => Cell(if i + 1 < capacity then Node(i + 1) else Null, false))
  }

  method BuildArena(capacity: nat) returns (arena: array<Cell>)
    requires capacity > 0
    ensures arena[..] == Linked(capacity)
  {
    arena := new Cell[capacity](_ => Cell(Null, false));
    for i := 0 to capacity - 1
      invariant forall k :: 0 <= k < i ==> arena[k] == Cell(Node(k + 1), false)
    {
      arena[i] := Cell(Node(i + 1), false);
    }
    arena[capacity - 1] := Cell(Null, false);
  }

  function Init(capacity: nat, threads: set<Tid>): Pool
    requires capacity > 0
  {
    Pool(Memory(Linked(capacity), Head(0, Node(0)), seq(capacity, (i: nat) => i), seq(capacity, _ => Free)),
         map t | t in threads :: Idle)
  }

  function Step(m: Memory, t: Tid, pc: Pc, c: Choice): (Memory, Pc) {
    match pc
    case Idle =>
      if c.get then (m, GetLoad)
      else if m.ClientHolds(c.node) then (m.Move(c.node, Releasing(t)), PutLoad(c.node))
      else (m, Idle)
    case GetLoad => (m, if m.head.node.Null? then Idle else GetRead(m.head))
    case GetRead(seen) => (m, GetSwap(seen, m.Load(seen.node, c.junk)))
    case GetSwap(seen, next) =>
      if m.head == seen && !c.spurious && seen.node.Node? then
        var free := if m.free == [] then [] else m.free[1..];
        (m.(head := Head(seen.count + 1, next), free := free).Move(seen.node.i, Held), Idle)
      else (m, if m.head.node.Null? then Idle else GetRead(m.head))
    case PutLoad(n) => (m, PutWrite(n, m.head))
    case PutWrite(n, seen) => (m.Store(n, Cell(seen.node, true)), PutWriting(n, seen))
    case PutWriting(n, seen) => (m.Store(n, Cell(seen.node, false)), PutSwap(n, seen))
    case PutSwap(n, seen) =>
      if m.head == seen && !c.spurious then
        (m.(head := Head(seen.count + 1, Node(n)), free := [n] + m.free).Move(n, Free), Idle)
      else (m, PutWrite(n, m.head))
  }

  function Exec(p: Pool, t: Tid, c: Choice): Pool {
    if t !in p.threads then p else
      var (m, pc) := Step(p.m, t, p.threads[t], c);
      Pool(m, p.threads[t := pc])
  }

  /** What a step means to clients: a node obtained, GetObject returning null, a release begun, and the
      node back in the pool. */
  datatype Event = Silent | Got(node: nat) | GetFailed | Released(node: nat) | Freed(node: nat)

  function EventOf(p: Pool, t: Tid, c: Choice): Event {
    if t !in p.threads then Silent else
    match p.threads[t]
    case Idle => if !c.get && p.m.ClientHolds(c.node) then Released(c.node) else Silent
    case GetLoad => if p.m.head.node.Null? then GetFailed else Silent
    case GetSwap(seen, _) =>
      if p.m.head == seen && !c.spurious && seen.node.Node? then Got(seen.node.i)
      else if p.m.head.node.Null? then GetFailed else Silent
    case PutSwap(n, seen) => if p.m.head == seen && !c.spurious then Freed(n) else Silent
    case _ => Silent
  }

  type Schedule = seq<(Tid, Choice)>

  function Run(p: Pool, sched: Schedule): Pool
    decreases |sched|
  {
    if sched == [] then p else Run(Exec(p, sched[0].0, sched[0].1), sched[1..])
  }

  function History(p: Pool, sched: Schedule): seq<Event>
    decreases |sched|
  {
    if sched == [] then [] else
      [EventOf(p, sched[0].0, sched[0].1)] + History(Exec(p, sched[0].0, sched[0].1), sched[1..])
  }

  // ----- The sequential pool

  /** A pool as two sets: what can be handed out, and what clients hold. */
  datatype Ledger = Ledger(free: set<nat>, held: set<nat>)

  function Apply(l: Ledger, e: Event): Option<Ledger> {
    match e
    case Silent => Some(l)
    case Got(n) => if n in l.free && n !in l.held then Some(Ledger(l.free - {n}, l.held + {n})) else None
    case GetFailed => if l.free == {} then Some(l) else None
    case Released(n) => if n in l.held then Some(Ledger(l.free, l.held - {n})) else None
    case Freed(n) => if n !in l.free && n !in l.held then Some(Ledger(l.free + {n}, l.held)) else None
  }

  function Replay(l: Ledger, history: seq<Event>): Option<Ledger>
    decreases |history|
  {
    if history == [] then Some(l) else
    match Apply(l, history[0])
    case None => None
    case Some(next) => Replay(next, history[1..])
  }

  // ----- The invariant

  ghost predicate Distinct(s: seq<nat>) {
    forall i, j :: 0 <= i < j < |s| ==> s[i] != s[j]
  }

  /** The pointer that leads to the k-th free node. */
  function Link(free: seq<nat>, k: nat): Ptr {
    if k < |free| then Node(free[k]) else Null
  }

  /** The head and the links spell out the free list, which is exactly the nodes marked free. */
  ghost predicate MemoryOk(m: Memory) {
    && |m.place| == |m.arena|
    && Distinct(m.free)
    && m.head.node == Link(m.free, 0)
    && (forall k :: 0 <= k < |m.free| ==> NodeOk(m, k))
    && (forall i :: 0 <= i < |m.place| && m.place[i] == Free ==> i in m.free)
  }

  /** The k-th free node is marked free and links to the next. */
  ghost predicate NodeOk(m: Memory, k: nat)
    requires |m.place| == |m.arena| && k < |m.free|
  {
    var n := m.free[k];
    n < |m.arena| && m.place[n] == Free && m.arena[n] == Cell(Link(m.free, k + 1), false)
  }

  /** A remembered head is older than the current one unless it is the current one. */
  predicate OldOk(m: Memory, seen: Head) {
    seen.count <= m.head.count && (seen.count == m.head.count ==> seen == m.head)
  }

  ghost predicate ThreadOk(m: Memory, t: Tid, pc: Pc)
    requires MemoryOk(m)
  {
    match pc
    case GetRead(seen) => OldOk(m, seen) && seen.node.Node?
    case GetSwap(seen, next) => OldOk(m, seen) && seen.node.Node? && (seen == m.head ==> next == Link(m.free, 1))
    case PutLoad(n) => InHand(m, t, n)
    case PutWrite(n, seen) => InHand(m, t, n) && OldOk(m, seen)
    case PutWriting(n, seen) => InHand(m, t, n) && OldOk(m, seen)
    case PutSwap(n, seen) => InHand(m, t, n) && OldOk(m, seen) && m.arena[n] == Cell(seen.node, false)
    case _ => true
  }

  ghost predicate InHand(m: Memory, t: Tid, n: nat)
    requires MemoryOk(m)
  {
    n < |m.place| && m.place[n] == Releasing(t)
  }

  predicate Releases(pc: Pc, n: nat) {
    (pc.PutLoad? || pc.PutWrite? || pc.PutWriting? || pc.PutSwap?) && pc.node == n
  }

  ghost predicate Inv(p: Pool) {
    && MemoryOk(p.m)
    && (forall t :: t in p.threads ==> ThreadOk(p.m, t, p.threads[t]))
    && ReleasersOk(p.m.place, p.threads)
  }

  /** Every node marked as on its way back is in the hands of the thread it names. */
  ghost predicate ReleasersOk(place: seq<Place>, threads: map<Tid, Pc>) {
    forall i :: 0 <= i < |place| && place[i].Releasing? ==>
      place[i].releaser in threads && Releases(threads[place[i].releaser], i)
  }

  lemma InitInv(capacity: nat, threads: set<Tid>)
    requires capacity > 0
    ensures Inv(Init(capacity, threads))
  {
    var m := Init(capacity, threads).m;
    forall i | 0 <= i < capacity
      ensures i in m.free
    {
      assert m.free[i] == i;
    }
  }

  /** A change that leaves the free nodes and the head alone keeps the list. */
  lemma SameList(m: Memory, m': Memory)
    requires MemoryOk(m) && m'.free == m.free && m'.head == m.head
    requires |m'.place| == |m'.arena| == |m.arena|
    requires forall i :: 0 <= i < |m.place| ==> (m'.place[i] == Free <==> m.place[i] == Free)
    requires forall i :: 0 <= i < |m.place| && m.place[i] == Free ==> m'.arena[i] == m.arena[i]
    ensures MemoryOk(m')
  {
    hide Link;
    forall k | 0 <= k < |m'.free|
      ensures NodeOk(m', k)
    {
      assert NodeOk(m, k);
    }
  }

  lemma StoreOk(m: Memory, t: Tid, n: nat, cell: Cell)
    requires MemoryOk(m) && InHand(m, t, n)
    ensures MemoryOk(m.Store(n, cell)) && InHand(m.Store(n, cell), t, n) && m.Store(n, cell).arena[n] == cell
  {
    SameList(m, m.Store(n, cell));
  }

  lemma ReleaseOk(m: Memory, t: Tid, n: nat)
    requires MemoryOk(m) && m.ClientHolds(n)
    ensures MemoryOk(m.Move(n, Releasing(t))) && InHand(m.Move(n, Releasing(t)), t, n)
  {
    SameList(m, m.Move(n, Releasing(t)));
  }

  /** The first free node links to the second. */
  lemma HeadLink(m: Memory, junk: Ptr)
    requires MemoryOk(m) && m.head.node.Node?
    ensures m.free != [] && m.head.node == Node(m.free[0]) && m.Load(m.head.node, junk) == Link(m.free, 1)
  {
    assert NodeOk(m, 0);
  }

  /** Steps that only read. */
  lemma ReadOwn(m: Memory, t: Tid, pc: Pc, c: Choice)
    requires MemoryOk(m) && ThreadOk(m, t, pc) && (pc.GetLoad? || pc.GetRead? || pc.PutLoad?)
    ensures MemoryOk(Step(m, t, pc, c).0)
    ensures ThreadOk(Step(m, t, pc, c).0, t, Step(m, t, pc, c).1)
  {
    hide MemoryOk;
    if pc.GetRead? && pc.seen == m.head { HeadLink(m, c.junk); }
  }

  /** The swap of FindFreeHead. */
  lemma GetOwn(m: Memory, t: Tid, pc: Pc, c: Choice)
    requires MemoryOk(m) && ThreadOk(m, t, pc) && pc.GetSwap?
    ensures MemoryOk(Step(m, t, pc, c).0)
    ensures ThreadOk(Step(m, t, pc, c).0, t, Step(m, t, pc, c).1)
  {
    hide MemoryOk;
    if m.head == pc.seen && !c.spurious {
      HeadLink(m, c.junk);
      PopOk(m, pc.next);
    }
  }

  /** The writes and the swap of ReleaseObject. */
  lemma PutOwn(m: Memory, t: Tid, pc: Pc, c: Choice)
    requires MemoryOk(m) && ThreadOk(m, t, pc) && (pc.PutWrite? || pc.PutWriting? || pc.PutSwap?)
    ensures MemoryOk(Step(m, t, pc, c).0)
    ensures ThreadOk(Step(m, t, pc, c).0, t, Step(m, t, pc, c).1)
  {
    hide MemoryOk;
    match pc
    case PutWrite(n, seen) => StoreOk(m, t, n, Cell(seen.node, true));
    case PutWriting(n, seen) => StoreOk(m, t, n, Cell(seen.node, false));
    case PutSwap(n, seen) =>
      if m.head == seen && !c.spurious { PushOk(m, n); }
  }

  lemma StepOwn(m: Memory, t: Tid, pc: Pc, c: Choice)
    requires MemoryOk(m) && ThreadOk(m, t, pc)
    ensures MemoryOk(Step(m, t, pc, c).0)
    ensures ThreadOk(Step(m, t, pc, c).0, t, Step(m, t, pc, c).1)
  {
    hide MemoryOk, ThreadOk;
    if pc.GetSwap? {
      GetOwn(m, t, pc, c);
    } else if pc.PutWrite? || pc.PutWriting? || pc.PutSwap? {
      PutOwn(m, t, pc, c);
    } else if pc.Idle? {
      IdleOwn(m, t, c);
    } else {
      ReadOwn(m, t, pc, c);
    }
  }

  lemma IdleOwn(m: Memory, t: Tid, c: Choice)
    requires MemoryOk(m)
    ensures MemoryOk(Step(m, t, Idle, c).0)
    ensures ThreadOk(Step(m, t, Idle, c).0, t, Step(m, t, Idle, c).1)
  {
    hide MemoryOk;
    if !c.get && m.ClientHolds(c.node) { ReleaseOk(m, t, c.node); }
  }

  function Popped(m: Memory, next: Ptr): Memory
    requires m.free != []
  {
    m.(head := Head(m.head.count + 1, next), free := m.free[1..]).Move(m.free[0], Held)
  }

  lemma PopOk(m: Memory, next: Ptr)
    requires MemoryOk(m) && m.free != [] && next == Link(m.free, 1)
    ensures MemoryOk(Popped(m, next))
  {
    var m' := Popped(m, next);
    assert NodeOk(m, 0);
    forall k | 0 <= k < |m'.free|
      ensures NodeOk(m', k)
    {
      assert NodeOk(m, k + 1);
      assert m'.free[k] == m.free[k + 1] != m.free[0];
    }
    forall i | 0 <= i < |m'.place| && m'.place[i] == Free
      ensures i in m'.free
    {
      assert m.place[i] == Free;
      var k :| 0 <= k < |m.free| && m.free[k] == i;
      assert m'.free[k - 1] == i;
    }
  }

  function Pushed(m: Memory, n: nat): Memory {
    m.(head := Head(m.head.count + 1, Node(n)), free := [n] + m.free).Move(n, Free)
  }

  lemma PushOk(m: Memory, n: nat)
    requires MemoryOk(m) && n < |m.place| && m.place[n] != Free && m.arena[n] == Cell(m.head.node, false)
    ensures MemoryOk(Pushed(m, n))
  {
    var m' := Pushed(m, n);
    forall k | 0 <= k < |m.free|
      ensures m.free[k] != n
    {
      assert NodeOk(m, k);
    }
    forall k | 0 <= k < |m'.free|
      ensures NodeOk(m', k)
    {
      if k > 0 {
        assert NodeOk(m, k - 1);
        assert m'.free[k] == m.free[k - 1] && Link(m'.free, k + 1) == Link(m.free, k);
      }
    }
    forall i | 0 <= i < |m'.place| && m'.place[i] == Free
      ensures i in m'.free
    {
      if i != n { assert m.place[i] == Free; }
    }
  }

  /** What another thread can notice of a step: the head changes only together with its count, and the
      nodes in other hands are left alone. */
  lemma StepEffect(m: Memory, t: Tid, pc: Pc, c: Choice)
    requires MemoryOk(m) && ThreadOk(m, t, pc)
    ensures var m' := Step(m, t, pc, c).0;
      && (m'.head.count == m.head.count ==> m'.head == m.head && m'.free == m.free)
      && m.head.count <= m'.head.count && |m'.place| == |m.place| && |m'.arena| == |m.arena|
      && (forall i :: 0 <= i < |m.place| && m.place[i].Releasing? && m.place[i].releaser != t ==>
           m'.place[i] == m.place[i] && m'.arena[i] == m.arena[i])
  {
    if pc.GetSwap? && m.head == pc.seen { assert NodeOk(m, 0); }
  }

  lemma StepOther(m: Memory, t: Tid, pc: Pc, c: Choice, u: Tid, other: Pc)
    requires MemoryOk(m) && ThreadOk(m, t, pc) && ThreadOk(m, u, other) && u != t
    requires MemoryOk(Step(m, t, pc, c).0)
    ensures ThreadOk(Step(m, t, pc, c).0, u, other)
  {
    StepEffect(m, t, pc, c);
    hide Step, Distinct;
  }

  lemma StepReleasers(p: Pool, t: Tid, c: Choice)
    requires Inv(p)
    ensures ReleasersOk(Exec(p, t, c).m.place, Exec(p, t, c).threads)
  {
    hide ThreadOk, MemoryOk;
  }

  lemma StepInv(p: Pool, t: Tid, c: Choice)
    requires Inv(p)
    ensures Inv(Exec(p, t, c))
  {
    hide ThreadOk, MemoryOk, ReleasersOk;
    StepReleasers(p, t, c);
    if t in p.threads {
      StepOwn(p.m, t, p.threads[t], c);
      forall u | u in p.threads && u != t
        ensures ThreadOk(Exec(p, t, c).m, u, p.threads[u])
      {
        StepOther(p.m, t, p.threads[t], c, u, p.threads[u]);
      }
    }
  }

  // ----- What clients see

  function FreeSet(m: Memory): set<nat> {
    set i | 0 <= i < |m.place| && m.place[i] == Free
  }

  function HeldSet(m: Memory): set<nat> {
    set i | 0 <= i < |m.place| && m.place[i] == Held
  }

  function InFlight(m: Memory): set<nat> {
    set i | 0 <= i < |m.place| && m.place[i].Releasing?
  }

  function Accounts(m: Memory): Ledger {
    Ledger(FreeSet(m), HeldSet(m))
  }

  /** The effect of one step on who answers for what. */
  lemma StepPlace(p: Pool, t: Tid, c: Choice)
    requires Inv(p)
    ensures var m, m', e := p.m, Exec(p, t, c).m, EventOf(p, t, c);
      match e
      case Silent => m'.place == m.place
      case Got(n) => n < |m.place| && m.place[n] == Free && m'.place == m.place[n := Held]
      case GetFailed => m'.place == m.place && m.free == []
      case Released(n) => n < |m.place| && m.place[n] == Held && m'.place == m.place[n := Releasing(t)]
      case Freed(n) => n < |m.place| && m.place[n] == Releasing(t) && m'.place == m.place[n := Free]
  {
    if t in p.threads {
      assert ThreadOk(p.m, t, p.threads[t]);
      if p.threads[t].GetSwap? && p.m.head == p.threads[t].seen { assert NodeOk(p.m, 0); }
    }
  }

  lemma MoveAccounts(m: Memory, m': Memory, n: nat, to: Place)
    requires n < |m.place| && m'.place == m.place[n := to]
    ensures FreeSet(m') == if to == Free then FreeSet(m) + {n} else FreeSet(m) - {n}
    ensures HeldSet(m') == if to == Held then HeldSet(m) + {n} else HeldSet(m) - {n}
  {
  }

  lemma StepRefines(p: Pool, t: Tid, c: Choice)
    requires Inv(p)
    ensures Inv(Exec(p, t, c))
    ensures Apply(Accounts(p.m), EventOf(p, t, c)) == Some(Accounts(Exec(p, t, c).m))
  {
    hide Exec, EventOf, ThreadOk, MemoryOk, ReleasersOk;
    StepInv(p, t, c);
    StepPlace(p, t, c);
    var m' := Exec(p, t, c).m;
    match EventOf(p, t, c)
    case Silent =>
    case Got(n) => MoveAccounts(p.m, m', n, Held);
    case GetFailed => assert FreeSet(p.m) == {} by { NothingFree(p.m); }
    case Released(n) =>
      MoveAccounts(p.m, m', n, Releasing(t));
      assert FreeSet(p.m) - {n} == FreeSet(p.m);
    case Freed(n) =>
      MoveAccounts(p.m, m', n, Free);
      assert HeldSet(p.m) - {n} == HeldSet(p.m);
  }

  lemma NothingFree(m: Memory)
    requires MemoryOk(m) && m.free == []
    ensures FreeSet(m) == {}
  {
  }

  /**
   Linearizability.  In every interleaving, replaying the events on the ledger is legal: a node handed
   out was free and in nobody's hands, GetObject returns null only when nothing is free, and a release
   is of a held node; and the ledger always agrees with the pool.
   */
  lemma {:induction false} Linearizable(p: Pool, sched: Schedule)
    requires Inv(p)
    ensures Inv(Run(p, sched))
    ensures Replay(Accounts(p.m), History(p, sched)) == Some(Accounts(Run(p, sched).m))
    decreases |sched|
  {
    hide Exec, EventOf, Inv, Accounts, Apply;
    if sched != [] {
      var (t, c) := sched[0];
      StepRefines(p, t, c);
      Linearizable(Exec(p, t, c), sched[1..]);
      assert History(p, sched)[1..] == History(Exec(p, t, c), sched[1..]);
    }
  }

  /** A path that follows the links from `p` to null, none of them being written. */
  ghost predicate IsPath(m: Memory, p: Ptr, path: seq<nat>)
    decreases |path|
  {
    if path == [] then p == Null else
      && p == Node(path[0]) && path[0] < |m.arena| && !m.arena[path[0]].writing
      && IsPath(m, m.arena[path[0]].next, path[1..])
  }

  lemma {:induction false} PathUnique(m: Memory, p: Ptr, a: seq<nat>, b: seq<nat>)
    requires IsPath(m, p, a) && IsPath(m, p, b)
    ensures a == b
    decreases |a|
  {
    if a != [] {
      PathUnique(m, m.arena[a[0]].next, a[1..], b[1..]);
      assert a == [a[0]] + a[1..] && b == [b[0]] + b[1..];
    }
  }

  lemma {:induction false} FreeIsPath(m: Memory, k: nat)
    requires MemoryOk(m) && k <= |m.free|
    ensures IsPath(m, Link(m.free, k), m.free[k..])
    decreases |m.free| - k
  {
    if k < |m.free| {
      assert NodeOk(m, k);
      FreeIsPath(m, k + 1);
      assert m.free[k..][1..] == m.free[k + 1..];
    }
  }

  /**
   The shape of the heap in every reachable state.  The links lead from the head to null along a unique
   path without repetition; that path is exactly the free nodes; and the arena is split between the
   path, the clients and the threads giving a node back, so nothing leaks and nothing is in two hands.
   */
  lemma FreeListShape(capacity: nat, threads: set<Tid>, sched: Schedule) returns (path: seq<nat>)
    requires capacity > 0
    ensures var p := Run(Init(capacity, threads), sched);
      && IsPath(p.m, p.m.head.node, path) && Distinct(path)
      && (forall other :: IsPath(p.m, p.m.head.node, other) ==> other == path)
      && |p.m.place| == |p.m.arena| == capacity
      && (forall i: nat :: i in path <==> i in FreeSet(p.m))
      && |path| + |HeldSet(p.m)| + |InFlight(p.m)| == capacity
      && (forall i :: i in InFlight(p.m) ==> exists t :: t in p.threads && Releases(p.threads[t], i))
      && (forall t, u, i :: t in p.threads && u in p.threads ==>
            Releases(p.threads[t], i) && Releases(p.threads[u], i) ==> t == u)
  {
    InitInv(capacity, threads);
    var p := Run(Init(capacity, threads), sched);
    Linearizable(Init(capacity, threads), sched);
    RunCapacity(Init(capacity, threads), sched);
    path := p.m.free;
    FreeIsPath(p.m, 0);
    assert p.m.free[0..] == p.m.free;
    forall other | IsPath(p.m, p.m.head.node, other)
      ensures other == path
    {
      PathUnique(p.m, p.m.head.node, other, path);
    }
    Conservation(p.m);
    HandsDisjoint(p);
  }

  lemma {:induction false} RunCapacity(p: Pool, sched: Schedule)
    ensures |Run(p, sched).m.arena| == |p.m.arena| && |Run(p, sched).m.place| == |p.m.place|
    decreases |sched|
  {
    if sched != [] {
      RunCapacity(Exec(p, sched[0].0, sched[0].1), sched[1..]);
    }
  }

  lemma HandsDisjoint(p: Pool)
    requires Inv(p)
    ensures forall i :: i in InFlight(p.m) ==> exists t :: t in p.threads && Releases(p.threads[t], i)
    ensures forall t, u, i :: t in p.threads && u in p.threads ==>
              Releases(p.threads[t], i) && Releases(p.threads[u], i) ==> t == u
  {
    forall t, i | t in p.threads && Releases(p.threads[t], i)
      ensures InHand(p.m, t, i)
    {
      assert ThreadOk(p.m, t, p.threads[t]);
    }
  }

  function Elements(s: seq<nat>): set<nat> {
    set x | x in s
  }

  lemma {:induction false} DistinctSize(s: seq<nat>)
    requires Distinct(s)
    ensures |Elements(s)| == |s|
    decreases |s|
  {
    if s != [] {
      DistinctSize(s[1..]);
      assert Elements(s) == {s[0]} + Elements(s[1..]);
    }
  }

  lemma FreeElements(m: Memory)
    requires MemoryOk(m)
    ensures Elements(m.free) == FreeSet(m) && |FreeSet(m)| == |m.free|
  {
    DistinctSize(m.free);
    forall k | 0 <= k < |m.free|
      ensures m.free[k] in FreeSet(m)
    {
      assert NodeOk(m, k);
    }
  }

  lemma LastPlace(m: Memory, m': Memory, n: nat)
    requires n + 1 == |m.place| && m'.place == m.place[..n]
    ensures FreeSet(m) == if m.place[n] == Free then FreeSet(m') + {n} else FreeSet(m')
    ensures HeldSet(m) == if m.place[n] == Held then HeldSet(m') + {n} else HeldSet(m')
    ensures InFlight(m) == if m.place[n].Releasing? then InFlight(m') + {n} else InFlight(m')
  {
    forall i: nat
      ensures i in FreeSet(m) <==> i in FreeSet(m') || (i == n && m.place[n] == Free)
      ensures i in HeldSet(m) <==> i in HeldSet(m') || (i == n && m.place[n] == Held)
      ensures i in InFlight(m) <==> i in InFlight(m') || (i == n && m.place[n].Releasing?)
    {
      if i < n { assert m'.place[i] == m.place[i]; }
    }
  }

  lemma {:induction false} CountPlaces(m: Memory)
    ensures |FreeSet(m)| + |HeldSet(m)| + |InFlight(m)| == |m.place|
    decreases |m.place|
  {
    if m.place != [] {
      var n := |m.place| - 1;
      var m' := m.(place := m.place[..n]);
      CountPlaces(m');
      LastPlace(m, m', n);
    }
  }

  lemma Conservation(m: Memory)
    requires MemoryOk(m)
    ensures |m.free| + |HeldSet(m)| + |InFlight(m)| == |m.arena|
    ensures forall i: nat :: i in m.free <==> i in FreeSet(m)
  {
    FreeElements(m);
    CountPlaces(m);
    assert forall i: nat :: i in m.free <==> i in Elements(m.free);
  }

  // ----- Progress

  /** A swap loses only to a spurious failure or to another thread that completed in the meantime. */
  lemma SwapLosesOnlyToProgress(p: Pool, t: Tid)
    requires Inv(p) && t in p.threads && (p.threads[t].GetSwap? || p.threads[t].PutSwap?)
    requires p.m.head != p.threads[t].seen
    ensures p.threads[t].seen.count < p.m.head.count
  {
    assert ThreadOk(p.m, t, p.threads[t]);
  }

  /** `n` steps of one thread. */
  function Solo(p: Pool, t: Tid, c: Choice, n: nat): Pool
    decreases n
  {
    if n == 0 then p else Solo(Exec(p, t, c), t, c, n - 1)
  }

  /** An undisturbed GetObject on a non-empty pool takes the first free node. */
  lemma SoloGet(p: Pool, t: Tid, c: Choice)
    requires Inv(p) && t in p.threads && p.threads[t] == Idle && c.get && !c.spurious && p.m.free != []
    ensures Solo(p, t, c, 4).threads == p.threads
    ensures Solo(p, t, c, 4).m == Popped(p.m, Link(p.m.free, 1))
  {
    var head := p.m.head;
    HeadLink(p.m, c.junk);
    var p1 := Pool(p.m, p.threads[t := GetLoad]);
    var p2 := Pool(p.m, p.threads[t := GetRead(head)]);
    var p3 := Pool(p.m, p.threads[t := GetSwap(head, Link(p.m.free, 1))]);
    assert Exec(p, t, c) == p1;
    assert Exec(p1, t, c) == p2 by { assert p1.threads[t := GetRead(head)] == p2.threads; }
    assert Exec(p2, t, c) == p3 by { assert p2.threads[t := GetSwap(head, Link(p.m.free, 1))] == p3.threads; }
    assert p3.threads[t := Idle] == p.threads;
    assert Solo(p, t, c, 4) == Exec(p3, t, c);
  }

  /** An undisturbed release puts the node first in the free list; after SoloGet it restores the list. */
  lemma SoloRelease(p: Pool, t: Tid, c: Choice)
    requires Inv(p) && t in p.threads && p.threads[t] == Idle && !c.get && !c.spurious && p.m.ClientHolds(c.node)
    ensures Solo(p, t, c, 5).threads == p.threads
    ensures Solo(p, t, c, 5).m == Pushed(p.m.Store(c.node, Cell(p.m.head.node, false)), c.node)
  {
    var m, n, head := p.m, c.node, p.m.head;
    var m1 := m.Move(n, Releasing(t));
    var m3 := m1.Store(n, Cell(head.node, true));
    var m4 := m3.Store(n, Cell(head.node, false));
    var p1 := Pool(m1, p.threads[t := PutLoad(n)]);
    var p2 := Pool(m1, p.threads[t := PutWrite(n, head)]);
    var p3 := Pool(m3, p.threads[t := PutWriting(n, head)]);
    var p4 := Pool(m4, p.threads[t := PutSwap(n, head)]);
    assert Exec(p, t, c) == p1;
    assert Exec(p1, t, c) == p2 by { assert p1.threads[t := PutWrite(n, head)] == p2.threads; }
    assert Exec(p2, t, c) == p3 by { assert p2.threads[t := PutWriting(n, head)] == p3.threads; }
    assert Exec(p3, t, c) == p4 by { assert p3.threads[t := PutSwap(n, head)] == p4.threads; }
    assert p4.threads[t := Idle] == p.threads;
    assert m4.arena == m.arena[n := Cell(head.node, false)];
    assert m4.(free := [n] + m.free).Move(n, Free).place == m.place[n := Free];
    assert Solo(p, t, c, 5) == Exec(p4, t, c);
  }

  /** On an empty pool an undisturbed GetObject returns null and changes nothing. */
  lemma SoloGetEmpty(p: Pool, t: Tid, c: Choice)
    requires Inv(p) && t in p.threads && p.threads[t] == Idle && c.get && p.m.free == []
    ensures Solo(p, t, c, 2) == p && EventOf(Solo(p, t, c, 1), t, c) == GetFailed
  {
    var p1 := Exec(p, t, c);
    assert Solo(p, t, c, 1) == p1;
    assert Exec(p1, t, c).threads == p.threads;
    assert Solo(p, t, c, 2) == Exec(p1, t, c);
  }

  // ----- Calls and their answers

  datatype Status = NoCall | Getting | Putting(node: nat)

  function StatusOf(pc: Pc): Status {
    match pc
    case Idle => NoCall
    case PutLoad(n) => Putting(n)
    case PutWrite(n, _) => Putting(n)
    case PutWriting(n, _) => Putting(n)
    case PutSwap(n, _) => Putting(n)
    case _ => Getting
  }

  /** The event `e` of a thread's own step is right for what it is in the middle of, and leads to `next`.  GetObject
      ends only with a node or null, a release only with its own node back in the pool. */
  ghost predicate Answers(st: Status, c: Choice, e: Event, next: Status) {
    match st
    case NoCall =>
      || (c.get && e == Silent && next == Getting)
      || (!c.get && e == Released(c.node) && next == Putting(c.node))
      || (!c.get && e == Silent && next == NoCall)
    case Getting => (e == Silent && next == st) || ((e.Got? || e == GetFailed) && next == NoCall)
    case Putting(n) => (e == Silent && next == st) || (e == Freed(n) && next == NoCall)
  }

  lemma StepAnswers(p: Pool, t: Tid, c: Choice)
    requires Inv(p) && t in p.threads
    ensures Answers(StatusOf(p.threads[t]), c, EventOf(p, t, c), StatusOf(Exec(p, t, c).threads[t]))
    ensures p.threads[t].Idle? && !c.get ==>
              (EventOf(p, t, c).Released? <==> c.node < |p.m.place| && p.m.place[c.node] == Held)
    ensures forall u :: u in p.threads && u != t ==> Exec(p, t, c).threads[u] == p.threads[u]
  {
    assert ThreadOk(p.m, t, p.threads[t]);
    hide MemoryOk;
  }

  ghost predicate AllAnswered(sts: seq<Status>, sched: Schedule, history: seq<Event>, t: Tid) {
    && |sts| == |sched| + 1 && |history| == |sched|
    && forall i :: 0 <= i < |sched| ==> AnsweredAt(sts, sched, history, t, i)
  }

  ghost predicate AnsweredAt(sts: seq<Status>, sched: Schedule, history: seq<Event>, t: Tid, i: nat)
    requires i < |sched| && |sts| == |sched| + 1 && |history| == |sched|
  {
    if sched[i].0 == t then Answers(sts[i], sched[i].1, history[i], sts[i + 1]) else sts[i + 1] == sts[i]
  }

  /** In every schedule each call is answered: a thread stays inside it until a step whose event is its answer. */
  lemma {:induction false} EveryCallIsAnswered(p: Pool, sched: Schedule, t: Tid) returns (sts: seq<Status>)
    requires Inv(p) && t in p.threads
    ensures t in Run(p, sched).threads && AllAnswered(sts, sched, History(p, sched), t)
    ensures sts[0] == StatusOf(p.threads[t]) && sts[|sched|] == StatusOf(Run(p, sched).threads[t])
    decreases |sched|
  {
    hide Exec, EventOf, Answers, StatusOf, Inv;
    if sched == [] {
      sts := [StatusOf(p.threads[t])];
    } else {
      var (u, c) := sched[0];
      var p' := Exec(p, u, c);
      KeepsThreads(p, u, c);
      StepInv(p, u, c);
      if u in p.threads { StepAnswers(p, u, c); }
      var rest := EveryCallIsAnswered(p', sched[1..], t);
      sts := [StatusOf(p.threads[t])] + rest;
      var history := History(p, sched);
      assert history == [EventOf(p, u, c)] + History(p', sched[1..]);
      forall i | 0 <= i < |sched|
        ensures AnsweredAt(sts, sched, history, t, i)
      {
        if i > 0 {
          var j := i - 1;
          assert AnsweredAt(rest, sched[1..], History(p', sched[1..]), t, j);
        }
      }
    }
  }

  lemma KeepsThreads(p: Pool, t: Tid, c: Choice)
    ensures Exec(p, t, c).threads.Keys == p.threads.Keys
    ensures t !in p.threads ==> Exec(p, t, c) == p
  {
    hide Step;
  }

  /** How many steps a thread is from the end of its call, if it is not disturbed. */
  function StepsLeft(m: Memory, pc: Pc): nat {
    match pc
    case Idle => 0
    case GetLoad => 3
    case GetRead(seen) => if seen == m.head then 2 else 4
    case GetSwap(seen, _) => if seen == m.head then 1 else 3
    case PutLoad(_) => 4
    case PutWrite(_, seen) => if seen == m.head then 3 else 6
    case PutWriting(_, seen) => if seen == m.head then 2 else 5
    case PutSwap(_, seen) => if seen == m.head then 1 else 4
  }

  lemma OneStepLess(p: Pool, t: Tid, c: Choice)
    requires Inv(p) && t in p.threads && !c.spurious && !p.threads[t].Idle?
    ensures var p' := Exec(p, t, c);
      t in p'.threads && StepsLeft(p'.m, p'.threads[t]) < StepsLeft(p.m, p.threads[t])
  {
    assert ThreadOk(p.m, t, p.threads[t]);
    hide MemoryOk;
  }

  /** A thread that is disturbed by nobody finishes its call from wherever it is. */
  lemma {:induction false} ObstructionFree(p: Pool, t: Tid, c: Choice) returns (n: nat)
    requires Inv(p) && t in p.threads && !c.spurious
    ensures n <= StepsLeft(p.m, p.threads[t]) <= 6
    ensures t in Solo(p, t, c, n).threads && Solo(p, t, c, n).threads[t].Idle?
    decreases StepsLeft(p.m, p.threads[t])
  {
    hide Exec, Inv;
    if p.threads[t].Idle? {
      n := 0;
    } else {
      OneStepLess(p, t, c);
      StepInv(p, t, c);
      var k := ObstructionFree(Exec(p, t, c), t, c);
      n := k + 1;
    }
  }
}
