/**
 The insert-only hash map of cyber/base/atomic_hash_map.h: a table of buckets, each a linked list
 sorted by key, changed only by compare-and-swap on `next` and `value_ptr`.

 Has, Get and Insert run in any number of threads; each atomic load, store and swap is one step.
 Entries and values live in growing arenas and are never reclaimed.
 */
module AtomicHashMap {
  import opened Options
  import Masks

  type Tid = nat

  datatype Ptr = Null | To(i: nat)

  /** `maker` is history: the thread that allocated the entry. */
  datatype Entry = Entry(key: nat, value: nat, next: Ptr, maker: Tid)

  /** A call.  Put carries the entry and the value cell it has allocated so far. */
  datatype Op<V> =
    | Has(key: nat)
    | Get(key: nat)
    | Put(key: nat, val: V, newEntry: Ptr, newValue: Ptr)

  datatype Pc<V> =
    | Idle
    | Seek(op: Op<V>, prev: nat)
    | LoadValue(op: Op<V>, target: nat)
    | SwapValue(op: Op<V>, target: nat, seen: nat)
    | SetNext(op: Op<V>, prev: nat, after: Ptr)
    | LinkIn(op: Op<V>, prev: nat, after: Ptr)

  /** The first `size` entries are the bucket sentinels.  `published` is history: the entries that have
      been linked in. */
  datatype Memory<V> = Memory(size: nat, entries: seq<Entry>, values: seq<V>, published: set<nat>)
  {
    predicate Sized() {
      Admitted(size) && size <= |entries|
    }

    function At(i: nat): Entry {
      if i < |entries| then entries[i] else Entry(0, 0, Null, 0)
    }

    function Update(i: nat, e: Entry): (m: Memory<V>)
      ensures m.size == size && |m.entries| == |entries|
    {
      if i < |entries| then this.(entries := entries[i := e]) else this
    }
  }

  /** The template's guard on TableSize. */
  predicate Admitted(size: nat) {
    size > 0 && Masks.And(size, size - 1) == 0
  }

  /** The index of a key's bucket: `key & mode_num_`. */
  function Bucket(key: nat, size: nat): (b: nat)
    requires Admitted(size)
    ensures b < size
  {
    Masks.MaskIsModulo(key, size);
    Masks.And(key, size - 1)
  }

  datatype Table<V> = Table(m: Memory<V>, threads: map<Tid, Pc<V>>)

  function Init<V>(size: nat, threads: set<Tid>): (s: Table<V>)
    requires Admitted(size)
    ensures s.m.Sized()
  {
    Table(Memory(size, seq(size, _ => Entry(0, 0, Null, 0)), [], {}),
          map t | t in threads :: Idle)
  }

  /** Find's verdict on the entry after `prev`. */
  predicate Passes<V>(m: Memory<V>, after: Ptr, key: nat) {
    after.To? && m.At(after.i).key < key
  }

  predicate Hits<V>(m: Memory<V>, after: Ptr, key: nat) {
    after.To? && m.At(after.i).key == key
  }

  /** One step.  An idle thread starts `call`. */
  function Step<V>(m: Memory<V>, t: Tid, pc: Pc<V>, call: Op<V>): (r: (Memory<V>, Pc<V>))
    requires m.Sized()
    ensures r.0.Sized()
  {
    match pc
    case Idle => (m, Seek(if call.Put? then Put(call.key, call.val, Null, Null) else call, Bucket(call.key, m.size)))
    case Seek(op, prev) =>
      var after := m.At(prev).next;
      if Passes(m, after, op.key) then (m, Seek(op, after.i))
      else if op.Has? then (m, Idle)
      else if Hits(m, after, op.key) then (m, LoadValue(op, after.i))
      else if op.Get? then (m, Idle)
      else (m, SetNext(op, prev, after))
    case LoadValue(op, target) =>
      if !op.Put? then (m, Idle)
      else if op.newValue.To? then (m, SwapValue(op, target, m.At(target).value))
      else (m.(values := m.values + [op.val]), SwapValue(op.(newValue := To(|m.values|)), target, m.At(target).value))
    case SwapValue(op, target, seen) =>
      if op.Put? && op.newValue.To? && m.At(target).value == seen
      then (m.Update(target, m.At(target).(value := op.newValue.i)), Idle)
      else (m, Seek(op, Bucket(op.key, m.size)))
    case SetNext(op, prev, after) =>
      if !op.Put? then (m, Idle)
      else if op.newEntry.To?
      then (m.Update(op.newEntry.i, m.At(op.newEntry.i).(next := after)), LinkIn(op, prev, after))
      else (m.(entries := m.entries + [Entry(op.key, |m.values|, after, t)], values := m.values + [op.val]),
            LinkIn(op.(newEntry := To(|m.entries|)), prev, after))
    case LinkIn(op, prev, after) =>
      if op.Put? && op.newEntry.To? && m.At(prev).next == after
      then (m.Update(prev, m.At(prev).(next := op.newEntry)).(published := m.published + {op.newEntry.i}), Idle)
      else (m, Seek(op, Bucket(op.key, m.size)))
  }

  function Exec<V>(s: Table<V>, t: Tid, call: Op<V>): (s': Table<V>)
    requires s.m.Sized()
    ensures s'.m.Sized()
  {
    if t !in s.threads then s else
      var (m, pc) := Step(s.m, t, s.threads[t], call);
      Table(m, s.threads[t := pc])
  }

  /** What a step means to callers: a Set taking effect, and the answers of Get and Has. */
  datatype Event<V> = Silent | DidSet(key: nat, val: V) | Found(key: nat, val: V) | Present(key: nat) | Absent(key: nat)

  function EventOf<V>(s: Table<V>, t: Tid): Event<V>
    requires s.m.Sized()
  {
    if t !in s.threads then Silent else
    var m := s.m;
    match s.threads[t]
    case Seek(op, prev) =>
      var after := m.At(prev).next;
      if Passes(m, after, op.key) || op.Put? then Silent
      else if Hits(m, after, op.key) then (if op.Has? then Present(op.key) else Silent)
      else Absent(op.key)
    case LoadValue(op, target) =>
      if op.Get? && m.At(target).value < |m.values| then Found(op.key, m.values[m.At(target).value]) else Silent
    case SwapValue(op, target, seen) =>
      if op.Put? && op.newValue.To? && m.At(target).value == seen then DidSet(op.key, op.val) else Silent
    case LinkIn(op, prev, after) =>
      if op.Put? && op.newEntry.To? && m.At(prev).next == after then DidSet(op.key, op.val) else Silent
    case _ => Silent
  }

  type Schedule<V> = seq<(Tid, Op<V>)>

  function Run<V>(s: Table<V>, sched: Schedule<V>): (s': Table<V>)
    requires s.m.Sized()
    ensures s'.m.Sized()
    decreases |sched|
  {
    if sched == [] then s else Run(Exec(s, sched[0].0, sched[0].1), sched[1..])
  }

  function History<V>(s: Table<V>, sched: Schedule<V>): seq<Event<V>>
    requires s.m.Sized()
    decreases |sched|
  {
    if sched == [] then [] else
      [EventOf(s, sched[0].0)] + History(Exec(s, sched[0].0, sched[0].1), sched[1..])
  }

  // ----- The mathematical map

  function Apply<V(==)>(f: map<nat, V>, e: Event<V>): Option<map<nat, V>> {
    match e
    case Silent => Some(f)
    case DidSet(k, v) => Some(f[k := v])
    case Found(k, v) => if k in f && f[k] == v then Some(f) else None
    case Present(k) => if k in f then Some(f) else None
    case Absent(k) => if k !in f then Some(f) else None
  }

  function Replay<V(==)>(f: map<nat, V>, history: seq<Event<V>>): Option<map<nat, V>>
    decreases |history|
  {
    if history == [] then Some(f) else
    match Apply(f, history[0])
    case None => None
    case Some(next) => Replay(next, history[1..])
  }

  // ----- The invariant

  /** Sentinels come before every key. */
  function Rank<V>(m: Memory<V>, e: nat): int {
    if e < m.size then -1 else m.At(e).key
  }

  function Home<V>(m: Memory<V>, e: nat): nat
    requires m.Sized()
  {
    if e < m.size then e else Bucket(m.At(e).key, m.size)
  }

  /** In every bucket, `next` leads to the published entry with the next larger key, and no key is
      published twice: a local statement about each entry from which the shape of the list follows. */
  ghost predicate MemoryOk<V>(m: Memory<V>) {
    && m.Sized()
    && (forall e :: e in m.published ==> m.size <= e && m.At(e).value < |m.values|)
    && (forall e: nat :: InList(m, e) ==> EntryOk(m, e))
    && (forall e: nat, f: nat :: InList(m, e) && InList(m, f) ==> PairOk(m, e, f))
  }

  predicate InList<V>(m: Memory<V>, e: nat) {
    e < m.size || e in m.published
  }

  ghost predicate PairOk<V>(m: Memory<V>, e: nat, f: nat)
    requires m.Sized()
  {
    Home(m, e) == Home(m, f) ==>
      && (Rank(m, e) == Rank(m, f) ==> e == f)
      && (Rank(m, e) < Rank(m, f) ==> m.At(e).next.To? && Rank(m, m.At(e).next.i) <= Rank(m, f))
  }

  ghost predicate EntryOk<V>(m: Memory<V>, e: nat)
    requires m.Sized()
  {
    && e < |m.entries|
    && (m.At(e).next.To? ==>
          var f := m.At(e).next.i; f in m.published && Home(m, f) == Home(m, e) && Rank(m, e) < Rank(m, f))
  }

  ghost predicate OpOk<V>(m: Memory<V>, t: Tid, op: Op<V>)
    requires m.Sized()
  {
    op.Put? ==>
      && (op.newEntry.To? ==> Private(m, t, op, op.newEntry.i))
      && (op.newValue.To? ==> op.newValue.i < |m.values| && m.values[op.newValue.i] == op.val)
  }

  ghost predicate Private<V>(m: Memory<V>, t: Tid, op: Op<V>, e: nat)
    requires m.Sized() && op.Put?
  {
    && m.size <= e < |m.entries| && e !in m.published
    && m.At(e).maker == t && m.At(e).key == op.key
    && m.At(e).value < |m.values| && m.values[m.At(e).value] == op.val
  }

  ghost predicate Before<V>(m: Memory<V>, prev: nat, key: nat)
    requires m.Sized()
  {
    InList(m, prev) && Home(m, prev) == Bucket(key, m.size) && Rank(m, prev) < key
  }

  ghost predicate After<V>(m: Memory<V>, after: Ptr, key: nat)
    requires m.Sized()
  {
    after.To? ==> after.i in m.published && Home(m, after.i) == Bucket(key, m.size) && m.At(after.i).key > key
  }

  ghost predicate ThreadOk<V>(m: Memory<V>, t: Tid, pc: Pc<V>)
    requires MemoryOk(m)
  {
    match pc
    case Idle => true
    case Seek(op, prev) => OpOk(m, t, op) && Before(m, prev, op.key)
    case LoadValue(op, target) => OpOk(m, t, op) && !op.Has? && target in m.published && m.At(target).key == op.key
    case SwapValue(op, target, _) =>
      OpOk(m, t, op) && op.Put? && op.newValue.To? && target in m.published && m.At(target).key == op.key
    case SetNext(op, prev, after) => OpOk(m, t, op) && op.Put? && Before(m, prev, op.key) && After(m, after, op.key)
    case LinkIn(op, prev, after) =>
      && OpOk(m, t, op) && op.Put? && Before(m, prev, op.key) && After(m, after, op.key)
      && op.newEntry.To? && m.At(op.newEntry.i).next == after
  }

  ghost predicate Inv<V>(s: Table<V>) {
    && MemoryOk(s.m)
    && (forall t :: t in s.threads ==> ThreadOk(s.m, t, s.threads[t]))
  }

  lemma InitInv<V>(size: nat, threads: set<Tid>)
    requires Admitted(size)
    ensures Inv(Init<V>(size, threads))
  {
  }

  /** What every step keeps of the past: published entries stay, with their keys; values stay. */
  ghost predicate Grows<V>(m: Memory<V>, m': Memory<V>) {
    && m.size == m'.size && |m.entries| <= |m'.entries| && m.values <= m'.values
    && m.published <= m'.published
    && (forall e: nat :: e < |m.entries| ==> m'.At(e).key == m.At(e).key && m'.At(e).maker == m.At(e).maker)
  }

  lemma StepGrows<V>(m: Memory<V>, t: Tid, pc: Pc<V>, call: Op<V>)
    requires m.Sized()
    ensures Grows(m, Step(m, t, pc, call).0)
  {
  }

  function Linked<V>(m: Memory<V>, prev: nat, n: nat): Memory<V> {
    m.Update(prev, m.At(prev).(next := To(n))).(published := m.published + {n})
  }

  lemma LinkPair<V>(m: Memory<V>, prev: nat, n: nat, e: nat, f: nat)
    requires MemoryOk(m) && m.size <= n < |m.entries| && n !in m.published
    requires Before(m, prev, m.At(n).key) && After(m, m.At(prev).next, m.At(n).key) && m.At(n).next == m.At(prev).next
    requires InList(Linked(m, prev, n), e) && InList(Linked(m, prev, n), f)
    ensures PairOk(Linked(m, prev, n), e, f)
  {
    hide Bucket;
    assert EntryOk(m, prev);
    if InList(m, e) { assert PairOk(m, e, prev) && PairOk(m, prev, e); }
    if InList(m, f) { assert PairOk(m, f, prev) && PairOk(m, prev, f); }
    if InList(m, e) && InList(m, f) { assert PairOk(m, e, f); }
  }

  lemma LinkOk<V>(m: Memory<V>, prev: nat, n: nat)
    requires MemoryOk(m) && m.size <= n < |m.entries| && n !in m.published && m.At(n).value < |m.values|
    requires Before(m, prev, m.At(n).key) && After(m, m.At(prev).next, m.At(n).key) && m.At(n).next == m.At(prev).next
    ensures MemoryOk(Linked(m, prev, n))
  {
    hide Bucket, PairOk;
    var m' := Linked(m, prev, n);
    forall e: nat, f: nat | InList(m', e) && InList(m', f)
      ensures PairOk(m', e, f)
    {
      LinkPair(m, prev, n, e, f);
    }
    forall e: nat | InList(m', e)
      ensures EntryOk(m', e)
    {
      assert InList(m, e) ==> EntryOk(m, e);
    }
  }

  /** A change that keeps every listed entry's key, next and home keeps the list in order. */
  lemma KeepsList<V>(m: Memory<V>, m': Memory<V>)
    requires MemoryOk(m) && Grows(m, m') && m'.published == m.published
    requires forall e: nat :: InList(m, e) ==> m'.At(e).next == m.At(e).next
    requires forall e :: e in m.published ==> m'.At(e).value < |m'.values|
    ensures MemoryOk(m')
  {
    hide Bucket;
    forall e: nat | InList(m', e)
      ensures EntryOk(m', e)
    {
      assert EntryOk(m, e);
      assert m.At(e).next.To? ==> EntryOk(m, m.At(e).next.i);
    }
    forall e: nat, f: nat | InList(m', e) && InList(m', f)
      ensures PairOk(m', e, f)
    {
      assert EntryOk(m, e) && EntryOk(m, f) && PairOk(m, e, f);
      assert m.At(e).next.To? ==> EntryOk(m, m.At(e).next.i);
    }
  }

  /** What a thread knows about listed entries survives growth. */
  lemma KeepsPlace<V>(m: Memory<V>, m': Memory<V>, prev: nat, after: Ptr, key: nat)
    requires MemoryOk(m) && Grows(m, m')
    ensures Before(m, prev, key) ==> Before(m', prev, key)
    ensures After(m, after, key) ==> After(m', after, key)
  {
    hide Bucket, PairOk;
    assert InList(m, prev) ==> EntryOk(m, prev);
    assert after.To? && InList(m, after.i) ==> EntryOk(m, after.i);
  }

  /** What a thread knows about its own entry and value survives growth that leaves them alone. */
  lemma KeepsOp<V>(m: Memory<V>, m': Memory<V>, t: Tid, op: Op<V>)
    requires m.Sized() && Grows(m, m') && OpOk(m, t, op)
    requires op.Put? && op.newEntry.To? ==>
      op.newEntry.i !in m'.published && m'.At(op.newEntry.i).value == m.At(op.newEntry.i).value
    ensures OpOk(m', t, op)
  {
  }

  lemma SetNextOk<V>(m: Memory<V>, t: Tid, op: Op<V>, prev: nat, after: Ptr, call: Op<V>)
    requires MemoryOk(m) && ThreadOk(m, t, SetNext(op, prev, after))
    ensures var (m', pc') := Step(m, t, SetNext(op, prev, after), call); MemoryOk(m') && ThreadOk(m', t, pc')
  {
    hide Bucket, PairOk, Grows;
    var (m', pc') := Step(m, t, SetNext(op, prev, after), call);
    StepGrows(m, t, SetNext(op, prev, after), call);
    KeepsList(m, m');
    hide EntryOk;
    forall e | e in m.published
      ensures e < |m.entries|
    {
      assert InList(m, e);
      Ranged(m, e);
    }
    KeepsPlace(m, m', prev, after, op.key);
    KeepsOp(m, m', t, op);
    assert OpOk(m', t, pc'.op);
  }

  lemma StepOwn<V>(m: Memory<V>, t: Tid, pc: Pc<V>, call: Op<V>)
    requires MemoryOk(m) && ThreadOk(m, t, pc)
    ensures MemoryOk(Step(m, t, pc, call).0)
    ensures ThreadOk(Step(m, t, pc, call).0, t, Step(m, t, pc, call).1)
  {
    hide Bucket, PairOk, Grows;
    StepGrows(m, t, pc, call);
    var m' := Step(m, t, pc, call).0;
    match pc
    case Idle =>
    case Seek(op, prev) => assert EntryOk(m, prev);
    case LoadValue(op, target) =>
      KeepsList(m, m');
      KeepsOp(m, m', t, op);
    case SwapValue(op, target, _) =>
      KeepsList(m, m');
      KeepsOp(m, m', t, op);
    case SetNext(op, prev, after) => SetNextOk(m, t, op, prev, after, call);
    case LinkIn(op, prev, after) =>
      assert EntryOk(m, prev);
      if m.At(prev).next == after { LinkOk(m, prev, op.newEntry.i); }
  }

  /** A step leaves the unpublished entries of other threads alone. */
  lemma StepPrivate<V>(m: Memory<V>, t: Tid, pc: Pc<V>, call: Op<V>, e: nat)
    requires MemoryOk(m) && ThreadOk(m, t, pc)
    requires m.size <= e < |m.entries| && e !in m.published && m.At(e).maker != t
    ensures e !in Step(m, t, pc, call).0.published && Step(m, t, pc, call).0.At(e) == m.At(e)
  {
    hide Bucket, PairOk;
  }

  lemma StepOther<V>(m: Memory<V>, t: Tid, pc: Pc<V>, call: Op<V>, u: Tid, other: Pc<V>)
    requires MemoryOk(m) && ThreadOk(m, t, pc) && ThreadOk(m, u, other) && u != t
    requires MemoryOk(Step(m, t, pc, call).0)
    ensures ThreadOk(Step(m, t, pc, call).0, u, other)
  {
    hide Bucket, PairOk, Step;
    StepGrows(m, t, pc, call);
    var m' := Step(m, t, pc, call).0;
    if !other.Idle? {
      if other.op.Put? && other.op.newEntry.To? { StepPrivate(m, t, pc, call, other.op.newEntry.i); }
      KeepsOp(m, m', u, other.op);
      match other
      case Seek(op, prev) => KeepsPlace(m, m', prev, Null, op.key);
      case SetNext(op, prev, after) => KeepsPlace(m, m', prev, after, op.key);
      case LinkIn(op, prev, after) => KeepsPlace(m, m', prev, after, op.key);
      case LoadValue(op, target) => assert EntryOk(m, target);
      case SwapValue(op, target, _) => assert EntryOk(m, target);
    }
  }

  lemma StepInv<V>(s: Table<V>, t: Tid, call: Op<V>)
    requires Inv(s)
    ensures Inv(Exec(s, t, call))
  {
    hide EntryOk, PairOk, ThreadOk, Step;
    if t in s.threads {
      StepOwn(s.m, t, s.threads[t], call);
      forall u | u in s.threads && u != t
        ensures ThreadOk(Exec(s, t, call).m, u, s.threads[u])
      {
        StepOther(s.m, t, s.threads[t], call, u, s.threads[u]);
      }
    }
  }

  // ----- What callers see

  /** The published entries are the graph of `f`. */
  ghost predicate Represents<V>(m: Memory<V>, f: map<nat, V>)
    requires MemoryOk(m)
  {
    && (forall e :: e in m.published ==> m.At(e).key in f && f[m.At(e).key] == m.values[m.At(e).value])
    && (forall k :: k in f ==> HasKey(m, k))
  }

  ghost predicate HasKey<V>(m: Memory<V>, key: nat) {
    exists e :: e in m.published && m.At(e).key == key
  }

  /** The entry after `prev` settles whether the key is present at all. */
  lemma SeekSettles<V>(m: Memory<V>, prev: nat, key: nat)
    requires MemoryOk(m) && Before(m, prev, key) && !Passes(m, m.At(prev).next, key)
    ensures Hits(m, m.At(prev).next, key) <==> HasKey(m, key)
  {
    hide Bucket;
    assert EntryOk(m, prev);
    forall e | e in m.published && m.At(e).key == key
      ensures Hits(m, m.At(prev).next, key)
    {
      assert InList(m, e) && PairOk(m, prev, e);
    }
  }

  /** Growth that changes no listed value leaves the represented map alone. */
  lemma SameMap<V>(m: Memory<V>, m': Memory<V>, f: map<nat, V>)
    requires MemoryOk(m) && MemoryOk(m') && Grows(m, m') && Represents(m, f) && m'.published == m.published
    requires forall e :: e in m.published ==> m'.At(e).value == m.At(e).value
    ensures Represents(m', f)
  {
    hide Bucket, PairOk;
    forall e | e in m.published
      ensures m'.At(e).key == m.At(e).key
    {
      assert InList(m, e) && EntryOk(m, e);
    }
  }

  lemma UniqueKey<V>(m: Memory<V>, e: nat, f: nat)
    requires MemoryOk(m) && e in m.published && f in m.published && m.At(e).key == m.At(f).key
    ensures e == f
  {
    assert InList(m, e) && InList(m, f) && PairOk(m, e, f);
  }

  lemma KeyKept<V>(m: Memory<V>, m': Memory<V>, target: nat, key: nat)
    requires m'.published == m.published && target in m.published && m'.At(target).key == m.At(target).key
    requires forall e :: e in m.published ==> m'.At(e).key == m.At(e).key
    requires key == m.At(target).key || HasKey(m, key)
    ensures HasKey(m', key)
  {
    var e :| e in m.published && m.At(e).key == key;
    assert e in m'.published && m'.At(e).key == key;
  }

  lemma SwapSets<V>(m: Memory<V>, m': Memory<V>, target: nat, v: nat, f: map<nat, V>)
    requires MemoryOk(m) && Represents(m, f) && target in m.published && v < |m.values|
    requires m' == m.Update(target, m.At(target).(value := v)) && MemoryOk(m')
    ensures Represents(m', f[m.At(target).key := m.values[v]])
  {
    hide EntryOk, PairOk, HasKey;
    var f' := f[m.At(target).key := m.values[v]];
    forall e | e in m'.published
      ensures m'.At(e).key in f' && f'[m'.At(e).key] == m'.values[m'.At(e).value]
    {
      if m.At(e).key == m.At(target).key { UniqueKey(m, e, target); }
      Ranged(m, e);
    }
    forall k | k in f'
      ensures HasKey(m', k)
    {
      if k != m.At(target).key { assert HasKey(m, k); }
      KeyKept(m, m', target, k);
    }
  }

  lemma Ranged<V>(m: Memory<V>, e: nat)
    requires MemoryOk(m) && InList(m, e)
    ensures e < |m.entries|
  {
    assert EntryOk(m, e);
  }

  lemma LinkSets<V>(m: Memory<V>, prev: nat, n: nat, f: map<nat, V>)
    requires MemoryOk(m) && Represents(m, f) && n < |m.entries| && n !in m.published && m.At(n).value < |m.values|
    requires Before(m, prev, m.At(n).key) && After(m, m.At(prev).next, m.At(n).key)
    requires MemoryOk(Linked(m, prev, n))
    ensures Represents(Linked(m, prev, n), f[m.At(n).key := m.values[m.At(n).value]])
  {
    hide Bucket, PairOk;
    SeekSettles(m, prev, m.At(n).key);
    var m', f' := Linked(m, prev, n), f[m.At(n).key := m.values[m.At(n).value]];
    forall k | k in f'
      ensures HasKey(m', k)
    {
      if k == m.At(n).key {
        assert n in m'.published && m'.At(n).key == k;
      } else {
        assert HasKey(m, k);
        var e :| e in m.published && m.At(e).key == k;
        assert e in m'.published && m'.At(e).key == k;
      }
    }
  }

  /** Every step but a successful swap leaves the map alone. */
  lemma QuietStep<V>(m: Memory<V>, t: Tid, pc: Pc<V>, call: Op<V>, f: map<nat, V>)
    requires MemoryOk(m) && ThreadOk(m, t, pc) && Represents(m, f) && !pc.SwapValue? && !pc.LinkIn?
    requires MemoryOk(Step(m, t, pc, call).0)
    ensures Represents(Step(m, t, pc, call).0, f)
  {
    hide Bucket, EntryOk, PairOk, Grows, Represents;
    StepGrows(m, t, pc, call);
    forall e | e in m.published
      ensures Step(m, t, pc, call).0.At(e).value == m.At(e).value
    {
      assert InList(m, e);
      Ranged(m, e);
    }
    SameMap(m, Step(m, t, pc, call).0, f);
  }

  lemma StepRefines<V>(s: Table<V>, t: Tid, call: Op<V>, f: map<nat, V>)
    requires Inv(s) && Represents(s.m, f)
    ensures Inv(Exec(s, t, call))
    ensures Apply(f, EventOf(s, t)).Some? && Represents(Exec(s, t, call).m, Apply(f, EventOf(s, t)).value)
  {
    hide Bucket, EntryOk, PairOk;
    StepInv(s, t, call);
    if t in s.threads {
      var m, pc := s.m, s.threads[t];
      assert ThreadOk(m, t, pc);
      match pc
      case Idle =>
      case Seek(op, prev) => if !Passes(m, m.At(prev).next, op.key) { SeekSettles(m, prev, op.key); }
      case LoadValue(op, target) => QuietStep(m, t, pc, call, f);
      case SwapValue(op, target, seen) =>
        if m.At(target).value == seen { SwapSets(m, Step(m, t, pc, call).0, target, op.newValue.i, f); }
      case SetNext(op, prev, after) => QuietStep(m, t, pc, call, f);
      case LinkIn(op, prev, after) => if m.At(prev).next == after { LinkSets(m, prev, op.newEntry.i, f); }
    }
  }

  /**
   Linearizability.  In every interleaving the table behaves as one mathematical map: each Set takes
   effect at its successful swap, and each answer of Has and Get was true of the map at a step of that
   very call; the published entries always represent the map.
   */
  lemma {:induction false} Linearizable<V>(s: Table<V>, sched: Schedule<V>, f: map<nat, V>)
    requires Inv(s) && Represents(s.m, f)
    ensures Inv(Run(s, sched))
    ensures Replay(f, History(s, sched)).Some? && Represents(Run(s, sched).m, Replay(f, History(s, sched)).value)
    decreases |sched|
  {
    hide Exec, EventOf, Represents, EntryOk, PairOk, ThreadOk, Apply;
    if sched != [] {
      var (t, call) := sched[0];
      StepRefines(s, t, call, f);
      Linearizable(Exec(s, t, call), sched[1..], Apply(f, EventOf(s, t)).value);
      assert History(s, sched)[1..] == History(Exec(s, t, call), sched[1..]);
    }
  }

  /** From an empty table. */
  lemma MapFromEmpty<V>(size: nat, threads: set<Tid>, sched: Schedule<V>)
    requires Admitted(size)
    ensures var s := Init<V>(size, threads);
      && Inv(Run(s, sched))
      && Replay(map[], History(s, sched)).Some?
      && Represents(Run(s, sched).m, Replay(map[], History(s, sched)).value)
  {
    InitInv<V>(size, threads);
    Linearizable(Init<V>(size, threads), sched, map[]);
  }

  /** No run loses a published entry or changes its key. */
  lemma {:induction false} NothingLost<V>(s: Table<V>, sched: Schedule<V>)
    requires s.m.Sized()
    ensures Grows(s.m, Run(s, sched).m)
    decreases |sched|
  {
    hide Step;
    if sched != [] {
      var (t, call) := sched[0];
      if t in s.threads { StepGrows(s.m, t, s.threads[t], call); }
      NothingLost(Exec(s, t, call), sched[1..]);
    }
  }

  // ----- The shape of a bucket

  /** The entries met by following `next` from `e` to null. */
  ghost predicate IsChain<V>(m: Memory<V>, e: nat, path: seq<nat>)
    decreases |path|
  {
    && path != [] && path[0] == e
    && (if |path| == 1 then m.At(e).next == Null else m.At(e).next == To(path[1]) && IsChain(m, path[1], path[1..]))
  }

  ghost predicate Sorted<V>(m: Memory<V>, path: seq<nat>) {
    forall i, j :: 0 <= i < j < |path| ==> Rank(m, path[i]) < Rank(m, path[j])
  }

  function Larger<V>(m: Memory<V>, e: nat): set<nat> {
    set f | f in m.published && Rank(m, e) < Rank(m, f)
  }

  /** The published entries of the same bucket with a larger key. */
  ghost predicate Follows<V>(m: Memory<V>, e: nat, f: nat)
    requires m.Sized()
  {
    f in m.published && Home(m, f) == Home(m, e) && Rank(m, e) < Rank(m, f)
  }

  lemma OkSized<V>(m: Memory<V>)
    requires MemoryOk(m)
    ensures m.Sized()
  {
  }

  lemma LastEntry<V>(m: Memory<V>, e: nat, f: nat)
    requires MemoryOk(m) && InList(m, e) && m.At(e).next == Null
    ensures !Follows(m, e, f)
  {
    hide Bucket;
    assert EntryOk(m, e);
    if f in m.published { assert InList(m, f) && PairOk(m, e, f); }
  }

  /** What follows an entry is the next one and what follows that. */
  lemma NextEntry<V>(m: Memory<V>, e: nat, n: nat, f: nat)
    requires MemoryOk(m) && InList(m, e) && m.At(e).next == To(n)
    ensures InList(m, n) && Rank(m, e) < Rank(m, n)
    ensures Follows(m, e, f) <==> f == n || Follows(m, n, f)
  {
    hide Bucket;
    assert EntryOk(m, e);
    assert InList(m, n);
    if f in m.published { assert InList(m, f) && PairOk(m, e, f) && PairOk(m, n, f); }
  }

  lemma FewerLarger<V>(m: Memory<V>, e: nat, n: nat)
    requires n in m.published && Rank(m, e) < Rank(m, n)
    ensures |Larger(m, n)| < |Larger(m, e)|
  {
    assert n in Larger(m, e) && n !in Larger(m, n);
    Smaller(Larger(m, n), Larger(m, e));
  }

  lemma SortedMore<V>(m: Memory<V>, e: nat, rest: seq<nat>)
    requires Sorted(m, rest) && rest != [] && Rank(m, e) < Rank(m, rest[0])
    ensures Sorted(m, [e] + rest)
  {
    var path := [e] + rest;
    forall i, j | 0 <= i < j < |path|
      ensures Rank(m, path[i]) < Rank(m, path[j])
    {
      assert path[j] == rest[j - 1];
      if i > 0 { assert path[i] == rest[i - 1]; } else if j > 1 { assert Rank(m, rest[0]) < Rank(m, rest[j - 1]); }
    }
  }

  /** Following `next` from a listed entry terminates, climbs strictly, and meets every published entry
      of the bucket with a larger key. */
  lemma {:induction false} ChainFrom<V>(m: Memory<V>, e: nat) returns (path: seq<nat>)
    requires MemoryOk(m) && InList(m, e)
    ensures IsChain(m, e, path) && Sorted(m, path)
    ensures forall f: nat :: f in path[1..] <==> Follows(m, e, f)
    decreases |Larger(m, e)|
  {
    hide MemoryOk, Follows, Rank, Larger;
    assert m.Sized() by { OkSized(m); }
    if m.At(e).next == Null {
      path := [e];
      forall f: nat
        ensures !Follows(m, e, f)
      {
        LastEntry(m, e, f);
      }
    } else {
      var n := m.At(e).next.i;
      NextEntry(m, e, n, n);
      assert n in m.published by { NextPublished(m, e, n); }
      FewerLarger(m, e, n);
      var rest := ChainFrom(m, n);
      path := [e] + rest;
      assert path[1..] == rest && rest == [n] + rest[1..];
      SortedMore(m, e, rest);
      forall f: nat
        ensures f in rest <==> Follows(m, e, f)
      {
        NextEntry(m, e, n, f);
        assert f in rest <==> f == n || f in rest[1..];
      }
    }
  }

  lemma NextPublished<V>(m: Memory<V>, e: nat, n: nat)
    requires MemoryOk(m) && InList(m, e) && m.At(e).next == To(n)
    ensures n in m.published
  {
    assert EntryOk(m, e);
  }

  lemma Smaller(a: set<nat>, b: set<nat>)
    requires a < b
    ensures |a| < |b|
  {
    assert |b| == |a| + |b - a| by { assert b == a + (b - a); }
  }

  /** In every reachable state every bucket is a finite list, strictly sorted by key, of exactly the
      published entries whose keys fall into that bucket: each once, none elsewhere. */
  lemma BucketShape<V>(size: nat, threads: set<Tid>, sched: Schedule<V>, b: nat) returns (path: seq<nat>)
    requires Admitted(size) && b < size
    ensures var m := Run(Init<V>(size, threads), sched).m;
      && m.size == size
      && IsChain(m, b, path) && Sorted(m, path)
      && (forall f: nat :: f in path[1..] <==> f in m.published && Bucket(m.At(f).key, size) == b)
  {
    hide Bucket;
    MapFromEmpty(size, threads, sched);
    NothingLost(Init<V>(size, threads), sched);
    path := ChainFrom(Run(Init<V>(size, threads), sched).m, b);
  }

  // ----- Progress

  /** `n` steps of one thread. */
  function Solo<V>(s: Table<V>, t: Tid, call: Op<V>, n: nat): (s': Table<V>)
    requires s.m.Sized()
    ensures s'.m.Sized()
    decreases n
  {
    if n == 0 then s else Solo(Exec(s, t, call), t, call, n - 1)
  }

  /** Once it has found its place, an undisturbed Set succeeds at its swap. */
  lemma SoloSwap<V>(s: Table<V>, t: Tid, call: Op<V>)
    requires Inv(s) && t in s.threads && s.threads[t].Seek? && s.threads[t].op.Put?
    requires !Passes(s.m, s.m.At(s.threads[t].prev).next, s.threads[t].op.key)
    ensures var op, before := s.threads[t].op, Solo(s, t, call, 2);
      EventOf(before, t) == DidSet(op.key, op.val) && Exec(before, t, call).threads == s.threads[t := Idle]
  {
    hide Bucket, EntryOk, PairOk;
    var m, op, prev := s.m, s.threads[t].op, s.threads[t].prev;
    assert ThreadOk(m, t, s.threads[t]);
    Ranged(m, prev);
    var s1 := Exec(s, t, call);
    var s2 := Exec(s1, t, call);
    assert Solo(s, t, call, 2) == s2;
    assert Exec(s2, t, call).threads == s.threads[t := Idle];
  }

  /** An undisturbed Set that has started to look for its place takes effect: every entry it passes has
      a larger key than the last, and its swap then succeeds. */
  lemma {:induction false} SoloSet<V>(s: Table<V>, t: Tid, call: Op<V>) returns (n: nat)
    requires Inv(s) && t in s.threads && s.threads[t].Seek? && s.threads[t].op.Put?
    ensures var op, before := s.threads[t].op, Solo(s, t, call, n);
      EventOf(before, t) == DidSet(op.key, op.val) && Exec(before, t, call).threads == s.threads[t := Idle]
    decreases s.threads[t].op.key - Rank(s.m, s.threads[t].prev)
  {
    hide MemoryOk, EventOf, Exec, Passes;
    if Passes(s.m, s.m.At(s.threads[t].prev).next, s.threads[t].op.key) {
      SoloPass(s, t, call);
      var k := SoloSet(Exec(s, t, call), t, call);
      n := k + 1;
    } else {
      n := 2;
      SoloSwap(s, t, call);
    }
  }

  /** Passing an entry brings the search closer to its key. */
  lemma SoloPass<V>(s: Table<V>, t: Tid, call: Op<V>)
    requires Inv(s) && t in s.threads && s.threads[t].Seek?
    requires Passes(s.m, s.m.At(s.threads[t].prev).next, s.threads[t].op.key)
    ensures var s1, pc := Exec(s, t, call), s.threads[t];
      && Inv(s1) && s1.m == s.m && t in s1.threads && s1.threads[t].Seek? && s1.threads[t].op == pc.op
      && Rank(s.m, pc.prev) < Rank(s.m, s1.threads[t].prev) < pc.op.key
      && s1.threads[t := Idle] == s.threads[t := Idle]
  {
    hide Bucket, EntryOk, PairOk;
    assert ThreadOk(s.m, t, s.threads[t]);
    StepInv(s, t, call);
    Climbs(s.m, s.threads[t].prev);
  }

  lemma Climbs<V>(m: Memory<V>, prev: nat)
    requires MemoryOk(m) && InList(m, prev) && m.At(prev).next.To?
    ensures Rank(m, prev) < Rank(m, m.At(prev).next.i) == m.At(m.At(prev).next.i).key
  {
    assert EntryOk(m, prev);
  }

  /** The right answer to Has or Get, if the table represents `f`. */
  function Answer<V>(f: map<nat, V>, op: Op<V>): Event<V>
    requires !op.Put?
  {
    if op.key !in f then Absent(op.key) else if op.Has? then Present(op.key) else Found(op.key, f[op.key])
  }

  /** Has and Get, once they are where the answer is. */
  lemma SoloAnswer<V>(s: Table<V>, t: Tid, call: Op<V>, f: map<nat, V>) returns (n: nat)
    requires Inv(s) && Represents(s.m, f) && t in s.threads && s.threads[t].Seek? && !s.threads[t].op.Put?
    requires !Passes(s.m, s.m.At(s.threads[t].prev).next, s.threads[t].op.key)
    ensures var op, before := s.threads[t].op, Solo(s, t, call, n);
      EventOf(before, t) == Answer(f, op) && Exec(before, t, call) == Table(s.m, s.threads[t := Idle])
  {
    hide Bucket, PairOk;
    var m, op, prev := s.m, s.threads[t].op, s.threads[t].prev;
    assert ThreadOk(m, t, s.threads[t]);
    SeekSettles(m, prev, op.key);
    assert HasKey(m, op.key) <==> op.key in f;
    var after := m.At(prev).next;
    if Hits(m, after, op.key) {
      assert EntryOk(m, prev);
      assert after.i in m.published && m.At(after.i).key == op.key;
    }
    var s1 := Exec(s, t, call);
    if op.Get? && Hits(m, m.At(prev).next, op.key) {
      n := 1;
      assert Solo(s, t, call, 1) == s1;
      assert s1.threads[t := Idle] == s.threads[t := Idle];
    } else {
      n := 0;
    }
  }

  lemma {:induction false} SoloAsk<V>(s: Table<V>, t: Tid, call: Op<V>, f: map<nat, V>) returns (n: nat)
    requires Inv(s) && Represents(s.m, f) && t in s.threads && s.threads[t].Seek? && !s.threads[t].op.Put?
    ensures var op, before := s.threads[t].op, Solo(s, t, call, n);
      EventOf(before, t) == Answer(f, op) && Exec(before, t, call) == Table(s.m, s.threads[t := Idle])
    decreases s.threads[t].op.key - Rank(s.m, s.threads[t].prev)
  {
    hide MemoryOk, EventOf, Exec, Passes, Represents, Answer;
    if Passes(s.m, s.m.At(s.threads[t].prev).next, s.threads[t].op.key) {
      SoloPass(s, t, call);
      var k := SoloAsk(Exec(s, t, call), t, call, f);
      n := k + 1;
    } else {
      n := SoloAnswer(s, t, call, f);
    }
  }

  lemma SoloStart<V>(s: Table<V>, t: Tid, call: Op<V>)
    requires Inv(s) && t in s.threads && s.threads[t].Idle?
    ensures var s1 := Exec(s, t, call);
      && Inv(s1) && s1.m == s.m && t in s1.threads && s1.threads[t].Seek? && s1.threads[t := Idle] == s.threads
      && (call.Put? ==> s1.threads[t].op.Put? && s1.threads[t].op.key == call.key && s1.threads[t].op.val == call.val)
      && (!call.Put? ==> s1.threads[t].op == call)
  {
    hide MemoryOk, Bucket;
    StepInv(s, t, call);
  }

  /** Every undisturbed call completes: a Set takes effect, Has and Get answer what is in the table. */
  lemma SoloCall<V>(s: Table<V>, t: Tid, call: Op<V>, f: map<nat, V>) returns (n: nat)
    requires Inv(s) && Represents(s.m, f) && t in s.threads && s.threads[t].Idle?
    ensures var before := Solo(s, t, call, n);
      && EventOf(before, t) == (if call.Put? then DidSet(call.key, call.val) else Answer(f, call))
      && Exec(before, t, call).threads == s.threads
  {
    hide MemoryOk, EventOf, Represents, Answer, Exec;
    assert s.m.Sized() by { OkSized(s.m); }
    var s1 := Exec(s, t, call);
    SoloStart(s, t, call);
    var k;
    if call.Put? { k := SoloSet(s1, t, call); } else { k := SoloAsk(s1, t, call, f); }
    n := k + 1;
  }

  /** What a thread is about to swap is still what it loaded. */
  predicate Current<V>(m: Memory<V>, pc: Pc<V>) {
    match pc
    case SetNext(_, prev, after) => m.At(prev).next == after
    case LinkIn(_, prev, after) => m.At(prev).next == after
    case SwapValue(_, target, seen) => m.At(target).value == seen
    case _ => true
  }

  /** Only a Set that takes effect changes a published link or value. */
  lemma StepLinks<V>(s: Table<V>, t: Tid, call: Op<V>, e: nat)
    requires Inv(s) && !EventOf(s, t).DidSet? && InList(s.m, e)
    ensures Exec(s, t, call).m.At(e).next == s.m.At(e).next && Exec(s, t, call).m.At(e).value == s.m.At(e).value
  {
    hide Bucket, EntryOk, PairOk;
    if t in s.threads {
      assert ThreadOk(s.m, t, s.threads[t]);
      Ranged(s.m, e);
    }
  }

  lemma StepCurrent<V>(s: Table<V>, t: Tid, call: Op<V>, u: Tid)
    requires Inv(s) && u in s.threads && Current(s.m, s.threads[u]) && !EventOf(s, t).DidSet?
    ensures u in Exec(s, t, call).threads && Current(Exec(s, t, call).m, Exec(s, t, call).threads[u])
  {
    hide Bucket, EntryOk, PairOk;
    var m, pc := s.m, s.threads[u];
    assert ThreadOk(m, u, pc);
    if pc.Seek? { StepLinks(s, t, call, pc.prev); }
    if pc.LoadValue? { StepLinks(s, t, call, pc.target); }
    if pc.SetNext? || pc.LinkIn? { StepLinks(s, t, call, pc.prev); }
    if pc.SwapValue? { StepLinks(s, t, call, pc.target); }
  }

  lemma {:induction false} StaysCurrent<V>(s: Table<V>, sched: Schedule<V>, t: Tid)
    requires Inv(s) && t in s.threads && Current(s.m, s.threads[t])
    requires forall i :: 0 <= i < |History(s, sched)| ==> !History(s, sched)[i].DidSet?
    ensures Inv(Run(s, sched)) && t in Run(s, sched).threads && Current(Run(s, sched).m, Run(s, sched).threads[t])
    decreases |sched|
  {
    hide MemoryOk, ThreadOk, Exec, EventOf, Current;
    if sched != [] {
      assert s.m.Sized() by { OkSized(s.m); }
      var (u, call) := sched[0];
      var all, rest := History(s, sched), History(Exec(s, u, call), sched[1..]);
      assert all == [all[0]] + rest;
      assert forall i :: 0 <= i < |rest| ==> rest[i] == all[i + 1];
      StepInv(s, u, call);
      StepCurrent(s, u, call, t);
      StaysCurrent(Exec(s, u, call), sched[1..], t);
    }
  }

  lemma {:induction false} HistoryLength<V>(s: Table<V>, sched: Schedule<V>)
    requires s.m.Sized()
    ensures |History(s, sched)| == |sched|
    decreases |sched|
  {
    hide Exec, EventOf;
    if sched != [] { HistoryLength(Exec(s, sched[0].0, sched[0].1), sched[1..]); }
  }

  /**
   A swap is lost only to progress.  From a state in which the thread holds nothing stale, in particular from its
   load on, and until its call takes effect, it finds another pointer at its swap only if a Set of another
   thread took effect in the meantime.
   */
  lemma SwapLosesOnlyToProgress<V>(s: Table<V>, sched: Schedule<V>, t: Tid)
    requires Inv(s) && t in s.threads && Current(s.m, s.threads[t])
    requires forall i :: 0 <= i < |sched| && i < |History(s, sched)| ==>
               sched[i].0 == t ==> !History(s, sched)[i].DidSet?
    ensures var s' := Run(s, sched);
      && t in s'.threads
      && (s'.threads[t].LinkIn? || s'.threads[t].SwapValue? ==>
            || (EventOf(s', t).DidSet? && EventOf(s', t).key == s'.threads[t].op.key)
            || exists i :: 0 <= i < |sched| == |History(s, sched)| && sched[i].0 != t && History(s, sched)[i].DidSet?)
  {
    hide Bucket, EntryOk, PairOk, Exec;
    RunThreads(s, sched, t);
    HistoryLength(s, sched);
    if forall i :: 0 <= i < |sched| ==> !History(s, sched)[i].DidSet? {
      StaysCurrent(s, sched, t);
      assert ThreadOk(Run(s, sched).m, t, Run(s, sched).threads[t]);
    }
  }

  lemma {:induction false} RunThreads<V>(s: Table<V>, sched: Schedule<V>, t: Tid)
    requires s.m.Sized() && t in s.threads
    ensures t in Run(s, sched).threads
    decreases |sched|
  {
    hide Step;
    if sched != [] { RunThreads(Exec(s, sched[0].0, sched[0].1), sched[1..], t); }
  }

  /** The bucket index is the remainder. */
  lemma BucketIsModulo(key: nat, size: nat)
    requires Admitted(size)
    ensures Bucket(key, size) == key % size
  {
    Masks.MaskIsModulo(key, size);
  }

  /** What a step means for the represented map, event by event. */
  lemma StepMeaning<V>(s: Table<V>, t: Tid, call: Op<V>, f: map<nat, V>)
    requires Inv(s) && Represents(s.m, f)
    ensures var s', e := Exec(s, t, call), EventOf(s, t);
      && Inv(s')
      && (e.DidSet? ==> Represents(s'.m, f[e.key := e.val]))
      && (!e.DidSet? ==> Represents(s'.m, f))
      && (e.Found? ==> e.key in f && f[e.key] == e.val)
      && (e.Present? ==> e.key in f)
      && (e.Absent? ==> e.key !in f)
  {
    hide Inv, Represents, Exec, EventOf;
    StepRefines(s, t, call, f);
  }

  // ----- Calls and their answers

  /** What a thread is in the middle of. */
  datatype Status<V> = NoCall | Setting(key: nat, val: V) | Testing(key: nat) | Reading(key: nat)

  function StatusOfCall<V>(op: Op<V>): Status<V> {
    match op
    case Has(k) => Testing(k)
    case Get(k) => Reading(k)
    case Put(k, v, _, _) => Setting(k, v)
  }

  function StatusOf<V>(pc: Pc<V>): Status<V> {
    if pc.Idle? then NoCall else StatusOfCall(pc.op)
  }

  /** The event `e` of a thread's own step is right for what it is in the middle of, and leads to `next`.  A call ends
      only with its answer, and keeps its key and value from its start to its answer. */
  ghost predicate Answers<V>(st: Status<V>, call: Op<V>, e: Event<V>, next: Status<V>) {
    match st
    case NoCall => e == Silent && next == StatusOfCall(call)
    case Setting(k, v) => (e == Silent && next == st) || (e == DidSet(k, v) && next == NoCall)
    case Testing(k) => (e == Silent && next == st) || ((e == Present(k) || e == Absent(k)) && next == NoCall)
    case Reading(k) =>
      || (e == Silent && next == st)
      || (((e.Found? && e.key == k) || e == Absent(k)) && next == NoCall)
  }

  lemma StepAnswers<V>(s: Table<V>, t: Tid, call: Op<V>)
    requires Inv(s) && t in s.threads
    ensures Answers(StatusOf(s.threads[t]), call, EventOf(s, t), StatusOf(Exec(s, t, call).threads[t]))
    ensures forall u :: u in s.threads && u != t ==> Exec(s, t, call).threads[u] == s.threads[u]
  {
    hide Bucket, PairOk;
    var pc := s.threads[t];
    assert ThreadOk(s.m, t, pc);
    if pc.LoadValue? { assert InList(s.m, pc.target) && EntryOk(s.m, pc.target); }
  }

  ghost predicate AllAnswered<V>(sts: seq<Status<V>>, sched: Schedule<V>, history: seq<Event<V>>, t: Tid) {
    && |sts| == |sched| + 1 && |history| == |sched|
    && forall i :: 0 <= i < |sched| ==> AnsweredAt(sts, sched, history, t, i)
  }

  ghost predicate AnsweredAt<V>(sts: seq<Status<V>>, sched: Schedule<V>, history: seq<Event<V>>, t: Tid, i: nat)
    requires i < |sched| && |sts| == |sched| + 1 && |history| == |sched|
  {
    if sched[i].0 == t then Answers(sts[i], sched[i].1, history[i], sts[i + 1]) else sts[i + 1] == sts[i]
  }

  /**
   In every schedule each call is answered: from its start, with the key and value given there, a thread stays inside
   its call, retrying as often as it takes, until a step whose event is that call's answer.
   */
  lemma {:induction false} EveryCallIsAnswered<V>(s: Table<V>, sched: Schedule<V>, t: Tid) returns (sts: seq<Status<V>>)
    requires Inv(s) && t in s.threads
    ensures t in Run(s, sched).threads && AllAnswered(sts, sched, History(s, sched), t)
    ensures sts[0] == StatusOf(s.threads[t]) && sts[|sched|] == StatusOf(Run(s, sched).threads[t])
    decreases |sched|
  {
    hide MemoryOk, ThreadOk, Exec, EventOf, Answers, StatusOf;
    assert s.m.Sized() by { OkSized(s.m); }
    if sched == [] {
      sts := [StatusOf(s.threads[t])];
    } else {
      var (u, call) := sched[0];
      var s' := Exec(s, u, call);
      KeepsThreads(s, u, call);
      StepInv(s, u, call);
      if u in s.threads { StepAnswers(s, u, call); }
      var rest := EveryCallIsAnswered(s', sched[1..], t);
      sts := [StatusOf(s.threads[t])] + rest;
      var history := History(s, sched);
      assert history == [EventOf(s, u)] + History(s', sched[1..]);
      forall i | 0 <= i < |sched|
        ensures AnsweredAt(sts, sched, history, t, i)
      {
        if i > 0 {
          var j := i - 1;
          assert AnsweredAt(rest, sched[1..], History(s', sched[1..]), t, j);
        }
      }
    }
  }

  lemma KeepsThreads<V>(s: Table<V>, t: Tid, call: Op<V>)
    requires s.m.Sized()
    ensures Exec(s, t, call).threads.Keys == s.threads.Keys
    ensures t !in s.threads ==> Exec(s, t, call) == s
  {
    hide Step;
  }

  /** A thread that is disturbed by nobody finishes its call from wherever it is. */
  lemma {:induction false} ObstructionFree<V>(s: Table<V>, t: Tid, call: Op<V>, f: map<nat, V>) returns (n: nat)
    requires Inv(s) && Represents(s.m, f) && t in s.threads
    ensures t in Solo(s, t, call, n).threads && Solo(s, t, call, n).threads[t].Idle?
    decreases Ahead(s.threads[t])
  {
    hide MemoryOk, ThreadOk, Represents, Exec, EventOf, Answer;
    assert s.m.Sized() by { OkSized(s.m); }
    if s.threads[t].Idle? {
      n := 0;
    } else if s.threads[t].Seek? {
      n := SeekEnds(s, t, call, f);
    } else {
      AlmostDone(s, t, call);
      StepInv(s, t, call);
      var g := NextMap(s, t, call, f);
      var k := ObstructionFree(Exec(s, t, call), t, call, g);
      n := k + 1;
    }
  }

  /** How far a call is from its end or from searching again. */
  function Ahead<V>(pc: Pc<V>): nat {
    if pc.SetNext? || pc.LoadValue? then 2 else if pc.LinkIn? || pc.SwapValue? then 1 else 0
  }

  lemma NextMap<V>(s: Table<V>, t: Tid, call: Op<V>, f: map<nat, V>) returns (g: map<nat, V>)
    requires Inv(s) && Represents(s.m, f)
    ensures Inv(Exec(s, t, call)) && Represents(Exec(s, t, call).m, g)
  {
    hide MemoryOk, ThreadOk, Represents, Exec, EventOf;
    assert s.m.Sized() by { OkSized(s.m); }
    StepMeaning(s, t, call, f);
    g := if EventOf(s, t).DidSet? then f[EventOf(s, t).key := EventOf(s, t).val] else f;
  }

  lemma SeekEnds<V>(s: Table<V>, t: Tid, call: Op<V>, f: map<nat, V>) returns (n: nat)
    requires Inv(s) && Represents(s.m, f) && t in s.threads && s.threads[t].Seek?
    ensures t in Solo(s, t, call, n).threads && Solo(s, t, call, n).threads[t].Idle?
  {
    hide MemoryOk, ThreadOk, Represents, Exec, EventOf, Answer;
    assert s.m.Sized() by { OkSized(s.m); }
    var k;
    if s.threads[t].op.Put? { k := SoloSet(s, t, call); } else { k := SoloAsk(s, t, call, f); }
    n := k + 1;
    SoloMore(s, t, call, k);
  }

  lemma {:induction false} SoloMore<V>(s: Table<V>, t: Tid, call: Op<V>, n: nat)
    requires s.m.Sized()
    ensures Solo(s, t, call, n + 1) == Exec(Solo(s, t, call, n), t, call)
    decreases n
  {
    hide Exec;
    if n > 0 { SoloMore(Exec(s, t, call), t, call, n - 1); }
  }

  /** Beyond the search, a step answers, starts the search again, or leads to the swap. */
  lemma AlmostDone<V>(s: Table<V>, t: Tid, call: Op<V>)
    requires Inv(s) && t in s.threads && !s.threads[t].Idle? && !s.threads[t].Seek?
    ensures t in Exec(s, t, call).threads && Ahead(Exec(s, t, call).threads[t]) < Ahead(s.threads[t])
  {
    hide Bucket, EntryOk, PairOk;
    assert ThreadOk(s.m, t, s.threads[t]);
  }
}
