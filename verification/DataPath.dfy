/**
 The message path of cyber/data: CacheBuffer (a ring of the last messages), ChannelBuffer (fetching by
 position) and the single-channel DataVisitor.  The mutex of the buffer makes each of these calls atomic,
 so they are ordinary methods here.  `history` is every message ever filled in; position p is its p-th
 element, counting from one.
 */
module DataPath {
  import opened Options
  import opened Rings

  /** The number of positions that have been given up after `tail` fills of a ring for `size`. */
  function Dropped(tail: nat, size: nat): nat {
    if tail <= size then 0 else tail - size
  }

  class CacheBuffer<T(0)> {
    const capacity: nat
    const buffer: array<T>
    var head: nat
    var tail: nat
    ghost var history: seq<T>

    ghost predicate Valid()
      reads this, buffer
    {
      && capacity > 0 && buffer.Length == capacity
      && tail == |history| && head == Dropped(tail, capacity - 1)
      && (forall p: nat :: 1 <= p && head <= p <= tail ==> HeldAt(p))
    }

    /** The slot of position p still holds its message. */
    ghost predicate HeldAt(p: nat)
      requires capacity > 0 && buffer.Length == capacity && 1 <= p <= |history|
      reads this, buffer
    {
      buffer[GetIndex(p)] == history[p - 1]
    }

    constructor (size: nat)
      ensures Valid() && fresh(buffer) && capacity == size + 1 && history == []
    {
      capacity := size + 1;
      buffer := new T[size + 1];
      head, tail := 0, 0;
      history := [];
    }

    function GetIndex(pos: nat): (i: nat)
      requires capacity > 0
      ensures i < capacity
    {
      pos % capacity
    }

    function Head(): nat
      reads this
    {
      head + 1
    }

    function Tail(): nat
      reads this
    {
      tail
    }

    function Size(): int
      reads this
    {
      tail - head
    }

    predicate Empty()
      reads this
    {
      tail == 0
    }

    predicate Full()
      reads this
    {
      capacity - 1 == tail - head
    }

    lemma Held(p: nat)
      requires Valid() && 1 <= p && head <= p <= tail
      ensures buffer[GetIndex(p)] == history[p - 1]
    {
      assert HeldAt(p);
    }

    /** The oldest message makes room for the new one; position by position, the ring still holds the
        history. */
    method Fill(value: T)
      requires Valid()
      modifies this, buffer
      ensures Valid()
      ensures history == old(history) + [value]
    {
      ghost var ring, before, end := buffer[..], history, tail;
      forall p: nat | 1 <= p && head <= p <= tail
        ensures ring[GetIndex(p)] == before[p - 1]
      {
        Held(p);
      }
      if Full() {
        SlotsRepeat(head, capacity);
        buffer[GetIndex(head)] := value;
        head := head + 1;
        tail := tail + 1;
      } else {
        buffer[GetIndex(tail + 1)] := value;
        tail := tail + 1;
      }
      history := history + [value];
      assert buffer[..] == ring[GetIndex(tail) := value];
      forall p: nat | 1 <= p && head <= p <= tail
        ensures HeldAt(p)
      {
        StillHeld(p, ring, before, value);
      }
    }

    lemma StillHeld(p: nat, ring: seq<T>, before: seq<T>, value: T)
      requires capacity > 0 && buffer.Length == capacity == |ring| && tail == |history| == |before| + 1
      requires history == before + [value] && buffer[..] == ring[GetIndex(tail) := value]
      requires 1 <= p <= tail < p + capacity && (p < tail ==> ring[GetIndex(p)] == before[p - 1])
      ensures HeldAt(p)
    {
      if p < tail { SlotsDiffer(p, tail, capacity); }
      assert buffer[GetIndex(p)] == buffer[..][GetIndex(p)];
    }
  }

  // ----- Fetching by position

  /** Where a fetch with cursor `index` reads, given `tail` fills of a ring for `size`; None when there is
      nothing new.  A cursor of zero, or one that has been overrun, jumps to the latest message.  A cursor
      beyond the next position, which no visitor has, is taken as it is. */
  function FetchPosition(tail: nat, size: nat, index: nat): (p: Option<nat>)
    ensures p.None? <==> tail == 0 || index == tail + 1
    ensures p.Some? ==> 1 <= p.value && Dropped(tail, size) <= p.value && index <= p.value
    ensures p.Some? ==> (p.value <= tail <==> index <= tail)
    ensures 0 < index <= tail ==> p == Some(if tail - index + 1 <= size then index else tail)
    ensures index == 0 < tail ==> p == Some(tail)
  {
    if tail == 0 then None
    else if index == 0 then Some(tail)
    else if index == tail + 1 then None
    else if index < Dropped(tail, size) + 1 then Some(tail)
    else Some(index)
  }

  class ChannelBuffer<T(0)> {
    const buffer: CacheBuffer<T>

    constructor (buffer: CacheBuffer<T>)
      ensures this.buffer == buffer
    {
      this.buffer := buffer;
    }

    /** The message read is the one filled at the resulting position: never an unwritten slot, never an
        overwritten one.  Only a cursor beyond the next position reads whatever its slot holds. */
    method Fetch(index: nat, m: T) returns (ok: bool, index': nat, m': T)
      requires buffer.Valid()
      ensures var p := FetchPosition(|buffer.history|, buffer.capacity - 1, index);
        && ok == p.Some?
        && (ok ==> index' == p.value)
        && (ok && index <= |buffer.history| ==> m' == buffer.history[p.value - 1])
        && (ok && index > |buffer.history| ==> m' == buffer.buffer[buffer.GetIndex(index)])
        && (!ok ==> index' == index && m' == m)
    {
      index', m' := index, m;
      if buffer.Empty() {
        return false, index, m;
      }
      if index == 0 {
        index' := buffer.Tail();
      } else if index == buffer.Tail() + 1 {
        return false, index, m;
      } else if index < buffer.Head() {
        index' := buffer.Tail();
      }
      if index' <= buffer.tail { buffer.Held(index'); }
      m' := buffer.buffer[buffer.GetIndex(index')];
      ok := true;
    }

    method Latest(m: T) returns (ok: bool, m': T)
      requires buffer.Valid()
      ensures ok == (buffer.history != [])
      ensures m' == if ok then buffer.history[|buffer.history| - 1] else m
    {
      if buffer.Empty() {
        return false, m;
      }
      buffer.Held(buffer.Tail());
      return true, buffer.buffer[buffer.GetIndex(buffer.Tail())];
    }

    /** On a buffer that has been filled, the last min(Size, fetchSize) messages, oldest first. */
    method FetchMulti(fetchSize: nat, vec: seq<T>) returns (ok: bool, vec': seq<T>)
      requires buffer.Valid()
      ensures ok == (buffer.history != [])
      ensures !ok ==> vec' == vec
      ensures ok ==>
        var n := Min(Min(|buffer.history|, buffer.capacity - 1), fetchSize);
        vec' == vec + buffer.history[|buffer.history| - n..]
    {
      vec' := vec;
      if buffer.Empty() {
        return false, vec;
      }
      var num := if buffer.Size() < fetchSize then buffer.Size() else fetchSize;
      var index := buffer.Tail() - num + 1;
      ghost var history, first := buffer.history, buffer.tail - num;
      while index <= buffer.Tail()
        invariant first + 1 <= index <= |history| + 1 && vec' == vec + history[first..index - 1]
      {
        buffer.Held(index);
        assert history[first..index] == history[first..index - 1] + [history[index - 1]];
        vec' := vec' + [buffer.buffer[buffer.GetIndex(index)]];
        index := index + 1;
      }
      ok := true;
    }
  }

  function Min(a: nat, b: nat): nat {
    if a < b then a else b
  }

  class DataVisitor<T(0)> {
    const channel: ChannelBuffer<T>
    var nextMsgIndex: nat

    constructor (queueSize: nat)
      ensures Valid() && fresh(channel) && fresh(channel.buffer) && fresh(channel.buffer.buffer)
      ensures channel.buffer.history == [] && nextMsgIndex == 0 && channel.buffer.capacity == queueSize + 1
    {
      var ring := new CacheBuffer<T>(queueSize);
      channel := new ChannelBuffer<T>(ring);
      nextMsgIndex := 0;
    }

    ghost predicate Valid()
      reads this, channel.buffer, channel.buffer.buffer
    {
      channel.buffer.Valid() && nextMsgIndex <= channel.buffer.tail + 1
    }

    method TryFetch(m: T) returns (ok: bool, m': T)
      requires Valid()
      modifies this
      ensures Valid()
      ensures var ring := channel.buffer;
        var p := FetchPosition(|ring.history|, ring.capacity - 1, old(nextMsgIndex));
        && ok == p.Some?
        && nextMsgIndex == (if ok then p.value + 1 else old(nextMsgIndex))
        && m' == if ok then ring.history[p.value - 1] else m
    {
      var index;
      ok, index, m' := channel.Fetch(nextMsgIndex, m);
      nextMsgIndex := index;
      if ok {
        nextMsgIndex := nextMsgIndex + 1;
      }
    }
  }

  // ----- Whole runs of a producer and a consumer

  datatype Action<T> = Filled(value: T) | TriedFetch

  /** A delivered message, its position, and how many messages had been filled by then. */
  datatype Delivery<T> = Delivery(position: nat, value: T, tail: nat)

  function HistoryAfter<T>(history: seq<T>, actions: seq<Action<T>>): (h: seq<T>)
    ensures history <= h
    decreases |actions|
  {
    if actions == [] then history
    else HistoryAfter(if actions[0].Filled? then history + [actions[0].value] else history, actions[1..])
  }

  /** What TryFetch delivers, in order, by the contracts of Fill and TryFetch. */
  function Deliveries<T>(history: seq<T>, size: nat, next: nat, actions: seq<Action<T>>): seq<Delivery<T>>
    requires next <= |history| + 1
    decreases |actions|
  {
    if actions == [] then [] else
    match actions[0]
    case Filled(v) => Deliveries(history + [v], size, next, actions[1..])
    case TriedFetch =>
      match FetchPosition(|history|, size, next)
      case None => Deliveries(history, size, next, actions[1..])
      case Some(p) =>
        [Delivery(p, history[p - 1], |history|)] + Deliveries(history, size, p + 1, actions[1..])
  }

  /** `d` follows a delivery that left the cursor at `next`: it is the very next message exactly if at most
      `size` messages were waiting, and otherwise the latest. */
  ghost predicate Follows<T>(d: Delivery<T>, size: nat, next: nat) {
    && 1 <= d.position <= d.tail && next <= d.position
    && (next != 0 ==> d.position == if d.tail - next + 1 <= size then next else d.tail)
    && (next == 0 ==> d.position == d.tail)
  }

  /** A queue that holds anything delivers only what it holds: one of the last `size` messages. */
  ghost predicate Recent<T>(d: seq<Delivery<T>>, size: nat) {
    forall i :: 0 <= i < |d| ==> d[i].tail - d[i].position < size
  }

  ghost predicate AllFollow<T>(d: seq<Delivery<T>>, size: nat, next: nat)
    decreases |d|
  {
    d != [] ==> Follows(d[0], size, next) && AllFollow(d[1..], size, d[0].position + 1)
  }

  /** Each delivered value is the message that was filled at its position. */
  ghost predicate Faithful<T>(d: seq<Delivery<T>>, all: seq<T>) {
    forall i :: 0 <= i < |d| ==> 1 <= d[i].position <= d[i].tail <= |all| && d[i].value == all[d[i].position - 1]
  }

  /**
   For every interleaving of Fill and TryFetch: each delivered value is the message filled at its
   position, the first delivery is the latest message of its time, a gap appears exactly if the consumer
   fell more than `size` behind, and so positions strictly increase and only the last `size` are delivered.
   */
  lemma {:induction false} DeliveredInOrder<T>(history: seq<T>, size: nat, next: nat, actions: seq<Action<T>>)
    requires next <= |history| + 1
    ensures AllFollow(Deliveries(history, size, next, actions), size, next)
    ensures Faithful(Deliveries(history, size, next, actions), HistoryAfter(history, actions))
    ensures size > 0 ==> Recent(Deliveries(history, size, next, actions), size)
    decreases |actions|
  {
    hide AllFollow, Faithful, Recent, Follows;
    if actions == [] {
      NoDeliveries<T>(size, next, history);
    } else {
      match actions[0]
      case Filled(v) => DeliveredInOrder(history + [v], size, next, actions[1..]);
      case TriedFetch =>
        match FetchPosition(|history|, size, next)
        case None => DeliveredInOrder(history, size, next, actions[1..]);
        case Some(p) =>
          DeliveredInOrder(history, size, p + 1, actions[1..]);
          var d := Delivery(p, history[p - 1], |history|);
          assert Follows(d, size, next) by { FetchFollows(history, size, next); }
          Prepend(d, Deliveries(history, size, p + 1, actions[1..]), size, next, HistoryAfter(history, actions[1..]));
    }
    if size > 0 { FollowersAreRecent(Deliveries(history, size, next, actions), size, next); }
  }

  lemma FetchFollows<T>(history: seq<T>, size: nat, next: nat)
    requires next <= |history| + 1 && FetchPosition(|history|, size, next).Some?
    ensures var p := FetchPosition(|history|, size, next).value;
      p <= |history| && Follows(Delivery(p, history[p - 1], |history|), size, next)
  {
  }

  lemma {:induction false} FollowersAreRecent<T>(d: seq<Delivery<T>>, size: nat, next: nat)
    requires AllFollow(d, size, next) && size > 0
    ensures Recent(d, size)
    decreases |d|
  {
    if d != [] {
      FollowersAreRecent(d[1..], size, d[0].position + 1);
      assert forall i :: 1 <= i < |d| ==> d[i] == d[1..][i - 1];
    }
  }

  /** One attempt to fetch delivers nothing exactly if the visitor has seen everything; otherwise the next message, or
      the latest if the visitor has not started or more than `size` messages wait. */
  lemma OneFetch<T>(history: seq<T>, size: nat, next: nat)
    requires next <= |history| + 1
    ensures var tail := |history|;
      var p := if next > 0 && tail - next + 1 <= size then next else tail;
      Deliveries(history, size, next, [TriedFetch])
      == if tail == 0 || next == tail + 1 then [] else [Delivery(p, history[p - 1], tail)]
  {
    var one: seq<Action<T>> := [TriedFetch];
    assert one[1..] == [];
  }

  lemma NoDeliveries<T>(size: nat, next: nat, all: seq<T>)
    ensures AllFollow<T>([], size, next) && Faithful<T>([], all)
  {
  }

  lemma Prepend<T>(d: Delivery<T>, rest: seq<Delivery<T>>, size: nat, next: nat, all: seq<T>)
    requires Follows(d, size, next) && AllFollow(rest, size, d.position + 1) && Faithful(rest, all)
    requires d.tail <= |all| && d.value == all[d.position - 1]
    ensures AllFollow([d] + rest, size, next) && Faithful([d] + rest, all)
  {
    assert ([d] + rest)[1..] == rest;
  }

  lemma {:induction false} PositionsIncrease<T>(d: seq<Delivery<T>>, size: nat, next: nat)
    requires AllFollow(d, size, next)
    ensures forall i :: 0 <= i < |d| ==> next <= d[i].position
    ensures forall i, j :: 0 <= i < j < |d| ==> d[i].position < d[j].position
    decreases |d|
  {
    if d != [] {
      PositionsIncrease(d[1..], size, d[0].position + 1);
      assert forall i :: 1 <= i < |d| ==> d[i] == d[1..][i - 1];
    }
  }

  /** The classes above, driven by any sequence of actions, deliver exactly `Deliveries`. */
  method Drive<T(0)>(queueSize: nat, actions: seq<Action<T>>, blank: T) returns (d: seq<Delivery<T>>)
    ensures d == Deliveries([], queueSize, 0, actions)
  {
    var visitor := new DataVisitor<T>(queueSize);
    d := [];
    for i := 0 to |actions|
      invariant visitor.Valid() && fresh(visitor)
      invariant fresh(visitor.channel.buffer) && fresh(visitor.channel.buffer.buffer)
      invariant visitor.channel.buffer.capacity == queueSize + 1
      invariant d + Deliveries(visitor.channel.buffer.history, queueSize, visitor.nextMsgIndex, actions[i..])
             == Deliveries([], queueSize, 0, actions)
    {
      assert actions[i..][1..] == actions[i + 1..];
      match actions[i]
      case Filled(v) => visitor.channel.buffer.Fill(v);
      case TriedFetch =>
        var ok, m := visitor.TryFetch(blank);
        if ok {
          d := d + [Delivery(visitor.nextMsgIndex - 1, m, visitor.channel.buffer.tail)];
        }
    }
  }
}
