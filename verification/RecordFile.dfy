/**
 Record files as their readers see them (cyber/record/file): a header with the time span, then a list of
 sections.  A chunk is a header section immediately followed by its body, as RecordFileWriter::WriteChunk
 writes them; an index section ends the data.
 */
module RecordFile {
  datatype Message = Message(channel: string, content: string, time: nat)

  datatype Header = Header(beginTime: nat, endTime: nat)

  datatype Section =
    | Channel(name: string, kind: string, desc: string)
    | ChunkHeader(beginTime: nat, endTime: nat)
    | ChunkBody(messages: seq<Message>)
    | Index

  /** All messages of the bodies before the index, in file order. */
  function Messages(sections: seq<Section>): seq<Message> {
    if sections == [] || sections[0].Index? then []
    else (if sections[0].ChunkBody? then sections[0].messages else []) + Messages(sections[1..])
  }

  ghost predicate Within(ms: seq<Message>, lo: nat, hi: nat) {
    forall i :: 0 <= i < |ms| ==> lo <= ms[i].time <= hi
  }

  /** Headers and bodies alternate, a header's times bound its body, and no body is empty: the writer
      flushes only chunks that hold a message. */
  ghost predicate WellFormed(sections: seq<Section>) {
    forall i :: 0 <= i < |sections| ==> SectionOk(sections, i)
  }

  ghost predicate SectionOk(sections: seq<Section>, i: nat)
    requires i < |sections|
  {
    match sections[i]
    case ChunkHeader(b, e) =>
      && i + 1 < |sections| && sections[i + 1].ChunkBody? && sections[i + 1].messages != []
      && Within(sections[i + 1].messages, b, e)
    case ChunkBody(_) => i > 0 && sections[i - 1].ChunkHeader?
    case _ => true
  }

  /** The messages from section `p` on, unless the index has been passed. */
  function MessagesFrom(sections: seq<Section>, p: nat, passedIndex: bool): seq<Message>
    requires p <= |sections|
  {
    if passedIndex then [] else Messages(sections[p..])
  }

  /** Reading one section further. */
  lemma NextSection(sections: seq<Section>, p: nat)
    requires p <= |sections|
    ensures MessagesFrom(sections, p, true) == []
    ensures p == |sections| ==> MessagesFrom(sections, p, false) == []
    ensures p < |sections| ==> MessagesFrom(sections, p, false) == match sections[p]
      case Index => []
      case ChunkBody(ms) => ms + MessagesFrom(sections, p + 1, false)
      case _ => MessagesFrom(sections, p + 1, false)
  {
    if p < |sections| {
      assert sections[p..][1..] == sections[p + 1..];
    }
  }

  /** A chunk header is followed by its body. */
  lemma HeaderThenBody(sections: seq<Section>, p: nat)
    requires WellFormed(sections) && p < |sections| && sections[p].ChunkHeader?
    ensures p + 1 < |sections| && sections[p + 1].ChunkBody?
    ensures Within(sections[p + 1].messages, sections[p].beginTime, sections[p].endTime)
    ensures var ms := MessagesFrom(sections, p + 1, false); ms != [] && ms[0].time >= sections[p].beginTime
  {
    assert SectionOk(sections, p);
    NextSection(sections, p + 1);
  }

  ghost predicate Sorted(ms: seq<Message>) {
    forall i, j :: 0 <= i < j < |ms| ==> ms[i].time <= ms[j].time
  }

  // ----- Time windows

  /** The messages with `lo <= time < hi`, in order. */
  function Window(ms: seq<Message>, lo: nat, hi: nat): (w: seq<Message>)
    ensures forall i :: 0 <= i < |w| ==> lo <= w[i].time < hi
  {
    if ms == [] then []
    else (if lo <= ms[0].time < hi then [ms[0]] else []) + Window(ms[1..], lo, hi)
  }

  lemma {:induction false} WindowConcat(a: seq<Message>, b: seq<Message>, lo: nat, hi: nat)
    ensures Window(a + b, lo, hi) == Window(a, lo, hi) + Window(b, lo, hi)
    decreases |a|
  {
    if a == [] {
      assert a + b == b;
    } else {
      assert (a + b)[1..] == a[1..] + b;
      WindowConcat(a[1..], b, lo, hi);
    }
  }

  lemma {:induction false} WindowNone(ms: seq<Message>, lo: nat, hi: nat)
    requires forall i :: 0 <= i < |ms| ==> ms[i].time < lo || hi <= ms[i].time
    ensures Window(ms, lo, hi) == []
    decreases |ms|
  {
    if ms != [] {
      WindowNone(ms[1..], lo, hi);
    }
  }

  lemma {:induction false} WindowAll(ms: seq<Message>, lo: nat, hi: nat)
    requires forall i :: 0 <= i < |ms| ==> lo <= ms[i].time < hi
    ensures Window(ms, lo, hi) == ms
    decreases |ms|
  {
    if ms != [] {
      WindowAll(ms[1..], lo, hi);
    }
  }

  function Max(a: nat, b: nat): nat {
    if a < b then b else a
  }

  function Min(a: nat, b: nat): nat {
    if a < b then a else b
  }

  lemma {:induction false} WindowWindow(ms: seq<Message>, lo: nat, hi: nat, lo': nat, hi': nat)
    ensures Window(Window(ms, lo, hi), lo', hi') == Window(ms, Max(lo, lo'), Min(hi, hi'))
    decreases |ms|
  {
    if ms != [] {
      WindowWindow(ms[1..], lo, hi, lo', hi');
      var first := if lo <= ms[0].time < hi then [ms[0]] else [];
      WindowConcat(first, Window(ms[1..], lo, hi), lo', hi');
    }
  }

  /** Two windows that agree on every message are the same. */
  lemma {:induction false} WindowSame(ms: seq<Message>, lo: nat, hi: nat, lo': nat, hi': nat)
    requires forall i :: 0 <= i < |ms| ==> (lo <= ms[i].time < hi <==> lo' <= ms[i].time < hi')
    ensures Window(ms, lo, hi) == Window(ms, lo', hi')
    decreases |ms|
  {
    if ms != [] {
      WindowSame(ms[1..], lo, hi, lo', hi');
    }
  }

  // ----- Stable sorting by time

  /** std::multimap::emplace: after every element whose key is not larger. */
  function Insert(buffer: seq<Message>, m: Message): seq<Message>
    decreases |buffer|
  {
    var n := |buffer| - 1;
    if buffer == [] || buffer[n].time <= m.time then buffer + [m] else Insert(buffer[..n], m) + [buffer[n]]
  }

  function InsertAll(buffer: seq<Message>, ms: seq<Message>): seq<Message>
    decreases |ms|
  {
    if ms == [] then buffer else InsertAll(Insert(buffer, ms[0]), ms[1..])
  }

  /** The stable sort: what a multimap holds after the messages were inserted in order. */
  function StableSort(ms: seq<Message>): seq<Message> {
    InsertAll([], ms)
  }

  /** Inserting a message that is not before `a` leaves `a` in front. */
  lemma {:induction false} InsertAfter(a: seq<Message>, b: seq<Message>, m: Message)
    requires forall i :: 0 <= i < |a| ==> a[i].time <= m.time
    ensures Insert(a + b, m) == a + Insert(b, m)
    decreases |b|
  {
    if b == [] {
      assert a + b == a;
    } else {
      var n := |b| - 1;
      assert (a + b)[|a + b| - 1] == b[n];
      assert (a + b)[..|a + b| - 1] == a + b[..n];
      InsertAfter(a, b[..n], m);
    }
  }

  /** Inserting a message that is before all of `b` happens within `a`. */
  lemma {:induction false} InsertBefore(a: seq<Message>, b: seq<Message>, m: Message)
    requires forall i :: 0 <= i < |b| ==> m.time < b[i].time
    ensures Insert(a + b, m) == Insert(a, m) + b
    decreases |b|
  {
    if b == [] {
      assert a + b == a;
    } else {
      var n := |b| - 1;
      assert (a + b)[|a + b| - 1] == b[n];
      assert (a + b)[..|a + b| - 1] == a + b[..n];
      InsertBefore(a, b[..n], m);
      assert b == b[..n] + [b[n]];
    }
  }

  /** A stable sort falls apart at any point in time: what is before `t`, then the rest. */
  lemma {:induction false} InsertAllSplit(a: seq<Message>, b: seq<Message>, ms: seq<Message>, t: nat, hi: nat)
    requires forall i :: 0 <= i < |a| ==> a[i].time < t
    requires forall i :: 0 <= i < |b| ==> t <= b[i].time
    requires forall i :: 0 <= i < |ms| ==> ms[i].time < hi
    ensures InsertAll(a + b, ms) == InsertAll(a, Window(ms, 0, t)) + InsertAll(b, Window(ms, t, hi))
    decreases |ms|
  {
    if ms != [] {
      var m := ms[0];
      if m.time < t {
        InsertBefore(a, b, m);
        InsertTimes(a, m);
        InsertAllSplit(Insert(a, m), b, ms[1..], t, hi);
        assert Window(ms, t, hi) == Window(ms[1..], t, hi);
        assert Window(ms, 0, t)[1..] == Window(ms[1..], 0, t);
      } else {
        InsertAfter(a, b, m);
        InsertTimes(b, m);
        InsertAllSplit(a, Insert(b, m), ms[1..], t, hi);
        assert Window(ms, 0, t) == Window(ms[1..], 0, t);
        assert Window(ms, t, hi)[1..] == Window(ms[1..], t, hi);
      }
    }
  }

  /** Insertion adds nothing but the message. */
  lemma {:induction false} InsertTimes(buffer: seq<Message>, m: Message)
    ensures forall i :: 0 <= i < |Insert(buffer, m)| ==> Insert(buffer, m)[i] == m || Insert(buffer, m)[i] in buffer
    decreases |buffer|
  {
    var n := |buffer| - 1;
    if buffer != [] && buffer[n].time > m.time {
      InsertTimes(buffer[..n], m);
      assert forall x :: x in buffer[..n] ==> x in buffer;
    }
  }

  lemma {:induction false} InsertAllTimes(buffer: seq<Message>, ms: seq<Message>, lo: nat, hi: nat)
    requires forall i :: 0 <= i < |buffer| ==> lo <= buffer[i].time < hi
    requires forall i :: 0 <= i < |ms| ==> lo <= ms[i].time < hi
    ensures forall i :: 0 <= i < |InsertAll(buffer, ms)| ==> lo <= InsertAll(buffer, ms)[i].time < hi
    decreases |ms|
  {
    if ms != [] {
      InsertTimes(buffer, ms[0]);
      InsertAllTimes(Insert(buffer, ms[0]), ms[1..], lo, hi);
    }
  }

  lemma SortSplit(ms: seq<Message>, t: nat, hi: nat)
    requires forall i :: 0 <= i < |ms| ==> ms[i].time < hi
    ensures StableSort(ms) == StableSort(Window(ms, 0, t)) + StableSort(Window(ms, t, hi))
  {
    var none: seq<Message> := [];
    InsertAllSplit(none, none, ms, t, hi);
    assert none + none == none;
  }

  /** A multimap all of whose keys are earlier just grows by the sorted messages. */
  lemma {:induction false} InsertAllAppends(a: seq<Message>, b: seq<Message>, ms: seq<Message>)
    requires forall i, j :: 0 <= i < |a| && 0 <= j < |ms| ==> a[i].time <= ms[j].time
    ensures InsertAll(a + b, ms) == a + InsertAll(b, ms)
    decreases |ms|
  {
    if ms != [] {
      InsertAfter(a, b, ms[0]);
      InsertAllAppends(a, Insert(b, ms[0]), ms[1..]);
    }
  }

  lemma {:induction false} InsertAllConcat(buffer: seq<Message>, a: seq<Message>, b: seq<Message>)
    ensures InsertAll(buffer, a + b) == InsertAll(InsertAll(buffer, a), b)
    decreases |a|
  {
    if a == [] {
      assert a + b == b;
    } else {
      assert (a + b)[1..] == a[1..] + b;
      InsertAllConcat(Insert(buffer, a[0]), a[1..], b);
    }
  }

  // ----- StableSort is the stable sort

  lemma {:induction false} InsertSorted(buffer: seq<Message>, m: Message)
    requires Sorted(buffer)
    ensures Sorted(Insert(buffer, m))
    decreases |buffer|
  {
    var n := |buffer| - 1;
    if buffer != [] && buffer[n].time > m.time {
      InsertSorted(buffer[..n], m);
      InsertTimes(buffer[..n], m);
    }
  }

  /** The messages of one time, in order. */
  function Ties(ms: seq<Message>, k: nat): seq<Message> {
    Window(ms, k, k + 1)
  }

  lemma TiesConcat(a: seq<Message>, b: seq<Message>, k: nat)
    ensures Ties(a + b, k) == Ties(a, k) + Ties(b, k)
  {
    WindowConcat(a, b, k, k + 1);
  }

  lemma TiesOne(m: Message, k: nat)
    ensures Ties([m], k) == if m.time == k then [m] else []
  {
    assert Window([m], k, k + 1) == (if m.time == k then [m] else []) + Window([m][1..], k, k + 1);
    assert [m][1..] == [];
  }

  lemma {:induction false} InsertKeepsTies(buffer: seq<Message>, m: Message, k: nat)
    ensures Ties(Insert(buffer, m), k) == Ties(buffer, k) + Ties([m], k)
    decreases |buffer|
  {
    hide Ties;
    var n := |buffer| - 1;
    if buffer == [] || buffer[n].time <= m.time {
      TiesConcat(buffer, [m], k);
    } else {
      var front, last := buffer[..n], buffer[n];
      InsertKeepsTies(front, m, k);
      TiesConcat(Insert(front, m), [last], k);
      TiesConcat(front, [last], k);
      TiesOne(m, k);
      TiesOne(last, k);
      assert buffer == front + [last];
    }
  }

  lemma {:induction false} InsertAllSorts(buffer: seq<Message>, ms: seq<Message>, k: nat)
    requires Sorted(buffer)
    ensures Sorted(InsertAll(buffer, ms))
    ensures Ties(InsertAll(buffer, ms), k) == Ties(buffer, k) + Ties(ms, k)
    decreases |ms|
  {
    if ms != [] {
      InsertSorted(buffer, ms[0]);
      InsertKeepsTies(buffer, ms[0], k);
      InsertAllSorts(Insert(buffer, ms[0]), ms[1..], k);
      TiesConcat([ms[0]], ms[1..], k);
      assert ms == [ms[0]] + ms[1..];
    }
  }

  /** The result is sorted, and messages of equal time keep their order. */
  lemma SortIsStable(ms: seq<Message>)
    ensures Sorted(StableSort(ms))
    ensures forall k: nat :: Ties(StableSort(ms), k) == Ties(ms, k)
  {
    InsertAllSorts([], ms, 0);
    forall k: nat
      ensures Ties(StableSort(ms), k) == Ties(ms, k)
    {
      InsertAllSorts([], ms, k);
    }
  }

  lemma TiesFirst(ms: seq<Message>, k: nat)
    requires ms != []
    ensures Ties(ms, k) == (if ms[0].time == k then [ms[0]] else []) + Ties(ms[1..], k)
  {
  }

  /** A sorted sequence that starts later has nothing at time `k`. */
  lemma TiesEarlier(ms: seq<Message>, k: nat)
    requires Sorted(ms) && (ms != [] ==> k < ms[0].time)
    ensures Ties(ms, k) == []
  {
    WindowNone(ms, k, k + 1);
  }

  lemma SameStart(a: seq<Message>, b: seq<Message>)
    requires Sorted(a) && Sorted(b) && forall k: nat :: Ties(a, k) == Ties(b, k)
    requires a != []
    ensures b != [] && a[0].time >= b[0].time
  {
    hide Ties;
    var k := a[0].time;
    TiesFirst(a, k);
    assert Ties(b, k) != [];
    if b == [] || k < b[0].time { TiesEarlier(b, k); }
  }

  /** There is only one sorted sequence with given ties, so those two properties define StableSort. */
  lemma {:induction false} SortIsUnique(a: seq<Message>, b: seq<Message>)
    requires Sorted(a) && Sorted(b) && forall k: nat :: Ties(a, k) == Ties(b, k)
    ensures a == b
    decreases |a|
  {
    hide Ties;
    if a == [] {
      if b != [] { SameStart(b, a); }
    } else {
      SameStart(a, b);
      SameStart(b, a);
      TiesFirst(a, a[0].time);
      TiesFirst(b, a[0].time);
      assert a[0] == Ties(a, a[0].time)[0] == Ties(b, a[0].time)[0] == b[0];
      forall k: nat
        ensures Ties(a[1..], k) == Ties(b[1..], k)
      {
        assert Ties(a, k) == Ties(b, k);
        TiesFirst(a, k);
        TiesFirst(b, k);
        SameTail(if a[0].time == k then [a[0]] else [], Ties(a[1..], k), Ties(b[1..], k));
      }
      SortIsUnique(a[1..], b[1..]);
      assert a == [a[0]] + a[1..] && b == [b[0]] + b[1..];
    }
  }

  lemma SameTail(p: seq<Message>, x: seq<Message>, y: seq<Message>)
    requires p + x == p + y
    ensures x == y
  {
    assert x == (p + x)[|p|..];
    assert y == (p + y)[|p|..];
  }
}
