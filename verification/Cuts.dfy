/**
 Cutting a stream of messages into parts at a size limit and a time interval.  RecordWriter cuts segment
 files in this way, and RecordFileWriter cuts chunks.
 */
module Cuts {
  import opened RecordFile

  function Last<T>(s: seq<T>): T
    requires s != []
  {
    s[|s| - 1]
  }

  function Front<T>(s: seq<T>): seq<T>
    requires s != []
  {
    s[..|s| - 1]
  }

  // ----- When a part is full

  function RawSize(ms: seq<Message>): nat {
    if ms == [] then 0 else RawSize(Front(ms)) + |Last(ms).content|
  }

  /** From message `j` on, no message has time zero. */
  ghost predicate PositiveFrom(ms: seq<Message>, j: nat) {
    forall k :: j <= k < |ms| ==> ms[k].time > 0
  }

  /** The last message is more than the interval after an earlier one of the file.  A time of zero restarts
      the measurement, because the source uses it for "no message yet". */
  ghost predicate TooLong(interval: nat, ms: seq<Message>) {
    interval > 0 && exists j :: 0 <= j < |ms| && PositiveFrom(ms, j) && Last(ms).time - ms[j].time > interval
  }

  ghost predicate TooBig(limit: nat, ms: seq<Message>) {
    limit > 0 && RawSize(ms) > limit
  }

  ghost predicate Full(interval: nat, limit: nat, ms: seq<Message>) {
    TooLong(interval, ms) || TooBig(limit, ms)
  }

  ghost predicate NeverFull(interval: nat, limit: nat, ms: seq<Message>) {
    forall n :: 0 <= n <= |ms| ==> !Full(interval, limit, ms[..n])
  }

  /** The message that fills a file is its last. */
  ghost predicate JustFull(interval: nat, limit: nat, ms: seq<Message>) {
    ms != [] && Full(interval, limit, ms) && NeverFull(interval, limit, Front(ms))
  }

  /** Message lists cut exactly where the limits say. */
  ghost predicate CutRight(interval: nat, limit: nat, parts: seq<seq<Message>>, open: seq<Message>) {
    && (forall k :: 0 <= k < |parts| ==> JustFull(interval, limit, parts[k]))
    && NeverFull(interval, limit, open)
  }

  function Flat(parts: seq<seq<Message>>): seq<Message> {
    if parts == [] then [] else parts[0] + Flat(parts[1..])
  }

  /** segment_begin_time_: the earliest time since the last zero, and zero if there is none. */
  ghost predicate BeginOk(ms: seq<Message>, begin: nat) {
    && (begin == 0 <==> ms == [] || Last(ms).time == 0)
    && (forall j :: 0 <= j < |ms| && PositiveFrom(ms, j) ==> begin <= ms[j].time)
    && (begin > 0 ==> exists j :: 0 <= j < |ms| && PositiveFrom(ms, j) && ms[j].time == begin)
  }

  // ----- Filling up

  lemma {:induction false} FlatOne(parts: seq<seq<Message>>, p: seq<Message>)
    ensures Flat(parts + [p]) == Flat(parts) + p
  {
    if parts == [] {
      assert [p][1..] == [];
    } else {
      assert (parts + [p])[1..] == parts[1..] + [p];
      FlatOne(parts[1..], p);
    }
  }

  lemma RawSizeOne(ms: seq<Message>, m: Message)
    ensures RawSize(ms + [m]) == RawSize(ms) + |m.content|
  {
    assert Front(ms + [m]) == ms;
  }

  lemma NeverFullOne(interval: nat, limit: nat, ms: seq<Message>, m: Message)
    requires NeverFull(interval, limit, ms)
    ensures Full(interval, limit, ms + [m]) ==> JustFull(interval, limit, ms + [m])
    ensures !Full(interval, limit, ms + [m]) ==> NeverFull(interval, limit, ms + [m])
  {
    hide Full;
    var ms' := ms + [m];
    assert Front(ms') == ms && ms'[..|ms'|] == ms';
    assert forall n :: 0 <= n <= |ms| ==> ms'[..n] == ms[..n];
  }

  /** The new segment_begin_time_ decides whether the file has become too long. */
  lemma BeginOne(interval: nat, ms: seq<Message>, begin: nat, m: Message)
    requires BeginOk(ms, begin)
    ensures var begin' := if begin == 0 || begin > m.time then m.time else begin;
            && BeginOk(ms + [m], begin')
            && (TooLong(interval, ms + [m]) <==> interval > 0 && m.time - begin' > interval)
  {
    var ms', begin', n := ms + [m], if begin == 0 || begin > m.time then m.time else begin, |ms|;
    assert ms'[n] == m && forall j :: 0 <= j < n ==> ms'[j] == ms[j];
    forall j | 0 <= j <= n && PositiveFrom(ms', j)
      ensures begin' <= ms'[j].time
    {
      if j < n {
        assert PositiveFrom(ms, j);
        assert ms[n - 1].time > 0;
      }
    }
    if m.time > 0 {
      var j := n;
      if begin' == begin > 0 {
        j :| 0 <= j < n && PositiveFrom(ms, j) && ms[j].time == begin;
      }
      assert PositiveFrom(ms', j) && ms'[j].time == begin';
    } else {
      assert forall j :: 0 <= j <= n ==> !PositiveFrom(ms', j);
    }
  }

  lemma EmptyNeverFull(interval: nat, limit: nat)
    ensures NeverFull(interval, limit, [])
  {
  }

  /** Without its last message no closed file exceeds the size limit, or spans more than the interval. */
  lemma LimitsKept(interval: nat, limit: nat, ms: seq<Message>)
    requires JustFull(interval, limit, ms)
    ensures limit > 0 ==> RawSize(Front(ms)) <= limit
    ensures interval > 0 && PositiveFrom(ms, 0) ==>
              forall i, j :: 0 <= i <= j < |ms| - 1 ==> ms[j].time - ms[i].time <= interval
  {
    var front := Front(ms);
    assert front[..|front|] == front;
    assert !Full(interval, limit, front[..|front|]);
    if interval > 0 && PositiveFrom(ms, 0) {
      forall i, j | 0 <= i <= j < |front|
        ensures ms[j].time - ms[i].time <= interval
      {
        assert !Full(interval, limit, front[..j + 1]);
        assert PositiveFrom(front[..j + 1], i);
      }
    }
  }

  /** `ms` starts with `part`, the first of its prefixes that is full. */
  ghost predicate Starts(interval: nat, limit: nat, ms: seq<Message>, part: seq<Message>) {
    && 0 < |part| <= |ms| && ms[..|part|] == part && Full(interval, limit, ms[..|part|])
    && forall n :: 0 <= n < |part| ==> !Full(interval, limit, ms[..n])
  }

  lemma FirstPart(interval: nat, limit: nat, part: seq<Message>, rest: seq<Message>)
    requires JustFull(interval, limit, part)
    ensures Starts(interval, limit, part + rest, part)
  {
    hide Full;
    forall n | 0 <= n < |part|
      ensures !Full(interval, limit, (part + rest)[..n])
    {
      assert (part + rest)[..n] == Front(part)[..n];
    }
    assert (part + rest)[..|part|] == part;
  }

  /** The first cut is after the first prefix that is full. */
  lemma FirstCut(interval: nat, limit: nat, parts: seq<seq<Message>>, open: seq<Message>)
    requires CutRight(interval, limit, parts, open)
    ensures var ms := Flat(parts) + open;
            && (parts == [] ==> NeverFull(interval, limit, ms))
            && (parts != [] ==>
                  && Starts(interval, limit, ms, parts[0])
                  && ms[|parts[0]|..] == Flat(parts[1..]) + open && CutRight(interval, limit, parts[1..], open))
  {
    hide Full, JustFull, NeverFull;
    var ms := Flat(parts) + open;
    if parts == [] {
      assert ms == open;
    } else {
      assert ms == parts[0] + (Flat(parts[1..]) + open);
      FirstPart(interval, limit, parts[0], Flat(parts[1..]) + open);
    }
  }

  /** A run has only one segmentation: where the cuts are depends on the messages and the limits alone. */
  lemma {:induction false} SegmentationIsUnique(interval: nat, limit: nat, p: seq<seq<Message>>, a: seq<Message>,
                                                q: seq<seq<Message>>, b: seq<Message>)
    requires CutRight(interval, limit, p, a) && CutRight(interval, limit, q, b)
    requires Flat(p) + a == Flat(q) + b
    ensures p == q && a == b
    decreases |p|
  {
    hide JustFull, Full, CutRight;
    var ms := Flat(p) + a;
    FirstCut(interval, limit, p, a);
    FirstCut(interval, limit, q, b);
    if p == [] {
      assert q == [];
      assert ms == a && ms == b;
    } else {
      assert q != [];
      assert |p[0]| == |q[0]|;
      SegmentationIsUnique(interval, limit, p[1..], a, q[1..], b);
      assert p == [p[0]] + p[1..] && q == [q[0]] + q[1..];
    }
  }

  // ----- The cut

  /** The closed parts of a stream and the open one, message by message. */
  ghost function CutUp(interval: nat, limit: nat, ms: seq<Message>): (seq<seq<Message>>, seq<Message>) {
    if ms == [] then ([], [])
    else
      var (parts, open) := CutUp(interval, limit, Front(ms));
      var more := open + [Last(ms)];
      if Full(interval, limit, more) then (parts + [more], []) else (parts, more)
  }

  lemma {:induction false} CutUpIsRight(interval: nat, limit: nat, ms: seq<Message>)
    ensures var (parts, open) := CutUp(interval, limit, ms);
      CutRight(interval, limit, parts, open) && Flat(parts) + open == ms
  {
    hide Full, JustFull, NeverFull, Flat;
    if ms == [] {
      EmptyNeverFull(interval, limit);
      FlatNone();
    } else {
      CutUpIsRight(interval, limit, Front(ms));
      var (parts, open) := CutUp(interval, limit, Front(ms));
      CutMore(interval, limit, parts, open, Last(ms));
      FlatOne(parts, open + [Last(ms)]);
      assert ms == Front(ms) + [Last(ms)];
      assert Flat(parts) + (open + [Last(ms)]) == Flat(parts) + open + [Last(ms)];
    }
  }

  lemma FlatNone()
    ensures Flat([]) == []
  {
  }

  lemma CutMore(interval: nat, limit: nat, parts: seq<seq<Message>>, open: seq<Message>, m: Message)
    requires CutRight(interval, limit, parts, open)
    ensures Full(interval, limit, open + [m]) ==> CutRight(interval, limit, parts + [open + [m]], [])
    ensures !Full(interval, limit, open + [m]) ==> CutRight(interval, limit, parts, open + [m])
  {
    hide JustFull, NeverFull, Full;
    NeverFullOne(interval, limit, open, m);
    EmptyNeverFull(interval, limit);
  }

  /** The parts of a stream that has ended: the last one may be short. */
  ghost function Chunks(interval: nat, limit: nat, ms: seq<Message>): seq<seq<Message>> {
    var (parts, open) := CutUp(interval, limit, ms);
    if open == [] then parts else parts + [open]
  }

  /** Cut at the limits, except that the last part may be short. */
  ghost predicate CutToEnd(interval: nat, limit: nat, parts: seq<seq<Message>>) {
    || CutRight(interval, limit, parts, [])
    || (parts != [] && CutRight(interval, limit, Front(parts), Last(parts)))
  }

  /** Splits off the part at the end that may be short. */
  lemma OpenEnd(interval: nat, limit: nat, parts: seq<seq<Message>>)
    returns (closed: seq<seq<Message>>, open: seq<Message>)
    requires CutToEnd(interval, limit, parts) && forall k :: 0 <= k < |parts| ==> parts[k] != []
    ensures CutRight(interval, limit, closed, open) && Flat(closed) + open == Flat(parts)
    ensures parts == if open == [] then closed else closed + [open]
  {
    hide CutRight, Flat;
    if CutRight(interval, limit, parts, []) {
      closed, open := parts, [];
    } else {
      closed, open := Front(parts), Last(parts);
      assert parts == closed + [open];
      FlatOne(closed, open);
    }
  }

  /** Only Chunks cuts a stream to its end. */
  lemma ChunksAreUnique(interval: nat, limit: nat, parts: seq<seq<Message>>)
    requires CutToEnd(interval, limit, parts) && forall k :: 0 <= k < |parts| ==> parts[k] != []
    ensures parts == Chunks(interval, limit, Flat(parts))
  {
    hide CutRight, Flat, CutToEnd, CutUp;
    var closed, open := OpenEnd(interval, limit, parts);
    var (p, a) := CutUp(interval, limit, Flat(parts));
    CutUpIsRight(interval, limit, Flat(parts));
    SegmentationIsUnique(interval, limit, closed, open, p, a);
  }
}
