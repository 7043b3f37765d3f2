/**
 cyber/record/record_viewer.cc: the messages of several files, merged by time.  The viewer reads all
 files one second at a time into a multimap and hands out its first element.
 */
module RecordViewer {
  import opened RecordFile
  import opened RecordReader
  import opened Subsequences

  const WORDS: nat := 0x1_0000_0000_0000_0000
  const STEP: nat := 1_000_000_000
  const BUFFER_MIN: nat := 128

  // ----- What a viewer should show

  /** The messages of every reader in turn with `lo <= time < hi`. */
  function AllIn(readers: seq<RecordReader>, lo: nat, hi: nat): seq<Message> {
    if readers == [] then [] else Window(readers[0].All(), lo, hi) + AllIn(readers[1..], lo, hi)
  }

  /** A reader that is listed again has nothing left to give: the list without repetitions. */
  function Once(readers: seq<RecordReader>): seq<RecordReader> {
    if readers == [] then []
    else
      var front, last := readers[..|readers| - 1], readers[|readers| - 1];
      if last in front then Once(front) else Once(front) + [last]
  }

  lemma {:induction false} OnceMembers(readers: seq<RecordReader>)
    ensures forall i :: 0 <= i < |Once(readers)| ==> Once(readers)[i] in readers
    decreases |readers|
  {
    if readers != [] {
      var front, last := readers[..|readers| - 1], readers[|readers| - 1];
      OnceMembers(front);
      assert readers == front + [last];
    }
  }

  /** No reader is left out. */
  lemma {:induction false} OnceAll(readers: seq<RecordReader>, i: nat)
    requires i < |readers|
    ensures readers[i] in Once(readers)
    decreases |readers|
  {
    var n := |readers| - 1;
    if i < n {
      OnceAll(readers[..n], i);
    } else if readers[n] in readers[..n] {
      var k :| 0 <= k < n && readers[..n][k] == readers[n];
      OnceAll(readers[..n], k);
    }
  }

  /** A list without repetitions stays as it is. */
  lemma {:induction false} OnceDistinct(readers: seq<RecordReader>)
    requires forall i, j :: 0 <= i < j < |readers| ==> readers[i] != readers[j]
    ensures Once(readers) == readers
    decreases |readers|
  {
    if readers != [] {
      var front, last := readers[..|readers| - 1], readers[|readers| - 1];
      OnceDistinct(front);
      assert readers == front + [last];
    }
  }

  /** One global stable sort. */
  function Merged(readers: seq<RecordReader>, lo: nat, hi: nat): seq<Message> {
    StableSort(AllIn(readers, lo, hi))
  }

  predicate Wanted(channels: set<string>, m: Message) {
    channels == {} || m.channel in channels
  }

  function Selected(channels: set<string>, ms: seq<Message>): seq<Message> {
    if ms == [] then [] else (if Wanted(channels, ms[0]) then [ms[0]] else []) + Selected(channels, ms[1..])
  }

  /** `shown` is what a request for `channels` leaves of `ms`: the messages on a requested channel, or all if none is
      requested, each as often as before, no others, and in the same order. */
  ghost predicate ShowsChosen(channels: set<string>, ms: seq<Message>, shown: seq<Message>) {
    && (forall m :: multiset(shown)[m] == if channels == {} || m.channel in channels then multiset(ms)[m] else 0)
    && Subsequence(shown, ms)
  }

  lemma {:induction false} SelectedInOrder(channels: set<string>, ms: seq<Message>)
    ensures Subsequence(Selected(channels, ms), ms)
    decreases |ms|
  {
    hide Subsequence;
    if ms == [] {
      SubsequenceNone(ms);
    } else {
      var first, rest := ms[0], ms[1..];
      SelectedInOrder(channels, rest);
      SubsequenceMore(first, Selected(channels, rest), rest);
      assert ms == [first] + rest;
      assert [] + Selected(channels, rest) == Selected(channels, rest);
    }
  }

  lemma {:induction false} SelectedCounts(channels: set<string>, ms: seq<Message>, m: Message)
    ensures multiset(Selected(channels, ms))[m]
         == if channels == {} || m.channel in channels then multiset(ms)[m] else 0
    decreases |ms|
  {
    if ms != [] {
      var first, rest := ms[0], ms[1..];
      SelectedCounts(channels, rest, m);
      assert ms == [first] + rest;
    }
  }

  lemma SelectedIsChosen(channels: set<string>, ms: seq<Message>)
    ensures ShowsChosen(channels, ms, Selected(channels, ms))
  {
    hide Selected, Subsequence;
    SelectedInOrder(channels, ms);
    forall m
      ensures multiset(Selected(channels, ms))[m]
           == if channels == {} || m.channel in channels then multiset(ms)[m] else 0
    {
      SelectedCounts(channels, ms, m);
    }
  }

  lemma {:induction false} AllInTimes(readers: seq<RecordReader>, lo: nat, hi: nat)
    ensures forall i :: 0 <= i < |AllIn(readers, lo, hi)| ==> lo <= AllIn(readers, lo, hi)[i].time < hi
    decreases |readers|
  {
    if readers != [] {
      AllInTimes(readers[1..], lo, hi);
    }
  }

  lemma {:induction false} AllInWindow(readers: seq<RecordReader>, lo: nat, hi: nat, lo': nat, hi': nat)
    ensures Window(AllIn(readers, lo, hi), lo', hi') == AllIn(readers, Max(lo, lo'), Min(hi, hi'))
    decreases |readers|
  {
    if readers != [] {
      AllInWindow(readers[1..], lo, hi, lo', hi');
      WindowConcat(Window(readers[0].All(), lo, hi), AllIn(readers[1..], lo, hi), lo', hi');
      WindowWindow(readers[0].All(), lo, hi, lo', hi');
    }
  }

  /** Merging window by window is merging all at once. */
  lemma MergedSplit(readers: seq<RecordReader>, lo: nat, t: nat, hi: nat)
    requires lo <= t <= hi
    ensures Merged(readers, lo, hi) == Merged(readers, lo, t) + Merged(readers, t, hi)
  {
    AllInTimes(readers, lo, hi);
    SortSplit(AllIn(readers, lo, hi), t, hi);
    AllInWindow(readers, lo, hi, 0, t);
    AllInWindow(readers, lo, hi, t, hi);
  }

  lemma {:induction false} AllInNone(readers: seq<RecordReader>, lo: nat, hi: nat)
    requires lo >= hi
    ensures AllIn(readers, lo, hi) == []
    decreases |readers|
  {
    if readers != [] {
      WindowNone(readers[0].All(), lo, hi);
      AllInNone(readers[1..], lo, hi);
    }
  }

  lemma {:induction false} AllInConcat(a: seq<RecordReader>, b: seq<RecordReader>, lo: nat, hi: nat)
    ensures AllIn(a + b, lo, hi) == AllIn(a, lo, hi) + AllIn(b, lo, hi)
    decreases |a|
  {
    hide Window;
    if a == [] {
      assert a + b == b;
    } else {
      assert (a + b)[1..] == a[1..] + b;
      AllInConcat(a[1..], b, lo, hi);
    }
  }

  /** What the i-th reader has to add. */
  function Share(readers: seq<RecordReader>, i: nat, lo: nat, hi: nat): seq<Message>
    requires i < |readers|
  {
    if readers[i] in readers[..i] then [] else Window(readers[i].All(), lo, hi)
  }

  lemma AllInLast(readers: seq<RecordReader>, i: nat, lo: nat, hi: nat)
    requires i < |readers|
    ensures AllIn(Once(readers[..i + 1]), lo, hi) == AllIn(Once(readers[..i]), lo, hi) + Share(readers, i, lo, hi)
  {
    hide Window;
    var front, last := readers[..i], [readers[i]];
    assert readers[..i + 1][..i] == front && readers[..i + 1][i] == readers[i];
    AllInConcat(Once(front), last, lo, hi);
    assert last[1..] == [];
    assert AllIn(last, lo, hi) == Window(readers[i].All(), lo, hi) + AllIn(last[1..], lo, hi);
  }

  lemma MergedTimes(readers: seq<RecordReader>, lo: nat, hi: nat)
    ensures forall i :: 0 <= i < |Merged(readers, lo, hi)| ==> lo <= Merged(readers, lo, hi)[i].time < hi
  {
    AllInTimes(readers, lo, hi);
    InsertAllTimes([], AllIn(readers, lo, hi), lo, hi);
  }

  /** Filling the multimap with one more window. */
  lemma WindowAppends(buffer: seq<Message>, readers: seq<RecordReader>, lo: nat, t: nat, hi: nat)
    requires lo <= t <= hi && (forall i :: 0 <= i < |buffer| ==> buffer[i].time < lo)
    ensures var buffer' := InsertAll(buffer, AllIn(readers, lo, t));
      && buffer' + Merged(readers, t, hi) == buffer + Merged(readers, lo, hi)
      && (forall i :: 0 <= i < |buffer'| ==> buffer'[i].time < t)
  {
    hide AllIn, InsertAll, Merged;
    InsertsMerged(buffer, readers, lo, t);
    MergedSplit(readers, lo, t, hi);
    MergedTimes(readers, lo, t);
    var a, b := Merged(readers, lo, t), Merged(readers, t, hi);
    assert (buffer + a) + b == buffer + (a + b);
  }

  lemma InsertsMerged(buffer: seq<Message>, readers: seq<RecordReader>, lo: nat, t: nat)
    requires forall i :: 0 <= i < |buffer| ==> buffer[i].time < lo
    ensures InsertAll(buffer, AllIn(readers, lo, t)) == buffer + Merged(readers, lo, t)
  {
    hide AllIn, InsertAll;
    AllInTimes(readers, lo, t);
    InsertAllAppends(buffer, [], AllIn(readers, lo, t));
    assert buffer + [] == buffer;
  }

  // ----- The viewer

  class RecordViewer {
    const channels: set<string>
    const requestedBegin: nat
    const requestedEnd: nat
    var beginTime: nat
    var endTime: nat
    var readers: seq<RecordReader>
    var finished: seq<bool>
    var currBegin: nat
    var buffer: seq<Message>

    ghost predicate ReaderOk(i: nat)
      requires i < |readers| == |finished|
      reads this`readers, this`finished, this`currBegin, readers
    {
      && readers[i].Valid() && readers[i].Good()
      && (finished[i] ==> readers[i].header.endTime < currBegin)
      && (!finished[i] ==> ReadyFrom(readers[i], currBegin))
    }

    ghost predicate Valid()
      reads this, readers
    {
      && |finished| == |readers|
      && endTime + STEP < WORDS
      && (forall i :: 0 <= i < |readers| ==> ReaderOk(i))
    }

    /** What is still to be shown. */
    ghost function Remaining(): seq<Message>
      reads this
    {
      Selected(channels, buffer + Merged(Once(readers), currBegin, endTime + 1))
    }

    /** Reads what one reader still has of the window [b, e] into the multimap. */
    method Drain(i: nat, b: nat, e: nat)
      requires i < |readers| && b <= e && ReadyFrom(readers[i], e + 1)
      modifies this`buffer, readers[i]
      ensures Emptied(readers[i], b, e + 1)
      ensures buffer == InsertAll(old(buffer), old(Ahead(readers[i], b, e + 1)))
    {
      hide InsertAll, Insert;
      var reader := readers[i];
      ghost var all := Ahead(reader, b, e + 1);
      while true
        invariant ReadyFrom(reader, e + 1)
        invariant InsertAll(buffer, Ahead(reader, b, e + 1)) == InsertAll(old(buffer), all)
        decreases |Ahead(reader, b, e + 1)|
      {
        ghost var rest := reader.Rest();
        InsertFirst(buffer, Ahead(reader, b, e + 1));
        var ok, message := reader.ReadMessage(b, e);
        ReadOn(reader, rest, b, e, ok, message);
        if !ok {
          break;
        }
        buffer := Insert(buffer, message);
      }
    }

    /** Marks the readers that have nothing at or after `b`. */
    method MarkFinished(b: nat)
      requires Valid() && b == currBegin
      modifies this`finished, readers
      ensures Valid()
      ensures forall i :: 0 <= i < |readers| ==> (finished[i] <==> old(finished[i]) || readers[i].header.endTime < b)
    {
      for i := 0 to |readers|
        invariant Valid() && |finished| == |readers|
        invariant forall j :: 0 <= j < i ==> (finished[j] <==> old(finished[j]) || readers[j].header.endTime < b)
        invariant forall j :: i <= j < |readers| ==> finished[j] == old(finished[j])
      {
        assert ReaderOk(i);
        if !finished[i] && readers[i].header.endTime < b {
          label Before:
          finished := finished[i := true];
          readers[i].Reset();
          forall j | 0 <= j < |readers|
            ensures ReaderOk(j)
          {
            assert old@Before(ReaderOk(j));
            if readers[j] == readers[i] { ReadyAtStart(readers[j], currBegin); }
          }
        }
      }
    }

    /** Reads one unfinished reader's share of the window [b, e]. */
    method ReadShare(i: nat, b: nat, e: nat)
      requires i < |readers| && b <= e
      requires readers[i] in readers[..i] ==> Emptied(readers[i], b, e + 1)
      requires readers[i] !in readers[..i] ==> ReadyFrom(readers[i], b)
      modifies this`buffer, readers[i]
      ensures Emptied(readers[i], b, e + 1) && readers[i].Valid()
      ensures buffer == InsertAll(old(buffer), Share(readers, i, b, e + 1))
    {
      hide InsertAll, Window, Messages;
      if readers[i] !in readers[..i] {
        AllAhead(readers[i], b, e + 1);
      }
      Drain(i, b, e);
    }

    /** Reads the window [b, e] of every unfinished reader, in reader order. */
    method ReadWindow(b: nat, e: nat)
      requires Valid() && b == currBegin && b <= e
      requires forall i :: 0 <= i < |readers| ==> (finished[i] <==> readers[i].header.endTime < b)
      modifies this`buffer, this`currBegin, readers
      ensures Valid() && currBegin == e + 1
      ensures buffer == InsertAll(old(buffer), AllIn(Once(readers), b, e + 1))
    {
      hide ReadyFrom, Emptied, AllIn, Once, Share, Ahead, InsertAll, Window;
      hide WellFormed, InOrder, MessagesFrom, Messages;
      forall j | 0 <= j < |readers|
        ensures readers[j].Valid() && readers[j].Good()
        ensures !finished[j] ==> ReadyFrom(readers[j], b)
      {
        assert ReaderOk(j);
      }
      assert buffer == InsertAll(buffer, AllIn(Once(readers[..0]), b, e + 1)) by { NoReaders(b, e + 1, buffer); }
      for i := 0 to |readers|
        invariant forall j :: 0 <= j < |readers| ==> readers[j].Valid() && readers[j].Good()
        invariant forall j :: 0 <= j < i && !finished[j] ==> Emptied(readers[j], b, e + 1)
        invariant forall j :: i <= j < |readers| && !finished[j] && readers[j] !in readers[..i] ==>
          ReadyFrom(readers[j], b)
        invariant currBegin == b
        invariant buffer == InsertAll(old(buffer), AllIn(Once(readers[..i]), b, e + 1))
      {
        AllInLast(readers, i, b, e + 1);
        if finished[i] {
          NothingFrom(readers, i, b, e + 1);
          assert AllIn(Once(readers[..i + 1]), b, e + 1) == AllIn(Once(readers[..i]), b, e + 1);
          continue;
        }
        InsertAllConcat(old(buffer), AllIn(Once(readers[..i]), b, e + 1), Share(readers, i, b, e + 1));
        ReadShare(i, b, e);
        assert readers[..i + 1] == readers[..i] + [readers[i]];
      }
      assert readers[..|readers|] == readers;
      currBegin := e + 1;
      forall j | 0 <= j < |readers|
        ensures ReaderOk(j)
      {
        if !finished[j] { StillEmpty(readers[j], b, e + 1); }
      }
    }

    /** Fills the multimap with at least BUFFER_MIN messages, or with all that are left. */
    method FillBuffer() returns (ok: bool)
      requires Valid() && buffer == []
      modifies this`buffer, this`currBegin, this`finished, readers
      ensures Valid() && ok == (buffer != [])
      ensures buffer + Merged(Once(readers), currBegin, endTime + 1)
           == old(Merged(Once(readers), currBegin, endTime + 1))
      ensures !ok ==> Merged(Once(readers), currBegin, endTime + 1) == []
    {
      hide Merged, AllIn, ReaderOk, Once;
      while currBegin <= endTime && |buffer| < BUFFER_MIN
        invariant Valid()
        invariant forall i :: 0 <= i < |buffer| ==> buffer[i].time < currBegin
        invariant buffer + Merged(Once(readers), currBegin, endTime + 1)
               == old(Merged(Once(readers), currBegin, endTime + 1))
        decreases endTime + 1 - currBegin
      {
        var thisBegin := currBegin;
        var thisEnd := (thisBegin + STEP) % WORDS;
        if thisEnd > endTime {
          thisEnd := endTime;
        }
        MarkFinished(thisBegin);
        FinishedAlready(thisBegin);
        WindowAppends(buffer, Once(readers), thisBegin, thisEnd + 1, endTime + 1);
        ReadWindow(thisBegin, thisEnd);
      }
      if buffer == [] {
        NothingMerged(Once(readers), currBegin, endTime + 1);
      }
      ok := buffer != [];
    }

    lemma FinishedAlready(b: nat)
      requires Valid() && b == currBegin
      ensures forall i :: 0 <= i < |readers| && finished[i] ==> readers[i].header.endTime < b
    {
      forall i | 0 <= i < |readers|
        ensures finished[i] ==> readers[i].header.endTime < b
      {
        assert ReaderOk(i);
      }
    }

    /** Takes the first of the remaining messages, if there is one. */
    method Update() returns (find: bool, message: Message)
      requires Valid()
      modifies this`buffer, this`currBegin, this`finished, readers
      ensures Valid()
      ensures find == (old(Remaining()) != [])
      ensures find ==> old(Remaining()) == [message] + Remaining()
      ensures !find ==> Remaining() == []
    {
      hide Merged, ReaderOk, Selected, Once;
      find, message := false, Message("", "", 0);
      ghost var all := Remaining();
      while !find
        invariant Valid()
        invariant all == (if find then [message] else []) + Remaining()
        decreases !find, |buffer + Merged(Once(readers), currBegin, endTime + 1)|
      {
        ghost var ahead := buffer + Merged(Once(readers), currBegin, endTime + 1);
        if buffer == [] {
          assert ahead == Merged(Once(readers), currBegin, endTime + 1);
          var filled := FillBuffer();
          if !filled {
            assert ahead == [];
            SelectNone(channels);
            break;
          }
        }
        assert ahead == [buffer[0]] + (buffer[1..] + Merged(Once(readers), currBegin, endTime + 1));
        var m := buffer[0];
        if channels == {} || m.channel in channels {
          message := m;
          find := true;
        }
        SelectFirst(channels, ahead);
        buffer := buffer[1..];
      }
    }

    /** What construction establishes for good. */
    ghost predicate Ready()
      reads this, readers
    {
      && |finished| == |readers|
      && endTime + STEP < WORDS
      && (forall r :: r in readers ==> r.Valid() && r.Good())
      && Clamps(readers, requestedBegin, requestedEnd, beginTime, endTime)
    }

    /** Init sorts the readers by their headers; it does not say how readers with equal headers are arranged. */
    constructor (given: seq<RecordReader>, begin: nat, end: nat, channels: set<string>)
      requires forall r :: r in given ==> r.Valid() && r.Good()
      requires begin < WORDS && end < WORDS && (forall r :: r in given ==> r.header.endTime + STEP < WORDS)
      ensures Ready() && multiset(readers) == multiset(given) && HeaderSorted(readers)
      ensures requestedBegin == begin && requestedEnd == end && this.channels == channels
    {
      var sorted := Sort(given);
      assert forall r :: r in sorted ==> r in multiset(sorted);
      var b, e := UpdateTime(sorted, begin, end);
      this.channels, requestedBegin, requestedEnd := channels, begin, end;
      beginTime, endTime, readers := b, e, sorted;
      finished := seq(|sorted|, _ => false);
      currBegin, buffer := b, [];
    }

    method Reset()
      requires Ready()
      modifies this`finished, this`currBegin, this`buffer, readers
      ensures Ready() && Valid()
      ensures Remaining() == Selected(channels, Merged(Once(readers), beginTime, endTime + 1))
    {
      hide Merged, Clamps, ReadyFrom, Messages, Once;
      for i := 0 to |readers|
        invariant forall r :: r in readers ==> r.Valid() && r.Good()
        invariant forall j :: 0 <= j < i ==> readers[j].Valid() && readers[j].Rest() == Messages(readers[j].sections)
      {
        readers[i].Reset();
      }
      finished := seq(|readers|, _ => false);
      currBegin := beginTime;
      buffer := [];
      forall j | 0 <= j < |readers|
        ensures ReaderOk(j)
      {
        assert readers[j] in readers;
        ReadyAtStart(readers[j], currBegin);
      }
      assert buffer + Merged(Once(readers), currBegin, endTime + 1) == Merged(Once(readers), currBegin, endTime + 1);
    }

    predicate IsValid()
      reads this
    {
      beginTime <= endTime
    }

    /**
     Iterating from begin() to end().  The result is one global stable sort by time of all readers'
     messages in the requested window, ties in reader order and then in file order, restricted to the
     requested channels; reading second by second, buffering and clamping the window leave no trace.
     */
    method View() returns (shown: seq<Message>)
      requires Ready()
      modifies this`finished, this`currBegin, this`buffer, readers
      ensures Ready()
      ensures shown == Selected(channels, Merged(Once(readers), requestedBegin, requestedEnd + 1))
      ensures ShowsChosen(channels, Merged(Once(readers), requestedBegin, requestedEnd + 1), shown)
    {
      hide Merged, ReaderOk, Clamps, Once, Selected, ShowsChosen;
      SelectedIsChosen(channels, Merged(Once(readers), requestedBegin, requestedEnd + 1));
      Reset();
      ghost var all := Remaining();
      assert all == Selected(channels, Merged(Once(readers), requestedBegin, requestedEnd + 1)) by { SameMerge(); }
      shown := [];
      if !IsValid() {
        NothingMerged(Once(readers), beginTime, endTime + 1);
        SelectNone(channels);
        return;
      }
      var more, message := Update();
      while more
        invariant Valid() && Clamps(readers, requestedBegin, requestedEnd, beginTime, endTime)
        invariant all == shown + (if more then [message] else []) + Remaining()
        invariant !more ==> Remaining() == []
        decreases |Remaining()|, more
      {
        shown := shown + [message];
        more, message := Update();
      }
      ReadersValid();
    }

    lemma ReadersValid()
      requires Valid()
      ensures forall r :: r in readers ==> r.Valid() && r.Good()
    {
      forall i | 0 <= i < |readers|
        ensures readers[i].Valid() && readers[i].Good()
      {
        assert ReaderOk(i);
      }
    }

    lemma SameMerge()
      requires Ready()
      ensures Merged(Once(readers), beginTime, endTime + 1) == Merged(Once(readers), requestedBegin, requestedEnd + 1)
    {
      hide Once, Merged, Clamps;
      forall i | 0 <= i < |readers|
        ensures readers[i].Good()
      {
        assert readers[i] in readers;
      }
      ClampedMerged(readers, requestedBegin, requestedEnd, beginTime, endTime);
    }
  }

  /** [b', e'] narrows [b, e] by times at which no reader has a message. */
  ghost predicate Clamps(readers: seq<RecordReader>, b: nat, e: nat, b': nat, e': nat) {
    forall i :: 0 <= i < |readers| && readers[i].isValid ==>
      && b <= b' && (b' != b ==> b' <= readers[i].header.beginTime)
      && e' <= e && (e' != e ==> readers[i].header.endTime <= e')
  }

  lemma ClampedMembers(a: seq<RecordReader>, c: seq<RecordReader>, b: nat, e: nat, b': nat, e': nat)
    requires Clamps(a, b, e, b', e') && forall i :: 0 <= i < |c| ==> c[i] in a
    ensures Clamps(c, b, e, b', e')
  {
    forall i | 0 <= i < |c|
      ensures exists k :: 0 <= k < |a| && a[k] == c[i]
    {
      assert c[i] in a;
    }
  }

  lemma ClampedOne(r: RecordReader, b: nat, e: nat, b': nat, e': nat)
    requires r.Good() && Clamps([r], b, e, b', e')
    ensures Window(r.All(), b', e' + 1) == Window(r.All(), b, e + 1)
  {
    hide Window, Messages;
    assert r == [r][0];
    WindowSame(r.All(), b', e' + 1, b, e + 1);
  }

  lemma {:induction false} ClampedAllIn(readers: seq<RecordReader>, b: nat, e: nat, b': nat, e': nat)
    requires Clamps(readers, b, e, b', e') && forall i :: 0 <= i < |readers| ==> readers[i].Good()
    ensures AllIn(readers, b', e' + 1) == AllIn(readers, b, e + 1)
    decreases |readers|
  {
    hide Window;
    if readers != [] {
      assert readers[0] in readers && Clamps([readers[0]], b, e, b', e');
      ClampedOne(readers[0], b, e, b', e');
      assert Clamps(readers[1..], b, e, b', e');
      ClampedAllIn(readers[1..], b, e, b', e');
    }
  }

  lemma ClampedMerged(readers: seq<RecordReader>, b: nat, e: nat, b': nat, e': nat)
    requires Clamps(readers, b, e, b', e') && forall i :: 0 <= i < |readers| ==> readers[i].Good()
    ensures Merged(Once(readers), b', e' + 1) == Merged(Once(readers), b, e + 1)
  {
    hide Once, Clamps, AllIn;
    var once := Once(readers);
    OnceMembers(readers);
    ClampedMembers(readers, once, b, e, b', e');
    forall i | 0 <= i < |once|
      ensures once[i].Good()
    {
      assert once[i] in readers;
    }
    ClampedAllIn(once, b, e, b', e');
  }

  /** The window is narrowed to the span of the readers that could be opened. */
  method UpdateTime(readers: seq<RecordReader>, begin: nat, end: nat) returns (b: nat, e: nat)
    requires begin < WORDS && end < WORDS && (forall r :: r in readers ==> r.header.endTime + STEP < WORDS)
    ensures Clamps(readers, begin, end, b, e) && e + STEP < WORDS
    ensures (forall i :: 0 <= i < |readers| ==> !readers[i].isValid) ==> b == WORDS - 1 && e == 0
  {
    var minBegin, maxEnd := WORDS - 1, 0;
    for i := 0 to |readers|
      invariant forall j :: 0 <= j < i && readers[j].isValid ==>
        minBegin <= readers[j].header.beginTime && readers[j].header.endTime <= maxEnd
      invariant maxEnd + STEP < WORDS
      invariant (forall j :: 0 <= j < i ==> !readers[j].isValid) ==> minBegin == WORDS - 1 && maxEnd == 0
    {
      if !readers[i].isValid {
        continue;
      }
      if minBegin > readers[i].header.beginTime {
        minBegin := readers[i].header.beginTime;
      }
      if maxEnd < readers[i].header.endTime {
        maxEnd := readers[i].header.endTime;
      }
    }
    b := if begin < minBegin then minBegin else begin;
    e := if end > maxEnd then maxEnd else end;
  }

  /** Init's comparison: by begin time, then by end time. */
  predicate HeaderLess(a: RecordReader, b: RecordReader) {
    if a.header.beginTime == b.header.beginTime then a.header.endTime < b.header.endTime
    else a.header.beginTime < b.header.beginTime
  }

  /** Earlier begin times first, and among equal ones earlier end times. */
  ghost predicate HeaderSorted(readers: seq<RecordReader>) {
    forall i, j :: 0 <= i < j < |readers| ==> InHeaderOrder(readers[i].header, readers[j].header)
  }

  predicate InHeaderOrder(a: Header, b: Header) {
    a.beginTime < b.beginTime || (a.beginTime == b.beginTime && a.endTime <= b.endTime)
  }

  /** A list in header order, in terms of the times themselves. */
  lemma HeaderSortedTimes(readers: seq<RecordReader>, i: nat, j: nat)
    requires HeaderSorted(readers) && i < j < |readers|
    ensures readers[i].header.beginTime <= readers[j].header.beginTime
    ensures readers[i].header.beginTime == readers[j].header.beginTime ==>
              readers[i].header.endTime <= readers[j].header.endTime
  {
  }

  // ----- Ties

  /** Equal times: first the messages of the readers in front, each reader's in file order. */
  lemma MergedTies(a: seq<RecordReader>, b: seq<RecordReader>, lo: nat, hi: nat, k: nat)
    ensures Ties(Merged(a + b, lo, hi), k) == Ties(Merged(a, lo, hi), k) + Ties(Merged(b, lo, hi), k)
  {
    hide Ties, StableSort, AllIn;
    SortIsStable(AllIn(a + b, lo, hi));
    SortIsStable(AllIn(a, lo, hi));
    SortIsStable(AllIn(b, lo, hi));
    AllInConcat(a, b, lo, hi);
    TiesConcat(AllIn(a, lo, hi), AllIn(b, lo, hi), k);
  }

  lemma MergedTiesOne(r: RecordReader, lo: nat, hi: nat, k: nat)
    requires lo <= k < hi
    ensures Ties(Merged([r], lo, hi), k) == Ties(r.All(), k)
  {
    hide StableSort, Window;
    SortIsStable(AllIn([r], lo, hi));
    assert [r][1..] == [];
    assert AllIn([r], lo, hi) == Window(r.All(), lo, hi) + AllIn([r][1..], lo, hi);
    assert AllIn([r], lo, hi) == Window(r.All(), lo, hi);
    WindowWindow(r.All(), lo, hi, k, k + 1);
  }

  method Sort(given: seq<RecordReader>) returns (sorted: seq<RecordReader>)
    ensures multiset(sorted) == multiset(given) && HeaderSorted(sorted)
  {
    hide HeaderLess, HeaderSorted;
    sorted := [];
    assert HeaderSorted(sorted) by { Unsorted(); }
    for n := 0 to |given|
      invariant multiset(sorted) == multiset(given[..n]) && HeaderSorted(sorted)
    {
      var i := |sorted|;
      while i > 0 && HeaderLess(given[n], sorted[i - 1])
        invariant 0 <= i <= |sorted| && forall j :: i <= j < |sorted| ==> HeaderLess(given[n], sorted[j])
      {
        i := i - 1;
      }
      Placed(sorted, i, given[n]);
      assert given[..n + 1] == given[..n] + [given[n]];
      sorted := sorted[..i] + [given[n]] + sorted[i..];
    }
    assert given[..|given|] == given;
  }

  lemma Unsorted()
    ensures HeaderSorted([])
  {
  }

  lemma HeaderOrder(a: RecordReader, b: RecordReader, c: RecordReader)
    ensures InHeaderOrder(a.header, b.header) <==> !HeaderLess(b, a)
    ensures HeaderLess(a, b) ==> InHeaderOrder(a.header, b.header)
    ensures InHeaderOrder(a.header, b.header) && InHeaderOrder(b.header, c.header) ==> InHeaderOrder(a.header, c.header)
  {
  }

  /** A reader put behind those that are not larger leaves the list sorted. */
  lemma Placed(sorted: seq<RecordReader>, i: nat, r: RecordReader)
    requires HeaderSorted(sorted) && i <= |sorted| && (i > 0 ==> !HeaderLess(r, sorted[i - 1]))
    requires forall j :: i <= j < |sorted| ==> HeaderLess(r, sorted[j])
    ensures HeaderSorted(sorted[..i] + [r] + sorted[i..])
    ensures multiset(sorted[..i] + [r] + sorted[i..]) == multiset(sorted) + multiset([r])
  {
    hide HeaderLess, HeaderSorted;
    assert sorted == sorted[..i] + sorted[i..];
    PlacedBetween(sorted[..i], sorted[i..], r);
  }

  lemma PlacedBetween(a: seq<RecordReader>, c: seq<RecordReader>, r: RecordReader)
    requires HeaderSorted(a + c) && (a != [] ==> !HeaderLess(r, a[|a| - 1]))
    requires forall j :: 0 <= j < |c| ==> HeaderLess(r, c[j])
    ensures HeaderSorted(a + [r] + c)
  {
    hide HeaderLess, InHeaderOrder;
    var all, more, n := a + c, a + [r] + c, |a|;
    forall j, k | 0 <= j < k < |more|
      ensures InHeaderOrder(more[j].header, more[k].header)
    {
      if j == n {
        HeaderOrder(r, c[k - n - 1], r);
      } else if k == n {
        HeaderOrder(a[n - 1], r, r);
        if j < n - 1 {
          assert all[j] == a[j] && all[n - 1] == a[n - 1];
          HeaderOrder(a[j], a[n - 1], r);
        }
      } else {
        var j', k' := if j < n then j else j - 1, if k < n then k else k - 1;
        assert more[j] == all[j'] && more[k] == all[k'];
      }
    }
  }

  lemma SelectNone(channels: set<string>)
    ensures Selected(channels, []) == []
  {
  }

  lemma SelectFirst(channels: set<string>, ms: seq<Message>)
    requires ms != []
    ensures Selected(channels, ms) == (if Wanted(channels, ms[0]) then [ms[0]] else []) + Selected(channels, ms[1..])
  {
  }

  lemma NothingMerged(readers: seq<RecordReader>, lo: nat, hi: nat)
    requires lo >= hi
    ensures Merged(readers, lo, hi) == []
  {
    AllInNone(readers, lo, hi);
  }

  /** From time `t` on, everything in the file is still ahead of the reader. */
  ghost predicate ReadyFrom(r: RecordReader, t: nat)
    reads r
  {
    r.Valid() && r.Good() && (r.isValid ==> SameFrom(r.Rest(), r.All(), t))
  }

  /** What the reader still has of a window. */
  ghost function Ahead(r: RecordReader, lo: nat, hi: nat): seq<Message>
    reads r
    requires r.Valid()
  {
    if r.isValid then Window(r.Rest(), lo, hi) else []
  }

  /** Read up to the end of a window. */
  ghost predicate Emptied(r: RecordReader, lo: nat, hi: nat)
    reads r
  {
    ReadyFrom(r, hi) && r.Valid() && Ahead(r, lo, hi) == []
  }

  lemma StillEmpty(r: RecordReader, lo: nat, hi: nat)
    requires Emptied(r, lo, hi)
    ensures ReadyFrom(r, hi) && r.Valid() && Ahead(r, lo, hi) == []
  {
  }

  /** Before its window is read, a reader has all of it. */
  lemma AllAhead(r: RecordReader, lo: nat, hi: nat)
    requires ReadyFrom(r, lo) && lo <= hi
    ensures ReadyFrom(r, hi) && r.Valid() && Ahead(r, lo, hi) == Window(r.All(), lo, hi)
  {
    hide Window;
    if r.isValid {
      SameLater(r.Rest(), r.All(), lo, hi);
    } else {
      WindowNone([], lo, hi);
    }
  }

  /** One call of ReadMessage takes the first of what is ahead. */
  lemma ReadOn(r: RecordReader, rest: seq<Message>, b: nat, e: nat, ok: bool, message: Message)
    requires r.Valid() && r.Good() && b <= e && (!r.isValid ==> !ok && r.Rest() == rest)
    requires r.isValid ==> Outcome(rest, r.Rest(), b, e, ok, message) && SameFrom(rest, r.All(), e + 1)
    ensures ReadyFrom(r, e + 1)
    ensures var before := if r.isValid then Window(rest, b, e + 1) else [];
      && (ok ==> before == [message] + Ahead(r, b, e + 1))
      && (!ok ==> before == [] == Ahead(r, b, e + 1))
  {
    hide Window, Messages;
  }

  lemma InsertFirst(buffer: seq<Message>, ms: seq<Message>)
    ensures ms == [] ==> InsertAll(buffer, ms) == buffer
    ensures ms != [] ==> InsertAll(buffer, ms) == InsertAll(Insert(buffer, ms[0]), ms[1..])
  {
  }

  lemma ReadyAtStart(r: RecordReader, t: nat)
    requires r.Valid() && r.Good() && r.Rest() == Messages(r.sections)
    ensures ReadyFrom(r, t)
  {
  }

  lemma NoReaders(lo: nat, hi: nat, buffer: seq<Message>)
    ensures InsertAll(buffer, AllIn(Once([]), lo, hi)) == buffer
  {
  }

  /** A reader whose file ends before `lo` contributes nothing. */
  lemma NothingFrom(readers: seq<RecordReader>, i: nat, lo: nat, hi: nat)
    requires i < |readers| && readers[i].Good() && readers[i].header.endTime < lo
    ensures Share(readers, i, lo, hi) == []
  {
    WindowNone(readers[i].All(), lo, hi);
  }
}
