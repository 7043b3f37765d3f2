/**
 cyber/record/record_reader.cc: reading one file message by message within a time window, skipping chunks
 by their headers.  A section list stands for the open file and `position` for the file offset.
 */
module RecordReader {
  import opened RecordFile

  class RecordReader {
    const isValid: bool
    const header: Header
    const sections: seq<Section>
    var position: nat
    var chunk: seq<Message>
    var messageIndex: nat
    var reachEnd: bool

    constructor (isValid: bool, header: Header, sections: seq<Section>)
      ensures Valid() && this.isValid == isValid && this.header == header && this.sections == sections
      ensures Rest() == Messages(sections)
    {
      this.isValid, this.header, this.sections := isValid, header, sections;
      position, chunk, messageIndex, reachEnd := 0, [], 0, false;
      new;
      assert sections[0..] == sections;
    }

    /** The file's messages; a reader that failed to open its file has none. */
    function All(): seq<Message> {
      if isValid then Messages(sections) else []
    }

    ghost function FileRest(): seq<Message>
      reads this
      requires position <= |sections|
    {
      MessagesFrom(sections, position, reachEnd)
    }

    /** What has not been passed over yet. */
    ghost function Rest(): seq<Message>
      reads this
      requires position <= |sections| && messageIndex <= |chunk|
    {
      chunk[messageIndex..] + FileRest()
    }

    /** The file is what chunk skipping relies on. */
    ghost predicate Good() {
      isValid ==> WellFormed(sections) && InOrder(Messages(sections), header)
    }

    ghost predicate Valid()
      reads this
    {
      && position <= |sections| && messageIndex <= |chunk|
      && (isValid && Good() ==> InOrder(Rest(), header))
    }

    method Reset()
      requires Valid()
      modifies this
      ensures Valid() && Rest() == Messages(sections)
    {
      position, chunk, messageIndex, reachEnd := 0, [], 0, false;
      assert sections[0..] == sections;
    }

    /** Loads the next chunk that may matter.  In a well-formed file it passes over messages before
        `beginTime` only, and gives up only at the end or at a message after `endTime`. */
    method ReadNextChunk(beginTime: nat, endTime: nat) returns (ok: bool, ghost k: nat)
      requires position <= |sections| && messageIndex == |chunk|
      modifies this
      ensures position <= |sections| && old(position) <= position && messageIndex == old(messageIndex)
      ensures k <= |old(FileRest())|
      ensures ok ==> old(position) < position && chunk + FileRest() == old(FileRest())[k..]
      ensures !ok ==> chunk == old(chunk) && FileRest() == old(FileRest())[k..]
      ensures WellFormed(sections) ==> AllBefore(old(FileRest())[..k], beginTime)
      ensures WellFormed(sections) && !ok ==> FileRest() == [] || FileRest()[0].time > endTime
    {
      hide MessagesFrom, WellFormed, AllBefore, Within;
      assert AllBefore(FileRest()[..0], beginTime) by { Nothing(FileRest(), beginTime); }
      ghost var rest := FileRest();
      k := 0;
      var skip := false;
      while !reachEnd
        invariant old(position) <= position <= |sections| && k <= |rest| && FileRest() == rest[k..]
        invariant WellFormed(sections) ==> AllBefore(rest[..k], beginTime)
        invariant chunk == old(chunk) && messageIndex == old(messageIndex)
        invariant WellFormed(sections) && skip ==> AtEarlyBody(beginTime)
        decreases |sections| - position, if reachEnd then 0 else 1
      {
        NextSection(sections, position);
        if position == |sections| {
          return false, k;
        }
        var section := sections[position];
        position := position + 1;
        match section {
          case Index =>
            reachEnd := true;
            NextSection(sections, position);
          case Channel(_, _, _) =>
          case ChunkHeader(b, e) =>
            if WellFormed(sections) { HeaderThenBody(sections, position - 1); }
            if e < beginTime {
              skip := true;
              if WellFormed(sections) { EarlyBody(sections[position].messages, b, e, beginTime); }
            }
            if b > endTime {
              return false, k;
            }
          case ChunkBody(ms) =>
            if skip {
              Further(rest, k, ms, FileRest(), beginTime);
              k := k + |ms|;
              skip := false;
            } else {
              chunk := ms;
              return true, k;
            }
        }
      }
      NextSection(sections, position);
      ok := false;
    }

    /** The loop of ReadMessage over the loaded chunk: `done` when it returns from within.  `k` messages
        before the window were passed over. */
    method ScanChunk(beginTime: nat, endTime: nat) returns (done: bool, ok: bool, message: Message, ghost k: nat)
      requires position <= |sections| && messageIndex <= |chunk|
      modifies this`messageIndex
      ensures messageIndex <= |chunk| && k <= |old(Rest())| && AllBefore(old(Rest())[..k], beginTime)
      ensures !done ==> !ok && messageIndex == |chunk| && Rest() == old(Rest())[k..]
      ensures done ==> k < |old(Rest())|
      ensures done && ok ==> message == old(Rest())[k] && beginTime <= message.time <= endTime
      ensures done && ok ==> Rest() == old(Rest())[k + 1..]
      ensures done && !ok ==> old(Rest())[k].time > endTime && Rest() == old(Rest())[k..]
    {
      hide MessagesFrom, AllBefore;
      done, ok, message, k := false, false, Message("", "", 0), 0;
      ghost var rest := Rest();
      Nothing(rest, beginTime);
      while messageIndex < |chunk|
        invariant messageIndex <= |chunk|
        invariant k <= |rest| && Rest() == rest[k..] && AllBefore(rest[..k], beginTime)
      {
        var next := chunk[messageIndex];
        assert rest[k] == Rest()[0] == next;
        if next.time > endTime {
          return true, false, message, k;
        }
        messageIndex := messageIndex + 1;
        assert Rest() == rest[k..][1..] == rest[k + 1..];
        if next.time < beginTime {
          OneMore(rest, k, beginTime);
          k := k + 1;
          continue;
        }
        return true, true, next, k;
      }
    }

    /** In any file, the reader moves forward and a message that it returns is ahead and in the window.  In a
        good one it is the next message in the window, if there is one: everything before it in the file is
        before the window, and nothing after it is lost. */
    method ReadMessage(beginTime: nat, endTime: nat) returns (ok: bool, message: Message)
      requires Valid()
      modifies this
      ensures Valid()
      ensures Forward(old(Rest()), Rest(), beginTime, endTime, ok, message)
      ensures isValid && Good() ==> Outcome(old(Rest()), Rest(), beginTime, endTime, ok, message)
      ensures !isValid || beginTime > header.endTime || endTime < header.beginTime ==> !ok && Rest() == old(Rest())
      decreases |sections| - position
    {
      hide WellFormed, MessagesFrom, Messages, AllBefore, InOrder, Outcome, Forward;
      message := Message("", "", 0);
      ghost var rest := Rest();
      if !isValid || beginTime > header.endTime || endTime < header.beginTime {
        Standing(rest, beginTime, endTime, message);
        if isValid && Good() { OutsideHeader(rest, header, beginTime, endTime, message); }
        return false, message;
      }
      var done;
      ghost var k, j;
      done, ok, message, k := ScanChunk(beginTime, endTime);
      if done {
        MovedTo(rest, k, Rest(), beginTime, endTime, ok, message);
        if Good() {
          if ok {
            TakeNext(rest, k, header, beginTime, endTime);
          } else {
            StopAt(rest, k, header, beginTime, endTime, message);
          }
        }
        return;
      }
      ghost var ahead := FileRest();
      assert ahead == rest[k..];
      if Good() { SuffixInOrder(rest, k, header); }
      ok, j := ReadNextChunk(beginTime, endTime);
      if ok {
        messageIndex := 0;
        assert Rest() == ahead[j..];
        if Good() { SuffixInOrder(ahead, j, header); }
        ok, message := ReadMessage(beginTime, endTime);
        ForwardFrom(ahead, j, Rest(), beginTime, endTime, ok, message);
        if Good() { SkipTo(ahead, j, Rest(), beginTime, endTime, ok, message); }
      } else {
        assert Rest() == ahead[j..];
        MovedTo(ahead, j, Rest(), beginTime, endTime, false, message);
        if Good() { StopAt(ahead, j, header, beginTime, endTime, message); }
      }
      ForwardFrom(rest, k, Rest(), beginTime, endTime, ok, message);
      if Good() { SkipTo(rest, k, Rest(), beginTime, endTime, ok, message); }
    }

    ghost predicate AtEarlyBody(beginTime: nat)
      reads this
    {
      position < |sections| && sections[position].ChunkBody? && AllBefore(sections[position].messages, beginTime)
    }
  }

  ghost predicate AllBefore(ms: seq<Message>, t: nat) {
    forall i :: 0 <= i < |ms| ==> ms[i].time < t
  }

  /** In time order and within the span the header gives. */
  ghost predicate InOrder(ms: seq<Message>, header: Header) {
    Sorted(ms) && Within(ms, header.beginTime, header.endTime)
  }

  /** From time `t` on, the two sequences agree. */
  ghost predicate SameFrom(a: seq<Message>, b: seq<Message>, t: nat) {
    forall hi: nat :: Window(a, t, hi) == Window(b, t, hi)
  }

  /** What a call with window [b, e] gives when `rest` was ahead and `rest'` is afterwards: the first
      message of the window, or the news that the window is empty; later messages are all still there. */
  ghost predicate Outcome(rest: seq<Message>, rest': seq<Message>, b: nat, e: nat, ok: bool, message: Message) {
    && Window(rest, b, e + 1) == (if ok then [message] else []) + Window(rest', b, e + 1)
    && (!ok ==> Window(rest, b, e + 1) == [])
    && (b <= e ==> SameFrom(rest', rest, e + 1))
  }

  /** What holds in any file: some messages are passed over, and a message returned is the next one. */
  ghost predicate Forward(rest: seq<Message>, rest': seq<Message>, b: nat, e: nat, ok: bool, message: Message) {
    exists k :: 0 <= k <= |rest| && Moved(rest, k, rest', b, e, ok, message)
  }

  ghost predicate Moved(rest: seq<Message>, k: nat, rest': seq<Message>, b: nat, e: nat, ok: bool, message: Message)
    requires k <= |rest|
  {
    && (ok ==> k < |rest| && message == rest[k] && b <= message.time <= e && rest' == rest[k + 1..])
    && (!ok ==> rest' == rest[k..])
  }

  lemma Standing(rest: seq<Message>, b: nat, e: nat, message: Message)
    ensures Forward(rest, rest, b, e, false, message)
  {
    assert rest[0..] == rest;
    assert Moved(rest, 0, rest, b, e, false, message);
  }

  lemma MovedTo(rest: seq<Message>, k: nat, rest': seq<Message>, b: nat, e: nat, ok: bool, message: Message)
    requires k <= |rest| && Moved(rest, k, rest', b, e, ok, message)
    ensures Forward(rest, rest', b, e, ok, message)
  {
  }

  lemma ForwardFrom(rest: seq<Message>, k: nat, rest': seq<Message>, b: nat, e: nat, ok: bool, message: Message)
    requires k <= |rest| && Forward(rest[k..], rest', b, e, ok, message)
    ensures Forward(rest, rest', b, e, ok, message)
  {
    var j :| 0 <= j <= |rest[k..]| && Moved(rest[k..], j, rest', b, e, ok, message);
    assert rest[k..][j..] == rest[k + j..];
    if ok { assert rest[k..][j + 1..] == rest[k + j + 1..]; }
    assert Moved(rest, k + j, rest', b, e, ok, message);
  }

  lemma SuffixInOrder(rest: seq<Message>, k: nat, header: Header)
    requires k <= |rest| && InOrder(rest, header)
    ensures InOrder(rest[k..], header)
  {
  }

  /** Passing over messages before the window changes neither the window nor what comes after it. */
  lemma PassOver(rest: seq<Message>, k: nat, b: nat, e: nat)
    requires k <= |rest| && AllBefore(rest[..k], b)
    ensures Window(rest, b, e + 1) == Window(rest[k..], b, e + 1)
    ensures b <= e ==> SameFrom(rest[k..], rest, e + 1)
  {
    hide Window;
    assert rest == rest[..k] + rest[k..];
    WindowConcat(rest[..k], rest[k..], b, e + 1);
    WindowNone(rest[..k], b, e + 1);
    if b <= e {
      var t := e + 1;
      forall hi: nat
        ensures Window(rest[k..], t, hi) == Window(rest, t, hi)
      {
        WindowConcat(rest[..k], rest[k..], t, hi);
        WindowNone(rest[..k], t, hi);
      }
    }
  }

  lemma SkipTo(rest: seq<Message>, k: nat, rest': seq<Message>, b: nat, e: nat, ok: bool, message: Message)
    requires k <= |rest| && AllBefore(rest[..k], b) && Outcome(rest[k..], rest', b, e, ok, message)
    ensures Outcome(rest, rest', b, e, ok, message)
  {
    hide Window;
    PassOver(rest, k, b, e);
  }

  lemma StopAt(rest: seq<Message>, k: nat, header: Header, b: nat, e: nat, message: Message)
    requires k <= |rest| && AllBefore(rest[..k], b) && InOrder(rest, header) && (k == |rest| || rest[k].time > e)
    ensures Outcome(rest, rest[k..], b, e, false, message) && InOrder(rest[k..], header)
  {
    hide Window;
    PassOver(rest, k, b, e);
    WindowNone(rest[k..], b, e + 1);
    SuffixInOrder(rest, k, header);
  }

  lemma TakeNext(rest: seq<Message>, k: nat, header: Header, b: nat, e: nat)
    requires k < |rest| && AllBefore(rest[..k], b) && InOrder(rest, header) && b <= rest[k].time <= e
    ensures Outcome(rest, rest[k + 1..], b, e, true, rest[k]) && InOrder(rest[k + 1..], header)
  {
    PassOver(rest, k, b, e);
    assert rest[k..][1..] == rest[k + 1..];
    var t, after := e + 1, rest[k + 1..];
    forall hi: nat
      ensures Window(after, t, hi) == Window(rest, t, hi)
    {
      assert Window(rest[k..], t, hi) == Window(rest, t, hi);
    }
    SuffixInOrder(rest, k + 1, header);
  }

  lemma OutsideHeader(rest: seq<Message>, header: Header, b: nat, e: nat, message: Message)
    requires InOrder(rest, header) && (b > header.endTime || e < header.beginTime)
    ensures Outcome(rest, rest, b, e, false, message)
  {
    WindowNone(rest, b, e + 1);
  }

  lemma Further(rest: seq<Message>, k: nat, ms: seq<Message>, tail: seq<Message>, b: nat)
    requires k <= |rest| && rest[k..] == ms + tail
    ensures k + |ms| <= |rest| && rest[k + |ms|..] == tail
    ensures AllBefore(rest[..k], b) && AllBefore(ms, b) ==> AllBefore(rest[..k + |ms|], b)
  {
    assert rest == rest[..k] + ms + tail;
    assert rest[..k + |ms|] == rest[..k] + ms;
  }

  lemma OneMore(rest: seq<Message>, k: nat, b: nat)
    requires k < |rest| && AllBefore(rest[..k], b) && rest[k].time < b
    ensures AllBefore(rest[..k + 1], b)
  {
  }

  lemma Nothing(rest: seq<Message>, b: nat)
    ensures AllBefore(rest[..0], b)
  {
  }

  lemma EarlyBody(ms: seq<Message>, b: nat, e: nat, t: nat)
    requires Within(ms, b, e) && e < t
    ensures AllBefore(ms, t)
  {
  }

  lemma SameLater(a: seq<Message>, b: seq<Message>, t: nat, t': nat)
    requires SameFrom(a, b, t) && t <= t'
    ensures SameFrom(a, b, t')
  {
    hide Window;
    forall hi: nat
      ensures Window(a, t', hi) == Window(b, t', hi)
    {
      assert Window(a, t, hi) == Window(b, t, hi);
      WindowWindow(a, t, hi, t', hi);
      WindowWindow(b, t, hi, t', hi);
    }
  }
}
