/**
 cyber/record/file/record_file_writer.cc: the thread that writes messages fills one chunk while a flush
 thread writes the other one to the file; they exchange the chunks under flush_mutex_.  A step is what
 either thread does between two points where the other can see it.  Writing to the file succeeds.
 */
module RecordFileWriter {
  import opened RecordFile
  import opened RecordItems
  import opened Cuts
  import Reader = RecordReader

  // ----- Chunks

  datatype Chunk = Chunk(body: seq<Message>, beginTime: nat, endTime: nat, rawSize: nat)

  const BLANK := Chunk([], 0, 0, 0)

  function Add(c: Chunk, m: Message): Chunk {
    var begin := if c.beginTime == 0 then m.time else c.beginTime;
    Chunk(c.body + [m], if begin > m.time then m.time else begin,
          if c.endTime < m.time then m.time else c.endTime, c.rawSize + |m.content|)
  }

  ghost predicate EndOk(ms: seq<Message>, end: nat) {
    && (forall i :: 0 <= i < |ms| ==> ms[i].time <= end)
    && (end > 0 ==> exists i :: 0 <= i < |ms| && ms[i].time == end)
  }

  ghost predicate ChunkOk(c: Chunk) {
    BeginOk(c.body, c.beginTime) && EndOk(c.body, c.endTime) && c.rawSize == RawSize(c.body)
  }

  lemma AddOk(c: Chunk, m: Message)
    requires ChunkOk(c)
    ensures ChunkOk(Add(c, m))
  {
    hide BeginOk, RawSize;
    BeginOne(0, c.body, c.beginTime, m);
    RawSizeOne(c.body, m);
    var ms := c.body + [m];
    assert ms[|c.body|] == m && forall i :: 0 <= i < |c.body| ==> ms[i] == c.body[i];
  }

  ghost predicate Positive(ms: seq<Message>) {
    forall i :: 0 <= i < |ms| ==> ms[i].time > 0
  }

  /** Because a begin time of zero stands for "no message yet", a chunk's header bounds its messages exactly
      if none has time zero or the last one has. */
  lemma HeaderBoundsBody(ms: seq<Message>, begin: nat, end: nat)
    requires BeginOk(ms, begin) && EndOk(ms, end)
    ensures Within(ms, begin, end) <==> ZeroSafe(ms)
  {
    if ms != [] && Last(ms).time > 0 {
      if Positive(ms) {
        forall i | 0 <= i < |ms|
          ensures begin <= ms[i].time
        {
          assert PositiveFrom(ms, i);
        }
      } else {
        var i :| 0 <= i < |ms| && ms[i].time == 0;
        assert begin > ms[i].time;
      }
    }
  }

  ghost predicate ZeroSafe(ms: seq<Message>) {
    ms == [] || Last(ms).time == 0 || Positive(ms)
  }

  // ----- The two threads

  /** Where the writing thread is: between calls, about to swap in WriteMessage, and the waits and the swap
      of Close. */
  datatype Pc = Idle | MustSwap | Draining | LastSwap | Finishing | Closed

  datatype Limits = Limits(interval: nat, rawSize: nat)

  /** `written`, `calls` and `overtaken` are history: the messages passed to WriteMessage, all declarations and
      messages in the order of the calls, and whether the writing thread ever swapped while the previous chunk
      was still unwritten. */
  datatype State = State(active: Chunk, flush: Chunk, sections: seq<Section>, header: Header, pc: Pc,
                         written: seq<Message>, calls: seq<Item>, overtaken: bool)

  /** A call of WriteChannel, WriteMessage or Close, the writing thread's next step inside a call, or the
      flush thread writing its chunk. */
  datatype Action = Declare(name: string, kind: string, desc: string) | Write(m: Message) | Close | Proceed | Flush

  function Open(): State {
    State(BLANK, BLANK, [], Header(0, 0), Idle, [], [], false)
  }

  predicate NeedsFlush(limits: Limits, c: Chunk, m: Message) {
    || (limits.interval > 0 && m.time - c.beginTime > limits.interval)
    || (limits.rawSize > 0 && c.rawSize > limits.rawSize)
  }

  function Swap(s: State, pc: Pc): State {
    s.(active := s.flush, flush := s.active, pc := pc, overtaken := s.overtaken || s.flush.body != [])
  }

  function WriteChunk(s: State): State {
    var c := s.flush;
    s.(sections := s.sections + [ChunkHeader(c.beginTime, c.endTime), ChunkBody(c.body)],
       header := Header(if s.header.beginTime == 0 then c.beginTime else s.header.beginTime, c.endTime),
       flush := BLANK)
  }

  function Exec(limits: Limits, s: State, a: Action): State {
    match a
    case Declare(name, kind, desc) =>
      if s.pc.Idle? then
        s.(sections := s.sections + [Channel(name, kind, desc)], calls := s.calls + [Decl(name, kind, desc)])
      else s
    case Write(m) =>
      if s.pc.Idle? then
        var c := Add(s.active, m);
        s.(active := c, written := s.written + [m], calls := s.calls + [Entry(m)],
           pc := if NeedsFlush(limits, c, m) then MustSwap else Idle)
      else s
    case Close => if s.pc.Idle? then s.(pc := Draining) else s
    case Flush => if s.flush.body != [] then WriteChunk(s) else s
    case Proceed =>
      match s.pc
      case MustSwap => Swap(s, Idle)
      case Draining => if s.flush.body == [] then s.(pc := LastSwap) else s
      case LastSwap => Swap(s, Finishing)
      case Finishing => if s.flush.body == [] then s.(pc := Closed) else s
      case _ => s
  }

  function Run(limits: Limits, s: State, actions: seq<Action>): State
    decreases |actions|
  {
    if actions == [] then s
    else Exec(limits, Run(limits, s, actions[..|actions| - 1]), actions[|actions| - 1])
  }

  /** The sections on disk; Close ends with the index. */
  function FileOf(s: State): seq<Section> {
    s.sections + if s.pc.Closed? then [Index] else []
  }

  // ----- The sections

  ghost predicate Framed(sections: seq<Section>) {
    forall i :: 0 <= i < |sections| ==> FrameOk(sections, i)
  }

  ghost predicate FrameOk(sections: seq<Section>, i: nat)
    requires i < |sections|
  {
    match sections[i]
    case ChunkHeader(b, e) =>
      && i + 1 < |sections| && sections[i + 1].ChunkBody? && sections[i + 1].messages != []
      && BeginOk(sections[i + 1].messages, b) && EndOk(sections[i + 1].messages, e)
    case ChunkBody(_) => i > 0 && sections[i - 1].ChunkHeader?
    case Channel(_, _, _) => true
    case Index => false
  }

  lemma FramedChannel(sections: seq<Section>, x: Section)
    requires Framed(sections) && x.Channel?
    ensures Framed(sections + [x])
  {
    var after := sections + [x];
    forall i | 0 <= i < |after|
      ensures FrameOk(after, i)
    {
      assert i < |sections| ==> FrameOk(sections, i);
    }
  }

  lemma FramedChunk(sections: seq<Section>, c: Chunk)
    requires Framed(sections) && ChunkOk(c) && c.body != []
    ensures Framed(sections + [ChunkHeader(c.beginTime, c.endTime), ChunkBody(c.body)])
  {
    hide BeginOk, EndOk;
    var after := sections + [ChunkHeader(c.beginTime, c.endTime), ChunkBody(c.body)];
    forall i | 0 <= i < |after|
      ensures FrameOk(after, i)
    {
      assert i < |sections| ==> FrameOk(sections, i);
    }
  }

  lemma {:induction false} MessagesConcat(a: seq<Section>, b: seq<Section>)
    requires forall i :: 0 <= i < |a| ==> !a[i].Index?
    ensures Messages(a + b) == Messages(a) + Messages(b)
    decreases |a|
  {
    if a == [] {
      assert a + b == b;
    } else {
      assert (a + b)[1..] == a[1..] + b;
      MessagesConcat(a[1..], b);
    }
  }

  lemma NoIndex(sections: seq<Section>)
    requires Framed(sections)
    ensures forall i :: 0 <= i < |sections| ==> !sections[i].Index?
  {
    forall i | 0 <= i < |sections|
      ensures !sections[i].Index?
    {
      assert FrameOk(sections, i);
    }
  }

  lemma MessagesChunk(sections: seq<Section>, b: nat, e: nat, ms: seq<Message>)
    requires Framed(sections)
    ensures Messages(sections + [ChunkHeader(b, e), ChunkBody(ms)]) == Messages(sections) + ms
  {
    NoIndex(sections);
    MessagesConcat(sections, [ChunkHeader(b, e), ChunkBody(ms)]);
    OneChunk(b, e, ms);
  }

  lemma OneChunk(b: nat, e: nat, ms: seq<Message>)
    ensures Messages([ChunkHeader(b, e), ChunkBody(ms)]) == ms
  {
    var two := [ChunkHeader(b, e), ChunkBody(ms)];
    assert two[1..] == [ChunkBody(ms)] && two[1..][1..] == [];
    assert Messages(two[1..]) == ms + Messages(two[1..][1..]);
  }

  lemma MessagesChannel(sections: seq<Section>, x: Section)
    requires Framed(sections) && (x.Channel? || x.Index?)
    ensures Messages(sections + [x]) == Messages(sections)
  {
    NoIndex(sections);
    MessagesConcat(sections, [x]);
    assert [x][1..] == [];
    assert Messages([x]) == [];
  }

  // ----- The invariant

  /** All messages, in the order in which they are or will be in the file if nothing else is swapped. */
  function Out(s: State): seq<Message> {
    Messages(s.sections) + s.flush.body + s.active.body
  }

  ghost predicate Conserved(s: State) {
    multiset(Out(s)) == multiset(s.written)
  }

  ghost predicate PcOk(s: State) {
    && (s.pc.MustSwap? ==> s.active.body != [] && s.written != [] && Last(s.active.body) == Last(s.written))
    && (s.pc.LastSwap? ==> s.flush.body == [])
    && (s.pc.Finishing? || s.pc.Closed? ==> s.active.body == [])
    && (s.pc.Closed? ==> s.flush.body == [])
  }

  /** For messages in time order, the file header gives the first and the last time. */
  ghost predicate HeaderOk(ms: seq<Message>, header: Header) {
    Sorted(ms) && Positive(ms) ==>
      header == if ms == [] then Header(0, 0) else Header(ms[0].time, Last(ms).time)
  }

  ghost predicate Distinct(ms: seq<Message>) {
    forall i, j :: 0 <= i < j < |ms| ==> ms[i] != ms[j]
  }

  ghost predicate Before(ms: seq<Message>, a: Message, b: Message) {
    exists i, j :: 0 <= i < j < |ms| && ms[i] == a && ms[j] == b
  }

  /** `b` comes before `a` in the file, or will whatever happens next. */
  ghost predicate Precedes(s: State, b: Message, a: Message) {
    var ms := Messages(s.sections);
    || Before(ms, b, a)
    || (b in ms && (a in s.flush.body || a in s.active.body))
    || (b in s.flush.body && a in s.active.body)
  }

  /** Two messages change places. */
  ghost predicate Inverted(s: State) {
    exists a, b :: Before(s.written, a, b) && Precedes(s, b, a)
  }

  ghost predicate OrderOk(s: State) {
    && (!s.overtaken ==> Out(s) == s.written)
    && (s.overtaken && Distinct(s.written) ==> Inverted(s))
  }

  ghost predicate Inv(s: State) {
    && ChunkOk(s.active) && ChunkOk(s.flush) && Framed(s.sections)
    && Conserved(s) && PcOk(s) && HeaderOk(Messages(s.sections), s.header) && OrderOk(s)
  }

  lemma InitInv()
    ensures Inv(Open())
  {
  }

  lemma HeaderChunk(ms: seq<Message>, header: Header, c: Chunk)
    requires HeaderOk(ms, header) && ChunkOk(c) && c.body != []
    ensures HeaderOk(ms + c.body, Header(if header.beginTime == 0 then c.beginTime else header.beginTime, c.endTime))
  {
    hide Sorted, ChunkOk;
    if Sorted(ms + c.body) && Positive(ms + c.body) {
      SortedParts(ms, c.body);
      SortedChunk(c);
    }
  }

  lemma SortedParts(a: seq<Message>, b: seq<Message>)
    requires Sorted(a + b) && Positive(a + b)
    ensures Sorted(a) && Positive(a) && Sorted(b) && Positive(b)
  {
    var all := a + b;
    assert forall i :: 0 <= i < |a| ==> a[i] == all[i];
    forall i, j | 0 <= i < j < |b|
      ensures b[i].time <= b[j].time
    {
      assert b[i] == all[|a| + i] && b[j] == all[|a| + j];
    }
    forall i | 0 <= i < |b|
      ensures b[i].time > 0
    {
      assert b[i] == all[|a| + i];
    }
  }

  lemma SortedChunk(c: Chunk)
    requires ChunkOk(c) && c.body != [] && Sorted(c.body) && Positive(c.body)
    ensures c.beginTime == c.body[0].time && c.endTime == Last(c.body).time
  {
    assert PositiveFrom(c.body, 0);
  }

  // ----- Order

  lemma BeforeMore(ms: seq<Message>, more: seq<Message>, a: Message, b: Message)
    ensures Before(ms, a, b) ==> Before(ms + more, a, b)
    ensures a in ms && b in more ==> Before(ms + more, a, b)
  {
    var all := ms + more;
    assert forall i :: 0 <= i < |ms| ==> all[i] == ms[i];
    if a in ms && b in more {
      var i :| 0 <= i < |ms| && ms[i] == a;
      var j :| 0 <= j < |more| && more[j] == b;
      assert all[i] == a && all[|ms| + j] == b;
    }
  }

  /** A message of the unwritten chunk is older than the one that was just written. */
  lemma OlderThanLast(s: State, b: Message)
    requires Conserved(s) && PcOk(s) && s.pc.MustSwap? && b in s.flush.body && Distinct(s.written)
    ensures Before(s.written, b, Last(s.written))
  {
    var last := Last(s.written);
    assert multiset(Out(s)) == multiset(Messages(s.sections)) + multiset(s.flush.body) + multiset(s.active.body);
    assert b in multiset(s.flush.body) && last in multiset(s.active.body);
    assert b in multiset(s.written);
    var i :| 0 <= i < |s.written| && s.written[i] == b;
    if i == |s.written| - 1 {
      assert multiset(s.written)[b] >= 2;
      DistinctOnce(s.written, i);
    }
  }

  lemma DistinctOnce(ms: seq<Message>, i: nat)
    requires Distinct(ms) && i < |ms|
    ensures multiset(ms)[ms[i]] == 1
  {
    assert ms == ms[..i] + [ms[i]] + ms[i + 1..];
    assert ms[i] !in ms[..i] && ms[i] !in ms[i + 1..];
  }

  lemma DistinctPrefix(ms: seq<Message>, m: Message)
    requires Distinct(ms + [m])
    ensures Distinct(ms)
  {
    forall i, j | 0 <= i < j < |ms|
      ensures ms[i] != ms[j]
    {
      assert (ms + [m])[i] == ms[i] && (ms + [m])[j] == ms[j];
    }
  }

  /** Out of order is out of order, and for distinct messages that means a different sequence. */
  lemma InvertedDiffers(s: State)
    requires Inverted(s) && Distinct(s.written)
    ensures Out(s) != s.written
  {
    var a, b :| Before(s.written, a, b) && Precedes(s, b, a);
    BeforeMore(Messages(s.sections), s.flush.body + s.active.body, b, a);
    BeforeMore(Messages(s.sections) + s.flush.body, s.active.body, b, a);
    assert Out(s) == Messages(s.sections) + (s.flush.body + s.active.body);
    assert Before(Out(s), b, a);
  }

  // ----- Steps

  lemma DeclareInv(s: State, x: Section, calls: seq<Item>)
    requires Inv(s) && x.Channel?
    ensures Inv(s.(sections := s.sections + [x], calls := calls))
  {
    hide Framed, ChunkOk, HeaderOk, Sorted, Messages;
    FramedChannel(s.sections, x);
    MessagesChannel(s.sections, x);
    var s' := s.(sections := s.sections + [x], calls := calls);
    if s.overtaken && Distinct(s.written) {
      var a, b :| Before(s.written, a, b) && Precedes(s, b, a);
      assert Precedes(s', b, a);
    }
  }

  lemma WriteOrder(s: State, m: Message)
    requires OrderOk(s)
    ensures OrderOk(s.(active := Add(s.active, m), written := s.written + [m], calls := s.calls + [Entry(m)]))
  {
    hide Messages;
    var s' := s.(active := Add(s.active, m), written := s.written + [m], calls := s.calls + [Entry(m)]);
    assert Out(s') == Out(s) + [m];
    if s.overtaken && Distinct(s'.written) {
      DistinctPrefix(s.written, m);
      var a, b :| Before(s.written, a, b) && Precedes(s, b, a);
      BeforeMore(s.written, [m], a, b);
      assert Precedes(s', b, a);
    }
  }

  lemma FlushOrder(s: State)
    requires OrderOk(s) && Framed(s.sections)
    ensures OrderOk(WriteChunk(s)) && Out(WriteChunk(s)) == Out(s)
  {
    hide Messages, Framed;
    var s' := WriteChunk(s);
    var ms := Messages(s.sections);
    MessagesChunk(s.sections, s.flush.beginTime, s.flush.endTime, s.flush.body);
    assert Out(s') == Out(s);
    if s.overtaken && Distinct(s.written) {
      var a, b :| Before(s.written, a, b) && Precedes(s, b, a);
      BeforeMore(ms, s.flush.body, b, a);
      assert Precedes(s', b, a);
    }
  }

  lemma SwapOrder(s: State, pc: Pc)
    requires OrderOk(s) && Conserved(s) && PcOk(s) && (s.pc.MustSwap? || s.flush.body == [])
    ensures OrderOk(Swap(s, pc))
  {
    hide Messages;
    var s' := Swap(s, pc);
    if s.flush.body == [] {
      assert Out(s') == Out(s);
      if s.overtaken && Distinct(s.written) {
        var a, b :| Before(s.written, a, b) && Precedes(s, b, a);
        assert Precedes(s', b, a);
      }
    } else if Distinct(s.written) {
      var b, last := s.flush.body[0], Last(s.written);
      OlderThanLast(s, b);
      assert Precedes(s', last, b);
    }
  }

  lemma AnyPc(s: State, pc: Pc)
    requires OrderOk(s)
    ensures OrderOk(s.(pc := pc))
  {
    hide Messages;
    if s.overtaken && Distinct(s.written) {
      var a, b :| Before(s.written, a, b) && Precedes(s, b, a);
      assert Precedes(s.(pc := pc), b, a);
    }
  }

  lemma WriteInv(limits: Limits, s: State, m: Message)
    requires Inv(s) && s.pc.Idle?
    ensures Inv(Exec(limits, s, Write(m)))
  {
    hide Framed, ChunkOk, HeaderOk, OrderOk, Messages, NeedsFlush;
    var s' := Exec(limits, s, Write(m));
    AddOk(s.active, m);
    WriteOrder(s, m);
    AnyPc(s'.(pc := s.pc), s'.pc);
    assert Out(s') == Out(s) + [m];
  }

  lemma FlushInv(s: State)
    requires Inv(s) && s.flush.body != []
    ensures Inv(WriteChunk(s))
  {
    hide Framed, ChunkOk, HeaderOk, OrderOk, Messages;
    FramedChunk(s.sections, s.flush);
    MessagesChunk(s.sections, s.flush.beginTime, s.flush.endTime, s.flush.body);
    HeaderChunk(Messages(s.sections), s.header, s.flush);
    FlushOrder(s);
    BlankOk();
  }

  lemma SwapInv(s: State, pc: Pc)
    requires Inv(s) && ((s.pc.MustSwap? && pc == Idle) || (s.pc.LastSwap? && pc == Finishing))
    ensures Inv(Swap(s, pc))
  {
    hide Framed, ChunkOk, HeaderOk, OrderOk, Messages;
    SwapOrder(s, pc);
    var s' := Swap(s, pc);
    assert multiset(Out(s)) == multiset(Messages(s.sections)) + multiset(s.flush.body) + multiset(s.active.body);
    assert multiset(Out(s')) == multiset(Messages(s.sections)) + multiset(s.active.body) + multiset(s.flush.body);
  }

  lemma StepInv(limits: Limits, s: State, a: Action)
    requires Inv(s)
    ensures Inv(Exec(limits, s, a))
  {
    hide Framed, ChunkOk, HeaderOk, OrderOk, Messages, NeedsFlush;
    var s' := Exec(limits, s, a);
    match a
    case Declare(name, kind, desc) => if s.pc.Idle? { DeclareInv(s, Channel(name, kind, desc), s'.calls); }
    case Write(m) => if s.pc.Idle? { WriteInv(limits, s, m); }
    case Close => AnyPc(s, s'.pc);
    case Flush => if s.flush.body != [] { FlushInv(s); }
    case Proceed =>
      if s.pc.MustSwap? || s.pc.LastSwap? { SwapInv(s, s'.pc); } else { AnyPc(s, s'.pc); }
  }

  lemma BlankOk()
    ensures ChunkOk(BLANK)
  {
  }

  lemma {:induction false} RunInv(limits: Limits, actions: seq<Action>)
    ensures Inv(Run(limits, Open(), actions))
    decreases |actions|
  {
    hide Inv;
    if actions == [] {
      InitInv();
    } else {
      RunInv(limits, actions[..|actions| - 1]);
      StepInv(limits, Run(limits, Open(), actions[..|actions| - 1]), actions[|actions| - 1]);
    }
  }

  // ----- What every run gives

  /** Nothing is lost or repeated, and after Close all of it is in the file. */
  lemma NothingLost(limits: Limits, actions: seq<Action>)
    ensures var s := Run(limits, Open(), actions);
            && multiset(Messages(FileOf(s))) <= multiset(s.written)
            && (s.pc.Closed? ==> multiset(Messages(FileOf(s))) == multiset(s.written))
  {
    hide Messages, Framed, ChunkOk, HeaderOk, OrderOk, Exec;
    RunInv(limits, actions);
    var s := Run(limits, Open(), actions);
    FileMessages(s);
    assert multiset(Out(s)) == multiset(Messages(s.sections)) + multiset(s.flush.body) + multiset(s.active.body);
  }

  lemma FileMessages(s: State)
    requires Inv(s)
    ensures Messages(FileOf(s)) == Messages(s.sections)
    ensures s.pc.Closed? ==> Out(s) == Messages(s.sections)
  {
    hide Messages, Framed, ChunkOk, HeaderOk, OrderOk, Conserved;
    if s.pc.Closed? {
      MessagesChannel(s.sections, Index);
    } else {
      assert s.sections + [] == s.sections;
    }
  }

  /** The file keeps the order of the calls exactly if the flush thread kept up: the writing thread never
      filled a chunk while the previous one was unwritten. */
  lemma OrderKeptExactlyWhen(limits: Limits, actions: seq<Action>)
    ensures var s := Run(limits, Open(), actions);
            && (s.pc.Closed? && !s.overtaken ==> Messages(FileOf(s)) == s.written)
            && (s.pc.Closed? && s.overtaken && Distinct(s.written) ==> Messages(FileOf(s)) != s.written)
  {
    hide Messages, Framed, ChunkOk, HeaderOk, Conserved, Exec, Inverted, Distinct;
    RunInv(limits, actions);
    var s := Run(limits, Open(), actions);
    FileMessages(s);
    if s.overtaken && Distinct(s.written) { InvertedDiffers(s); }
  }

  /** Every file is well formed, exactly if each body has no message of time zero or ends with one. */
  lemma FileWellFormedExactlyWhen(limits: Limits, actions: seq<Action>)
    ensures var f := FileOf(Run(limits, Open(), actions));
            WellFormed(f) <==> forall i :: 0 <= i < |f| && f[i].ChunkBody? ==> ZeroSafe(f[i].messages)
  {
    hide Messages, ChunkOk, HeaderOk, OrderOk, Conserved, PcOk, Exec, Within, ZeroSafe, BeginOk, EndOk;
    RunInv(limits, actions);
    var s := Run(limits, Open(), actions);
    var f := FileOf(s);
    forall i | 0 <= i < |s.sections|
      ensures f[i] == s.sections[i] && FrameOk(f, i)
      ensures f[i].ChunkHeader? ==>
                (Within(f[i + 1].messages, f[i].beginTime, f[i].endTime) <==> ZeroSafe(f[i + 1].messages))
    {
      assert FrameOk(s.sections, i);
      if f[i].ChunkHeader? { HeaderBoundsBody(f[i + 1].messages, f[i].beginTime, f[i].endTime); }
    }
    if WellFormed(f) {
      forall j | 0 <= j < |f| && f[j].ChunkBody?
        ensures ZeroSafe(f[j].messages)
      {
        assert FrameOk(f, j);
        var i := j - 1;
        assert SectionOk(f, i);
      }
    } else {
      var i :| 0 <= i < |f| && !SectionOk(f, i);
      assert i < |s.sections| && FrameOk(f, i);
      assert f[i].ChunkHeader? && !ZeroSafe(f[i + 1].messages);
    }
  }

  lemma Subset(a: seq<Message>, ms: seq<Message>)
    requires multiset(a) <= multiset(ms) && Positive(ms)
    ensures Positive(a)
  {
    forall i | 0 <= i < |a|
      ensures a[i].time > 0
    {
      assert a[i] in multiset(a);
      assert a[i] in ms;
    }
  }

  lemma {:induction false} BodyInMessages(sections: seq<Section>, i: nat)
    requires i < |sections| && sections[i].ChunkBody? && forall j :: 0 <= j < i ==> !sections[j].Index?
    ensures multiset(sections[i].messages) <= multiset(Messages(sections))
    decreases i
  {
    if i > 0 { BodyInMessages(sections[1..], i - 1); }
  }

  /** Messages with increasing positive times, written by threads that keep up: the closed file is what
      readers assume, and holds what was written. */
  lemma FileReadable(limits: Limits, actions: seq<Action>)
    requires var s := Run(limits, Open(), actions);
             s.pc.Closed? && !s.overtaken && Sorted(s.written) && Positive(s.written)
    ensures var s := Run(limits, Open(), actions);
            && Messages(FileOf(s)) == s.written && WellFormed(FileOf(s))
            && Reader.InOrder(Messages(FileOf(s)), s.header)
  {
    hide Messages, ChunkOk, OrderOk, Exec, Within, BeginOk, EndOk, WellFormed;
    var s := Run(limits, Open(), actions);
    var f := FileOf(s);
    OrderKeptExactlyWhen(limits, actions);
    FileWellFormedExactlyWhen(limits, actions);
    RunInv(limits, actions);
    FileMessages(s);
    NoIndex(s.sections);
    forall i | 0 <= i < |f| && f[i].ChunkBody?
      ensures ZeroSafe(f[i].messages)
    {
      BodyInMessages(f, i);
      Subset(f[i].messages, s.written);
    }
    assert Within(s.written, s.header.beginTime, s.header.endTime) by { SortedWithin(s.written, s.header); }
  }

  lemma SortedWithin(ms: seq<Message>, header: Header)
    requires Sorted(ms) && Positive(ms) && HeaderOk(ms, header)
    ensures Within(ms, header.beginTime, header.endTime)
  {
  }

  /** Close ends as soon as the flush thread does its part. */
  lemma CloseCompletes(limits: Limits, s: State)
    requires s.pc.Idle?
    ensures var flushed := if s.flush.body == [] then s else WriteChunk(s);
            var swapped := Swap(flushed, Closed);
            Run(limits, s, [Close, Flush, Proceed, Proceed, Flush, Proceed])
            == if s.active.body == [] then swapped else WriteChunk(swapped)
  {
    hide Run;
    var a1 := [] + [Close];
    var a2, a3 := a1 + [Flush], a1 + [Flush] + [Proceed];
    var a4, a5 := a3 + [Proceed], a3 + [Proceed] + [Flush];
    RunNone(limits, s);
    RunOne(limits, s, [], Close);
    RunOne(limits, s, a1, Flush);
    RunOne(limits, s, a2, Proceed);
    assert Run(limits, s, a3).pc.LastSwap? && Run(limits, s, a3).flush.body == [];
    RunOne(limits, s, a3, Proceed);
    RunOne(limits, s, a4, Flush);
    RunOne(limits, s, a5, Proceed);
    assert a5 + [Proceed] == [Close, Flush, Proceed, Proceed, Flush, Proceed];
  }

  lemma RunNone(limits: Limits, s: State)
    ensures Run(limits, s, []) == s
  {
  }

  lemma RunOne(limits: Limits, s: State, actions: seq<Action>, a: Action)
    ensures Run(limits, s, actions + [a]) == Exec(limits, Run(limits, s, actions), a)
  {
    assert (actions + [a])[..|actions|] == actions;
  }

  lemma OneMessage(m: Message)
    requires m.time > 0
    ensures Add(BLANK, m) == Chunk([m], m.time, m.time, |m.content|)
  {
    assert [] + [m] == [m];
  }

  /** Two chunks are filled before the flush thread gets to the first. */
  lemma Overtakes(a: Message, b: Message)
    requires |a.content| > 1 && |b.content| > 1 && 0 < a.time < b.time
    ensures Run(Limits(0, 1), Open(), [Write(a), Proceed, Write(b), Proceed, Flush])
            == State(Add(BLANK, a), BLANK, [ChunkHeader(b.time, b.time), ChunkBody([b])], Header(b.time, b.time), Idle,
                     [a, b], [Entry(a), Entry(b)], true)
  {
    hide Add, Run;
    var limits, none, one, both := Limits(0, 1), Header(0, 0), [] + [a], [] + [a] + [b];
    var oneCall, bothCalls := [] + [Entry(a)], [] + [Entry(a)] + [Entry(b)];
    OneMessage(a);
    OneMessage(b);
    var ca, cb := Add(BLANK, a), Add(BLANK, b);
    var s1 := State(ca, BLANK, [], none, MustSwap, one, oneCall, false);
    var s2 := State(BLANK, ca, [], none, Idle, one, oneCall, false);
    var s3 := State(cb, ca, [], none, MustSwap, both, bothCalls, false);
    var s4 := State(ca, cb, [], none, Idle, both, bothCalls, true);
    assert Exec(limits, Open(), Write(a)) == s1;
    assert Exec(limits, s1, Proceed) == s2;
    assert Exec(limits, s2, Write(b)) == s3;
    assert Exec(limits, s3, Proceed) == s4;
    var chunk := [ChunkHeader(b.time, b.time), ChunkBody([b])];
    assert [] + chunk == chunk && both == [a, b] && bothCalls == [Entry(a), Entry(b)];
    FiveSteps(limits, Write(a), Proceed, Write(b), Proceed, Flush);
  }

  lemma FiveSteps(limits: Limits, a: Action, b: Action, c: Action, d: Action, e: Action)
    ensures Run(limits, Open(), [a, b, c, d, e])
            == Exec(limits, Exec(limits, Exec(limits, Exec(limits, Exec(limits, Open(), a), b), c), d), e)
  {
    hide Exec, Run;
    var a1 := [] + [a];
    var a2 := a1 + [b];
    var a3 := a2 + [c];
    var a4 := a3 + [d];
    RunNone(limits, Open());
    RunOne(limits, Open(), [], a);
    RunOne(limits, Open(), a1, b);
    RunOne(limits, Open(), a2, c);
    RunOne(limits, Open(), a3, d);
    RunOne(limits, Open(), a4, e);
    assert a4 + [e] == [a, b, c, d, e];
  }

  /** A writing thread that is too fast: the second message comes first, and the file header's span is
      empty, although the messages were written in time order. */
  lemma OvertakingReorders(a: Message, b: Message)
    requires |a.content| > 1 && |b.content| > 1 && 0 < a.time < b.time
    ensures var fill := [Write(a), Proceed, Write(b), Proceed, Flush];
            var s := Run(Limits(0, 1), Open(), fill + [Close, Flush, Proceed, Proceed, Flush, Proceed]);
            && s.pc.Closed? && s.written == [a, b] && Messages(FileOf(s)) == [b, a]
            && s.header.beginTime > s.header.endTime
  {
    hide Add, Exec, Run, Messages;
    var limits, fill := Limits(0, 1), [Write(a), Proceed, Write(b), Proceed, Flush];
    var s := Run(limits, Open(), fill);
    Overtakes(a, b);
    OneMessage(a);
    CloseCompletes(limits, s);
    RunConcat(limits, Open(), fill, [Close, Flush, Proceed, Proceed, Flush, Proceed]);
    var s' := Run(limits, Open(), fill + [Close, Flush, Proceed, Proceed, Flush, Proceed]);
    assert s'.sections == s.sections + [ChunkHeader(a.time, a.time), ChunkBody([a])];
    TwoChunks(a, b);
  }

  lemma TwoChunks(a: Message, b: Message)
    ensures var first := [ChunkHeader(b.time, b.time), ChunkBody([b])];
            var second := [ChunkHeader(a.time, a.time), ChunkBody([a])];
            Messages(first + second + [Index]) == [b, a]
  {
    hide Messages;
    var first, second := [ChunkHeader(b.time, b.time), ChunkBody([b])], [ChunkHeader(a.time, a.time), ChunkBody([a])];
    OneChunk(b.time, b.time, [b]);
    OneChunk(a.time, a.time, [a]);
    MessagesConcat(first, second);
    MessagesConcat(first + second, [Index]);
    OnlyIndex();
  }

  lemma OnlyIndex()
    ensures Messages([Index]) == []
  {
  }

  lemma {:induction false} RunConcat(limits: Limits, s: State, a: seq<Action>, b: seq<Action>)
    ensures Run(limits, s, a + b) == Run(limits, Run(limits, s, a), b)
    decreases |b|
  {
    if b == [] {
      assert a + b == a;
    } else {
      assert (a + b)[..|a + b| - 1] == a + b[..|b| - 1];
      RunConcat(limits, s, a, b[..|b| - 1]);
    }
  }

  /** A file written as FileReadable asks is read back message by message. */
  method WriteThenRead(limits: Limits, actions: seq<Action>) returns (ms: seq<Message>)
    requires var s := Run(limits, Open(), actions);
             s.pc.Closed? && !s.overtaken && Sorted(s.written) && Positive(s.written)
    ensures ms == Run(limits, Open(), actions).written
  {
    hide Run, WellFormed, Messages, MessagesFrom, FileOf, Reader.InOrder, Reader.Outcome, Window;
    var s := Run(limits, Open(), actions);
    FileReadable(limits, actions);
    var reader := new Reader.RecordReader(true, s.header, FileOf(s));
    var end := s.header.endTime;
    WholeWindow(s.written, s.header);
    ms := [];
    var more := true;
    while more
      invariant fresh(reader) && reader.Valid() && reader.isValid
      invariant ms + Window(reader.Rest(), 0, end + 1) == s.written
      invariant !more ==> ms == s.written
      decreases more, |s.written| - |ms|
    {
      ghost var rest := reader.Rest();
      var message;
      more, message := reader.ReadMessage(0, end);
      Taken(ms, rest, reader.Rest(), end, more, message);
      if more {
        ms := ms + [message];
      }
    }
  }

  lemma Taken(ms: seq<Message>, rest: seq<Message>, rest': seq<Message>, end: nat, ok: bool, m: Message)
    requires Reader.Outcome(rest, rest', 0, end, ok, m)
    ensures ok ==> ms + Window(rest, 0, end + 1) == ms + [m] + Window(rest', 0, end + 1)
    ensures !ok ==> ms + Window(rest, 0, end + 1) == ms == ms + Window(rest', 0, end + 1)
  {
    hide Window, Reader.SameFrom;
  }

  lemma WholeWindow(ms: seq<Message>, header: Header)
    requires Reader.InOrder(ms, header)
    ensures Window(ms, 0, header.endTime + 1) == ms
  {
    WindowAll(ms, 0, header.endTime + 1);
  }

  // ----- Where chunks begin and end

  function Bodies(sections: seq<Section>): seq<seq<Message>> {
    if sections == [] then []
    else Bodies(Front(sections)) + if Last(sections).ChunkBody? then [Last(sections).messages] else []
  }

  lemma BodiesOne(sections: seq<Section>, x: Section)
    ensures Bodies(sections + [x]) == Bodies(sections) + if x.ChunkBody? then [x.messages] else []
  {
    assert Front(sections + [x]) == sections;
  }

  lemma BodiesChunk(sections: seq<Section>, b: nat, e: nat, ms: seq<Message>)
    ensures Bodies(sections + [ChunkHeader(b, e), ChunkBody(ms)]) == Bodies(sections) + [ms]
  {
    BodiesOne(sections, ChunkHeader(b, e));
    BodiesOne(sections + [ChunkHeader(b, e)], ChunkBody(ms));
    assert sections + [ChunkHeader(b, e)] + [ChunkBody(ms)] == sections + [ChunkHeader(b, e), ChunkBody(ms)];
  }

  lemma {:induction false} FlatBodies(sections: seq<Section>)
    requires forall i :: 0 <= i < |sections| ==> !sections[i].Index?
    ensures Flat(Bodies(sections)) == Messages(sections)
  {
    if sections != [] {
      var front, x := Front(sections), Last(sections);
      FlatBodies(front);
      MessagesConcat(front, [x]);
      assert sections == front + [x] && [x][1..] == [];
      assert Messages([x]) == if x.ChunkBody? then x.messages else [];
      if x.ChunkBody? {
        FlatOne(Bodies(front), x.messages);
      } else {
        assert Bodies(sections) == Bodies(front) && Messages(sections) == Messages(front);
      }
    }
  }

  /** The chunks that are closed: in the file, or waiting for the flush thread. */
  function Parts(s: State): seq<seq<Message>> {
    Bodies(s.sections) + if s.flush.body == [] then [] else [s.flush.body]
  }

  ghost predicate CutOk(limits: Limits, s: State) {
    !s.overtaken ==>
      match s.pc
      case MustSwap => CutRight(limits.interval, limits.rawSize, Parts(s) + [s.active.body], [])
      case Finishing => CutToEnd(limits.interval, limits.rawSize, Parts(s))
      case Closed => CutToEnd(limits.interval, limits.rawSize, Parts(s))
      case _ => CutRight(limits.interval, limits.rawSize, Parts(s), s.active.body)
  }

  /** The test for flushing is that the chunk is full. */
  lemma FlushWhenFull(limits: Limits, c: Chunk, m: Message)
    requires ChunkOk(c)
    ensures NeedsFlush(limits, Add(c, m), m) <==> Full(limits.interval, limits.rawSize, c.body + [m])
  {
    hide BeginOk, RawSize, TooLong;
    BeginOne(limits.interval, c.body, c.beginTime, m);
    RawSizeOne(c.body, m);
  }

  lemma StepCut(limits: Limits, s: State, a: Action)
    requires Inv(s) && CutOk(limits, s)
    ensures CutOk(limits, Exec(limits, s, a))
  {
    hide Framed, ChunkOk, Conserved, HeaderOk, OrderOk, Messages, NeedsFlush, CutRight, Bodies;
    var s' := Exec(limits, s, a);
    match a
    case Declare(name, kind, desc) =>
      BodiesOne(s.sections, Channel(name, kind, desc));
      assert Parts(s') == Parts(s);
    case Write(m) =>
      if s.pc.Idle? {
        FlushWhenFull(limits, s.active, m);
        if !s.overtaken { CutMore(limits.interval, limits.rawSize, Parts(s), s.active.body, m); }
      }
    case Close =>
    case Flush =>
      BodiesChunk(s.sections, s.flush.beginTime, s.flush.endTime, s.flush.body);
      assert s.flush.body != [] ==> Parts(s') == Parts(s);
    case Proceed =>
      if s.pc.LastSwap? && s.active.body != [] {
        assert Front(Parts(s')) == Parts(s) && Last(Parts(s')) == s.active.body;
      } else if s.pc.MustSwap? && s.flush.body == [] {
        assert Parts(s') == Parts(s) + [s.active.body];
      }
  }

  lemma {:induction false} RunCut(limits: Limits, actions: seq<Action>)
    ensures CutOk(limits, Run(limits, Open(), actions))
    decreases |actions|
  {
    hide Inv, Exec;
    if actions == [] {
      EmptyNeverFull(limits.interval, limits.rawSize);
    } else {
      RunInv(limits, actions[..|actions| - 1]);
      RunCut(limits, actions[..|actions| - 1]);
      StepCut(limits, Run(limits, Open(), actions[..|actions| - 1]), actions[|actions| - 1]);
    }
  }

  /** A run that is closed and in order: its chunks are the messages, cut at the limits, and none is empty. */
  lemma ClosedChunks(limits: Limits, actions: seq<Action>)
    requires var s := Run(limits, Open(), actions); s.pc.Closed? && !s.overtaken
    ensures var s := Run(limits, Open(), actions); var parts := Bodies(s.sections);
            && CutToEnd(limits.interval, limits.rawSize, parts) && Flat(parts) == s.written
            && (forall k :: 0 <= k < |parts| ==> parts[k] != [])
  {
    hide Exec, Run, ChunkOk, Conserved, HeaderOk, Messages, CutToEnd, Flat;
    var s := Run(limits, Open(), actions);
    RunInv(limits, actions);
    RunCut(limits, actions);
    FileMessages(s);
    NoIndex(s.sections);
    FlatBodies(s.sections);
    BodiesFilled(s.sections, |s.sections|);
    assert s.sections[..|s.sections|] == s.sections;
    assert Bodies(s.sections) + [] == Bodies(s.sections);
  }

  lemma {:induction false} BodiesFilled(sections: seq<Section>, n: nat)
    requires Framed(sections) && n <= |sections|
    ensures forall k :: 0 <= k < |Bodies(sections[..n])| ==> Bodies(sections[..n])[k] != []
    decreases n
  {
    if n > 0 {
      BodiesFilled(sections, n - 1);
      assert Front(sections[..n]) == sections[..n - 1];
      assert FrameOk(sections, n - 1);
      if sections[n - 1].ChunkBody? {
        var i := n - 2;
        assert FrameOk(sections, i);
      }
    }
  }

  /** Where chunks begin and end in an orderly file depends on the messages and the limits alone, not on
      what the threads did when. */
  lemma ChunksDetermined(limits: Limits, actions: seq<Action>)
    requires var s := Run(limits, Open(), actions); s.pc.Closed? && !s.overtaken
    ensures var s := Run(limits, Open(), actions);
            Bodies(s.sections) == Chunks(limits.interval, limits.rawSize, s.written)
  {
    hide Run, CutToEnd, Bodies, Flat, Chunks;
    ClosedChunks(limits, actions);
    ChunksAreUnique(limits.interval, limits.rawSize, Bodies(Run(limits, Open(), actions).sections));
  }

  /** So whether an orderly file is well formed can be told from the messages and the limits: exactly if each
      chunk of the stream has no message of time zero or ends with one. */
  lemma OrderlyFileWellFormedExactlyWhen(limits: Limits, actions: seq<Action>)
    requires var s := Run(limits, Open(), actions); s.pc.Closed? && !s.overtaken
    ensures var s := Run(limits, Open(), actions);
            var chunks := Chunks(limits.interval, limits.rawSize, s.written);
            WellFormed(FileOf(s)) <==> forall k :: 0 <= k < |chunks| ==> ZeroSafe(chunks[k])
  {
    hide Run, WellFormed, Chunks, ZeroSafe;
    var s := Run(limits, Open(), actions);
    var f := FileOf(s);
    ChunksDetermined(limits, actions);
    FileWellFormedExactlyWhen(limits, actions);
    BodiesOne(s.sections, Index);
    assert Bodies(f) == Bodies(s.sections);
    SafeBodies(f);
  }

  lemma {:induction false} SafeBodies(f: seq<Section>)
    ensures (forall i :: 0 <= i < |f| && f[i].ChunkBody? ==> ZeroSafe(f[i].messages))
       <==> (forall k :: 0 <= k < |Bodies(f)| ==> ZeroSafe(Bodies(f)[k]))
  {
    hide ZeroSafe;
    if f != [] {
      var front, x := Front(f), Last(f);
      SafeBodies(front);
      assert forall i :: 0 <= i < |f| - 1 ==> f[i] == front[i];
      if x.ChunkBody? {
        assert Bodies(f) == Bodies(front) + [x.messages];
        assert forall k :: 0 <= k < |Bodies(front)| ==> Bodies(f)[k] == Bodies(front)[k];
        assert Bodies(f)[|Bodies(front)|] == x.messages && f[|f| - 1] == x;
      } else {
        assert Bodies(f) == Bodies(front);
      }
    }
  }
}
