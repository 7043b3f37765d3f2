/**
 What the calls made on a RecordFileWriter leave on disk, whatever the flush thread does when, and so what
 a recording and a split leave there.  Declarations go to the file at once while messages wait in a chunk.
 */
module RecordOnDisk {
  import opened RecordFile
  import opened RecordItems
  import opened Cuts
  import opened RecordFileWriter
  import opened Options
  import Writer = RecordWriter
  import Spliter
  import Reader = RecordReader

  // ----- Calls and file

  /** The messages on `c` that are in chunks. */
  function Waiting(s: State, c: string): nat {
    Undeclared(Entries(s.flush.body), c) + Undeclared(Entries(s.active.body), c)
  }

  ghost predicate CallsOk(s: State) {
    && MessagesOf(s.calls) == s.written
    && Decls(Items(s.sections)) == Decls(s.calls) && Declared(Items(s.sections)) == Declared(s.calls)
    && (forall c :: ChannelOk(s, c))
    && (forall k :: 0 <= k < |Decls(s.calls)| ==> DeclOk(s, k))
  }

  /** No message comes before a declaration in the file that came after it in the calls. */
  ghost predicate DeclOk(s: State, k: nat) {
    multiset(BeforeDecl(Items(s.sections), k)) <= multiset(BeforeDecl(s.calls, k))
  }

  /** More in the file and more calls do not change what comes before the declarations made so far. */
  lemma DeclStays(s: State, s': State, sections: seq<Item>, calls: seq<Item>)
    requires CallsOk(s) && Items(s'.sections) == Items(s.sections) + sections && s'.calls == s.calls + calls
    ensures forall k :: 0 <= k < |Decls(s.calls)| ==> DeclOk(s', k)
  {
    hide Items, Decls, Undeclared, Declared, MessagesOf, BeforeDecl;
    forall k | 0 <= k < |Decls(s.calls)|
      ensures DeclOk(s', k)
    {
      assert DeclOk(s, k);
      BeforeDeclMore(Items(s.sections), sections, k);
      BeforeDeclMore(s.calls, calls, k);
    }
  }

  /** No more messages come before the declaration in the file than in the calls. */
  ghost predicate ChannelOk(s: State, c: string) {
    Undeclared(Items(s.sections), c) + (if c in Declared(s.calls) then 0 else Waiting(s, c)) <= Undeclared(s.calls, c)
  }

  lemma {:induction false} EntriesConcat(a: seq<Message>, b: seq<Message>)
    ensures Entries(a + b) == Entries(a) + Entries(b)
    decreases |a|
  {
    if a == [] {
      assert a + b == b;
    } else {
      assert (a + b)[1..] == a[1..] + b;
      EntriesConcat(a[1..], b);
    }
  }

  lemma NoneDeclared(ms: seq<Message>)
    ensures Declared(Entries(ms)) == {} && Decls(Entries(ms)) == []
  {
    MessagesOfEntries(ms);
  }

  lemma UndeclaredOne(x: Item, c: string)
    ensures Undeclared([x], c) == if IsOn(x, c) then 1 else 0
  {
    assert [x][1..] == [];
  }

  /** One more item. */
  lemma ItemMore(items: seq<Item>, x: Item, c: string)
    ensures Declared(items + [x]) == Declared(items) + if x.Decl? then {x.name} else {}
    ensures Undeclared(items + [x], c) == Undeclared(items, c) + if c !in Declared(items) && IsOn(x, c) then 1 else 0
  {
    DeclaredConcat(items, [x]);
    UndeclaredConcat(items, [x], c);
    UndeclaredOne(x, c);
  }

  lemma WaitsMore(ms: seq<Message>, m: Message, c: string)
    ensures Undeclared(Entries(ms + [m]), c) == Undeclared(Entries(ms), c) + if m.channel == c then 1 else 0
  {
    EntriesConcat(ms, [m]);
    assert [m][1..] == [];
    assert Entries([m]) == [Entry(m)];
    NoneDeclared(ms);
    ItemMore(Entries(ms), Entry(m), c);
  }

  lemma SectionMore(sections: seq<Section>, x: Section)
    requires Framed(sections) && !x.Index?
    ensures Items(sections + [x]) == Items(sections) + ItemsOf(x)
  {
    hide Items, ItemsOf;
    NoIndex(sections);
    ItemsConcat(sections, [x]);
    ItemsOne(x);
  }

  lemma ChunkMore(sections: seq<Section>, b: nat, e: nat, ms: seq<Message>)
    requires Framed(sections)
    ensures Items(sections + [ChunkHeader(b, e), ChunkBody(ms)]) == Items(sections) + Entries(ms)
  {
    hide Items, Framed, Entries;
    NoIndex(sections);
    var header, body := [ChunkHeader(b, e)], [ChunkBody(ms)];
    assert header + body == [ChunkHeader(b, e), ChunkBody(ms)];
    ItemsConcat(sections, header + body);
    ItemsConcat(header, body);
    ItemsOne(ChunkHeader(b, e));
    ItemsOne(ChunkBody(ms));
  }

  lemma StepCalls(limits: Limits, s: State, a: Action)
    requires Inv(s) && CallsOk(s)
    ensures CallsOk(Exec(limits, s, a))
  {
    hide Inv, CallsOk, NeedsFlush;
    var s' := Exec(limits, s, a);
    match a
    case Declare(name, kind, desc) => if s.pc.Idle? { DeclareCalls(limits, s, name, kind, desc); }
    case Write(m) => if s.pc.Idle? { WriteCalls(limits, s, m); }
    case Flush => if s.flush.body != [] { FlushCalls(s); }
    case _ => QuietCalls(s, s');
  }

  /** A step that at most swaps the chunks. */
  lemma QuietCalls(s: State, s': State)
    requires CallsOk(s) && s'.sections == s.sections && s'.calls == s.calls && s'.written == s.written
    requires (s'.flush == s.flush && s'.active == s.active) || (s'.flush == s.active && s'.active == s.flush)
    ensures CallsOk(s')
  {
    hide Undeclared, Declared, Items, MessagesOf, Decls, Entries, BeforeDecl;
    forall c
      ensures ChannelOk(s', c)
    {
      assert ChannelOk(s, c);
    }
    forall k | 0 <= k < |Decls(s'.calls)|
      ensures DeclOk(s', k)
    {
      assert DeclOk(s, k);
    }
  }

  lemma DeclareCalls(limits: Limits, s: State, name: string, kind: string, desc: string)
    requires Inv(s) && CallsOk(s) && s.pc.Idle?
    ensures CallsOk(Exec(limits, s, Declare(name, kind, desc)))
  {
    hide Undeclared, Declared, Items, MessagesOf, Decls, Entries, ChunkOk, Conserved, HeaderOk, OrderOk;
    var s', d := Exec(limits, s, Declare(name, kind, desc)), Decl(name, kind, desc);
    SectionMore(s.sections, Channel(name, kind, desc));
    MessagesOfOne(s.calls, d);
    DeclsOne(s.calls, d);
    DeclsOne(Items(s.sections), d);
    ItemMore(s.calls, d, "");
    ItemMore(Items(s.sections), d, "");
    forall c
      ensures ChannelOk(s', c)
    {
      assert ChannelOk(s, c);
      ItemMore(s.calls, d, c);
      ItemMore(Items(s.sections), d, c);
    }
    NewDecl(s, s', d);
  }

  lemma NewDecl(s: State, s': State, d: Item)
    requires Inv(s) && CallsOk(s) && d.Decl?
    requires Items(s'.sections) == Items(s.sections) + [d] && s'.calls == s.calls + [d]
    ensures forall k :: 0 <= k < |Decls(s'.calls)| ==> DeclOk(s', k)
  {
    hide Items, Decls, Undeclared, Declared, MessagesOf, BeforeDecl, ChunkOk, HeaderOk, OrderOk, Framed;
    DeclStays(s, s', [d], [d]);
    DeclsOne(s.calls, d);
    BeforeDeclNew(s.calls, d);
    BeforeDeclNew(Items(s.sections), d);
    MessagesOfItems(s.sections);
    assert multiset(Messages(s.sections)) <= multiset(s.written) by {
      assert multiset(Out(s)) == multiset(Messages(s.sections)) + multiset(s.flush.body) + multiset(s.active.body);
    }
  }

  lemma WriteCalls(limits: Limits, s: State, m: Message)
    requires CallsOk(s) && s.pc.Idle?
    ensures CallsOk(Exec(limits, s, Write(m)))
  {
    hide Undeclared, Declared, Items, MessagesOf, Decls, Entries, NeedsFlush;
    var s' := Exec(limits, s, Write(m));
    MessagesOfOne(s.calls, Entry(m));
    DeclsOne(s.calls, Entry(m));
    ItemMore(s.calls, Entry(m), "");
    forall c
      ensures ChannelOk(s', c)
    {
      assert ChannelOk(s, c);
      ItemMore(s.calls, Entry(m), c);
      WaitsMore(s.active.body, m, c);
    }
    assert Items(s'.sections) == Items(s.sections) + [];
    DeclStays(s, s', [], [Entry(m)]);
  }

  lemma FlushCalls(s: State)
    requires Inv(s) && CallsOk(s)
    ensures CallsOk(WriteChunk(s))
  {
    hide Undeclared, Declared, Items, MessagesOf, Decls, Entries, ChunkOk, Conserved, HeaderOk, OrderOk;
    var s', body := WriteChunk(s), Entries(s.flush.body);
    ChunkMore(s.sections, s.flush.beginTime, s.flush.endTime, s.flush.body);
    NoneDeclared(s.flush.body);
    DeclsConcat(Items(s.sections), body);
    DeclaredConcat(Items(s.sections), body);
    forall c
      ensures ChannelOk(s', c)
    {
      assert ChannelOk(s, c);
      UndeclaredConcat(Items(s.sections), body, c);
      NothingWaits(c);
    }
    assert s'.calls == s.calls + [];
    DeclStays(s, s', body, []);
  }

  lemma NothingWaits(c: string)
    ensures Undeclared(Entries([]), c) == 0
  {
  }

  lemma {:induction false} RunCalls(limits: Limits, actions: seq<Action>)
    ensures CallsOk(Run(limits, Open(), actions))
    decreases |actions|
  {
    hide Inv, Exec;
    if actions != [] {
      RunInv(limits, actions[..|actions| - 1]);
      RunCalls(limits, actions[..|actions| - 1]);
      StepCalls(limits, Run(limits, Open(), actions[..|actions| - 1]), actions[|actions| - 1]);
    }
  }

  /**
   The closed file, for every interleaving of the calls with the flush thread: it holds the messages of the
   calls and no others, in the same order if the flush thread kept up; it holds the declarations in order; no
   message comes before a declaration that it followed in the calls; and so for no channel do more messages come
   before its first declaration than in the calls.
   */
  lemma FileOfCalls(limits: Limits, actions: seq<Action>)
    requires Run(limits, Open(), actions).pc.Closed?
    ensures var s := Run(limits, Open(), actions); var f := FileOf(s);
      && multiset(Messages(f)) == multiset(MessagesOf(s.calls))
      && (!s.overtaken ==> Messages(f) == MessagesOf(s.calls))
      && (s.overtaken && Distinct(s.written) ==> Messages(f) != MessagesOf(s.calls))
      && Decls(Items(f)) == Decls(s.calls)
      && (forall k :: 0 <= k < |Decls(s.calls)| ==>
            multiset(BeforeDecl(Items(f), k)) <= multiset(BeforeDecl(s.calls, k)))
      && (forall c :: Undeclared(Items(f), c) <= Undeclared(s.calls, c))
  {
    hide Run, Messages, MessagesOf, Items, Decls, Undeclared, Declared, Distinct, BeforeDecl;
    var s := Run(limits, Open(), actions);
    NothingLost(limits, actions);
    OrderKeptExactlyWhen(limits, actions);
    RunCalls(limits, actions);
    RunInv(limits, actions);
    IndexAdds(s);
    forall c
      ensures Undeclared(Items(FileOf(s)), c) <= Undeclared(s.calls, c)
    {
      assert ChannelOk(s, c);
    }
    forall k | 0 <= k < |Decls(s.calls)|
      ensures multiset(BeforeDecl(Items(FileOf(s)), k)) <= multiset(BeforeDecl(s.calls, k))
    {
      assert DeclOk(s, k);
    }
  }

  lemma IndexAdds(s: State)
    requires Inv(s)
    ensures Items(FileOf(s)) == Items(s.sections)
  {
    NoIndex(s.sections);
    if s.pc.Closed? {
      ItemsConcat(s.sections, [Index]);
    } else {
      assert FileOf(s) == s.sections;
    }
  }

  /** A declaration that follows a message in the calls can come before it in the file, although the flush
      thread keeps up: the order of the two kinds is not kept. */
  lemma DeclarationOvertakes(m: Message, name: string, kind: string, desc: string)
    ensures var s := Run(Limits(0, 0), Open(), [Write(m), Declare(name, kind, desc)] + CLOSING);
      && s.pc.Closed? && !s.overtaken && s.calls == [Entry(m), Decl(name, kind, desc)]
      && Items(FileOf(s)) == [Decl(name, kind, desc), Entry(m)]
  {
    hide Run, Items, Add;
    var limits, d := Limits(0, 0), Declare(name, kind, desc);
    var s1 := Exec(limits, Open(), Write(m));
    var s2 := Exec(limits, s1, d);
    TwoSteps(limits, Write(m), d);
    CloseCompletes(limits, s2);
    RunConcat(limits, Open(), [Write(m), d], CLOSING);
    var s := Run(limits, Open(), [Write(m), d] + CLOSING);
    AddFirst(m);
    var c := Add(BLANK, m);
    assert [] + [Entry(m)] + [Decl(name, kind, desc)] == [Entry(m), Decl(name, kind, desc)];
    assert s.calls == [Entry(m), Decl(name, kind, desc)];
    var channel := [Channel(name, kind, desc)];
    assert [] + channel == channel;
    assert s.sections == channel + [ChunkHeader(c.beginTime, c.endTime), ChunkBody([m])];
    RunInv(limits, [Write(m), d] + CLOSING);
    IndexAdds(s);
    ChunkMore(channel, c.beginTime, c.endTime, [m]);
    ItemsOne(channel[0]);
    assert Entries([m]) == [Entry(m)] by { assert [m][1..] == []; }
    assert [Decl(name, kind, desc)] + [Entry(m)] == [Decl(name, kind, desc), Entry(m)];
  }

  /** Close, with the flush thread doing its part. */
  const CLOSING: seq<Action> := [Close, Flush, Proceed, Proceed, Flush, Proceed]

  lemma TwoSteps(limits: Limits, a: Action, b: Action)
    ensures Run(limits, Open(), [a, b]) == Exec(limits, Exec(limits, Open(), a), b)
  {
    hide Exec;
    RunOne(limits, Open(), [], a);
    RunOne(limits, Open(), [a], b);
    assert [] + [a] == [a] && [a] + [b] == [a, b];
  }

  lemma AddFirst(m: Message)
    ensures Add(BLANK, m).body == [m]
  {
  }

  // ----- Every sequence of calls has an orderly run

  /** A run of these calls with a flush thread that keeps up, closed at the end. */
  lemma {:induction false} OrderlyRun(limits: Limits, calls: seq<Item>) returns (actions: seq<Action>)
    ensures var s := Run(limits, Open(), actions); s.calls == calls && s.pc.Closed? && !s.overtaken
  {
    hide Run, Exec;
    var before := OpenRun(limits, calls);
    actions := before + CLOSING;
    RunConcat(limits, Open(), before, CLOSING);
    CloseCompletes(limits, Run(limits, Open(), before));
  }

  lemma {:induction false} OpenRun(limits: Limits, calls: seq<Item>) returns (actions: seq<Action>)
    ensures var s := Run(limits, Open(), actions); s.calls == calls && s.pc.Idle? && !s.overtaken
    decreases |calls|
  {
    hide Exec;
    if calls == [] {
      actions := [];
    } else {
      var before := OpenRun(limits, Front(calls));
      var s := Run(limits, Open(), before);
      var more := NextCall(limits, s, Last(calls));
      actions := before + more;
      RunConcat(limits, Open(), before, more);
      assert calls == Front(calls) + [Last(calls)];
    }
  }

  lemma NextCall(limits: Limits, s: State, x: Item) returns (actions: seq<Action>)
    requires s.pc.Idle? && !s.overtaken
    ensures var s' := Run(limits, s, actions); s'.calls == s.calls + [x] && s'.pc.Idle? && !s'.overtaken
  {
    hide Add, NeedsFlush;
    if x.Decl? {
      actions := [] + [Declare(x.name, x.kind, x.desc)];
      RunOne(limits, s, [], Declare(x.name, x.kind, x.desc));
    } else {
      var a1 := [] + [Write(x.m)];
      var a2 := a1 + [Flush];
      actions := a2 + [Proceed];
      RunOne(limits, s, [], Write(x.m));
      RunOne(limits, s, a1, Flush);
      RunOne(limits, s, a2, Proceed);
    }
  }

  // ----- A recording

  /** A closed run of the file writer on these calls. */
  ghost predicate IsRunOf(limits: Limits, actions: seq<Action>, calls: seq<Item>) {
    Run(limits, Open(), actions).pc.Closed? && Run(limits, Open(), actions).calls == calls
  }

  function FileAfter(limits: Limits, actions: seq<Action>): seq<Section> {
    FileOf(Run(limits, Open(), actions))
  }

  function OnDisk(limits: Limits, runs: seq<seq<Action>>): seq<seq<Message>> {
    seq(|runs|, k requires 0 <= k < |runs| => Messages(FileAfter(limits, runs[k])))
  }

  lemma {:induction false} FlatSame(a: seq<seq<Message>>, b: seq<seq<Message>>)
    requires |a| == |b| && forall k :: 0 <= k < |a| ==> multiset(a[k]) == multiset(b[k])
    ensures multiset(Flat(a)) == multiset(Flat(b))
  {
    if a != [] {
      assert forall k :: 0 <= k < |a| - 1 ==> a[1..][k] == a[k + 1] && b[1..][k] == b[k + 1];
      FlatSame(a[1..], b[1..]);
    }
  }

  lemma {:induction false} FirstUndeclared(items: seq<Item>, c: string) returns (i: nat)
    requires Undeclared(items, c) > 0
    ensures i < |items| && IsOn(items[i], c) && c !in Declared(items[..i])
    decreases |items|
  {
    if IsOn(items[0], c) {
      i := 0;
    } else {
      var k := FirstUndeclared(items[1..], c);
      i := k + 1;
      assert items[..i] == [items[0]] + items[1..][..k];
    }
  }

  /** A channel all of whose messages follow its registration is declared before them in every segment. */
  lemma RegisteredFirst(calls: seq<Item>, files: seq<Writer.Segment>, c: string, k: nat)
    requires Writer.SelfContained(files, calls) && k < |files| && Undeclared(calls, c) == 0
    ensures Undeclared(files[k], c) == 0
  {
    hide Writer.Ordinal, Undeclared;
    if Undeclared(files[k], c) > 0 {
      var i := FirstUndeclared(files[k], c);
      assert Writer.EntryOk(files, calls, k, i);
      var n := Writer.Ordinal(files, k, i);
      var j := Writer.CallOf(calls, n);
      UndeclaredNone(calls, c, j);
    }
  }

  /** The files of any segments together. */
  lemma SegmentsOnDisk(limits: Limits, runs: seq<seq<Action>>, files: seq<Writer.Segment>)
    requires |runs| == |files| && forall k :: 0 <= k < |runs| ==> IsRunOf(limits, runs[k], files[k])
    ensures forall k :: 0 <= k < |runs| ==> multiset(OnDisk(limits, runs)[k]) == multiset(MessagesOf(files[k]))
    ensures multiset(Flat(OnDisk(limits, runs))) == multiset(Flat(Writer.Contents(files)))
    ensures (forall k :: 0 <= k < |runs| ==> !Run(limits, Open(), runs[k]).overtaken) ==>
              OnDisk(limits, runs) == Writer.Contents(files)
  {
    hide Run, Flat, MessagesOf, Messages, Items, Decls, Undeclared, FileOf, Distinct, BeforeDecl;
    forall k | 0 <= k < |runs|
      ensures multiset(OnDisk(limits, runs)[k]) == multiset(MessagesOf(files[k]))
      ensures !Run(limits, Open(), runs[k]).overtaken ==> OnDisk(limits, runs)[k] == MessagesOf(files[k])
    {
      assert IsRunOf(limits, runs[k], files[k]);
      FileOfCalls(limits, runs[k]);
    }
    FlatSame(OnDisk(limits, runs), Writer.Contents(files));
  }

  /**
   The files that the segments of a recording are written to, for every run of calls and every interleaving with the
   flush threads.  Each file gets the messages of its segment; together they get the messages of the calls, in
   order if the flush threads kept up; and a channel registered before its messages is declared before them in
   every file.  RecordNames says how long the files last.
   */
  lemma RecordingOnDisk(interval: nat, limit: nat, calls: seq<Item>, files: seq<Writer.Segment>, limits: Limits,
                        runs: seq<seq<Action>>)
    requires Writer.Recorded(interval, limit, calls, files) && |runs| == |files|
    requires forall k :: 0 <= k < |runs| ==> IsRunOf(limits, runs[k], files[k])
    ensures forall k :: 0 <= k < |runs| ==> multiset(OnDisk(limits, runs)[k]) == multiset(MessagesOf(files[k]))
    ensures multiset(Flat(OnDisk(limits, runs))) == multiset(MessagesOf(calls))
    ensures (forall k :: 0 <= k < |runs| ==> !Run(limits, Open(), runs[k]).overtaken) ==>
              OnDisk(limits, runs) == Writer.Contents(files) && Flat(OnDisk(limits, runs)) == MessagesOf(calls)
    ensures forall k :: 0 <= k < |runs| ==> Decls(Items(FileAfter(limits, runs[k]))) == Decls(files[k])
    ensures forall c, k :: 0 <= k < |runs| ==>
              Undeclared(Items(FileAfter(limits, runs[k])), c) <= Undeclared(files[k], c)
    ensures forall c, k :: 0 <= k < |runs| && Undeclared(calls, c) == 0 ==>
              Undeclared(Items(FileAfter(limits, runs[k])), c) == 0
  {
    hide Run, Flat, MessagesOf, Messages, Items, Decls, Undeclared, FileOf, Writer.SelfContained, CutRight, Distinct;
    hide BeforeDecl;
    SegmentsOnDisk(limits, runs, files);
    forall k | 0 <= k < |runs|
      ensures Decls(Items(FileAfter(limits, runs[k]))) == Decls(files[k])
    {
      assert IsRunOf(limits, runs[k], files[k]);
      FileOfCalls(limits, runs[k]);
    }
    forall c, k | 0 <= k < |runs|
      ensures Undeclared(Items(FileAfter(limits, runs[k])), c) <= Undeclared(files[k], c)
    {
      assert IsRunOf(limits, runs[k], files[k]);
      FileOfCalls(limits, runs[k]);
    }
    forall c, k | 0 <= k < |runs| && Undeclared(calls, c) == 0
      ensures Undeclared(Items(FileAfter(limits, runs[k])), c) == 0
    {
      RegisteredFirst(calls, files, c, k);
    }
  }

  // ----- A split

  lemma {:induction false} NotChosen(c: Spliter.Choice, items: seq<Item>, name: string)
    requires !c.Chosen(name)
    ensures Undeclared(Spliter.Keep(c, items), name) == 0
    decreases |items|
  {
    if items != [] {
      NotChosen(c, items[1..], name);
      UndeclaredConcat(Spliter.KeepFirst(c, items[0]), Spliter.Keep(c, items[1..]), name);
      UndeclaredOne(items[0], name);
    }
  }

  /** A split has no more messages before the declaration of a channel than its input. */
  lemma {:induction false} KeepsDeclared(c: Spliter.Choice, items: seq<Item>, name: string)
    ensures Undeclared(Spliter.Keep(c, items), name) <= Undeclared(items, name)
    decreases |items|
  {
    if items != [] {
      var x, rest := items[0], items[1..];
      KeepsDeclared(c, rest, name);
      UndeclaredConcat(Spliter.KeepFirst(c, x), Spliter.Keep(c, rest), name);
      UndeclaredOne(x, name);
      if Declares(x, name) {
        if c.Passes(x) { assert name in Declared([x]); } else { NotChosen(c, rest, name); }
      }
    }
  }

  /** Skipping leaves out messages only. */
  lemma {:induction false} SeenItems(c: Spliter.Choice, sections: seq<Section>, skip: bool, name: string)
    ensures Decls(Spliter.Seen(c, sections, skip)) == Decls(Items(sections))
    ensures Undeclared(Spliter.Seen(c, sections, skip), name) <= Undeclared(Items(sections), name)
    decreases |sections|
  {
    hide Decls, Undeclared, Entries, Declared;
    if sections != [] && !sections[0].Index? {
      var x, rest := sections[0], sections[1..];
      match x
      case Channel(cn, kind, desc) =>
        SeenItems(c, rest, skip, name);
        SameHead(ItemsOf(x), Spliter.Seen(c, rest, skip), Items(rest), name);
      case ChunkHeader(b, e) =>
        SeenItems(c, rest, skip || c.Misses(b, e), name);
        assert [] + Items(rest) == Items(rest);
      case ChunkBody(ms) =>
        SeenItems(c, rest, false, name);
        SameHead(Entries(ms), Spliter.Seen(c, rest, false), Items(rest), name);
        WithoutHead(ms, Items(rest), name);
        assert [] + Spliter.Seen(c, rest, false) == Spliter.Seen(c, rest, false);
    }
  }

  lemma SameHead(head: seq<Item>, a: seq<Item>, b: seq<Item>, name: string)
    requires Decls(a) == Decls(b) && Undeclared(a, name) <= Undeclared(b, name)
    ensures Decls(head + a) == Decls(head + b) && Undeclared(head + a, name) <= Undeclared(head + b, name)
  {
    DeclsConcat(head, a);
    DeclsConcat(head, b);
    UndeclaredConcat(head, a, name);
    UndeclaredConcat(head, b, name);
  }

  lemma WithoutHead(ms: seq<Message>, b: seq<Item>, name: string)
    ensures Decls(Entries(ms) + b) == Decls(b) && Undeclared(b, name) <= Undeclared(Entries(ms) + b, name)
  {
    NoneDeclared(ms);
    DeclsConcat(Entries(ms), b);
    UndeclaredConcat(Entries(ms), b, name);
  }

  lemma {:induction false} KeepDecls(c: Spliter.Choice, a: seq<Item>)
    ensures Decls(Spliter.Keep(c, a)) == Spliter.Keep(c, Decls(a))
    decreases |a|
  {
    if a != [] {
      KeepDecls(c, a[1..]);
      DeclsConcat(Spliter.KeepFirst(c, a[0]), Spliter.Keep(c, a[1..]));
      Spliter.KeepConcat(c, DeclOf(a[0]), Decls(a[1..]));
      Spliter.KeepOne(c, a[0]);
      DeclsOne([], a[0]);
      assert [] + [a[0]] == [a[0]];
    }
  }

  /**
   The output file of a split of any input, for every interleaving with the flush thread: the messages that Proc
   copies, in input order if the flush thread kept up; the declarations that pass, in order; and no channel has
   more messages before its declaration than in the input.  For a well-formed input Proc copies exactly the
   messages that pass.
   */
  lemma SplitOnDisk(c: Spliter.Choice, input: Spliter.File, limits: Limits, actions: seq<Action>)
    requires !Spliter.Rejected(c, Some(input))
    requires IsRunOf(limits, actions, Spliter.Split(c, Some(input)).value)
    ensures var s := Run(limits, Open(), actions);
      var f, copied := FileOf(s), Spliter.Copied(c, Some(input));
      && multiset(Messages(f)) == multiset(copied)
      && (!s.overtaken ==> Messages(f) == copied)
      && (s.overtaken && Distinct(copied) ==> Messages(f) != copied)
      && (WellFormed(input.sections) ==> copied == Spliter.Select(c, Messages(input.sections)))
      && Decls(Items(f)) == Spliter.Keep(c, Decls(Items(input.sections)))
      && (forall name :: Undeclared(Items(f), name) <= Undeclared(Items(input.sections), name))
  {
    hide Run, MessagesOf, Messages, Items, Decls, Undeclared, FileOf, Distinct, BeforeDecl, WellFormed;
    hide Spliter.Keep, Spliter.Select, Spliter.Rejected, Spliter.Seen;
    FileOfCalls(limits, actions);
    RunCalls(limits, actions);
    if WellFormed(input.sections) { Spliter.SplitMessages(c, Some(input)); }
    var s, seen := Run(limits, Open(), actions), Spliter.Seen(c, input.sections, false);
    KeepDecls(c, seen);
    SeenItems(c, input.sections, false, "");
    forall name
      ensures Undeclared(Items(FileOf(s)), name) <= Undeclared(Items(input.sections), name)
    {
      KeepsDeclared(c, seen, name);
      SeenItems(c, input.sections, false, name);
    }
  }

  // ----- A message of time zero

  function ZeroRun(zero: Message, later: Message): State {
    Run(Limits(0, 0), Open(), [Write(zero), Write(later)] + CLOSING)
  }

  /** A message of time zero and a later one, written in order by threads that keep up: the chunk header and the
      file header both start at the later one. */
  lemma ZeroTimeFile(zero: Message, later: Message)
    requires zero.time == 0 < later.time
    ensures var s, t := ZeroRun(zero, later), later.time;
      && s.pc.Closed? && !s.overtaken && s.written == [zero, later]
      && FileOf(s) == [ChunkHeader(t, t), ChunkBody([zero, later]), Index] && s.header == Header(t, t)
      && Messages(FileOf(s)) == [zero, later] && !WellFormed(FileOf(s))
  {
    hide Run, Messages;
    var limits, t := Limits(0, 0), later.time;
    var s1 := Exec(limits, Open(), Write(zero));
    var s2 := Exec(limits, s1, Write(later));
    TwoSteps(limits, Write(zero), Write(later));
    CloseCompletes(limits, s2);
    RunConcat(limits, Open(), [Write(zero), Write(later)], CLOSING);
    var s := ZeroRun(zero, later);
    assert [] + [zero] + [later] == [zero, later];
    assert s2.active == Chunk([zero, later], t, t, |zero.content| + |later.content|);
    var chunk := [ChunkHeader(t, t), ChunkBody([zero, later])];
    assert s.sections == [] + chunk == chunk;
    OneChunk(t, t, [zero, later]);
    MessagesConcat(chunk, [Index]);
    OnlyIndex();
    var f := FileOf(s);
    assert f == chunk + [Index] == [ChunkHeader(t, t), ChunkBody([zero, later]), Index];
    assert !Within(f[1].messages, t, t) by { assert f[1].messages[0] == zero; }
    assert !SectionOk(f, 0);
  }

  /** The reader does not find the message in a window that ends before the later one ... */
  method ReaderMissesZero(zero: Message, later: Message, end: nat) returns (ok: bool, message: Message)
    requires zero.time == 0 <= end < later.time
    ensures !ok && Window(Messages(FileOf(ZeroRun(zero, later))), 0, end + 1) == [zero]
  {
    hide Messages, ZeroRun;
    ZeroTimeFile(zero, later);
    var s := ZeroRun(zero, later);
    ZeroWindow(zero, later, end + 1);
    var reader := new Reader.RecordReader(true, s.header, FileOf(s));
    ok, message := reader.ReadMessage(0, end);
  }

  lemma ZeroWindow(zero: Message, later: Message, hi: nat)
    requires zero.time == 0 < hi <= later.time
    ensures Window([zero, later], 0, hi) == [zero]
  {
    WindowConcat([zero], [later], 0, hi);
    WindowAll([zero], 0, hi);
    WindowNone([later], 0, hi);
    assert [zero] + [later] == [zero, later];
  }

  /** ... and the splitter refuses such a window, although the message passes. */
  method SpliterMissesZero(zero: Message, later: Message, end: nat) returns (ok: bool, output: Option<seq<Item>>)
    requires zero.time == 0 < end < later.time
    ensures output == None && !ok
    ensures Spliter.Select(Spliter.Choice([], [], 0, end), Messages(FileOf(ZeroRun(zero, later)))) == [zero]
  {
    hide Messages, ZeroRun, Spliter.Seen, Spliter.Keep;
    ZeroTimeFile(zero, later);
    var s, c := ZeroRun(zero, later), Spliter.Choice([], [], 0, end);
    ok, output := Spliter.Proc(c, Some(Spliter.File(s.header, FileOf(s))));
    Spliter.SelectTwo(c, zero, later);
  }

  /** With a file header that covers the window, the chunk itself would be skipped. */
  lemma SkippingMissesZero(zero: Message, later: Message, end: nat)
    requires zero.time == 0 <= end < later.time
    ensures var c, f := Spliter.Choice([], [], 0, end), FileOf(ZeroRun(zero, later));
      Spliter.Keep(c, Spliter.Seen(c, f, false)) == [] && Spliter.Keep(c, Items(f)) == [Entry(zero)]
  {
    hide Messages, ZeroRun, Spliter.Keep, Spliter.Seen, Items, Entries;
    ZeroTimeFile(zero, later);
    var c, f, t := Spliter.Choice([], [], 0, end), FileOf(ZeroRun(zero, later)), later.time;
    Spliter.SeenChunk(c, t, t, [zero, later]);
    Spliter.NothingKept(c);
    ChunkItems(t, t, [zero, later]);
    Spliter.KeptEntries(c, zero, later);
  }

  lemma ChunkItems(b: nat, e: nat, ms: seq<Message>)
    ensures Items([ChunkHeader(b, e), ChunkBody(ms), Index]) == Entries(ms)
  {
    hide Items, Entries;
    var f := [ChunkHeader(b, e), ChunkBody(ms), Index];
    assert f[0..] == f;
    NextItems(f, 0);
    NextItems(f, 1);
    NextItems(f, 2);
  }
}
