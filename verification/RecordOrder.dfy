/**
 When the file of a RecordFileWriter keeps the order of the calls: of the messages, which two swapped chunks
 spoil, and of messages and declarations, which a declaration spoils that passes waiting messages.  Each is
 told for a run, and then for the calls alone.
 */
module RecordOrder {
  import opened RecordFile
  import opened RecordItems
  import opened Cuts
  import opened RecordFileWriter
  import opened RecordOnDisk

  // ----- Declarations that pass messages

  /** Some message is in a chunk. */
  predicate Holding(s: State) {
    s.flush.body != [] || s.active.body != []
  }

  /** A declaration was made while a chunk held a message. */
  function Passed(limits: Limits, actions: seq<Action>): bool {
    if actions == [] then false
    else
      var s := Run(limits, Open(), actions[..|actions| - 1]);
      || Passed(limits, actions[..|actions| - 1])
      || (Last(actions).Declare? && s.pc.Idle? && Holding(s))
  }

  /** Everything, in the order in which it will be in the file if nothing else is swapped. */
  function OutItems(s: State): seq<Item> {
    Items(s.sections) + Entries(s.flush.body) + Entries(s.active.body)
  }

  /** No declaration after a message. */
  ghost predicate DeclsFirst(calls: seq<Item>) {
    forall i, j :: 0 <= i < j < |calls| && calls[j].Decl? ==> calls[i].Decl?
  }

  /** Fewer messages come before the k-th declaration in the file than in the calls. */
  ghost predicate Fewer(s: State, k: nat) {
    k < |Decls(s.calls)| && |BeforeDecl(Items(s.sections), k)| < |BeforeDecl(s.calls, k)|
  }

  ghost predicate ItemsOk(s: State, passed: bool) {
    && (!s.overtaken && !passed ==> OutItems(s) == s.calls)
    && (passed ==> exists k: nat :: Fewer(s, k))
    && (passed ==> !DeclsFirst(s.calls))
  }

  lemma FewerStays(s: State, s': State, sections: seq<Item>, calls: seq<Item>, k: nat)
    requires CallsOk(s) && Fewer(s, k)
    requires Items(s'.sections) == Items(s.sections) + sections && s'.calls == s.calls + calls
    ensures Fewer(s', k)
  {
    hide Items, Decls, Undeclared, Declared, MessagesOf, BeforeDecl;
    BeforeDeclMore(Items(s.sections), sections, k);
    BeforeDeclMore(s.calls, calls, k);
    DeclsConcat(s.calls, calls);
  }

  lemma StillNotFirst(calls: seq<Item>, more: seq<Item>)
    requires !DeclsFirst(calls)
    ensures !DeclsFirst(calls + more)
  {
    var i, j :| 0 <= i < j < |calls| && calls[j].Decl? && !calls[i].Decl?;
    assert (calls + more)[i] == calls[i] && (calls + more)[j] == calls[j];
  }

  /** What was spoilt stays spoilt. */
  lemma SpoiltStays(s: State, s': State, sections: seq<Item>, calls: seq<Item>)
    requires CallsOk(s) && ItemsOk(s, true)
    requires Items(s'.sections) == Items(s.sections) + sections && s'.calls == s.calls + calls
    ensures ItemsOk(s', true)
  {
    hide Items, CallsOk, Fewer, DeclsFirst;
    var k: nat :| Fewer(s, k);
    FewerStays(s, s', sections, calls, k);
    StillNotFirst(s.calls, calls);
  }

  lemma DeclareItems(limits: Limits, s: State, a: Action, passed: bool)
    requires Inv(s) && CallsOk(s) && ItemsOk(s, passed) && a.Declare? && s.pc.Idle?
    ensures ItemsOk(Exec(limits, s, a), passed || Holding(s))
  {
    hide Items, Entries, MessagesOf, Decls, CallsOk, Inv, Fewer, DeclsFirst;
    var s', d := Exec(limits, s, a), Decl(a.name, a.kind, a.desc);
    assert Framed(s.sections) by { InvFramed(s); }
    SectionMore(s.sections, Channel(a.name, a.kind, a.desc));
    if passed {
      SpoiltStays(s, s', [d], [d]);
    } else if Holding(s) {
      PassingDeclaration(s, s', d);
    } else {
      NoEntries();
    }
  }

  lemma InvFramed(s: State)
    requires Inv(s)
    ensures Framed(s.sections)
  {
  }

  lemma NoEntries()
    ensures Entries([]) == []
  {
  }

  /** A declaration that passes a waiting message. */
  lemma PassingDeclaration(s: State, s': State, d: Item)
    requires Inv(s) && CallsOk(s) && Holding(s) && d.Decl?
    requires Items(s'.sections) == Items(s.sections) + [d] && s'.calls == s.calls + [d]
    ensures Fewer(s', |Decls(s.calls)|) && !DeclsFirst(s'.calls)
  {
    hide Items, Decls, Undeclared, Declared, BeforeDecl, ChunkOk, HeaderOk, OrderOk, Framed;
    BeforeDeclNew(s.calls, d);
    BeforeDeclNew(Items(s.sections), d);
    MessagesOfItems(s.sections);
    DeclsOne(s.calls, d);
    assert |Messages(s.sections)| < |s.written| by {
      assert |multiset(Out(s))| == |Out(s)| && |multiset(s.written)| == |s.written|;
    }
    var i := SomeEntry(s.calls);
    assert s'.calls[i] == s.calls[i] && s'.calls[|s.calls|] == d;
  }

  lemma {:induction false} SomeEntry(items: seq<Item>) returns (i: nat)
    requires MessagesOf(items) != []
    ensures i < |items| && items[i].Entry?
    decreases |items|
  {
    if items[0].Entry? {
      i := 0;
    } else {
      var k := SomeEntry(items[1..]);
      i := k + 1;
    }
  }

  lemma WriteItems(limits: Limits, s: State, m: Message, passed: bool)
    requires CallsOk(s) && ItemsOk(s, passed) && s.pc.Idle?
    ensures ItemsOk(Exec(limits, s, Write(m)), passed)
  {
    hide Items, Entries, MessagesOf, Decls, CallsOk, Fewer, DeclsFirst, NeedsFlush;
    var s' := Exec(limits, s, Write(m));
    assert Items(s'.sections) == Items(s.sections) + [];
    if passed {
      SpoiltStays(s, s', [], [Entry(m)]);
    } else {
      EntriesConcat(s.active.body, [m]);
      OneEntry(m);
    }
  }

  lemma OneEntry(m: Message)
    ensures Entries([m]) == [Entry(m)]
  {
    assert [m][1..] == [];
  }

  lemma FlushItems(s: State, passed: bool)
    requires Inv(s) && CallsOk(s) && ItemsOk(s, passed)
    ensures ItemsOk(WriteChunk(s), passed)
  {
    hide Items, Entries, MessagesOf, Decls, CallsOk, Fewer, DeclsFirst, Inv;
    var s' := WriteChunk(s);
    assert Framed(s.sections) by { InvFramed(s); }
    ChunkMore(s.sections, s.flush.beginTime, s.flush.endTime, s.flush.body);
    if passed {
      assert s'.calls == s.calls + [];
      SpoiltStays(s, s', Entries(s.flush.body), []);
    } else {
      NoEntries();
    }
  }

  lemma SwapItems(s: State, pc: Pc, passed: bool)
    requires CallsOk(s) && ItemsOk(s, passed)
    ensures ItemsOk(Swap(s, pc), passed)
  {
    hide Items, Entries, MessagesOf, Decls, CallsOk, Fewer, DeclsFirst;
    var s' := Swap(s, pc);
    if passed {
      assert Items(s'.sections) == Items(s.sections) + [] && s'.calls == s.calls + [];
      SpoiltStays(s, s', [], []);
    } else {
      NoEntries();
    }
  }

  lemma SameItems(s: State, pc: Pc, passed: bool)
    requires CallsOk(s) && ItemsOk(s, passed)
    ensures ItemsOk(s.(pc := pc), passed)
  {
    hide Items, Entries, MessagesOf, Decls, CallsOk, Fewer, DeclsFirst;
    var s' := s.(pc := pc);
    if passed {
      assert Items(s'.sections) == Items(s.sections) + [] && s'.calls == s.calls + [];
      SpoiltStays(s, s', [], []);
    }
  }

  lemma StepItems(limits: Limits, s: State, a: Action, passed: bool)
    requires Inv(s) && CallsOk(s) && ItemsOk(s, passed)
    ensures ItemsOk(Exec(limits, s, a), passed || (a.Declare? && s.pc.Idle? && Holding(s)))
  {
    hide Inv, CallsOk, ItemsOk, NeedsFlush;
    var s' := Exec(limits, s, a);
    match a
    case Declare(_, _, _) => if s.pc.Idle? { DeclareItems(limits, s, a, passed); }
    case Write(m) => if s.pc.Idle? { WriteItems(limits, s, m, passed); }
    case Flush => if s.flush.body != [] { FlushItems(s, passed); }
    case Close => SameItems(s, s'.pc, passed);
    case Proceed =>
      if s.pc.MustSwap? || s.pc.LastSwap? { SwapItems(s, s'.pc, passed); } else { SameItems(s, s'.pc, passed); }
  }

  lemma {:induction false} RunItems(limits: Limits, actions: seq<Action>)
    ensures ItemsOk(Run(limits, Open(), actions), Passed(limits, actions))
    decreases |actions|
  {
    hide Inv, CallsOk, Exec;
    if actions != [] {
      var before := actions[..|actions| - 1];
      RunInv(limits, before);
      RunCalls(limits, before);
      RunItems(limits, before);
      StepItems(limits, Run(limits, Open(), before), Last(actions), Passed(limits, before));
    }
  }

  /**
   The file holds the declarations and messages in the order of the calls exactly if no chunk was overtaken and
   no declaration passed a waiting message.  Only that overtaking spoils the order needs distinct messages.
   */
  lemma ItemsKeptExactlyWhen(limits: Limits, actions: seq<Action>)
    requires Run(limits, Open(), actions).pc.Closed?
    ensures var s := Run(limits, Open(), actions); var kept := Items(FileOf(s)) == s.calls;
      && (!s.overtaken && !Passed(limits, actions) ==> kept)
      && (Passed(limits, actions) ==> !kept)
      && (s.overtaken && Distinct(s.written) ==> !kept)
  {
    hide Run, Items, Entries, Passed, Messages, MessagesOf, Distinct, Decls, BeforeDecl, DeclsFirst, Undeclared;
    var s := Run(limits, Open(), actions);
    RunInv(limits, actions);
    RunItems(limits, actions);
    IndexAdds(s);
    FileOfCalls(limits, actions);
    MessagesOfItems(FileOf(s));
    NoEntries();
    if Passed(limits, actions) {
      var k: nat :| Fewer(s, k);
    }
  }

  /** A file writer that gets its declarations first keeps the order of all items if the flush thread keeps up ... */
  lemma DeclarationsFirst(limits: Limits, actions: seq<Action>)
    requires var s := Run(limits, Open(), actions); s.pc.Closed? && !s.overtaken && DeclsFirst(s.calls)
    ensures var s := Run(limits, Open(), actions); Items(FileOf(s)) == s.calls
  {
    hide Run, Items, Passed, DeclsFirst;
    RunItems(limits, actions);
    ItemsKeptExactlyWhen(limits, actions);
  }

  lemma {:induction false} PassedMore(limits: Limits, actions: seq<Action>, more: seq<Action>)
    requires Passed(limits, actions)
    ensures Passed(limits, actions + more)
    decreases |more|
  {
    hide Run;
    if more == [] {
      assert actions + more == actions;
    } else {
      PassedMore(limits, actions, more[..|more| - 1]);
      assert (actions + more)[..|actions + more| - 1] == actions + more[..|more| - 1];
    }
  }

  lemma PassesNow(limits: Limits, actions: seq<Action>, d: Action)
    requires var s := Run(limits, Open(), actions); s.pc.Idle? && Holding(s)
    requires d.Declare?
    ensures Passed(limits, actions + [d])
  {
    hide Run;
    assert (actions + [d])[..|actions + [d]| - 1] == actions;
  }

  /** A run without overtaking in which each chunk is written only when the next one is full. */
  lemma {:induction false} LateRun(limits: Limits, calls: seq<Item>) returns (actions: seq<Action>)
    ensures var s := Run(limits, Open(), actions);
      && s.calls == calls && s.pc.Idle? && !s.overtaken
      && (calls != [] && Last(calls).Entry? ==> Holding(s))
    ensures !DeclsFirst(calls) ==> Passed(limits, actions)
    decreases |calls|
  {
    hide Exec, Passed, DeclsFirst;
    if calls == [] {
      actions := [];
      assert DeclsFirst([]) by { NothingFirst(); }
    } else {
      var front, x := Front(calls), Last(calls);
      var before := LateRun(limits, front);
      var s := Run(limits, Open(), before);
      var more := LateCall(limits, s, x);
      actions := before + more;
      RunConcat(limits, Open(), before, more);
      assert calls == front + [x];
      if !DeclsFirst(calls) {
        if DeclsFirst(front) {
          FirstBroken(front, x);
          PassesNow(limits, before, Declare(x.name, x.kind, x.desc));
        } else {
          PassedMore(limits, before, more);
        }
      }
    }
  }

  lemma NothingFirst()
    ensures DeclsFirst([])
  {
  }

  lemma FirstBroken(front: seq<Item>, x: Item)
    requires DeclsFirst(front) && !DeclsFirst(front + [x])
    ensures x.Decl? && front != [] && Last(front).Entry?
  {
    var calls := front + [x];
    var i, j :| 0 <= i < j < |calls| && calls[j].Decl? && !calls[i].Decl?;
    assert forall k :: 0 <= k < |front| ==> calls[k] == front[k];
  }

  lemma LateCall(limits: Limits, s: State, x: Item) returns (actions: seq<Action>)
    requires s.pc.Idle? && !s.overtaken
    ensures var s' := Run(limits, s, actions);
      && s'.calls == s.calls + [x] && s'.pc.Idle? && !s'.overtaken && (x.Entry? ==> Holding(s'))
    ensures x.Decl? ==> actions == [Declare(x.name, x.kind, x.desc)]
  {
    hide NeedsFlush;
    if x.Decl? {
      actions := [] + [Declare(x.name, x.kind, x.desc)];
      RunOne(limits, s, [], Declare(x.name, x.kind, x.desc));
    } else {
      var a1 := [] + [Write(x.m)];
      var a2 := a1 + [Flush];
      actions := a2 + [Proceed];
      RunOne(limits, s, [], Write(x.m));
      RunOne(limits, s, a1, Flush);
      RunOne(limits, s, a2, Proceed);
    }
  }

  /** ... and only such a one does: told by the calls alone, the order of all items is kept by every run without
      overtaking exactly if no declaration comes after a message. */
  lemma ItemsAlwaysKeptExactlyWhen(limits: Limits, calls: seq<Item>)
    ensures DeclsFirst(calls) <==>
      forall actions :: IsRunOf(limits, actions, calls) && !Run(limits, Open(), actions).overtaken ==>
        Items(FileAfter(limits, actions)) == calls
  {
    hide Run, Exec, Items, Passed, DeclsFirst;
    if DeclsFirst(calls) {
      forall actions | IsRunOf(limits, actions, calls) && !Run(limits, Open(), actions).overtaken
        ensures Items(FileAfter(limits, actions)) == calls
      {
        DeclarationsFirst(limits, actions);
      }
    } else {
      var before := LateRun(limits, calls);
      RunConcat(limits, Open(), before, CLOSING);
      CloseCompletes(limits, Run(limits, Open(), before));
      PassedMore(limits, before, CLOSING);
      ItemsKeptExactlyWhen(limits, before + CLOSING);
      assert IsRunOf(limits, before + CLOSING, calls);
    }
  }

  // ----- Chunks that change places

  /** How many chunks the messages fill. */
  ghost function Filled(limits: Limits, ms: seq<Message>): nat {
    |CutUp(limits.interval, limits.rawSize, ms).0|
  }

  lemma FilledMore(limits: Limits, ms: seq<Message>, m: Message)
    ensures Filled(limits, ms + [m]) >= Filled(limits, ms)
  {
    assert Front(ms + [m]) == ms;
  }

  /** Message lists cut at the limits are as many as the messages fill. */
  lemma FilledIs(limits: Limits, parts: seq<seq<Message>>, open: seq<Message>)
    requires CutRight(limits.interval, limits.rawSize, parts, open)
    ensures Filled(limits, Flat(parts) + open) == |parts|
  {
    hide CutRight, CutUp, Flat;
    var ms := Flat(parts) + open;
    CutUpIsRight(limits.interval, limits.rawSize, ms);
    var (p, a) := CutUp(limits.interval, limits.rawSize, ms);
    SegmentationIsUnique(limits.interval, limits.rawSize, parts, open, p, a);
  }

  lemma PartsFlat(s: State)
    requires Inv(s)
    ensures Flat(Parts(s)) == Messages(s.sections) + s.flush.body
  {
    hide Flat, Messages, Bodies;
    NoIndex(s.sections);
    FlatBodies(s.sections);
    if s.flush.body != [] { FlatOne(Bodies(s.sections), s.flush.body); }
    assert Bodies(s.sections) + [] == Bodies(s.sections);
  }

  /** At the first overtaking swap two chunks are full. */
  lemma TwoFull(limits: Limits, s: State)
    requires Inv(s) && CutOk(limits, s) && !s.overtaken && s.pc.MustSwap? && s.flush.body != []
    ensures Filled(limits, s.written) >= 2
  {
    hide CutRight, CutUp, Flat, Bodies, Messages, Filled;
    var parts := Parts(s) + [s.active.body];
    PartsFlat(s);
    FlatOne(Parts(s), s.active.body);
    FilledIs(limits, parts, []);
    assert Flat(parts) + [] == Out(s) == s.written;
  }

  lemma StepFilled(limits: Limits, s: State, a: Action)
    requires Inv(s) && CutOk(limits, s) && (s.overtaken ==> Filled(limits, s.written) >= 2)
    ensures var s' := Exec(limits, s, a); s'.overtaken ==> Filled(limits, s'.written) >= 2
  {
    hide CutOk, Filled, NeedsFlush, ChunkOk, Conserved, HeaderOk, OrderOk, Framed;
    match a
    case Write(m) => FilledMore(limits, s.written, m);
    case Proceed =>
      if !s.overtaken && s.pc.MustSwap? && s.flush.body != [] { TwoFull(limits, s); }
    case _ =>
  }

  lemma {:induction false} RunFilled(limits: Limits, actions: seq<Action>)
    ensures var s := Run(limits, Open(), actions); s.overtaken ==> Filled(limits, s.written) >= 2
    decreases |actions|
  {
    hide Inv, CutOk, Exec, Filled;
    if actions != [] {
      var before := actions[..|actions| - 1];
      RunInv(limits, before);
      RunCut(limits, before);
      RunFilled(limits, before);
      StepFilled(limits, Run(limits, Open(), before), Last(actions));
    }
  }

  /** A run in which the flush thread does nothing before Close. */
  lemma {:induction false} LazyRun(limits: Limits, calls: seq<Item>) returns (actions: seq<Action>)
    ensures var s := Run(limits, Open(), actions); s.calls == calls && s.pc.Idle? && Bodies(s.sections) == []
    decreases |calls|
  {
    hide Exec, Bodies;
    if calls == [] {
      actions := [];
      assert Bodies([]) == [] by { NoBodies(); }
    } else {
      var before := LazyRun(limits, Front(calls));
      var s := Run(limits, Open(), before);
      var more := LazyCall(limits, s, Last(calls));
      actions := before + more;
      RunConcat(limits, Open(), before, more);
      assert calls == Front(calls) + [Last(calls)];
    }
  }

  lemma NoBodies()
    ensures Bodies([]) == []
  {
  }

  lemma LazyCall(limits: Limits, s: State, x: Item) returns (actions: seq<Action>)
    requires s.pc.Idle? && Bodies(s.sections) == []
    ensures var s' := Run(limits, s, actions); s'.calls == s.calls + [x] && s'.pc.Idle? && Bodies(s'.sections) == []
  {
    hide NeedsFlush, Add, Bodies;
    if x.Decl? {
      actions := [] + [Declare(x.name, x.kind, x.desc)];
      RunOne(limits, s, [], Declare(x.name, x.kind, x.desc));
      BodiesOne(s.sections, Channel(x.name, x.kind, x.desc));
    } else {
      var a1 := [] + [Write(x.m)];
      actions := a1 + [Proceed];
      RunOne(limits, s, [], Write(x.m));
      RunOne(limits, s, a1, Proceed);
    }
  }

  /** Without the flush thread, the second full chunk overtakes the first. */
  lemma LazyOvertakes(limits: Limits, actions: seq<Action>)
    requires var s := Run(limits, Open(), actions); s.pc.Idle? && Bodies(s.sections) == []
    ensures var s := Run(limits, Open(), actions); !s.overtaken ==> Filled(limits, s.written) <= 1
  {
    hide Run, CutRight, Bodies, Flat, Messages, Filled;
    var s := Run(limits, Open(), actions);
    RunInv(limits, actions);
    RunCut(limits, actions);
    if !s.overtaken {
      FilledIs(limits, Parts(s), s.active.body);
      PartsFlat(s);
    }
  }

  /**
   Told by the calls alone: some run has a chunk overtaken exactly if the messages fill at least two chunks ...
   */
  lemma NeverOvertakenExactlyWhen(limits: Limits, calls: seq<Item>)
    ensures Filled(limits, MessagesOf(calls)) <= 1 <==>
      forall actions :: IsRunOf(limits, actions, calls) ==> !Run(limits, Open(), actions).overtaken
  {
    hide Run, Exec, Filled, Bodies;
    if Filled(limits, MessagesOf(calls)) <= 1 {
      forall actions | IsRunOf(limits, actions, calls)
        ensures !Run(limits, Open(), actions).overtaken
      {
        RunFilled(limits, actions);
        RunWritten(limits, actions);
      }
    } else {
      var actions := OvertakenRun(limits, calls);
    }
  }

  lemma RunWritten(limits: Limits, actions: seq<Action>)
    ensures var s := Run(limits, Open(), actions); MessagesOf(s.calls) == s.written
  {
    hide Run;
    RunCalls(limits, actions);
  }

  lemma OvertakenRun(limits: Limits, calls: seq<Item>) returns (actions: seq<Action>)
    requires Filled(limits, MessagesOf(calls)) >= 2
    ensures IsRunOf(limits, actions, calls) && Run(limits, Open(), actions).overtaken
  {
    hide Run, Exec, Filled, Bodies, MessagesOf;
    var before := LazyRun(limits, calls);
    LazyOvertakes(limits, before);
    RunWritten(limits, before);
    actions := before + CLOSING;
    RunConcat(limits, Open(), before, CLOSING);
    CloseCompletes(limits, Run(limits, Open(), before));
  }

  /** ... so the order of distinct messages is kept by every run exactly if they fill at most one chunk. */
  lemma OrderAlwaysKeptExactlyWhen(limits: Limits, calls: seq<Item>)
    requires Distinct(MessagesOf(calls))
    ensures Filled(limits, MessagesOf(calls)) <= 1 <==>
      forall actions :: IsRunOf(limits, actions, calls) ==> Messages(FileAfter(limits, actions)) == MessagesOf(calls)
  {
    hide Run, Exec, Filled, Bodies, MessagesOf, Messages, Distinct, Items, Decls, BeforeDecl, Undeclared;
    if Filled(limits, MessagesOf(calls)) <= 1 {
      NeverOvertakenExactlyWhen(limits, calls);
      forall actions | IsRunOf(limits, actions, calls)
        ensures Messages(FileAfter(limits, actions)) == MessagesOf(calls)
      {
        FileOfCalls(limits, actions);
      }
    } else {
      var actions := OvertakenRun(limits, calls);
      RunWritten(limits, actions);
      FileOfCalls(limits, actions);
    }
  }
}
