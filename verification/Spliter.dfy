/**
 CyberRT_tools/cyber_recorder/spliter.cc: copying the part of a record file that lies in a time window and
 on chosen channels, skipping chunks by their headers.  The output is the sequence of calls made on the
 RecordFileWriter, which always reports success; RecordOnDisk says what they leave in its file.
 */
module Spliter {
  import opened RecordFile
  import opened RecordItems
  import opened Options
  import opened Subsequences

  datatype File = File(header: Header, sections: seq<Section>)

  datatype Choice = Choice(white: seq<string>, black: seq<string>, begin: nat, end: nat)
  {
    predicate Chosen(name: string) {
      (white == [] || name in white) && name !in black
    }

    predicate Passes(x: Item) {
      match x
      case Decl(name, _, _) => Chosen(name)
      case Entry(m) => Chosen(m.channel) && begin <= m.time <= end
    }

    predicate Misses(b: nat, e: nat) {
      begin > e || end < b
    }
  }

  /** The items that pass, in order. */
  function Keep(c: Choice, items: seq<Item>): seq<Item> {
    if items == [] then [] else KeepFirst(c, items[0]) + Keep(c, items[1..])
  }

  function KeepFirst(c: Choice, x: Item): seq<Item> {
    if c.Passes(x) then [x] else []
  }

  /** The items that Proc looks at: the body after a header outside the window is skipped. */
  function Seen(c: Choice, sections: seq<Section>, skip: bool): seq<Item> {
    if sections == [] then []
    else
      var rest := sections[1..];
      match sections[0]
      case Index => []
      case Channel(_, _, _) => ItemsOf(sections[0]) + Seen(c, rest, skip)
      case ChunkHeader(b, e) => Seen(c, rest, skip || c.Misses(b, e))
      case ChunkBody(ms) => (if skip then [] else Entries(ms)) + Seen(c, rest, false)
  }

  ghost predicate HasIndex(sections: seq<Section>) {
    exists i :: 0 <= i < |sections| && sections[i].Index?
  }

  lemma {:induction false} KeepConcat(c: Choice, a: seq<Item>, b: seq<Item>)
    ensures Keep(c, a + b) == Keep(c, a) + Keep(c, b)
    decreases |a|
  {
    if a == [] {
      assert a + b == b;
    } else {
      assert (a + b)[1..] == a[1..] + b;
      KeepConcat(c, a[1..], b);
    }
  }

  lemma KeepOne(c: Choice, x: Item)
    ensures Keep(c, [x]) == KeepFirst(c, x)
  {
    assert Keep(c, [x]) == KeepFirst(c, x) + Keep(c, [x][1..]);
  }

  // ----- Skipping is filtering

  /** A chunk whose header is outside the window holds nothing to copy. */
  lemma {:induction false} KeepNone(c: Choice, ms: seq<Message>, lo: nat, hi: nat)
    requires Within(ms, lo, hi) && c.Misses(lo, hi)
    ensures Keep(c, Entries(ms)) == []
    decreases |ms|
  {
    if ms != [] {
      assert Entries(ms)[1..] == Entries(ms[1..]);
      KeepNone(c, ms[1..], lo, hi);
    }
  }

  /** The section at hand is a chunk body outside the window. */
  ghost predicate AtForeignBody(c: Choice, sections: seq<Section>, p: nat) {
    p < |sections| && sections[p].ChunkBody? && Keep(c, Entries(sections[p].messages)) == []
  }

  /** Looking one section further. */
  lemma SeenNext(c: Choice, sections: seq<Section>, p: nat, skip: bool)
    requires p <= |sections|
    ensures p == |sections| ==> Seen(c, sections[p..], skip) == []
    ensures p < |sections| ==> Seen(c, sections[p..], skip) == match sections[p]
      case Index => []
      case Channel(_, _, _) => ItemsOf(sections[p]) + Seen(c, sections[p + 1..], skip)
      case ChunkHeader(b, e) => Seen(c, sections[p + 1..], skip || c.Misses(b, e))
      case ChunkBody(ms) => (if skip then [] else Entries(ms)) + Seen(c, sections[p + 1..], false)
  {
    if p < |sections| {
      assert sections[p..][1..] == sections[p + 1..];
    }
  }

  lemma {:induction false} SkippingFrom(c: Choice, sections: seq<Section>, p: nat, skip: bool)
    requires WellFormed(sections) && p <= |sections| && (skip ==> AtForeignBody(c, sections, p))
    ensures Keep(c, Seen(c, sections[p..], skip)) == Keep(c, Items(sections[p..]))
    decreases |sections| - p
  {
    hide Keep, Seen, Items, ItemsOf, Entries, WellFormed, Within;
    SeenNext(c, sections, p, skip);
    NextItems(sections, p);
    if p < |sections| && !sections[p].Index? {
      var after := sections[p + 1..];
      KeepPlain(c, sections[p], Items(after));
      match sections[p]
      case Channel(_, _, _) =>
        KeepConcat(c, ItemsOf(sections[p]), Seen(c, after, skip));
        SkippingFrom(c, sections, p + 1, skip);
      case ChunkHeader(b, e) =>
        HeaderThenBody(sections, p);
        if c.Misses(b, e) { KeepNone(c, sections[p + 1].messages, b, e); }
        SkippingFrom(c, sections, p + 1, c.Misses(b, e));
      case ChunkBody(ms) =>
        KeepConcat(c, Entries(ms), Seen(c, after, false));
        assert [] + Seen(c, after, false) == Seen(c, after, false);
        SkippingFrom(c, sections, p + 1, false);
    }
  }

  lemma KeepPlain(c: Choice, s: Section, rest: seq<Item>)
    ensures Keep(c, ItemsOf(s) + rest) == Keep(c, ItemsOf(s)) + Keep(c, rest)
    ensures s.ChunkHeader? ==> Keep(c, ItemsOf(s) + rest) == Keep(c, rest)
    ensures s.ChunkBody? ==> ItemsOf(s) == Entries(s.messages)
  {
    hide Entries;
    KeepConcat(c, ItemsOf(s), rest);
    assert [] + Keep(c, rest) == Keep(c, rest);
  }

  /** In a well-formed file, chunk skipping loses nothing that passes. */
  lemma SkippingIsFiltering(c: Choice, sections: seq<Section>)
    requires WellFormed(sections)
    ensures Keep(c, Seen(c, sections, false)) == Keep(c, Items(sections))
  {
    SkippingFrom(c, sections, 0, false);
    assert sections[0..] == sections;
  }

  // ----- The splitter

  method Overlap(a: seq<string>, b: seq<string>) returns (r: bool)
    ensures r <==> exists x :: x in a && x in b
  {
    for i := 0 to |a|
      invariant forall j :: 0 <= j < i ==> a[j] !in b
    {
      if a[i] in b {
        return true;
      }
    }
    r := false;
  }

  lemma EntriesLast(ms: seq<Message>, n: nat)
    requires n < |ms|
    ensures Entries(ms[..n + 1]) == Entries(ms[..n]) + [Entry(ms[n])]
    decreases n
  {
    if n > 0 {
      assert ms[..n + 1][1..] == ms[1..][..n] && ms[..n][1..] == ms[1..][..n - 1];
      EntriesLast(ms[1..], n - 1);
    } else {
      assert ms[..1] == [ms[0]] && ms[..0] == [] && ms[..1][1..] == [];
    }
  }

  /** Copies what passes of one chunk body. */
  method CopyBody(c: Choice, ms: seq<Message>, written: seq<Item>) returns (out: seq<Item>)
    ensures out == written + Keep(c, Entries(ms))
  {
    out := written;
    for i := 0 to |ms|
      invariant out == written + Keep(c, Entries(ms[..i]))
    {
      EntriesLast(ms, i);
      KeepConcat(c, Entries(ms[..i]), [Entry(ms[i])]);
      KeepOne(c, Entry(ms[i]));
      if c.white != [] && ms[i].channel !in c.white {
        continue;
      }
      if ms[i].channel in c.black {
        continue;
      }
      if ms[i].time < c.begin || ms[i].time > c.end {
        continue;
      }
      out := out + [Entry(ms[i])];
    }
    assert ms[..|ms|] == ms;
  }

  /** The parameter checks that fail. */
  ghost predicate Rejected(c: Choice, input: Option<File>) {
    || c.begin >= c.end
    || (exists x :: x in c.white && x in c.black)
    || input.None?
    || c.Misses(input.value.header.beginTime, input.value.header.endTime)
  }

  /** `copied` is what the lists and the window leave of `items`: an item is there as often as in `items` if its
      channel is on the white list, unless that is empty, and not on the black list, and for a message if its time is
      in the window; any other item is not there; and the order is kept. */
  ghost predicate CopiesChosen(white: seq<string>, black: seq<string>, begin: nat, end: nat, items: seq<Item>,
                               copied: seq<Item>) {
    && (forall name, kind, desc :: multiset(copied)[Decl(name, kind, desc)] ==
          if (white == [] || name in white) && name !in black then multiset(items)[Decl(name, kind, desc)] else 0)
    && (forall m :: multiset(copied)[Entry(m)] ==
          if (white == [] || m.channel in white) && m.channel !in black && begin <= m.time <= end
          then multiset(items)[Entry(m)] else 0)
    && Subsequence(copied, items)
  }

  /** Nothing on a black-listed channel, nothing that is not on a white list, no message outside the window. */
  ghost predicate OnlyChosen(white: seq<string>, black: seq<string>, begin: nat, end: nat, copied: seq<Item>) {
    forall x :: x in copied ==>
      match x
      case Decl(name, _, _) => (white == [] || name in white) && name !in black
      case Entry(m) => (white == [] || m.channel in white) && m.channel !in black && begin <= m.time <= end
  }

  lemma {:induction false} KeepCounts(c: Choice, items: seq<Item>, x: Item)
    ensures multiset(Keep(c, items))[x] == if c.Passes(x) then multiset(items)[x] else 0
    decreases |items|
  {
    if items != [] {
      var first, rest := items[0], items[1..];
      KeepCounts(c, rest, x);
      assert items == [first] + rest;
    }
  }

  lemma {:induction false} KeepInOrder(c: Choice, items: seq<Item>)
    ensures Subsequence(Keep(c, items), items)
    decreases |items|
  {
    hide Subsequence;
    if items == [] {
      SubsequenceNone(items);
    } else {
      var first, rest := items[0], items[1..];
      KeepInOrder(c, rest);
      SubsequenceMore(first, Keep(c, rest), rest);
      assert items == [first] + rest;
      assert [] + Keep(c, rest) == Keep(c, rest);
    }
  }

  lemma KeepCopies(c: Choice, items: seq<Item>)
    ensures CopiesChosen(c.white, c.black, c.begin, c.end, items, Keep(c, items))
    ensures OnlyChosen(c.white, c.black, c.begin, c.end, Keep(c, items))
  {
    hide Keep, Subsequence;
    KeepInOrder(c, items);
    forall name, kind, desc
      ensures multiset(Keep(c, items))[Decl(name, kind, desc)] ==
              if c.Passes(Decl(name, kind, desc)) then multiset(items)[Decl(name, kind, desc)] else 0
    {
      KeepCounts(c, items, Decl(name, kind, desc));
    }
    forall m
      ensures multiset(Keep(c, items))[Entry(m)] == if c.Passes(Entry(m)) then multiset(items)[Entry(m)] else 0
    {
      KeepCounts(c, items, Entry(m));
    }
    forall x | x in Keep(c, items)
      ensures c.Passes(x)
    {
      KeepCounts(c, items, x);
      assert multiset(Keep(c, items))[x] > 0;
    }
  }

  /** What is on the black list is never copied, whatever the input. */
  lemma BlackListed(white: seq<string>, black: seq<string>, begin: nat, end: nat, copied: seq<Item>, x: Item)
    requires OnlyChosen(white, black, begin, end, copied) && x in copied
    ensures (if x.Decl? then x.name else x.m.channel) !in black
  {
  }

  /** What Proc copies. */
  ghost function Split(c: Choice, input: Option<File>): Option<seq<Item>> {
    if Rejected(c, input) then None else Some(Keep(c, Seen(c, input.value.sections, false)))
  }

  /** Chunk skipping copies exactly what a filter over all the items of a well-formed file would, in the same
      order.  The split succeeds if the input has an index; without one, the end of the file is reported as an
      error after everything was copied. */
  method Proc(c: Choice, input: Option<File>) returns (ok: bool, output: Option<seq<Item>>)
    ensures output == Split(c, input)
    ensures output.None? <==>
      || c.begin >= c.end || (exists x :: x in c.white && x in c.black) || input.None?
      || c.begin > input.value.header.endTime || c.end < input.value.header.beginTime
    ensures output.Some? && WellFormed(input.value.sections) ==> output.value == Keep(c, Items(input.value.sections))
    ensures output.Some? && WellFormed(input.value.sections) ==>
      CopiesChosen(c.white, c.black, c.begin, c.end, Items(input.value.sections), output.value)
    ensures output.Some? ==> OnlyChosen(c.white, c.black, c.begin, c.end, output.value)
    ensures ok <==> !Rejected(c, input) && HasIndex(input.value.sections)
  {
    hide WellFormed, Items, Entries, Keep, Seen, ItemsOf, Within, CopiesChosen, OnlyChosen;
    ok, output := false, None;
    if c.begin >= c.end {
      return;
    }
    var overlap := Overlap(c.white, c.black);
    if overlap || input.None? {
      return;
    }
    var File(header, sections) := input.value;
    if c.begin > header.endTime || c.end < header.beginTime {
      return;
    }
    if WellFormed(sections) { SkippingIsFiltering(c, sections); }
    KeepCopies(c, Items(sections));
    KeepCopies(c, Seen(c, sections, false));
    var out: seq<Item> := [];
    var skip, p := false, 0;
    assert sections[0..] == sections;
    while true
      invariant p <= |sections| && (forall i :: 0 <= i < p ==> !sections[i].Index?)
      invariant out + Keep(c, Seen(c, sections[p..], skip)) == Keep(c, Seen(c, sections, false))
      decreases |sections| - p
    {
      SeenNext(c, sections, p, skip);
      NothingKept(c);
      if p == |sections| {
        assert out + [] == out;
        return false, Some(out);
      }
      var section := sections[p];
      if section.Index? {
        assert out + [] == out;
        return true, Some(out);
      }
      p := p + 1;
      match section {
        case Channel(name, kind, desc) =>
          KeepChannel(c, section, Seen(c, sections[p..], skip));
          if c.white == [] || name in c.white {
            if name !in c.black {
              out := out + [Decl(name, kind, desc)];
            }
          }
        case ChunkHeader(b, e) =>
          if c.begin > e || c.end < b {
            skip := true;
          }
        case ChunkBody(ms) =>
          KeepConcat(c, Entries(ms), Seen(c, sections[p..], false));
          if skip {
            assert [] + Seen(c, sections[p..], false) == Seen(c, sections[p..], false);
            skip := false;
          } else {
            out := CopyBody(c, ms, out);
          }
        case _ =>
      }
    }
  }

  lemma NothingKept(c: Choice)
    ensures Keep(c, []) == []
  {
  }

  lemma KeepChannel(c: Choice, s: Section, rest: seq<Item>)
    requires s.Channel?
    ensures Keep(c, ItemsOf(s) + rest)
         == (if c.Chosen(s.name) then [Decl(s.name, s.kind, s.desc)] else []) + Keep(c, rest)
  {
    KeepConcat(c, ItemsOf(s), rest);
    KeepOne(c, Decl(s.name, s.kind, s.desc));
  }

  // ----- The messages of a split

  /** The messages that pass, in order. */
  function Select(c: Choice, ms: seq<Message>): seq<Message> {
    if ms == [] then [] else SelectFirst(c, ms[0]) + Select(c, ms[1..])
  }

  function SelectFirst(c: Choice, m: Message): seq<Message> {
    if c.Passes(Entry(m)) then [m] else []
  }

  lemma {:induction false} KeptMessages(c: Choice, items: seq<Item>)
    ensures MessagesOf(Keep(c, items)) == Select(c, MessagesOf(items))
    decreases |items|
  {
    if items != [] {
      var x, rest := items[0], items[1..];
      KeptMessages(c, rest);
      MessagesOfConcat(KeepFirst(c, x), Keep(c, rest));
      KeptMessage(c, x);
      SelectConcat(c, MessageOf(x), MessagesOf(rest));
    }
  }

  lemma KeptMessage(c: Choice, x: Item)
    ensures MessagesOf(KeepFirst(c, x)) == Select(c, MessageOf(x))
  {
    MessagesOfOne([], x);
    if x.Entry? {
      assert [x.m][1..] == [];
      assert Select(c, [x.m]) == SelectFirst(c, x.m) + Select(c, [x.m][1..]);
    }
  }

  /** The messages that Proc copies. */
  ghost function Copied(c: Choice, input: Option<File>): seq<Message> {
    if Rejected(c, input) then [] else MessagesOf(Split(c, input).value)
  }

  /** The messages of a split: those that pass, among the messages of the chunks that are not skipped ... */
  lemma CopiedIs(c: Choice, input: Option<File>)
    ensures Rejected(c, input) ==> Copied(c, input) == []
    ensures !Rejected(c, input) ==> Copied(c, input) == Select(c, MessagesOf(Seen(c, input.value.sections, false)))
  {
    if !Rejected(c, input) { KeptMessages(c, Seen(c, input.value.sections, false)); }
  }

  /** ... and in a well-formed file those that pass, wherever the chunks begin and end. */
  lemma SplitMessages(c: Choice, input: Option<File>)
    requires !Rejected(c, input) && WellFormed(input.value.sections)
    ensures Split(c, input).value == Keep(c, Items(input.value.sections))
    ensures Copied(c, input) == Select(c, Messages(input.value.sections))
  {
    SkippingIsFiltering(c, input.value.sections);
    KeptMessages(c, Items(input.value.sections));
    MessagesOfItems(input.value.sections);
  }

  lemma SplitCopies(c: Choice, f: File)
    requires WellFormed(f.sections)
    ensures Copied(c, Some(f)) == if Rejected(c, Some(f)) then [] else Select(c, Messages(f.sections))
  {
    if !Rejected(c, Some(f)) { SplitMessages(c, Some(f)); }
  }

  lemma {:induction false} SelectConcat(c: Choice, a: seq<Message>, b: seq<Message>)
    ensures Select(c, a + b) == Select(c, a) + Select(c, b)
    decreases |a|
  {
    if a == [] {
      assert a + b == b;
    } else {
      assert (a + b)[1..] == a[1..] + b;
      SelectConcat(c, a[1..], b);
    }
  }

  /** What a second choice selects of what a first one selected. */
  lemma {:induction false} SelectBoth(c: Choice, d: Choice, both: Choice, ms: seq<Message>)
    requires forall x :: both.Passes(x) <==> c.Passes(x) && d.Passes(x)
    ensures Select(d, Select(c, ms)) == Select(both, ms)
    decreases |ms|
  {
    if ms != [] {
      SelectBoth(c, d, both, ms[1..]);
      SelectConcat(d, SelectFirst(c, ms[0]), Select(c, ms[1..]));
      assert [ms[0]][1..] == [];
      assert Select(d, [ms[0]]) == SelectFirst(d, ms[0]) + Select(d, [ms[0]][1..]);
    }
  }

  lemma {:induction false} SelectParts(c: Choice, t: nat, ms: seq<Message>)
    requires c.begin <= t < c.end
    ensures multiset(Select(c.(end := t), ms)) + multiset(Select(c.(begin := t + 1), ms)) == multiset(Select(c, ms))
    decreases |ms|
  {
    if ms != [] {
      SelectParts(c, t, ms[1..]);
    }
  }

  /** Something selected is in the window and in the file. */
  lemma {:induction false} SelectedOne(c: Choice, ms: seq<Message>)
    ensures Select(c, ms) != [] ==> exists i :: 0 <= i < |ms| && c.Passes(Entry(ms[i]))
    decreases |ms|
  {
    if ms != [] {
      SelectedOne(c, ms[1..]);
      if c.Passes(Entry(ms[0])) {
      } else if Select(c, ms[1..]) != [] {
        var i :| 0 <= i < |ms[1..]| && c.Passes(Entry(ms[1..][i]));
        assert c.Passes(Entry(ms[i + 1]));
      }
    }
  }

  lemma KeptEntries(c: Choice, a: Message, b: Message)
    ensures Keep(c, Entries([a, b])) == KeepFirst(c, Entry(a)) + KeepFirst(c, Entry(b))
  {
    assert [a, b][1..] == [b] && [b][1..] == [];
    assert Entries([b]) == [Entry(b)];
    assert Entries([a, b]) == [Entry(a)] + [Entry(b)];
    KeepConcat(c, [Entry(a)], [Entry(b)]);
    KeepOne(c, Entry(a));
    KeepOne(c, Entry(b));
  }

  // ----- Several splits of one file

  /** The header gives the span of the messages. */
  ghost predicate Spanned(f: File) {
    Within(Messages(f.sections), f.header.beginTime, f.header.endTime)
  }

  /** A choice with a real window that selects something is not refused. */
  lemma NotRefused(c: Choice, f: File)
    requires Spanned(f) && Select(c, Messages(f.sections)) != [] && c.begin < c.end
    requires !exists x :: x in c.white && x in c.black
    ensures !Rejected(c, Some(f))
  {
    SelectedOne(c, Messages(f.sections));
  }

  /** A narrower window skips whatever a wider one skips. */
  lemma {:induction false} SeenLess(c: Choice, d: Choice, sections: seq<Section>, skip: bool, skip': bool)
    requires c.begin <= d.begin && d.end <= c.end && (skip ==> skip')
    ensures multiset(Select(d, MessagesOf(Seen(d, sections, skip'))))
         <= multiset(Select(d, MessagesOf(Seen(c, sections, skip))))
    decreases |sections|
  {
    hide MessagesOf, Select, Entries;
    if sections != [] && !sections[0].Index? {
      var x, rest := sections[0], sections[1..];
      match x
      case Channel(_, _, _) =>
        SeenLess(c, d, rest, skip, skip');
        SelectItems(d, ItemsOf(x), Seen(c, rest, skip));
        SelectItems(d, ItemsOf(x), Seen(d, rest, skip'));
      case ChunkHeader(b, e) => SeenLess(c, d, rest, skip || c.Misses(b, e), skip' || d.Misses(b, e));
      case ChunkBody(ms) =>
        SeenLess(c, d, rest, false, false);
        SelectItems(d, if skip then [] else Entries(ms), Seen(c, rest, false));
        SelectItems(d, if skip' then [] else Entries(ms), Seen(d, rest, false));
        SelectNothing(d);
    }
  }

  lemma SelectNothing(c: Choice)
    ensures Select(c, MessagesOf([])) == []
  {
  }

  lemma SelectItems(c: Choice, a: seq<Item>, b: seq<Item>)
    ensures Select(c, MessagesOf(a + b)) == Select(c, MessagesOf(a)) + Select(c, MessagesOf(b))
  {
    MessagesOfConcat(a, b);
    SelectConcat(c, MessagesOf(a), MessagesOf(b));
  }

  /** What the narrower split copies is among what the wider one copies in that window. */
  lemma CopiedLess(c: Choice, d: Choice, f: File)
    requires !Rejected(c, Some(f)) && d == c.(begin := d.begin, end := d.end) && c.begin <= d.begin && d.end <= c.end
    ensures multiset(Copied(d, Some(f))) <= multiset(Select(d, Copied(c, Some(f))))
  {
    hide Select, Copied, Seen, MessagesOf;
    CopiedIs(c, Some(f));
    CopiedIs(d, Some(f));
    SeenLess(c, d, f.sections, false, false);
    SelectBoth(c, d, d, MessagesOf(Seen(c, f.sections, false)));
  }

  /**
   Splitting any file at time `t` into two windows: together they copy what one split copies exactly if each
   of them copies all that the one split copies in its window.
   */
  lemma AdjacentSplits(c: Choice, t: nat, f: File)
    requires !Rejected(c, Some(f)) && c.begin <= t < c.end
    ensures var left, right, all := c.(end := t), c.(begin := t + 1), Copied(c, Some(f));
      multiset(Copied(left, Some(f))) + multiset(Copied(right, Some(f))) == multiset(all)
      <==> && multiset(Copied(left, Some(f))) == multiset(Select(left, all))
           && multiset(Copied(right, Some(f))) == multiset(Select(right, all))
  {
    hide Select, Copied;
    var left, right, all := c.(end := t), c.(begin := t + 1), Copied(c, Some(f));
    CopiedLess(c, left, f);
    CopiedLess(c, right, f);
    SelectParts(c, t, all);
    CopiedPasses(c, f);
    Sums(multiset(Copied(left, Some(f))), multiset(Copied(right, Some(f))),
         multiset(Select(left, all)), multiset(Select(right, all)));
  }

  /** What is copied passes. */
  lemma CopiedPasses(c: Choice, f: File)
    ensures Select(c, Copied(c, Some(f))) == Copied(c, Some(f))
  {
    hide Select, Copied, Seen;
    CopiedIs(c, Some(f));
    if Rejected(c, Some(f)) {
      SelectNothing(c);
    } else {
      SelectBoth(c, c, c, MessagesOf(Seen(c, f.sections, false)));
    }
  }

  lemma Sums(a: multiset<Message>, b: multiset<Message>, a': multiset<Message>, b': multiset<Message>)
    requires a <= a' && b <= b'
    ensures a + b == a' + b' <==> a == a' && b == b'
  {
    if a + b == a' + b' {
      forall m
        ensures a[m] == a'[m] && b[m] == b'[m]
      {
        assert (a + b)[m] == a[m] + b[m] && (a' + b')[m] == a'[m] + b'[m];
      }
    }
  }

  /**
   In a well-formed file with a header that spans it, Proc refuses nothing but a window of one instant.  So the
   two splits copy together what one copies exactly if nothing is selected at an instant that is a window by
   itself; in particular whenever both windows are longer than that.
   */
  lemma AdjacentSplitsConserveExactlyWhen(c: Choice, t: nat, f: File)
    requires !Rejected(c, Some(f)) && WellFormed(f.sections) && Spanned(f) && c.begin <= t < c.end
    ensures var left, right, ms := c.(end := t), c.(begin := t + 1), Messages(f.sections);
      multiset(Copied(left, Some(f))) + multiset(Copied(right, Some(f))) == multiset(Copied(c, Some(f)))
      <==> (c.begin == t ==> Select(left, ms) == []) && (t + 1 == c.end ==> Select(right, ms) == [])
  {
    hide Select, Copied, Spanned, WellFormed;
    var left, right, ms := c.(end := t), c.(begin := t + 1), Messages(f.sections);
    SplitCopies(c, f);
    SplitCopies(left, f);
    SplitCopies(right, f);
    SelectParts(c, t, ms);
    if Select(left, ms) != [] && c.begin < t { NotRefused(left, f); }
    if Select(right, ms) != [] && t + 1 < c.end { NotRefused(right, f); }
    LessWithout(Select(left, ms), Select(right, ms), Select(c, ms));
  }

  /** Of a sum of two multisets nothing that holds an element can be left out. */
  lemma LessWithout(a: seq<Message>, b: seq<Message>, all: seq<Message>)
    requires multiset(a) + multiset(b) == multiset(all)
    ensures multiset(a) + multiset([]) == multiset(all) <==> b == []
    ensures multiset([]) + multiset(b) == multiset(all) <==> a == []
    ensures multiset([]) + multiset([]) == multiset(all) <==> a == [] && b == []
  {
    assert |multiset(a)| == |a| && |multiset(b)| == |b| && |multiset(all)| == |all|;
  }

  /**
   Splitting a split again, on the same channels.  `g` is any file with what the first split copied.  The result
   is that of one split by both windows, exactly if the windows do not just touch at an instant at which
   something is selected: that combined window Proc refuses.
   */
  lemma SplitsComposeExactlyWhen(c: Choice, b: nat, e: nat, f: File, g: File)
    requires !Rejected(c, Some(f)) && Spanned(f) && Spanned(g) && b < e
    requires WellFormed(f.sections) && WellFormed(g.sections) && Messages(g.sections) == Copied(c, Some(f))
    ensures var d, both := c.(begin := b, end := e), c.(begin := Max(c.begin, b), end := Min(c.end, e));
      Copied(d, Some(g)) == Copied(both, Some(f))
      <==> both.begin != both.end || Select(both, Messages(f.sections)) == []
  {
    hide Select, Copied, Spanned, WellFormed;
    var d, both := c.(begin := b, end := e), c.(begin := Max(c.begin, b), end := Min(c.end, e));
    var ms := Messages(f.sections);
    SplitCopies(c, f);
    SplitCopies(d, g);
    SplitCopies(both, f);
    SelectBoth(c, d, both, ms);
    SelectedOne(both, ms);
    if Select(both, ms) != [] {
      NotRefused(d, g);
      if both.begin < both.end { NotRefused(both, f); }
    }
  }

  /** A file with one message. */
  function OneMessage(m: Message): File {
    File(Header(m.time, m.time), [ChunkHeader(m.time, m.time), ChunkBody([m]), Index])
  }

  lemma OneMessageFile(m: Message, c: Choice)
    ensures WellFormed(OneMessage(m).sections) && Spanned(OneMessage(m)) && Messages(OneMessage(m).sections) == [m]
    ensures Select(c, [m]) == SelectFirst(c, m)
  {
    var s := OneMessage(m).sections;
    assert s[1..] == [ChunkBody([m]), Index] && s[1..][1..] == [Index];
    assert Messages(s[1..][1..]) == [];
    assert Messages(s[1..]) == [m] + Messages(s[1..][1..]);
    assert Messages(s) == [m];
    assert [m][1..] == [];
    assert Select(c, [m]) == SelectFirst(c, m) + Select(c, [m][1..]);
  }

  /** Windows [1, 3], cut at 1: both parts together miss the message of time 1. */
  lemma AdjacentSplitsCanLose(name: string, content: string)
    ensures var f, c := Some(OneMessage(Message(name, content, 1))), Choice([], [], 1, 3);
      && Copied(c, f) == [Message(name, content, 1)]
      && Copied(c.(end := 1), f) == [] && Copied(c.(begin := 2), f) == []
  {
    hide Select, Copied;
    var m, c := Message(name, content, 1), Choice([], [], 1, 3);
    OneMessageFile(m, c);
    SplitCopies(c, OneMessage(m));
    SplitCopies(c.(end := 1), OneMessage(m));
    SplitCopies(c.(begin := 2), OneMessage(m));
  }

  /** Windows [1, 5] and [5, 9]: splitting twice keeps the message of time 5, the combined window is refused. */
  lemma SplitsCanDiffer(name: string, content: string)
    ensures var f, c := Some(OneMessage(Message(name, content, 5))), Choice([], [], 1, 5);
      && Copied(c, f) == [Message(name, content, 5)] == Copied(c.(begin := 5, end := 9), f)
      && Rejected(c.(begin := 5, end := 5), f)
  {
    hide Select, Copied;
    var m, c := Message(name, content, 5), Choice([], [], 1, 5);
    OneMessageFile(m, c);
    OneMessageFile(m, c.(begin := 5, end := 9));
    SplitCopies(c, OneMessage(m));
    SplitCopies(c.(begin := 5, end := 9), OneMessage(m));
  }

  /** A chunk whose header does not bound it: cutting [0, 9] at 4 loses the message of time 0, though neither
      window is an instant and the file header spans the file. */
  lemma UnboundedChunkLoses(a: Message, b: Message)
    requires a.time == 0 && b.time == 5
    ensures var f := File(Header(0, 5), [ChunkHeader(5, 5), ChunkBody([a, b]), Index]);
      var c := Choice([], [], 0, 9);
      && Spanned(f) && !Rejected(c, Some(f)) && Copied(c, Some(f)) == [a, b]
      && Copied(c.(end := 4), Some(f)) == [] && Copied(c.(begin := 5), Some(f)) == [b]
  {
    hide Copied, Select, Seen, MessagesOf;
    var f, c := File(Header(0, 5), [ChunkHeader(5, 5), ChunkBody([a, b]), Index]), Choice([], [], 0, 9);
    CopiedIs(c, Some(f));
    CopiedIs(c.(end := 4), Some(f));
    CopiedIs(c.(begin := 5), Some(f));
    SeenChunk(c, 5, 5, [a, b]);
    SeenChunk(c.(end := 4), 5, 5, [a, b]);
    SeenChunk(c.(begin := 5), 5, 5, [a, b]);
    SelectTwo(c, a, b);
    SelectTwo(c.(begin := 5), a, b);
    SelectNothing(c.(end := 4));
    MessagesOfEntries([a, b]);
    MessagesOfItems(f.sections);
    SeenAll(f.sections, [a, b]);
  }

  lemma SeenChunk(c: Choice, b: nat, e: nat, ms: seq<Message>)
    ensures Seen(c, [ChunkHeader(b, e), ChunkBody(ms), Index], false) == if c.Misses(b, e) then [] else Entries(ms)
  {
    hide Seen;
    var f := [ChunkHeader(b, e), ChunkBody(ms), Index];
    assert f[0..] == f;
    SeenNext(c, f, 0, false);
    SeenNext(c, f, 1, c.Misses(b, e));
    SeenNext(c, f, 2, false);
  }

  lemma SeenAll(sections: seq<Section>, ms: seq<Message>)
    requires |sections| == 3 && sections[0].ChunkHeader? && sections[1] == ChunkBody(ms) && sections[2].Index?
    ensures Messages(sections) == ms
  {
    NextSection(sections, 0);
    NextSection(sections, 1);
    NextSection(sections, 2);
    assert sections[0..] == sections;
  }

  lemma SelectTwo(c: Choice, a: Message, b: Message)
    ensures Select(c, [a, b]) == SelectFirst(c, a) + SelectFirst(c, b)
  {
    assert [a, b][1..] == [b] && [b][1..] == [];
    assert Select(c, [b]) == SelectFirst(c, b) + Select(c, [b][1..]);
  }
}
