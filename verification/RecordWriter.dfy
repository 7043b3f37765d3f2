/**
 cyber/record/record_writer.cc: writing messages to a chain of segment files.  A segment is the sequence of
 calls made on its RecordFileWriter; RecordOnDisk says what these leave in the file.  Opening and writing files
 succeeds.  The mutex makes each call atomic.
 */
module RecordWriter {
  import opened RecordFile
  import opened RecordItems
  import opened Cuts

  /** The calls made on one file writer. */
  type Segment = seq<Item>

  type Texts = map<string, string>

  const SUFFIXES: nat := 100_000

  // ----- What a run of calls means

  /** The call that registers `c`: the first one for that name.  `|calls|` if there is none. */
  function RegisteredAt(calls: seq<Item>, c: string): (n: nat)
    ensures n <= |calls|
    ensures n < |calls| ==> calls[n].Decl? && calls[n].name == c
    ensures forall i :: 0 <= i < n ==> !(calls[i].Decl? && calls[i].name == c)
  {
    if calls == [] then 0
    else if calls[0].Decl? && calls[0].name == c then 0
    else 1 + RegisteredAt(calls[1..], c)
  }

  function CountOn(ms: seq<Message>, c: string): nat {
    if ms == [] then 0 else CountOn(Front(ms), c) + if Last(ms).channel == c then 1 else 0
  }

  /** How many messages were written to `c` since it was registered. */
  function Total(calls: seq<Item>, c: string): nat {
    CountOn(MessagesOf(calls[RegisteredAt(calls, c)..]), c)
  }

  // ----- What a file holds

  function Contents(files: seq<Segment>): seq<seq<Message>> {
    seq(|files|, k requires 0 <= k < |files| => MessagesOf(files[k]))
  }

  /** The call that wrote the n-th message. */
  function CallOf(calls: seq<Item>, n: nat): (i: nat)
    requires n < |MessagesOf(calls)|
    ensures i < |calls| && calls[i].Entry? && calls[i].m == MessagesOf(calls)[n]
    ensures |MessagesOf(calls[..i])| == n
  {
    if calls[0].Entry? && n == 0 then 0
    else
      var k := 1 + CallOf(calls[1..], n - |MessageOf(calls[0])|);
      assert calls[..k] == [calls[0]] + calls[1..][..k - 1];
      k
  }

  /** How many messages the files hold before item `i` of file `k`. */
  function Ordinal(files: seq<Segment>, k: nat, i: nat): nat
    requires k < |files| && i <= |files[k]|
  {
    |Flat(Contents(files[..k]))| + |MessagesOf(files[k][..i])|
  }

  /** Every message follows a declaration of its channel in its own file, exactly if its channel was
      registered when it was written. */
  ghost predicate SelfContained(files: seq<Segment>, calls: seq<Item>) {
    forall k, i :: 0 <= k < |files| && 0 <= i < |files[k]| ==> EntryOk(files, calls, k, i)
  }

  ghost predicate EntryOk(files: seq<Segment>, calls: seq<Item>, k: nat, i: nat)
    requires k < |files| && i < |files[k]|
  {
    files[k][i].Entry? ==>
      var m, n := files[k][i].m, Ordinal(files, k, i);
      && n < |MessagesOf(calls)| && MessagesOf(calls)[n] == m
      && (RegisteredAt(calls, m.channel) < CallOf(calls, n) <==> m.channel in Declared(files[k][..i]))
  }

  /** A file declares a channel at most once, and as it was registered. */
  ghost predicate DeclsOk(s: Segment, kinds: Texts, descs: Texts) {
    && (forall i :: 0 <= i < |s| && s[i].Decl? ==> DeclOk(s[i], kinds, descs))
    && (forall i, j :: 0 <= i < j < |s| && s[i].Decl? && s[j].Decl? ==> s[i].name != s[j].name)
  }

  ghost predicate DeclOk(x: Item, kinds: Texts, descs: Texts)
    requires x.Decl?
  {
    && x.name in kinds && x.name in descs
    && x.kind == kinds[x.name] && x.desc == descs[x.name]
  }

  // ----- The invariant, part by part

  /** The channel maps say what was registered and how much was written since. */
  ghost predicate ChannelsOk(calls: seq<Item>, number: map<string, nat>, kinds: Texts, descs: Texts) {
    forall c :: ChannelOk(calls, number, kinds, descs, c)
  }

  ghost predicate ChannelOk(calls: seq<Item>, number: map<string, nat>, kinds: Texts, descs: Texts, c: string) {
    var n := RegisteredAt(calls, c);
    && (c in number <==> n < |calls|) && (c in kinds <==> n < |calls|) && (c in descs <==> n < |calls|)
    && (n < |calls| ==> number[c] == Total(calls, c) && kinds[c] == calls[n].kind && descs[c] == calls[n].desc)
  }

  /** The files hold the messages in order, and each the declarations its messages need. */
  ghost predicate FilesOk(files: seq<Segment>, calls: seq<Item>, kinds: Texts, descs: Texts) {
    && Flat(Contents(files)) == MessagesOf(calls)
    && SelfContained(files, calls)
    && (forall k :: 0 <= k < |files| ==> DeclsOk(files[k], kinds, descs))
    && (files != [] ==> Declared(Last(files)) == kinds.Keys)
  }

  ghost predicate NamesOk(suffixes: seq<nat>, files: nat, fileIndex: nat) {
    && |suffixes| == files > 0
    && (forall k :: 0 <= k < |suffixes| ==> suffixes[k] == k % SUFFIXES)
    && fileIndex == Last(suffixes) + 1
  }

  // ----- One more call

  lemma CountOne(ms: seq<Message>, m: Message, c: string)
    ensures CountOn(ms + [m], c) == CountOn(ms, c) + if m.channel == c then 1 else 0
  {
    assert Front(ms + [m]) == ms;
  }

  lemma TotalOne(calls: seq<Item>, x: Item, c: string)
    ensures var n := RegisteredAt(calls, c); var n' := RegisteredAt(calls + [x], c);
            && n' == (if n < |calls| || (x.Decl? && x.name == c) then n else |calls| + 1)
            && (n' == n < |calls| ==>
                  Total(calls + [x], c) == Total(calls, c) + if x.Entry? && x.m.channel == c then 1 else 0)
            && (n == |calls| ==> Total(calls + [x], c) == 0)
  {
    var calls', n := calls + [x], RegisteredAt(calls, c);
    var n' := RegisteredAt(calls', c);
    assert calls'[|calls|] == x && forall i :: 0 <= i < |calls| ==> calls'[i] == calls[i];
    if n < |calls| {
      assert calls'[n] == calls[n];
      assert n' == n;
      assert calls'[n..] == calls[n..] + [x];
      MessagesOfOne(calls[n..], x);
      if x.Entry? { CountOne(MessagesOf(calls[n..]), x.m, c); }
      assert MessagesOf(calls[n..]) + [] == MessagesOf(calls[n..]);
    } else if n' == n {
      assert calls'[n..] == [] + [x];
      MessagesOfOne([], x);
    } else {
      assert calls'[n'..] == [];
    }
  }

  /** Registering a name anew, as in OnNewChannel. */
  lemma ChannelAdded(calls: seq<Item>, number: map<string, nat>, kinds: Texts, descs: Texts,
                     x: Item)
    requires ChannelsOk(calls, number, kinds, descs) && x.Decl? && x.name !in number
    ensures ChannelsOk(calls + [x], number[x.name := 0], kinds[x.name := x.kind], descs[x.name := x.desc])
    ensures kinds.Keys == number.Keys
  {
    hide Total, RegisteredAt;
    var calls', number' := calls + [x], number[x.name := 0];
    var kinds', descs' := kinds[x.name := x.kind], descs[x.name := x.desc];
    forall c
      ensures ChannelOk(calls', number', kinds', descs', c) && (c in kinds <==> c in number)
    {
      assert ChannelOk(calls, number, kinds, descs, c);
      TotalOne(calls, x, c);
      assert calls'[|calls|] == x && forall i :: 0 <= i < |calls| ==> calls'[i] == calls[i];
    }
  }

  /** A name that is registered already. */
  lemma ChannelAgain(calls: seq<Item>, number: map<string, nat>, kinds: Texts, descs: Texts,
                     x: Item)
    requires ChannelsOk(calls, number, kinds, descs) && x.Decl? && x.name in number
    ensures ChannelsOk(calls + [x], number, kinds, descs)
  {
    hide Total, RegisteredAt;
    forall c
      ensures ChannelOk(calls + [x], number, kinds, descs, c)
    {
      assert ChannelOk(calls, number, kinds, descs, c) && ChannelOk(calls, number, kinds, descs, x.name);
      TotalOne(calls, x, c);
    }
  }

  /** Counting a message, as in OnNewMessage. */
  lemma MessageCounted(calls: seq<Item>, number: map<string, nat>, kinds: Texts, descs: Texts,
                       m: Message)
    requires ChannelsOk(calls, number, kinds, descs)
    ensures var number' := if m.channel in number then number[m.channel := number[m.channel] + 1] else number;
            ChannelsOk(calls + [Entry(m)], number', kinds, descs)
  {
    hide Total, RegisteredAt;
    var number' := if m.channel in number then number[m.channel := number[m.channel] + 1] else number;
    forall c
      ensures ChannelOk(calls + [Entry(m)], number', kinds, descs, c)
    {
      assert ChannelOk(calls, number, kinds, descs, c);
      TotalOne(calls, Entry(m), c);
    }
  }

  // ----- One more item, one more file

  lemma ItemAdded(closed: seq<Segment>, s: Segment, x: Item)
    ensures MessagesOf(s + [x]) == MessagesOf(s) + MessageOf(x)
    ensures Flat(Contents(closed + [s])) == Flat(Contents(closed)) + MessagesOf(s)
    ensures Flat(Contents(closed + [s + [x]])) == Flat(Contents(closed + [s])) + MessageOf(x)
    ensures Declared(s + [x]) == Declared(s) + if x.Decl? then {x.name} else {}
  {
    hide Flat, MessagesOf, Contents, Declared, MessageOf;
    MessagesOfOne(s, x);
    DeclaredOne(s, x);
    ContentsOne(closed, s);
    ContentsOne(closed, s + [x]);
    FlatOne(Contents(closed), MessagesOf(s));
    FlatOne(Contents(closed), MessagesOf(s + [x]));
  }

  lemma ContentsOne(closed: seq<Segment>, s: Segment)
    ensures Contents(closed + [s]) == Contents(closed) + [MessagesOf(s)]
  {
  }

  lemma DeclaredOne(s: Segment, x: Item)
    ensures Declared(s + [x]) == Declared(s) + if x.Decl? then {x.name} else {}
  {
  }

  lemma {:induction false} CallOfOne(calls: seq<Item>, x: Item, n: nat)
    requires n <= |MessagesOf(calls)| && (n == |MessagesOf(calls)| ==> x.Entry?)
    ensures MessagesOf(calls + [x]) == MessagesOf(calls) + MessageOf(x)
    ensures CallOf(calls + [x], n) == if n < |MessagesOf(calls)| then CallOf(calls, n) else |calls|
  {
    MessagesOfOne(calls, x);
    var i, ms := CallOf(calls + [x], n), MessagesOf(calls);
    if n < |ms| {
      SameCall(calls + [x], i, CallOf(calls, n));
      assert (calls + [x])[..CallOf(calls, n)] == calls[..CallOf(calls, n)];
    } else {
      SameCall(calls + [x], i, |calls|);
      assert (calls + [x])[..|calls|] == calls;
    }
  }

  /** Two messages with equally many before them are the same. */
  lemma SameCall(calls: seq<Item>, i: nat, j: nat)
    requires i < |calls| && j < |calls| && calls[i].Entry? && calls[j].Entry?
    ensures |MessagesOf(calls[..i])| == |MessagesOf(calls[..j])| ==> i == j
  {
    if i < j { FewerBefore(calls, i, j); } else if j < i { FewerBefore(calls, j, i); }
  }

  lemma FewerBefore(calls: seq<Item>, i: nat, j: nat)
    requires i < j < |calls| && calls[i].Entry?
    ensures |MessagesOf(calls[..i])| < |MessagesOf(calls[..j])|
  {
    assert calls[..j] == calls[..i] + calls[i..j];
    MessagesOfConcat(calls[..i], calls[i..j]);
    assert calls[i..j][0] == calls[i];
  }

  /** What is true of an entry stays true after another call. */
  lemma EntryStays(files: seq<Segment>, calls: seq<Item>, x: Item, k: nat, i: nat)
    requires k < |files| && i < |files[k]| && EntryOk(files, calls, k, i)
    ensures EntryOk(files, calls + [x], k, i)
  {
    hide Total, RegisteredAt, CallOf, Ordinal, Declared;
    if files[k][i].Entry? {
      CallOfOne(calls, x, Ordinal(files, k, i));
      TotalOne(calls, x, files[k][i].m.channel);
    }
  }

  /** An item is judged by what comes before it. */
  lemma EntrySame(a: seq<Segment>, b: seq<Segment>, calls: seq<Item>, k: nat, i: nat)
    requires k < |a| && k < |b| && a[..k] == b[..k] && i < |a[k]| && i < |b[k]| && a[k][..i + 1] == b[k][..i + 1]
    requires EntryOk(a, calls, k, i)
    ensures EntryOk(b, calls, k, i)
  {
    assert a[k][i] == a[k][..i + 1][i] == b[k][..i + 1][i] == b[k][i];
    assert a[k][..i] == a[k][..i + 1][..i] == b[k][..i + 1][..i] == b[k][..i];
  }

  /** A new message: its channel is declared in the open file exactly if it is registered. */
  lemma NewEntry(closed: seq<Segment>, s: Segment, calls: seq<Item>, m: Message)
    requires Flat(Contents(closed + [s])) == MessagesOf(calls)
    requires m.channel in Declared(s) <==> RegisteredAt(calls, m.channel) < |calls|
    ensures EntryOk(closed + [s + [Entry(m)]], calls + [Entry(m)], |closed|, |s|)
  {
    hide Total, RegisteredAt, CallOf, Declared, Contents, Flat, MessagesOf;
    var x, b, k := Entry(m), closed + [s + [Entry(m)]], |closed|;
    ItemAdded(closed, s, x);
    assert b[..k] == closed && b[k][..|s|] == s;
    assert Ordinal(b, k, |s|) == |MessagesOf(calls)|;
    CallOfOne(calls, x, |MessagesOf(calls)|);
    TotalOne(calls, x, m.channel);
  }

  lemma OldEntry(closed: seq<Segment>, s: Segment, x: Item, calls: seq<Item>, k: nat, i: nat)
    requires SelfContained(closed + [s], calls) && k <= |closed| && i < |(closed + [s])[k]|
    ensures EntryOk(closed + [s + [x]], calls + [x], k, i)
  {
    hide EntryOk;
    var a, b := closed + [s], closed + [s + [x]];
    EntryStays(a, calls, x, k, i);
    assert a[..k] == b[..k];
    assert b[k][..i + 1] == a[k][..i + 1];
    EntrySame(a, b, calls + [x], k, i);
  }

  lemma AnyEntry(closed: seq<Segment>, s: Segment, x: Item, calls: seq<Item>, k: nat, i: nat)
    requires SelfContained(closed + [s], calls) && Flat(Contents(closed + [s])) == MessagesOf(calls)
    requires x.Entry? ==> (x.m.channel in Declared(s) <==> RegisteredAt(calls, x.m.channel) < |calls|)
    requires k <= |closed| && i < |(closed + [s + [x]])[k]|
    ensures EntryOk(closed + [s + [x]], calls + [x], k, i)
  {
    hide SelfContained, EntryOk, RegisteredAt, Declared, Contents, Flat, MessagesOf;
    if k < |closed| || i < |s| {
      OldEntry(closed, s, x, calls, k, i);
    } else if x.Entry? {
      NewEntry(closed, s, calls, x.m);
    } else {
      NotEntry(closed + [s + [x]], calls + [x], k, i);
    }
  }

  lemma ItemSelfContained(closed: seq<Segment>, s: Segment, x: Item, calls: seq<Item>)
    requires SelfContained(closed + [s], calls) && Flat(Contents(closed + [s])) == MessagesOf(calls)
    requires x.Entry? ==> (x.m.channel in Declared(s) <==> RegisteredAt(calls, x.m.channel) < |calls|)
    ensures SelfContained(closed + [s + [x]], calls + [x])
  {
    hide EntryOk, RegisteredAt, Declared, Contents, Flat, MessagesOf;
    var b := closed + [s + [x]];
    forall k, i | 0 <= k < |b| && 0 <= i < |b[k]|
      ensures EntryOk(b, calls + [x], k, i)
    {
      AnyEntry(closed, s, x, calls, k, i);
    }
  }

  lemma NotEntry(files: seq<Segment>, calls: seq<Item>, k: nat, i: nat)
    requires k < |files| && i < |files[k]| && files[k][i].Decl?
    ensures EntryOk(files, calls, k, i)
  {
  }

  /** A new file that starts with declarations only. */
  lemma FileSelfContained(closed: seq<Segment>, s: Segment, calls: seq<Item>)
    requires SelfContained(closed, calls) && AllDecls(s)
    ensures SelfContained(closed + [s], calls)
  {
    hide EntryOk;
    var b := closed + [s];
    forall k, i | 0 <= k < |b| && 0 <= i < |b[k]|
      ensures EntryOk(b, calls, k, i)
    {
      if k < |closed| {
        EntrySame(closed, b, calls, k, i);
      } else {
        NotEntry(b, calls, k, i);
      }
    }
  }

  lemma {:induction false} NoMessages(s: Segment)
    requires forall i :: 0 <= i < |s| ==> s[i].Decl?
    ensures MessagesOf(s) == []
  {
    if s != [] { NoMessages(s[1..]); }
  }

  // ----- The writer

  class RecordWriter {
    const segmentInterval: nat
    const segmentRawLimit: nat
    var segmentRawSize: nat
    var segmentBeginTime: nat
    var fileIndex: nat
    var messageNumber: map<string, nat>
    var messageKind: Texts
    var protoDesc: Texts
    var file: Segment
    // the segments closed so far, and the suffix of every file's name
    var closed: seq<Segment>
    var suffixes: seq<nat>
    ghost var calls: seq<Item>

    ghost predicate Valid()
      reads this
    {
      && ChannelsOk(calls, messageNumber, messageKind, protoDesc)
      && FilesOk(closed + [file], calls, messageKind, protoDesc)
      && CutRight(segmentInterval, segmentRawLimit, Contents(closed), MessagesOf(file))
      && segmentRawSize == RawSize(MessagesOf(file)) && BeginOk(MessagesOf(file), segmentBeginTime)
      && NamesOk(suffixes, |closed| + 1, fileIndex)
    }

    constructor Open(interval: nat, rawLimit: nat)
      ensures Valid() && segmentInterval == interval && segmentRawLimit == rawLimit
      ensures closed == [] && file == [] && calls == []
    {
      segmentInterval, segmentRawLimit := interval, rawLimit;
      segmentRawSize, segmentBeginTime, fileIndex := 0, 0, 1;
      messageNumber, messageKind, protoDesc := map[], map[], map[];
      file, closed, calls, suffixes := [], [], [], [0];
      new;
      hide ChannelsOk, FilesOk, CutRight, BeginOk, NamesOk, MessagesOf, RawSize, Contents;
      assert closed + [file] == [[]];
      NoCalls();
      NoFiles(interval, rawLimit);
    }

    predicate IsNewChannel(name: string)
      reads this
    {
      name !in messageNumber
    }

    /** A channel is declared once; asking again changes nothing. */
    method WriteChannel(name: string, kind: string, desc: string)
      requires Valid()
      modifies this`messageNumber, this`messageKind, this`protoDesc, this`file, this`calls
      ensures Valid() && calls == old(calls) + [Decl(name, kind, desc)]
      ensures file == if name in old(messageNumber) then old(file) else old(file) + [Decl(name, kind, desc)]
    {
      hide ChannelsOk, FilesOk, CutRight, BeginOk, NamesOk, MessagesOf, RawSize;
      ghost var x := Decl(name, kind, desc);
      if IsNewChannel(name) {
        ChannelAdded(calls, messageNumber, messageKind, protoDesc, x);
        DeclAdded(closed, file, calls, messageKind, protoDesc, x);
        messageNumber := messageNumber[name := 0];
        messageKind := messageKind[name := kind];
        protoDesc := protoDesc[name := desc];
        file := file + [Decl(name, kind, desc)];
      } else {
        ChannelAgain(calls, messageNumber, messageKind, protoDesc, x);
        DeclAgain(closed + [file], calls, messageKind, protoDesc, x);
      }
      calls := calls + [x];
    }

    /** Start the next file: its name, and a declaration of every channel registered so far, in any order. */
    method SplitOutfile()
      requires messageKind.Keys == protoDesc.Keys == messageNumber.Keys
      requires NamesOk(suffixes, |suffixes|, fileIndex)
      modifies this`file, this`fileIndex, this`suffixes, this`segmentRawSize, this`segmentBeginTime
      ensures segmentRawSize == 0 && segmentBeginTime == 0
      ensures NamesOk(suffixes, |old(suffixes)| + 1, fileIndex)
      ensures AllDecls(file) && Declared(file) == messageKind.Keys && DeclsOk(file, messageKind, protoDesc)
    {
      hide NamesOk, Declared, DeclsOk;
      NextName(suffixes, fileIndex);
      NothingDeclared(messageKind, protoDesc);
      file := [];
      if fileIndex > 99999 {
        fileIndex := 0;
      }
      suffixes := suffixes + [fileIndex];
      fileIndex := fileIndex + 1;
      segmentRawSize, segmentBeginTime := 0, 0;
      var rest := messageNumber.Keys;
      while rest != {}
        modifies this`file
        invariant rest <= messageNumber.Keys && Declared(file) == messageKind.Keys - rest
        invariant AllDecls(file) && DeclsOk(file, messageKind, protoDesc)
      {
        var c :| c in rest;
        DeclAppended(file, messageKind, protoDesc, c);
        file := file + [Decl(c, messageKind[c], protoDesc[c])];
        rest := rest - {c};
      }
    }

    /** A message on an unregistered channel is not counted. */
    method OnNewMessage(m: Message)
      requires ChannelsOk(calls, messageNumber, messageKind, protoDesc)
      modifies this`messageNumber
      ensures messageNumber.Keys == old(messageNumber).Keys
      ensures ChannelsOk(calls + [Entry(m)], messageNumber, messageKind, protoDesc)
    {
      MessageCounted(calls, messageNumber, messageKind, protoDesc, m);
      if m.channel in messageNumber {
        messageNumber := messageNumber[m.channel := messageNumber[m.channel] + 1];
      }
    }

    /** The message goes to the open file, which is closed exactly if that fills it. */
    method WriteMessage(m: Message)
      requires Valid()
      modifies this`segmentRawSize, this`segmentBeginTime, this`fileIndex, this`messageNumber, this`file, this`closed,
               this`suffixes, this`calls
      ensures Valid() && calls == old(calls) + [Entry(m)]
      ensures Full(segmentInterval, segmentRawLimit, MessagesOf(old(file) + [Entry(m)]))
              ==> closed == old(closed) + [old(file) + [Entry(m)]] && AllDecls(file)
      ensures !Full(segmentInterval, segmentRawLimit, MessagesOf(old(file) + [Entry(m)]))
              ==> closed == old(closed) && file == old(file) + [Entry(m)]
    {
      hide ChannelsOk, FilesOk, CutRight, BeginOk, NamesOk, MessagesOf, RawSize, Full, Contents, DeclsOk, Declared;
      SameKeys(calls, messageNumber, messageKind, protoDesc);
      NameCount(suffixes, |closed| + 1, fileIndex);
      EntryAdded(closed, file, calls, messageNumber, messageKind, protoDesc, m);
      FilledOne(segmentInterval, segmentRawLimit, closed, file, segmentBeginTime, m);
      OnNewMessage(m);
      file := file + [Entry(m)];
      calls := calls + [Entry(m)];
      segmentRawSize := segmentRawSize + |m.content|;
      if segmentBeginTime == 0 {
        segmentBeginTime := m.time;
      }
      if segmentBeginTime > m.time {
        segmentBeginTime := m.time;
      }
      if (segmentInterval > 0 && m.time - segmentBeginTime > segmentInterval)
         || (segmentRawLimit > 0 && segmentRawSize > segmentRawLimit) {
        closed := closed + [file];
        SplitOutfile();
        FileAdded(closed, file, calls, messageKind, protoDesc);
        NewFileOk();
      }
    }
  }

  lemma NoCalls()
    ensures ChannelsOk([], map[], map[], map[]) && NamesOk([0], 1, 1)
  {
    hide Total;
    forall c
      ensures ChannelOk([], map[], map[], map[], c)
    {
    }
  }

  lemma NoFiles(interval: nat, limit: nat)
    ensures FilesOk([[]], [], map[], map[]) && CutRight(interval, limit, Contents([]), MessagesOf([]))
    ensures RawSize(MessagesOf([])) == 0 && BeginOk(MessagesOf([]), 0)
  {
    hide Full;
    EmptyNeverFull(interval, limit);
    FlatOne([], []);
    assert Contents([[]]) == [] + [[]];
  }

  /** What the source tests after writing a message is whether the file has become full. */
  lemma FilledOne(interval: nat, limit: nat, closed: seq<Segment>, s: Segment, begin: nat, m: Message)
    requires CutRight(interval, limit, Contents(closed), MessagesOf(s)) && BeginOk(MessagesOf(s), begin)
    ensures var begin' := if begin == 0 || begin > m.time then m.time else begin;
            var s' := s + [Entry(m)];
            var raw := RawSize(MessagesOf(s)) + |m.content|;
            && BeginOk(MessagesOf(s'), begin') && RawSize(MessagesOf(s')) == raw
            && (Full(interval, limit, MessagesOf(s'))
                <==> (interval > 0 && m.time - begin' > interval) || (limit > 0 && raw > limit))
            && (Full(interval, limit, MessagesOf(s')) ==> CutRight(interval, limit, Contents(closed + [s']), []))
            && (!Full(interval, limit, MessagesOf(s')) ==> CutRight(interval, limit, Contents(closed), MessagesOf(s')))
  {
    hide CutRight, BeginOk, MessagesOf, RawSize, TooLong, Contents;
    ItemAdded(closed, s, Entry(m));
    RawSizeOne(MessagesOf(s), m);
    BeginOne(interval, MessagesOf(s), begin, m);
    CutOne(interval, limit, closed, s, m);
  }

  ghost predicate AllDecls(s: Segment) {
    forall i :: 0 <= i < |s| ==> s[i].Decl?
  }

  lemma SameKeys(calls: seq<Item>, number: map<string, nat>, kinds: Texts, descs: Texts)
    requires ChannelsOk(calls, number, kinds, descs)
    ensures kinds.Keys == descs.Keys == number.Keys
  {
    hide Total, RegisteredAt;
    forall c
      ensures (c in kinds <==> c in number) && (c in descs <==> c in number)
    {
      assert ChannelOk(calls, number, kinds, descs, c);
    }
  }

  /** The suffix after 99999 is 0. */
  lemma NextName(suffixes: seq<nat>, fileIndex: nat)
    requires NamesOk(suffixes, |suffixes|, fileIndex)
    ensures var i := if fileIndex > 99999 then 0 else fileIndex; NamesOk(suffixes + [i], |suffixes| + 1, i + 1)
  {
    var n := |suffixes|;
    assert suffixes[n - 1] == (n - 1) % SUFFIXES;
  }

  lemma NothingDeclared(kinds: Texts, descs: Texts)
    ensures Declared([]) == {} && DeclsOk([], kinds, descs)
  {
  }

  lemma NameCount(suffixes: seq<nat>, files: nat, fileIndex: nat)
    requires NamesOk(suffixes, files, fileIndex)
    ensures |suffixes| == files && forall k :: 0 <= k < |suffixes| ==> suffixes[k] == k % SUFFIXES
  {
  }

  lemma NewFileOk()
    ensures RawSize([]) == 0 && BeginOk([], 0)
  {
  }

  lemma DeclAppended(s: Segment, kinds: Texts, descs: Texts, c: string)
    requires DeclsOk(s, kinds, descs) && c in kinds && c in descs && c !in Declared(s)
    ensures var d := Decl(c, kinds[c], descs[c]);
            DeclsOk(s + [d], kinds, descs) && Declared(s + [d]) == Declared(s) + {c}
  {
    forall i | 0 <= i < |s| && s[i].Decl?
      ensures s[i].name in Declared(s)
    {
    }
  }

  lemma EntryAdded(closed: seq<Segment>, s: Segment, calls: seq<Item>, number: map<string, nat>,
                   kinds: Texts, descs: Texts, m: Message)
    requires FilesOk(closed + [s], calls, kinds, descs) && ChannelsOk(calls, number, kinds, descs)
    ensures FilesOk(closed + [s + [Entry(m)]], calls + [Entry(m)], kinds, descs)
    ensures MessagesOf(s + [Entry(m)]) == MessagesOf(s) + [m]
  {
    hide SelfContained, Declared, Contents, Flat, MessagesOf, RegisteredAt, Total;
    var a, b := closed + [s], closed + [s + [Entry(m)]];
    forall k | 0 <= k < |b|
      ensures DeclsOk(b[k], kinds, descs)
    {
      assert DeclsOk(a[k], kinds, descs);
      assert k < |closed| ==> b[k] == a[k];
    }
    assert Last(a) == s && Last(b) == s + [Entry(m)];
    assert ChannelOk(calls, number, kinds, descs, m.channel);
    ItemAdded(closed, s, Entry(m));
    ItemSelfContained(closed, s, Entry(m), calls);
    MessagesOfOne(calls, Entry(m));
  }

  lemma FileAdded(files: seq<Segment>, s: Segment, calls: seq<Item>, kinds: Texts, descs: Texts)
    requires FilesOk(files, calls, kinds, descs)
    requires AllDecls(s) && DeclsOk(s, kinds, descs) && Declared(s) == kinds.Keys
    ensures FilesOk(files + [s], calls, kinds, descs) && MessagesOf(s) == []
  {
    hide SelfContained, Declared, Flat, MessagesOf;
    NoMessages(s);
    FileSelfContained(files, s, calls);
    assert Contents(files + [s]) == Contents(files) + [MessagesOf(s)];
    FlatOne(Contents(files), MessagesOf(s));
  }

  lemma CutOne(interval: nat, limit: nat, closed: seq<Segment>, s: Segment, m: Message)
    requires CutRight(interval, limit, Contents(closed), MessagesOf(s))
    ensures var s' := s + [Entry(m)];
            && (Full(interval, limit, MessagesOf(s')) ==> CutRight(interval, limit, Contents(closed + [s']), []))
            && (!Full(interval, limit, MessagesOf(s')) ==> CutRight(interval, limit, Contents(closed), MessagesOf(s')))
  {
    hide CutRight, Full, MessagesOf, Contents;
    var s' := s + [Entry(m)];
    MessagesOfOne(s, Entry(m));
    ContentsOne(closed, s');
    CutMore(interval, limit, Contents(closed), MessagesOf(s), m);
  }

  lemma DeclAdded(closed: seq<Segment>, s: Segment, calls: seq<Item>, kinds: Texts, descs: Texts, x: Item)
    requires FilesOk(closed + [s], calls, kinds, descs) && x.Decl? && x.name !in kinds
    ensures var s' := s + [x];
            && FilesOk(closed + [s'], calls + [x], kinds[x.name := x.kind], descs[x.name := x.desc])
            && MessagesOf(s') == MessagesOf(s)
  {
    hide SelfContained, Declared, Contents, Flat, MessagesOf;
    ItemAdded(closed, s, x);
    ItemSelfContained(closed, s, x, calls);
    MessagesOfOne(calls, x);
    var a, b := closed + [s], closed + [s + [x]];
    forall k | 0 <= k < |b|
      ensures DeclsOk(b[k], kinds[x.name := x.kind], descs[x.name := x.desc])
    {
      assert DeclsOk(a[k], kinds, descs);
      assert k < |closed| ==> b[k] == a[k];
    }
    assert Last(a) == s && Last(b) == s + [x];
  }

  lemma DeclAgain(files: seq<Segment>, calls: seq<Item>, kinds: Texts, descs: Texts, x: Item)
    requires FilesOk(files, calls, kinds, descs) && x.Decl?
    ensures FilesOk(files, calls + [x], kinds, descs)
  {
    MessagesOfOne(calls, x);
    forall k, i | 0 <= k < |files| && 0 <= i < |files[k]|
      ensures EntryOk(files, calls + [x], k, i)
    {
      EntryStays(files, calls, x, k, i);
    }
  }

  // ----- Whole runs

  /** What a run of calls leaves in the files: together the messages in order, cut in the one way there is;
      each message behind a declaration exactly if its channel was registered; and declarations as registered,
      at most one for a channel in each file. */
  ghost predicate Recorded(interval: nat, limit: nat, calls: seq<Item>, files: seq<Segment>) {
    && files != [] && Flat(Contents(files)) == MessagesOf(calls)
    && CutRight(interval, limit, Contents(Front(files)), MessagesOf(Last(files)))
    && SelfContained(files, calls)
    && (forall k :: 0 <= k < |files| ==> AsRegistered(calls, files[k]))
  }

  ghost predicate AsRegistered(calls: seq<Item>, s: Segment) {
    && (forall i :: 0 <= i < |s| && s[i].Decl? ==> Registers(calls, s[i]))
    && (forall i, j :: 0 <= i < j < |s| && s[i].Decl? && s[j].Decl? ==> s[i].name != s[j].name)
  }

  ghost predicate Registers(calls: seq<Item>, x: Item)
    requires x.Decl?
  {
    var n := RegisteredAt(calls, x.name);
    n < |calls| && x == calls[n]
  }

  /** Any run of calls. */
  method Record(interval: nat, rawLimit: nat, calls: seq<Item>)
    returns (files: seq<Segment>, suffixes: seq<nat>, number: map<string, nat>)
    ensures Recorded(interval, rawLimit, calls, files)
    ensures |suffixes| == |files| && forall k :: 0 <= k < |suffixes| ==> suffixes[k] == k % SUFFIXES
    ensures forall c :: c in number <==> RegisteredAt(calls, c) < |calls|
    ensures forall c :: c in number ==> number[c] == Total(calls, c)
  {
    hide FilesOk, CutRight, BeginOk, NamesOk, MessagesOf, RawSize, Full, Total, RegisteredAt, Recorded;
    var w := new RecordWriter.Open(interval, rawLimit);
    for n := 0 to |calls|
      invariant fresh(w) && w.Valid() && w.calls == calls[..n]
      invariant w.segmentInterval == interval && w.segmentRawLimit == rawLimit
    {
      match calls[n] {
        case Decl(name, kind, desc) => w.WriteChannel(name, kind, desc);
        case Entry(m) => w.WriteMessage(m);
      }
    }
    assert calls[..|calls|] == calls;
    files, suffixes, number := w.closed + [w.file], w.suffixes, w.messageNumber;
    NameCount(suffixes, |files|, w.fileIndex);
    assert Front(files) == w.closed;
    RunOk(interval, rawLimit, files, calls, w.messageNumber, w.messageKind, w.protoDesc);
  }

  lemma RunOk(interval: nat, limit: nat, files: seq<Segment>, calls: seq<Item>, number: map<string, nat>,
              kinds: Texts, descs: Texts)
    requires FilesOk(files, calls, kinds, descs) && ChannelsOk(calls, number, kinds, descs)
    requires files != [] && CutRight(interval, limit, Contents(Front(files)), MessagesOf(Last(files)))
    ensures Recorded(interval, limit, calls, files)
    ensures forall c :: c in number <==> RegisteredAt(calls, c) < |calls|
    ensures forall c :: c in number ==> number[c] == Total(calls, c)
  {
    hide Total, RegisteredAt, SelfContained, Flat, CutRight, Contents;
    forall c
      ensures c in number <==> RegisteredAt(calls, c) < |calls|
      ensures c in number ==> number[c] == Total(calls, c)
    {
      assert ChannelOk(calls, number, kinds, descs, c);
    }
    forall k | 0 <= k < |files|
      ensures AsRegistered(calls, files[k])
    {
      assert DeclsOk(files[k], kinds, descs);
      forall i | 0 <= i < |files[k]| && files[k][i].Decl?
        ensures Registers(calls, files[k][i])
      {
        assert DeclOk(files[k][i], kinds, descs);
        assert ChannelOk(calls, number, kinds, descs, files[k][i].name);
      }
    }
  }
}
