/**
 The names of segment files (cyber/record/record_writer.cc:69-79).  The suffix has five digits, so that a long
 recording opens its first files again for writing.  The disk is a map from suffixes to files in which the last
 writer wins; a reader stops at the index, before anything that is left of a longer file.
 */
module RecordNames {
  import opened RecordFile
  import opened RecordItems
  import opened Cuts
  import opened Rings
  import opened RecordFileWriter
  import opened RecordOnDisk
  import Writer = RecordWriter

  /** The segment that each suffix names in the end. */
  function Disk(suffixes: seq<nat>): map<nat, nat> {
    if suffixes == [] then map[] else Disk(Front(suffixes))[Last(suffixes) := |suffixes| - 1]
  }

  ghost predicate StillThere(suffixes: seq<nat>, k: nat)
    requires k < |suffixes|
  {
    suffixes[k] in Disk(suffixes) && Disk(suffixes)[suffixes[k]] == k
  }

  ghost predicate Numbered(suffixes: seq<nat>) {
    forall k :: 0 <= k < |suffixes| ==> suffixes[k] == k % Writer.SUFFIXES
  }

  /** After `n` files, the suffix of file `k` names that file or a later one. */
  lemma {:induction false} Holder(suffixes: seq<nat>, n: nat, k: nat)
    requires Numbered(suffixes) && k < n <= |suffixes|
    ensures var d := Disk(suffixes[..n]);
      suffixes[k] in d && k <= d[suffixes[k]] < n && (d[suffixes[k]] == k <==> n <= k + Writer.SUFFIXES)
    decreases n
  {
    var last := n - 1;
    assert Front(suffixes[..n]) == suffixes[..last] && Last(suffixes[..n]) == suffixes[last];
    if k < last {
      Holder(suffixes, last, k);
      if last < k + Writer.SUFFIXES { SlotsDiffer(k, last, Writer.SUFFIXES); }
      SlotsRepeat(k, Writer.SUFFIXES);
    }
  }

  /** A segment is still on disk exactly if fewer than 100000 segments came after it ... */
  lemma StillThereExactlyWhen(suffixes: seq<nat>, k: nat)
    requires Numbered(suffixes) && k < |suffixes|
    ensures StillThere(suffixes, k) <==> |suffixes| <= k + Writer.SUFFIXES
  {
    Holder(suffixes, |suffixes|, k);
    assert suffixes[..|suffixes|] == suffixes;
  }

  /** ... and all are exactly if there are no more than that. */
  lemma AllStillThereExactlyWhen(suffixes: seq<nat>)
    requires Numbered(suffixes)
    ensures (forall k :: 0 <= k < |suffixes| ==> StillThere(suffixes, k)) <==> |suffixes| <= Writer.SUFFIXES
  {
    hide StillThere, Numbered;
    forall k | 0 <= k < |suffixes|
      ensures StillThere(suffixes, k) <==> |suffixes| <= k + Writer.SUFFIXES
    {
      StillThereExactlyWhen(suffixes, k);
    }
    if |suffixes| > Writer.SUFFIXES { assert !StillThere(suffixes, 0); }
  }

  // ----- The disk after a recording

  /** The file that a suffix names in the end. */
  function FileUnder(limits: Limits, runs: seq<seq<Action>>, suffixes: seq<nat>, x: nat): seq<Section>
    requires x in Disk(suffixes) && Disk(suffixes)[x] < |runs|
  {
    FileAfter(limits, runs[Disk(suffixes)[x]])
  }

  /** The first segment that is still on disk. */
  function Oldest(files: nat): nat {
    if files <= Writer.SUFFIXES then 0 else files - Writer.SUFFIXES
  }

  lemma {:induction false} FlatConcat(a: seq<seq<Message>>, b: seq<seq<Message>>)
    ensures Flat(a + b) == Flat(a) + Flat(b)
    decreases |a|
  {
    if a == [] {
      assert a + b == b;
    } else {
      assert (a + b)[1..] == a[1..] + b;
      FlatConcat(a[1..], b);
    }
  }

  lemma ContentsSplit(files: seq<Writer.Segment>, n: nat)
    requires n <= |files|
    ensures Flat(Writer.Contents(files)) == Flat(Writer.Contents(files[..n])) + Flat(Writer.Contents(files[n..]))
  {
    hide Flat, MessagesOf;
    FlatConcat(Writer.Contents(files[..n]), Writer.Contents(files[n..]));
    assert Writer.Contents(files) == Writer.Contents(files[..n]) + Writer.Contents(files[n..]);
  }

  /**
   What a recording leaves on disk, for any run of calls and any interleavings with the flush threads: the files of
   its last 100000 segments, each under its own suffix and each with its segment's messages.  So the messages of
   the calls are all there if there are no more segments than that, in order if the flush threads kept up; and
   otherwise the messages of the segments before these are gone.
   */
  lemma RecordingStays(interval: nat, limit: nat, calls: seq<Item>, files: seq<Writer.Segment>, suffixes: seq<nat>,
                       limits: Limits, runs: seq<seq<Action>>)
    requires Writer.Recorded(interval, limit, calls, files) && Numbered(suffixes)
    requires |runs| == |files| == |suffixes| && forall k :: 0 <= k < |runs| ==> IsRunOf(limits, runs[k], files[k])
    ensures forall k :: 0 <= k < |files| ==> (StillThere(suffixes, k) <==> Oldest(|files|) <= k)
    ensures forall k :: Oldest(|files|) <= k < |files| ==>
      && suffixes[k] in Disk(suffixes) && Disk(suffixes)[suffixes[k]] < |runs|
      && FileUnder(limits, runs, suffixes, suffixes[k]) == FileAfter(limits, runs[k])
    ensures var n := Oldest(|files|);
      && MessagesOf(calls) == Flat(Writer.Contents(files[..n])) + Flat(Writer.Contents(files[n..]))
      && multiset(Flat(OnDisk(limits, runs[n..]))) == multiset(Flat(Writer.Contents(files[n..])))
      && ((forall k :: n <= k < |runs| ==> !Run(limits, Open(), runs[k]).overtaken) ==>
            Flat(OnDisk(limits, runs[n..])) == Flat(Writer.Contents(files[n..])))
      && (n == 0 <==> |files| <= Writer.SUFFIXES)
  {
    hide Run, Flat, MessagesOf, Messages, Items, Decls, Undeclared, FileOf, BeforeDecl, Disk, CutRight, Distinct;
    hide Writer.SelfContained;
    var n := Oldest(|files|);
    forall k | 0 <= k < |files|
      ensures StillThere(suffixes, k) <==> n <= k
    {
      StillThereExactlyWhen(suffixes, k);
    }
    forall k | n <= k < |files|
      ensures suffixes[k] in Disk(suffixes) && Disk(suffixes)[suffixes[k]] < |runs|
      ensures FileUnder(limits, runs, suffixes, suffixes[k]) == FileAfter(limits, runs[k])
    {
      assert StillThere(suffixes, k);
    }
    ContentsSplit(files, n);
    var newer, newerRuns := files[n..], runs[n..];
    forall k | 0 <= k < |newerRuns|
      ensures newerRuns[k] == runs[k + n] && IsRunOf(limits, newerRuns[k], newer[k])
    {
      var j := k + n;
      assert IsRunOf(limits, runs[j], files[j]);
    }
    SegmentsOnDisk(limits, newerRuns, newer);
  }

  // ----- A recording that is too long

  /** Messages that each fill a segment. */
  lemma {:induction false} EachFills(m: Message, n: nat)
    requires |m.content| > 1
    ensures var ms, parts := seq(n, _ => m), seq(n, _ => [m]); CutUp(0, 1, ms) == (parts, [])
    decreases n
  {
    var ms, parts := seq(n, _ => m), seq(n, _ => [m]);
    if n > 0 {
      EachFills(m, n - 1);
      assert Front(ms) == seq(n - 1, _ => m) && Front(parts) == seq(n - 1, _ => [m]);
      assert [] + [m] == [m];
      assert Full(0, 1, [m]) by { RawSizeOne([], m); assert [] + [m] == [m]; }
      assert parts == Front(parts) + [[m]];
    }
  }

  lemma {:induction false} RepeatedMessages(m: Message, n: nat)
    ensures MessagesOf(seq(n, _ => Entry(m))) == seq(n, _ => m)
    decreases n
  {
    if n > 0 {
      var calls, ms := seq(n, _ => Entry(m)), seq(n, _ => m);
      RepeatedMessages(m, n - 1);
      assert calls[1..] == seq(n - 1, _ => Entry(m)) && ms == [m] + seq(n - 1, _ => m);
    }
  }

  /** Recording `n` messages that each exceed the size limit makes n + 1 segments; with 100000 of them the first
      segment is overwritten. */
  method ManySegments(m: Message, n: nat) returns (files: seq<Writer.Segment>, suffixes: seq<nat>)
    requires |m.content| > 1
    ensures Writer.Recorded(0, 1, seq(n, _ => Entry(m)), files)
    ensures |files| == |suffixes| == n + 1 && Numbered(suffixes)
    ensures n >= Writer.SUFFIXES <==> !StillThere(suffixes, 0)
  {
    hide Writer.Recorded, StillThere, MessagesOf;
    var number;
    files, suffixes, number := Writer.Record(0, 1, seq(n, _ => Entry(m)));
    SegmentCount(m, n, files);
    StillThereExactlyWhen(suffixes, 0);
  }

  lemma SegmentCount(m: Message, n: nat, files: seq<Writer.Segment>)
    requires |m.content| > 1 && Writer.Recorded(0, 1, seq(n, _ => Entry(m)), files)
    ensures |files| == n + 1
  {
    hide CutUp, CutRight, Flat, MessagesOf, Writer.SelfContained;
    var ms, parts := seq(n, _ => m), seq(n, _ => [m]);
    RepeatedMessages(m, n);
    EachFills(m, n);
    CutUpIsRight(0, 1, ms);
    var closed, last := Writer.Contents(Front(files)), MessagesOf(Last(files));
    assert files == Front(files) + [Last(files)];
    Writer.ContentsOne(Front(files), Last(files));
    FlatOne(closed, last);
    SegmentationIsUnique(0, 1, closed, last, parts, []);
  }
}
