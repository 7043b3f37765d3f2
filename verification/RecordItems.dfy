/**
 What a record file carries besides its framing: channel declarations and messages, in order.  Clients of
 the file writer ask for items one by one; readers of a file find them in its sections.
 */
module RecordItems {
  import opened RecordFile

  datatype Item = Decl(name: string, kind: string, desc: string) | Entry(m: Message)

  function Entries(ms: seq<Message>): seq<Item> {
    if ms == [] then [] else [Entry(ms[0])] + Entries(ms[1..])
  }

  function ItemsOf(s: Section): seq<Item> {
    match s
    case Channel(name, kind, desc) => [Decl(name, kind, desc)]
    case ChunkBody(ms) => Entries(ms)
    case _ => []
  }

  /** Every declaration and every message before the index. */
  function Items(sections: seq<Section>): seq<Item> {
    if sections == [] || sections[0].Index? then [] else ItemsOf(sections[0]) + Items(sections[1..])
  }

  function MessagesOf(items: seq<Item>): seq<Message> {
    if items == [] then [] else MessageOf(items[0]) + MessagesOf(items[1..])
  }

  function MessageOf(x: Item): seq<Message> {
    if x.Entry? then [x.m] else []
  }

  function Decls(items: seq<Item>): seq<Item> {
    if items == [] then [] else DeclOf(items[0]) + Decls(items[1..])
  }

  function DeclOf(x: Item): seq<Item> {
    if x.Decl? then [x] else []
  }

  function Declared(items: seq<Item>): set<string> {
    set x | x in items && x.Decl? :: x.name
  }

  /** The messages before the k-th declaration. */
  function BeforeDecl(items: seq<Item>, k: nat): seq<Message> {
    if items == [] then []
    else if items[0].Entry? then [items[0].m] + BeforeDecl(items[1..], k)
    else if k == 0 then []
    else BeforeDecl(items[1..], k - 1)
  }

  /** How many messages on the channel come before its first declaration. */
  function Undeclared(items: seq<Item>, c: string): nat {
    if items == [] || Declares(items[0], c) then 0
    else (if IsOn(items[0], c) then 1 else 0) + Undeclared(items[1..], c)
  }

  predicate Declares(x: Item, c: string) {
    x.Decl? && x.name == c
  }

  predicate IsOn(x: Item, c: string) {
    x.Entry? && x.m.channel == c
  }

  // ----- Concatenation

  lemma {:induction false} MessagesOfConcat(a: seq<Item>, b: seq<Item>)
    ensures MessagesOf(a + b) == MessagesOf(a) + MessagesOf(b)
    decreases |a|
  {
    hide MessageOf;
    if a == [] {
      assert a + b == b;
    } else {
      assert (a + b)[1..] == a[1..] + b;
      MessagesOfConcat(a[1..], b);
    }
  }

  lemma MessagesOfOne(items: seq<Item>, x: Item)
    ensures MessagesOf([x]) == MessageOf(x)
    ensures MessagesOf(items + [x]) == MessagesOf(items) + MessageOf(x)
  {
    MessagesOfConcat(items, [x]);
    assert [x][1..] == [];
    assert MessagesOf([x]) == MessageOf(x) + MessagesOf([x][1..]);
  }

  lemma {:induction false} DeclsConcat(a: seq<Item>, b: seq<Item>)
    ensures Decls(a + b) == Decls(a) + Decls(b)
    decreases |a|
  {
    hide DeclOf;
    if a == [] {
      assert a + b == b;
    } else {
      assert (a + b)[1..] == a[1..] + b;
      DeclsConcat(a[1..], b);
    }
  }

  lemma DeclsOne(items: seq<Item>, x: Item)
    ensures Decls(items + [x]) == Decls(items) + DeclOf(x)
  {
    DeclsConcat(items, [x]);
    assert [x][1..] == [];
    assert Decls([x]) == DeclOf(x) + Decls([x][1..]);
  }

  lemma {:induction false} ItemsConcat(a: seq<Section>, b: seq<Section>)
    requires forall i :: 0 <= i < |a| ==> !a[i].Index?
    ensures Items(a + b) == Items(a) + Items(b)
    decreases |a|
  {
    hide ItemsOf;
    if a == [] {
      assert a + b == b;
    } else {
      assert (a + b)[1..] == a[1..] + b;
      ItemsConcat(a[1..], b);
    }
  }

  lemma ItemsOne(s: Section)
    ensures Items([s]) == if s.Index? then [] else ItemsOf(s)
  {
    assert [s][1..] == [];
    assert !s.Index? ==> Items([s]) == ItemsOf(s) + Items([s][1..]);
  }

  lemma {:induction false} UndeclaredConcat(a: seq<Item>, b: seq<Item>, c: string)
    ensures Undeclared(a + b, c) == Undeclared(a, c) + if c in Declared(a) then 0 else Undeclared(b, c)
    decreases |a|
  {
    if a == [] {
      assert a + b == b;
    } else {
      assert (a + b)[1..] == a[1..] + b;
      UndeclaredConcat(a[1..], b, c);
      if Declares(a[0], c) {
        assert a[0] in a;
      } else {
        assert c in Declared(a) <==> c in Declared(a[1..]);
      }
    }
  }

  lemma DeclaredConcat(a: seq<Item>, b: seq<Item>)
    ensures Declared(a + b) == Declared(a) + Declared(b)
  {
  }

  /** Every message on the channel follows a declaration, if none is undeclared. */
  lemma {:induction false} UndeclaredNone(items: seq<Item>, c: string, i: nat)
    requires i < |items| && IsOn(items[i], c)
    ensures Undeclared(items, c) == 0 ==> c in Declared(items[..i])
    ensures c !in Declared(items[..i]) ==> Undeclared(items, c) > 0
    decreases i
  {
    if Declares(items[0], c) {
      assert i > 0;
      assert items[..i][0] == items[0];
    } else if i > 0 {
      UndeclaredNone(items[1..], c, i - 1);
      assert items[..i][1..] == items[1..][..i - 1];
      assert items[..i] == [items[0]] + items[1..][..i - 1];
    }
  }

  /** What comes before a declaration does not depend on what comes after it. */
  lemma {:induction false} BeforeDeclMore(items: seq<Item>, more: seq<Item>, k: nat)
    ensures k < |Decls(items)| ==> BeforeDecl(items + more, k) == BeforeDecl(items, k)
    decreases |items|
  {
    if items != [] {
      assert (items + more)[1..] == items[1..] + more;
      BeforeDeclMore(items[1..], more, if items[0].Decl? && k > 0 then k - 1 else k);
    }
  }

  lemma {:induction false} BeforeDeclNew(items: seq<Item>, d: Item)
    requires d.Decl?
    ensures BeforeDecl(items + [d], |Decls(items)|) == MessagesOf(items)
    decreases |items|
  {
    if items == [] {
      assert items + [d] == [d];
    } else {
      assert (items + [d])[1..] == items[1..] + [d];
      BeforeDeclNew(items[1..], d);
    }
  }

  // ----- Messages of sections

  lemma {:induction false} MessagesOfEntries(ms: seq<Message>)
    ensures MessagesOf(Entries(ms)) == ms
    ensures Decls(Entries(ms)) == []
    ensures forall i :: 0 <= i < |Entries(ms)| ==> Entries(ms)[i].Entry?
    decreases |ms|
  {
    if ms != [] {
      assert Entries(ms)[1..] == Entries(ms[1..]);
      MessagesOfEntries(ms[1..]);
    }
  }

  lemma {:induction false} MessagesOfItems(sections: seq<Section>)
    ensures MessagesOf(Items(sections)) == Messages(sections)
    decreases |sections|
  {
    if sections != [] && !sections[0].Index? {
      MessagesOfItems(sections[1..]);
      MessagesOfConcat(ItemsOf(sections[0]), Items(sections[1..]));
      match sections[0]
      case ChunkBody(ms) => MessagesOfEntries(ms);
      case Channel(name, kind, desc) => MessagesOfOne([], Decl(name, kind, desc));
      case _ =>
    }
  }

  /** Reading one section further. */
  lemma NextItems(sections: seq<Section>, p: nat)
    requires p <= |sections|
    ensures p == |sections| ==> Items(sections[p..]) == []
    ensures p < |sections| ==>
              Items(sections[p..]) == if sections[p].Index? then [] else ItemsOf(sections[p]) + Items(sections[p + 1..])
  {
    if p < |sections| {
      assert sections[p..][1..] == sections[p + 1..];
    }
  }
}
