/**
 The name registries of cyber/common/global_data.cc: linear probing, with wrap-around of the 64-bit id,
 on top of the hash map.  RegisterNode, RegisterChannel, RegisterService and RegisterTaskName differ only
 in their map, so one class stands for the four.  Calls do not overlap, and a map without overlapping
 calls is a plain map (`AtomicHashMap.Linearizable`).
 */
module GlobalData {
  const WORDS: int := 0x1_0000_0000_0000_0000

  type Id = x: int | 0 <= x < WORDS

  function Next(id: Id): Id {
    if id + 1 == WORDS then 0 else id + 1
  }

  /** How many increments lead from `a` to `b`. */
  function Dist(a: Id, b: Id): (d: int)
    ensures 0 <= d < WORDS
  {
    if a <= b then b - a else b - a + WORDS
  }

  /** Registering `name` on `m` gives `id` and `m'`: the first id from the hash on that is free or
      already stands for the name. */
  ghost predicate Registers(h: Id, m: map<Id, string>, name: string, m': map<Id, string>, id: Id) {
    && m' == m[id := name]
    && (id in m ==> m[id] == name)
    && (forall j: Id :: Dist(h, j) < Dist(h, id) ==> j in m && m[j] != name)
  }

  /** The `n` ids from the hash on, counting upwards and from 2^64 - 1 on to 0, are all taken by other names. */
  ghost predicate AllTaken(h: Id, m: map<Id, string>, name: string, n: nat) {
    forall k: nat :: k < n ==> TakenAt(h, m, name, k)
  }

  ghost predicate TakenAt(h: Id, m: map<Id, string>, name: string, k: nat) {
    var id: Id := (h + k) % WORDS;
    id in m && m[id] != name
  }

  /** The id found is the hash plus the number of ids that were taken, modulo 2^64. */
  lemma ProbedFrom(h: Id, m: map<Id, string>, name: string, id: Id) returns (n: nat)
    requires forall j: Id :: Dist(h, j) < Dist(h, id) ==> j in m && m[j] != name
    ensures n < WORDS && id == (h + n) % WORDS && AllTaken(h, m, name, n)
  {
    n := Dist(h, id);
    forall k: nat | k < n
      ensures TakenAt(h, m, name, k)
    {
      var j: Id := (h + k) % WORDS;
      assert Dist(h, j) == k;
    }
  }

  class Registry {
    const hash: string -> Id
    var names: map<Id, string>

    constructor (hash: string -> Id)
      ensures this.hash == hash && names == map[]
    {
      this.hash := hash;
      names := map[];
    }

    /** Without a free id, and without the name, the source's loop would not end. */
    ghost predicate HasRoom(name: string)
      reads this
    {
      exists i: Id :: Suits(i, name)
    }

    ghost predicate Suits(i: Id, name: string)
      reads this
    {
      i !in names || names[i] == name
    }

    method Register(name: string) returns (id: Id)
      requires HasRoom(name)
      modifies this
      ensures Registers(hash(name), old(names), name, names, id)
      ensures exists n: nat :: n < WORDS && id == (hash(name) + n) % WORDS && AllTaken(hash(name), old(names), name, n)
      ensures names == old(names)[id := name] && (id in old(names) ==> old(names)[id] == name)
    {
      ghost var room: Id :| Suits(room, name);
      ghost var h := hash(name);
      id := hash(name);
      while id in names
        invariant forall j: Id :: Dist(h, j) < Dist(h, id) ==> j in names && names[j] != name
        invariant Dist(h, id) <= Dist(h, room)
        decreases Dist(h, room) - Dist(h, id)
      {
        if name == names[id] {
          break;
        }
        id := Next(id);
      }
      ghost var taken := ProbedFrom(h, names, name, id);
      names := names[id := name];
    }

    /** The name under an id; the empty string for an id that was never given out.  What callers get from
        it is in RegisterAll. */
    function GetById(id: Id): (name: string)
      reads this
      ensures name != "" ==> id in names
      ensures id in names ==> name == names[id]
    {
      if id in names then names[id] else ""
    }
  }

  /** A run of registrations from an empty registry. */
  ghost predicate IsRun(hash: string -> Id, maps: seq<map<Id, string>>, names: seq<string>, ids: seq<Id>) {
    && |maps| == |names| + 1 && |ids| == |names| && maps[0] == map[]
    && (forall i :: 0 <= i < |names| ==> Nth(hash, maps, names, ids, i))
  }

  ghost predicate Nth(hash: string -> Id, maps: seq<map<Id, string>>, names: seq<string>, ids: seq<Id>, i: nat)
    requires i < |names| && |maps| == |names| + 1 && |ids| == |names|
  {
    Registers(hash(names[i]), maps[i], names[i], maps[i + 1], ids[i])
  }

  lemma {:induction false} StaysRegistered(hash: string -> Id, maps: seq<map<Id, string>>, names: seq<string>,
                                           ids: seq<Id>, i: nat, j: nat, id: Id)
    requires IsRun(hash, maps, names, ids) && i <= j < |maps| && id in maps[i]
    ensures id in maps[j] && maps[j][id] == maps[i][id]
    decreases j
  {
    if i < j {
      StaysRegistered(hash, maps, names, ids, i, j - 1, id);
      assert Nth(hash, maps, names, ids, j - 1);
    }
  }

  lemma SameDistance(h: Id, a: Id, b: Id)
    requires Dist(h, a) == Dist(h, b)
    ensures a == b
  {
  }

  /**
   For any hash function and any sequence of registrations: two calls return the same id exactly when
   they register the same name, and from then on that id yields that name.
   */
  lemma IdsIdentifyNames(hash: string -> Id, maps: seq<map<Id, string>>, names: seq<string>, ids: seq<Id>,
                         i: nat, j: nat)
    requires IsRun(hash, maps, names, ids) && i < j < |names|
    ensures ids[i] == ids[j] <==> names[i] == names[j]
    ensures forall k :: i < k < |maps| ==> ids[i] in maps[k] && maps[k][ids[i]] == names[i]
  {
    var h := hash(names[j]);
    assert Nth(hash, maps, names, ids, i) && Nth(hash, maps, names, ids, j);
    forall k | i < k < |maps|
      ensures ids[i] in maps[k] && maps[k][ids[i]] == names[i]
    {
      StaysRegistered(hash, maps, names, ids, i + 1, k, ids[i]);
    }
    if names[i] == names[j] {
      if Dist(h, ids[j]) < Dist(h, ids[i]) {
        StaysRegistered(hash, maps, names, ids, i, j, ids[j]);
      }
      SameDistance(h, ids[i], ids[j]);
    }
  }

  lemma {:induction false} Pigeonhole(keys: set<Id>, n: nat)
    requires n <= WORDS && forall i: Id :: i < n ==> i in keys
    ensures n <= |keys|
    decreases n
  {
    if n > 0 {
      Pigeonhole(keys - {n - 1}, n - 1);
    }
  }

  /** While fewer than 2^64 ids are taken, one is free. */
  lemma RoomLeft(m: map<Id, string>) returns (free: Id)
    requires |m.Keys| < WORDS
    ensures free !in m
  {
    if forall i: Id :: i in m {
      Pigeonhole(m.Keys, WORDS);
    }
    free :| free !in m;
  }

  lemma OneMore(hash: string -> Id, maps: seq<map<Id, string>>, names: seq<string>, ids: seq<Id>,
                m: map<Id, string>, name: string, id: Id)
    requires IsRun(hash, maps, names, ids) && Registers(hash(name), maps[|names|], name, m, id)
    ensures IsRun(hash, maps + [m], names + [name], ids + [id])
  {
    hide Registers;
    var maps', names', ids' := maps + [m], names + [name], ids + [id];
    forall i | 0 <= i < |names'|
      ensures Nth(hash, maps', names', ids', i)
    {
      if i < |names| { assert Nth(hash, maps, names, ids, i); }
    }
  }

  lemma OneKeyMore(h: Id, m: map<Id, string>, name: string, m': map<Id, string>, id: Id)
    requires Registers(h, m, name, m', id)
    ensures m'.Keys == m.Keys + {id} && |m'.Keys| <= |m.Keys| + 1
  {
  }

  /** A run takes no ids but the ones it returns. */
  lemma {:induction false} RunHolds(hash: string -> Id, maps: seq<map<Id, string>>, names: seq<string>,
                                    ids: seq<Id>, n: nat)
    requires IsRun(hash, maps, names, ids) && n <= |names|
    ensures |maps[n].Keys| <= n && forall id :: id in maps[n].Keys ==> id in ids[..n]
    decreases n
  {
    hide Registers;
    if n > 0 {
      RunHolds(hash, maps, names, ids, n - 1);
      var k := n - 1;
      assert Nth(hash, maps, names, ids, k);
      OneKeyMore(hash(names[k]), maps[k], names[k], maps[k + 1], ids[k]);
      assert ids[..n] == ids[..k] + [ids[k]];
    }
  }

  /**
   Any sequence of at most 2^64 registrations, on the class itself: every call returns, equal names and
   only those get equal ids, every id yields its name in the end, and no other id yields one.
   */
  method RegisterAll(hash: string -> Id, names: seq<string>) returns (registry: Registry, ids: seq<Id>)
    requires |names| <= WORDS
    ensures |ids| == |names|
    ensures forall i, j :: 0 <= i < j < |ids| ==> (ids[i] == ids[j] <==> names[i] == names[j])
    ensures forall i :: 0 <= i < |ids| ==> registry.GetById(ids[i]) == names[i]
    ensures forall id: Id :: id !in ids ==> registry.GetById(id) == ""
  {
    hide Registers, IsRun;
    registry := new Registry(hash);
    ids := [];
    ghost var maps := [registry.names];
    assert IsRun(hash, maps, names[..0], ids) by { EmptyRun(hash); }
    for n := 0 to |names|
      invariant |ids| == n && registry.hash == hash && fresh(registry)
      invariant |maps| == n + 1 && maps[n] == registry.names && IsRun(hash, maps, names[..n], ids)
    {
      RunHolds(hash, maps, names[..n], ids, n);
      ghost var free := RoomLeft(registry.names);
      assert registry.Suits(free, names[n]);
      var id := registry.Register(names[n]);
      OneMore(hash, maps, names[..n], ids, registry.names, names[n], id);
      assert names[..n] + [names[n]] == names[..n + 1];
      ids := ids + [id];
      maps := maps + [registry.names];
    }
    assert names[..|names|] == names;
    RunHolds(hash, maps, names, ids, |names|);
    assert ids[..|names|] == ids;
    forall i, j | 0 <= i < j < |ids|
      ensures ids[i] == ids[j] <==> names[i] == names[j]
    {
      IdsIdentifyNames(hash, maps, names, ids, i, j);
    }
    forall i | 0 <= i < |ids|
      ensures registry.GetById(ids[i]) == names[i]
    {
      Registered(hash, maps, names, ids, i);
    }
  }

  lemma EmptyRun(hash: string -> Id)
    ensures IsRun(hash, [map[]], [], [])
  {
  }

  lemma Registered(hash: string -> Id, maps: seq<map<Id, string>>, names: seq<string>, ids: seq<Id>, i: nat)
    requires IsRun(hash, maps, names, ids) && i < |names|
    ensures ids[i] in maps[|names|] && maps[|names|][ids[i]] == names[i]
  {
    assert Nth(hash, maps, names, ids, i);
    StaysRegistered(hash, maps, names, ids, i + 1, |names|, ids[i]);
  }
}
