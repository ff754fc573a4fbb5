/** The table catalog: name lookups, metadata, identifiers, stream entries and reclaim markers. */
module TableCatalog {
  import opened Outcomes
  import opened Bytes

  const U16_MAX: nat := 0xFFFF
  const U32_MAX: nat := 0xFFFF_FFFF
  const U64_MAX: nat := 0xFFFF_FFFF_FFFF_FFFF
  const INITIAL_REVISION: nat := 1

  datatype IndexKind = UserGsi | HiddenTtl

  datatype Index = Index(id: nat, name: Key, kind: IndexKind)

  datatype Identity = Identity(table: nat, revision: nat, name: Key, indexes: seq<Index>, highWater: nat, deleted: bool,
                               cleanup: bool)

  /** A table's description; `indexes` are the requested secondary indexes. */
  datatype Info = Info(name: Key, indexes: seq<Key>, streamRequested: bool, active: bool, created: int, rest: Key)

  datatype Stored = Stored(identity: Identity, info: Info)

  datatype StreamEntry = StreamEntry(table: nat, created: int)

  datatype Target = Target(table: nat, name: Key, phase: nat)

  /** The catalog rows of one store. */
  datatype Catalog = Catalog(names: map<Key, Identity>, metadata: map<nat, Stored>, allocator: Option<nat>,
                             streams: map<Key, StreamEntry>, reclaim: map<nat, Target>)

  /** What a reader keys its cache by. */
  datatype Stamp = Stamp(table: nat, revision: nat)

  predicate HasEnabledStream(info: Info) {
    info.streamRequested && info.active
  }

  // ----- Row addresses -----

  function LookupKey(name: Key): Key { [77] + name }
  function StreamKey(name: Key): Key { [83] + name }
  function MetadataKey(table: nat): Key { [109] + Be(table, 4) }
  function ReclaimKey(table: nat): Key { [0x7F, 109, 47, 116, 47] + Be(table, 4) }
  const ALLOCATOR_KEY: Key := [97, 84]

  /** Each row has its own key. */
  lemma KeysInjective(m: Key, n: Key, a: nat, b: nat)
    requires a <= U32_MAX && b <= U32_MAX
    ensures LookupKey(m) == LookupKey(n) ==> m == n
    ensures StreamKey(m) == StreamKey(n) ==> m == n
    ensures MetadataKey(a) == MetadataKey(b) ==> a == b
    ensures ReclaimKey(a) == ReclaimKey(b) ==> a == b
    ensures LookupKey(m) != StreamKey(n) && MetadataKey(a) != ReclaimKey(b)
    ensures LookupKey(m) !in {MetadataKey(a), ReclaimKey(a), ALLOCATOR_KEY}
            && StreamKey(m) !in {MetadataKey(a), ReclaimKey(a), ALLOCATOR_KEY}
    ensures ALLOCATOR_KEY !in {MetadataKey(a), ReclaimKey(a)}
  {
    assert LookupKey(m)[1..] == m && LookupKey(n)[1..] == n && StreamKey(m)[1..] == m && StreamKey(n)[1..] == n;
    assert MetadataKey(a)[1..] == Be(a, 4) && MetadataKey(b)[1..] == Be(b, 4);
    assert ReclaimKey(a)[5..] == Be(a, 4) && ReclaimKey(b)[5..] == Be(b, 4);
    assert LookupKey(m)[0] == 77 && StreamKey(m)[0] == 83 && StreamKey(n)[0] == 83;
    assert MetadataKey(a)[0] == 109 && ReclaimKey(b)[0] == 0x7F && ReclaimKey(a)[0] == 0x7F;
    Widths();
    if Be(a, 4) == Be(b, 4) {
      BeInjective(a, b, 4);
    }
  }

  // ----- Index identities -----

  predicate HasIndex(indexes: seq<Index>, name: Key) {
    exists i :: 0 <= i < |indexes| && indexes[i].kind.UserGsi? && indexes[i].name == name
  }

  /** Identifiers are distinct and within the high-water mark. */
  predicate WellIndexed(identity: Identity) {
    && (forall x :: x in identity.indexes ==> 1 <= x.id <= identity.highWater)
    && DistinctIds(identity.indexes)
  }

  predicate DistinctIds(indexes: seq<Index>) {
    forall i, j :: 0 <= i < j < |indexes| ==> indexes[i].id != indexes[j].id
  }

  function Retained(indexes: seq<Index>, requested: seq<Key>): (r: seq<Index>)
    ensures forall x :: x in r <==> x in indexes && (!x.kind.UserGsi? || x.name in requested)
  {
    if indexes == [] then []
    else
      var last := indexes[|indexes| - 1];
      Retained(indexes[..|indexes| - 1], requested)
        + (if !last.kind.UserGsi? || last.name in requested then [last] else [])
  }

  function AddOne(identity: Identity, name: Key): Result<Identity> {
    if HasIndex(identity.indexes, name) then Ok(identity)
    else if identity.highWater + 1 > U16_MAX then Err(Internal)
    else Ok(identity.(highWater := identity.highWater + 1,
                      indexes := identity.indexes + [Index(identity.highWater + 1, name, UserGsi)]))
  }

  function AddAll(identity: Identity, requested: seq<Key>): Result<Identity> {
    if requested == [] then Ok(identity)
    else
      var init :- AddAll(identity, requested[..|requested| - 1]);
      AddOne(init, requested[|requested| - 1])
  }

  function Reconcile(identity: Identity, info: Info): Result<Identity> {
    if identity.name != info.name || identity.deleted then Err(Internal)
    else AddAll(identity.(indexes := Retained(identity.indexes, info.indexes)), info.indexes)
  }

  method RetainIndexes(indexes: seq<Index>, requested: seq<Key>) returns (kept: seq<Index>)
    ensures kept == Retained(indexes, requested)
  {
    kept := [];
    for i := 0 to |indexes|
      invariant kept == Retained(indexes[..i], requested)
    {
      if !indexes[i].kind.UserGsi? || indexes[i].name in requested {
        kept := kept + [indexes[i]];
      }
      assert indexes[..i + 1][..i] == indexes[..i];
    }
    assert indexes[..|indexes|] == indexes;
  }

  method PushMissing(identity: Identity, requested: seq<Key>) returns (r: Result<Identity>)
    ensures r.Ok? <==> AddAll(identity, requested).Ok?
    ensures r.Ok? ==> r == AddAll(identity, requested)
  {
    var next := identity;
    for i := 0 to |requested|
      invariant AddAll(identity, requested[..i]) == Ok(next)
    {
      assert requested[..i + 1][..i] == requested[..i];
      var added := AddOne(next, requested[i]);
      if added.Err? {
        AddAllFails(identity, requested, i + 1);
        return added;
      }
      next := added.value;
    }
    assert requested[..|requested|] == requested;
    r := Ok(next);
  }

  /** Keeps index identities stable and never reuses one: retains, then pushes. */
  method ReconcileUserIndexes(identity: Identity, info: Info) returns (r: Result<Identity>)
    ensures r.Ok? <==> Reconcile(identity, info).Ok?
    ensures r.Ok? ==> r == Reconcile(identity, info)
  {
    if identity.name != info.name || identity.deleted {
      return Err(Internal);
    }
    var kept := RetainIndexes(identity.indexes, info.indexes);
    r := PushMissing(identity.(indexes := kept), info.indexes);
  }

  lemma {:induction false} AddAllFails(identity: Identity, requested: seq<Key>, k: nat)
    requires k <= |requested| && AddAll(identity, requested[..k]).Err?
    ensures AddAll(identity, requested).Err?
    decreases |requested|
  {
    if k == |requested| {
      assert requested[..k] == requested;
    } else {
      assert requested[..|requested| - 1][..k] == requested[..k];
      AddAllFails(identity, requested[..|requested| - 1], k);
    }
  }

  lemma {:induction false} RetainedDistinct(indexes: seq<Index>, requested: seq<Key>)
    requires DistinctIds(indexes)
    ensures DistinctIds(Retained(indexes, requested))
    decreases |indexes|
  {
    if indexes != [] {
      var init, last := indexes[..|indexes| - 1], indexes[|indexes| - 1];
      RetainedDistinct(init, requested);
      forall x | x in Retained(init, requested) ensures x.id != last.id {
        var j :| 0 <= j < |init| && init[j] == x;
        assert indexes[j].id != indexes[|indexes| - 1].id;
      }
    }
  }

  /** What adding the requested indexes does: everything there stays, everything requested is
      there afterwards, and new ones have identifiers above the old mark. */
  ghost predicate Extends(before: Identity, after: Identity) {
    && before.indexes <= after.indexes && before.highWater <= after.highWater
    && after == before.(indexes := after.indexes, highWater := after.highWater)
    && (forall i :: |before.indexes| <= i < |after.indexes| ==>
         before.highWater < after.indexes[i].id && after.indexes[i].kind.UserGsi?)
  }

  lemma AddOneExtends(identity: Identity, name: Key)
    requires WellIndexed(identity) && AddOne(identity, name).Ok?
    ensures var next := AddOne(identity, name).value;
            WellIndexed(next) && Extends(identity, next) && HasIndex(next.indexes, name)
  {
    var next := AddOne(identity, name).value;
    if !HasIndex(identity.indexes, name) {
      assert next.indexes[|identity.indexes|].name == name;
    }
  }

  lemma HasIndexGrows(a: seq<Index>, b: seq<Index>, name: Key)
    requires a <= b && HasIndex(a, name)
    ensures HasIndex(b, name)
  {
    var i :| 0 <= i < |a| && a[i].kind.UserGsi? && a[i].name == name;
    assert b[i] == a[i];
  }

  lemma {:induction false} AddAllExtends(identity: Identity, requested: seq<Key>)
    requires WellIndexed(identity) && AddAll(identity, requested).Ok?
    ensures var next := AddAll(identity, requested).value;
            WellIndexed(next) && Extends(identity, next) && forall n :: n in requested ==> HasIndex(next.indexes, n)
    decreases |requested|
  {
    if requested != [] {
      var init, name := requested[..|requested| - 1], requested[|requested| - 1];
      AddAllExtends(identity, init);
      var mid, next := AddAll(identity, init).value, AddAll(identity, requested).value;
      AddOneExtends(mid, name);
      forall n | n in requested ensures HasIndex(next.indexes, n) {
        if n in init { HasIndexGrows(mid.indexes, next.indexes, n); }
      }
    }
  }

  /** Reconciliation keeps every retained index under its identifier, has every requested one,
      drops exactly the others, and gives new ones identifiers never used before. */
  lemma ReconcileExact(identity: Identity, info: Info)
    requires WellIndexed(identity) && Reconcile(identity, info).Ok?
    ensures var next := Reconcile(identity, info).value;
            && WellIndexed(next) && identity.highWater <= next.highWater
            && next == identity.(indexes := next.indexes, highWater := next.highWater)
            && (forall x :: x in identity.indexes && (!x.kind.UserGsi? || x.name in info.indexes) ==> x in next.indexes)
            && (forall x :: x in next.indexes && x in identity.indexes ==> !x.kind.UserGsi? || x.name in info.indexes)
            && (forall x :: x in next.indexes && x !in identity.indexes ==>
                 identity.highWater < x.id && x.kind.UserGsi?)
            && (forall n :: n in info.indexes ==> HasIndex(next.indexes, n))
  {
    var kept := identity.(indexes := Retained(identity.indexes, info.indexes));
    RetainedDistinct(identity.indexes, info.indexes);
    AddAllExtends(kept, info.indexes);
    var next := Reconcile(identity, info).value;
    forall x | x in kept.indexes ensures x in next.indexes {
      var i :| 0 <= i < |kept.indexes| && kept.indexes[i] == x;
      assert next.indexes[i] == x;
    }
    forall x | x in next.indexes && x !in identity.indexes ensures identity.highWater < x.id && x.kind.UserGsi? {
      var i :| 0 <= i < |next.indexes| && next.indexes[i] == x;
      assert x !in kept.indexes;
    }
    forall x | x in next.indexes && x in identity.indexes ensures !x.kind.UserGsi? || x.name in info.indexes {
      var i :| 0 <= i < |next.indexes| && next.indexes[i] == x;
      assert i < |kept.indexes| && x == kept.indexes[i];
    }
  }

  /** The requested names that have no index yet. */
  function Unindexed(indexes: seq<Index>, requested: seq<Key>): set<Key> {
    set n | n in requested && !HasIndex(indexes, n)
  }

  /** The new names among the requested ones fit under the largest identifier. */
  predicate RoomFor(identity: Identity, requested: seq<Key>) {
    var unindexed := Unindexed(identity.indexes, requested);
    unindexed == {} || identity.highWater + |unindexed| <= U16_MAX
  }

  lemma UnindexedNext(identity: Identity, requested: seq<Key>)
    requires requested != [] && AddAll(identity, requested[..|requested| - 1]).Ok?
    requires AddAll(identity, requested[..|requested| - 1]).value.highWater
             == identity.highWater + |Unindexed(identity.indexes, requested[..|requested| - 1])|
    requires var mid := AddAll(identity, requested[..|requested| - 1]).value;
             forall n :: HasIndex(mid.indexes, n) <==>
                         HasIndex(identity.indexes, n) || n in requested[..|requested| - 1]
    ensures var last := requested[|requested| - 1];
            var mid := AddAll(identity, requested[..|requested| - 1]).value;
            |Unindexed(identity.indexes, requested)|
            == |Unindexed(identity.indexes, requested[..|requested| - 1])|
               + (if HasIndex(mid.indexes, last) then 0 else 1)
  {
    var init, last := requested[..|requested| - 1], requested[|requested| - 1];
    var a, b := Unindexed(identity.indexes, init), Unindexed(identity.indexes, requested);
    assert forall n :: n in requested <==> n in init || n == last;
    if HasIndex(AddAll(identity, init).value.indexes, last) {
      assert b == a;
    } else {
      assert b == a + {last} && last !in a;
    }
  }

  lemma AddOneIndexes(identity: Identity, name: Key)
    requires AddOne(identity, name).Ok?
    ensures forall n :: HasIndex(AddOne(identity, name).value.indexes, n) <==>
                        HasIndex(identity.indexes, n) || n == name
  {
    var after := AddOne(identity, name).value;
    forall n ensures HasIndex(after.indexes, n) <==> HasIndex(identity.indexes, n) || n == name {
      if HasIndex(identity.indexes, n) { HasIndexGrows(identity.indexes, after.indexes, n); }
      if n == name && !HasIndex(identity.indexes, name) { assert after.indexes[|identity.indexes|].name == name; }
    }
  }

  /** Pushing fails exactly when the identifiers run out: each new name takes the next one. */
  lemma {:induction false} AddAllExact(identity: Identity, requested: seq<Key>)
    ensures AddAll(identity, requested).Ok? <==> RoomFor(identity, requested)
    ensures AddAll(identity, requested).Ok? ==>
              var next := AddAll(identity, requested).value;
              && next.highWater == identity.highWater + |Unindexed(identity.indexes, requested)|
              && forall n :: HasIndex(next.indexes, n) <==> HasIndex(identity.indexes, n) || n in requested
    decreases |requested|
  {
    if requested == [] {
      assert Unindexed(identity.indexes, requested) == {};
    } else {
      var init, last := requested[..|requested| - 1], requested[|requested| - 1];
      AddAllExact(identity, init);
      if AddAll(identity, init).Ok? {
        UnindexedNext(identity, requested);
        var mid := AddAll(identity, init).value;
        if AddOne(mid, last).Ok? { AddOneIndexes(mid, last); }
      } else {
        FewerUnindexed(identity.indexes, requested);
      }
    }
  }

  lemma FewerUnindexed(indexes: seq<Index>, requested: seq<Key>)
    requires requested != []
    ensures |Unindexed(indexes, requested[..|requested| - 1])| <= |Unindexed(indexes, requested)|
  {
    SubsetCount(Unindexed(indexes, requested[..|requested| - 1]), Unindexed(indexes, requested));
  }

  lemma {:induction false} SubsetCount(a: set<Key>, b: set<Key>)
    requires a <= b
    ensures |a| <= |b|
  {
    if a != {} {
      var x :| x in a;
      SubsetCount(a - {x}, b - {x});
    }
  }

  lemma RetainedIndexes(indexes: seq<Index>, requested: seq<Key>, n: Key)
    requires n in requested
    ensures HasIndex(Retained(indexes, requested), n) <==> HasIndex(indexes, n)
  {
    var kept := Retained(indexes, requested);
    if HasIndex(indexes, n) {
      var i :| 0 <= i < |indexes| && indexes[i].kind.UserGsi? && indexes[i].name == n;
      assert indexes[i] in kept;
      var j :| 0 <= j < |kept| && kept[j] == indexes[i];
    }
    if HasIndex(kept, n) {
      var j :| 0 <= j < |kept| && kept[j].kind.UserGsi? && kept[j].name == n;
      assert kept[j] in indexes;
    }
  }

  /** Reconciliation fails exactly for another or a deleted table, or when the identifiers run out. */
  lemma ReconcileSucceeds(identity: Identity, info: Info)
    ensures Reconcile(identity, info).Ok? <==>
            identity.name == info.name && !identity.deleted && RoomFor(identity, info.indexes)
  {
    var kept := identity.(indexes := Retained(identity.indexes, info.indexes));
    AddAllExact(kept, info.indexes);
    forall n | n in info.indexes ensures HasIndex(kept.indexes, n) <==> HasIndex(identity.indexes, n) {
      RetainedIndexes(identity.indexes, info.indexes, n);
    }
    assert Unindexed(kept.indexes, info.indexes) == Unindexed(identity.indexes, info.indexes);
  }

  function NewIndexes(requested: seq<Key>): (r: seq<Index>)
    ensures |r| == |requested|
    ensures forall i :: 0 <= i < |r| ==> r[i].id == i + 1 && r[i].name == requested[i] && r[i].kind.UserGsi?
  {
    seq(|requested|, i requires 0 <= i < |requested| => Index(i + 1, requested[i], UserGsi))
  }

  function NewIdentity(table: nat, info: Info): (r: Result<Identity>)
    ensures r.Ok? ==> WellIndexed(r.value) && r.value.table == table && r.value.name == info.name && !r.value.deleted
  {
    if |info.indexes| > U16_MAX then Err(Internal)
    else Ok(Identity(table, INITIAL_REVISION, info.name, NewIndexes(info.indexes), |info.indexes|, false, false))
  }
}
