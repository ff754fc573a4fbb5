/** The system stream's authority rows: lineages, sequences, the catalog epoch and split
    receipts, how they are addressed, and when a snapshot of them decodes. */
module StreamCatalog {
  import opened Outcomes
  import opened Bytes

  const U64_MAX: nat := 0xFFFF_FFFF_FFFF_FFFF
  const U32_MAX: nat := 0xFFFF_FFFF
  const MAX_ENTRIES: nat := 128

  const LINEAGE_PREFIX: Key := [0x7F, 115, 47, 108, 47]
  const SEQUENCE_PREFIX: Key := [0x7F, 115, 47, 113, 47]
  const RECEIPT_PREFIX: Key := [0x7F, 115, 47, 115, 114, 47]
  const EPOCH_KEY: Key := [0x7F, 115, 47, 99]
  const SCOPE_KEY: Key := [0x7F, 115, 47, 115]

  const DEFAULT_LINEAGE: Key := [100, 101, 102, 97, 117, 108, 116, 45, 108, 105, 110, 101, 97, 103, 101]
  const DEFAULT_SHARD: Key := [100, 101, 102, 97, 117, 108, 116, 45, 115, 104, 97, 114, 100]

  datatype Scope = Scope(id: Key, generation: nat)

  datatype LineageRow = LineageRow(scope: Scope, shard: Key, lineage: Key, parent: Option<Key>, sealed: bool,
                                   initial: nat, sealedAfter: Option<nat>)

  datatype SequenceRow = SequenceRow(scope: Scope, shard: Key, next: nat)

  /** A logical lineage, without its bounds. */
  datatype Lineage = Lineage(shard: Key, lineage: Key, parent: Option<Key>, sealed: bool)

  datatype Child = Child(lineage: Lineage, initial: nat)

  datatype SplitRequest = SplitRequest(scope: Scope, parent: Lineage, left: Child, right: Child, operation: Key)

  datatype Receipt = Receipt(request: SplitRequest, sealedAfter: nat)

  /** The authority rows of one store, by identifier. */
  datatype Store = Store(epoch: nat, scope: Scope, lineages: map<Key, LineageRow>, sequences: map<Key, SequenceRow>,
                         receipts: map<Key, Receipt>)

  function LineageOf(row: LineageRow): Lineage {
    Lineage(row.shard, row.lineage, row.parent, row.sealed)
  }

  // ----- Row addresses -----

  function SegmentedKey(prefix: Key, id: Key): Result<Key> {
    if |id| > U32_MAX then Err(HistoryUnavailable) else Ok(prefix + Be(|id|, 4) + id)
  }

  /** Two rows share an address only when they have the same family and the same identifier, and
      the scan of a family's prefix range sees exactly that family. */
  lemma SegmentedKeysInjective(p: Key, q: Key, a: Key, b: Key)
    requires p in {LINEAGE_PREFIX, SEQUENCE_PREFIX, RECEIPT_PREFIX}
             && q in {LINEAGE_PREFIX, SEQUENCE_PREFIX, RECEIPT_PREFIX}
    requires SegmentedKey(p, a).Ok? && SegmentedKey(q, b).Ok?
    ensures SegmentedKey(p, a) == SegmentedKey(q, b) ==> p == q && a == b
    ensures SegmentedKey(p, a).value !in {EPOCH_KEY, SCOPE_KEY}
    ensures PrefixEnd(q).Some? && (InRange(SegmentedKey(p, a).value, q, PrefixEnd(q).value) <==> p == q)
  {
    var x, y := SegmentedKey(p, a).value, SegmentedKey(q, b).value;
    assert x[..|p|] == p && y[..|q|] == q;
    if x == y {
      assert p[3] == x[3] && q[3] == y[3];
      assert a == x[|p| + 4..] && b == y[|q| + 4..];
    }
    assert q[0] != 255;
    PrefixEndExists(q);
    PrefixRangeExact(q, x);
    if q <= x {
      assert x[3] == q[3] && x[3] == p[3];
    }
  }

  // ----- Decoding -----

  predicate SequenceDecodes(s: Store, shard: Key)
    requires shard in s.sequences
  {
    var row := s.sequences[shard];
    row.scope == s.scope && row.shard == shard
  }

  predicate LineageDecodes(s: Store, id: Key)
    requires id in s.lineages
  {
    var row := s.lineages[id];
    && row.scope == s.scope && row.lineage == id
    && row.sealed == row.sealedAfter.Some?
    && row.initial != 0 && (row.sealedAfter.Some? ==> row.sealedAfter.value >= row.initial)
    && row.parent != Some(id)
    && row.shard in s.sequences && s.sequences[row.shard].next != 0
  }

  /** Follows parents until a lineage without one, or an unknown one; a revisit is a cycle. */
  predicate WalkEnds(lineages: map<Key, LineageRow>, id: Key, visited: set<Key>)
    decreases lineages.Keys - visited
  {
    if id in visited then false
    else if id !in lineages || lineages[id].parent.None? then true
    else WalkEnds(lineages, lineages[id].parent.value, visited + {id})
  }

  function Children(lineages: map<Key, LineageRow>, id: Key): set<Key> {
    set c | c in lineages && lineages[c].parent == Some(id)
  }

  predicate ParentValid(lineages: map<Key, LineageRow>, id: Key)
    requires id in lineages
  {
    lineages[id].parent.Some? ==>
      var parent := lineages[id].parent.value;
      && parent in lineages && lineages[parent].sealed && lineages[parent].shard != lineages[id].shard
      && WalkEnds(lineages, parent, {})
  }

  predicate ActiveShardsDistinct(lineages: map<Key, LineageRow>) {
    forall a, b :: a in lineages && b in lineages && a != b && !lineages[a].sealed && !lineages[b].sealed
                   ==> lineages[a].shard != lineages[b].shard
  }

  ghost predicate ForkedInTwo(lineages: map<Key, LineageRow>, id: Key) {
    exists l, r :: l in lineages && r in lineages && Fork(lineages, id, l, r)
  }

  ghost predicate Fork(lineages: map<Key, LineageRow>, id: Key, l: Key, r: Key)
    requires l in lineages && r in lineages
  {
    l != r && Children(lineages, id) == {l, r} && lineages[l].shard != lineages[r].shard
  }

  /** The catalog checks: active shards are distinct and there is one, parents are sealed and
      acyclic, and every sealed lineage has two children on different shards. */
  ghost predicate CatalogValid(lineages: map<Key, LineageRow>) {
    && lineages != map[]
    && ActiveShardsDistinct(lineages)
    && (exists a :: a in lineages && !lineages[a].sealed)
    && (forall a :: a in lineages ==> ParentValid(lineages, a))
    && (forall a :: a in lineages && lineages[a].sealed ==> ForkedInTwo(lineages, a))
  }

  predicate BoundsValid(s: Store, id: Key)
    requires id in s.lineages && s.lineages[id].shard in s.sequences
  {
    var row, next := s.lineages[id], s.sequences[s.lineages[id].shard].next;
    row.initial <= next && (row.sealedAfter.Some? ==> row.sealedAfter.value == next)
  }

  ghost predicate Owned(lineages: map<Key, LineageRow>, shard: Key) {
    exists a :: a in lineages && lineages[a].shard == shard
  }

  /** Every row agrees with its scope, its address and its counterpart. */
  ghost predicate RowsDecode(s: Store) {
    && (forall q :: q in s.sequences ==> SequenceDecodes(s, q) && Owned(s.lineages, q))
    && (forall a :: a in s.lineages ==> LineageDecodes(s, a) && BoundsValid(s, a))
  }

  /** The snapshot is read as a stream history. */
  ghost predicate Decodes(s: Store) {
    && s.epoch != 0 && |s.lineages| <= MAX_ENTRIES && |s.sequences| <= MAX_ENTRIES
    && RowsDecode(s) && CatalogValid(s.lineages)
  }

  /** Decodes every row, then checks the catalog they form; succeeds exactly on the histories. */
  method DecodeHistory(s: Store) returns (ok: bool)
    ensures ok <==> Decodes(s)
  {
    if s.epoch == 0 || |s.lineages| > MAX_ENTRIES || |s.sequences| > MAX_ENTRIES {
      return false;
    }
    var rows := DecodeRows(s);
    if !rows {
      return false;
    }
    ok := ValidateCatalog(s.lineages);
  }

  method DecodeSequence(s: Store, shard: Key) returns (ok: bool)
    requires shard in s.sequences
    ensures ok <==> SequenceDecodes(s, shard)
  {
    var row := s.sequences[shard];
    if row.scope.id != s.scope.id || row.scope.generation != s.scope.generation {
      return false;
    }
    return shard == row.shard;
  }

  method DecodeLineage(s: Store, id: Key) returns (ok: bool)
    requires id in s.lineages
    ensures ok <==> LineageDecodes(s, id)
  {
    var row := s.lineages[id];
    if row.scope.id != s.scope.id || row.scope.generation != s.scope.generation || id != row.lineage {
      return false;
    }
    if row.initial == 0 || row.sealed != row.sealedAfter.Some? {
      return false;
    }
    if row.sealedAfter.Some? && row.sealedAfter.value < row.initial {
      return false;
    }
    if row.shard !in s.sequences || s.sequences[row.shard].next == 0 {
      return false;
    }
    return row.parent.None? || row.parent.value != row.lineage;
  }

  method CheckBounds(s: Store, id: Key) returns (ok: bool)
    requires id in s.lineages && s.lineages[id].shard in s.sequences
    ensures ok <==> BoundsValid(s, id)
  {
    var row := s.lineages[id];
    var next := s.sequences[row.shard].next;
    if next < row.initial {
      return false;
    }
    return row.sealedAfter.None? || row.sealedAfter.value == next;
  }

  method DecodeRows(s: Store) returns (ok: bool)
    ensures ok <==> RowsDecode(s)
  {
    var rest := s.lineages.Keys;
    var shards: set<Key> := {};
    while rest != {}
      invariant rest <= s.lineages.Keys
      invariant forall a :: a in s.lineages && a !in rest ==>
                LineageDecodes(s, a) && BoundsValid(s, a) && s.lineages[a].shard in shards
      invariant forall q :: q in shards ==> Owned(s.lineages, q)
      decreases rest
    {
      var a :| a in rest;
      var decoded := DecodeLineage(s, a);
      if !decoded {
        return false;
      }
      var bounded := CheckBounds(s, a);
      if !bounded {
        return false;
      }
      shards := shards + {s.lineages[a].shard};
      rest := rest - {a};
    }
    var left := s.sequences.Keys;
    while left != {}
      invariant left <= s.sequences.Keys
      invariant forall q :: q in s.sequences && q !in left ==> SequenceDecodes(s, q) && q in shards
      decreases left
    {
      var q :| q in left;
      var decoded := DecodeSequence(s, q);
      if !decoded || q !in shards {
        return false;
      }
      left := left - {q};
    }
    return true;
  }

  /** Follows the parents of one lineage. */
  method AncestryEnds(lineages: map<Key, LineageRow>, id: Key) returns (ok: bool)
    ensures ok <==> WalkEnds(lineages, id, {})
  {
    var visited: set<Key> := {};
    var current := id;
    while current !in visited && current in lineages && lineages[current].parent.Some?
      invariant WalkEnds(lineages, id, {}) <==> WalkEnds(lineages, current, visited)
      decreases lineages.Keys - visited
    {
      visited := visited + {current};
      current := lineages[current].parent.value;
    }
    return current !in visited;
  }

  method CollectActiveShards(lineages: map<Key, LineageRow>) returns (ok: bool, shards: set<Key>)
    ensures ok <==> ActiveShardsDistinct(lineages)
    ensures ok ==> (shards != {} <==> exists a :: a in lineages && !lineages[a].sealed)
  {
    shards := {};
    var rest := lineages.Keys;
    while rest != {}
      invariant rest <= lineages.Keys
      invariant forall a :: a in lineages && a !in rest && !lineages[a].sealed ==> lineages[a].shard in shards
      invariant forall q :: q in shards ==>
                exists a :: a in lineages && a !in rest && !lineages[a].sealed && lineages[a].shard == q
      invariant forall a, b :: a in lineages && b in lineages && a !in rest && b !in rest && a != b ==>
                lineages[a].sealed || lineages[b].sealed || lineages[a].shard != lineages[b].shard
      decreases rest
    {
      var a :| a in rest;
      if !lineages[a].sealed {
        if lineages[a].shard in shards {
          return false, shards;
        }
        shards := shards + {lineages[a].shard};
      }
      rest := rest - {a};
    }
    ok := true;
  }

  method TwoChildren(lineages: map<Key, LineageRow>, id: Key) returns (ok: bool)
    ensures ok <==> ForkedInTwo(lineages, id)
  {
    var children := Children(lineages, id);
    if |children| != 2 {
      assert forall l, r :: l in lineages && r in lineages && l != r ==> |{l, r}| == 2;
      return false;
    }
    var l :| l in children;
    var others := children - {l};
    assert |others| == 1;
    var r :| r in others;
    assert |others - {r}| == 0;
    assert children == {l, r};
    ok := lineages[l].shard != lineages[r].shard;
    if ok {
      assert Fork(lineages, id, l, r);
    }
  }

  method ValidateCatalog(lineages: map<Key, LineageRow>) returns (ok: bool)
    ensures ok <==> CatalogValid(lineages)
  {
    var distinct, shards := CollectActiveShards(lineages);
    if lineages == map[] || !distinct || shards == {} {
      return false;
    }
    var rest := lineages.Keys;
    while rest != {}
      invariant rest <= lineages.Keys
      invariant forall a :: a in lineages && a !in rest ==> EntryValid(lineages, a)
      decreases rest
    {
      var a :| a in rest;
      var entry := ValidateEntry(lineages, a);
      if !entry {
        return false;
      }
      rest := rest - {a};
    }
    return true;
  }

  ghost predicate EntryValid(lineages: map<Key, LineageRow>, a: Key)
    requires a in lineages
  {
    ParentValid(lineages, a) && (lineages[a].sealed ==> ForkedInTwo(lineages, a))
  }

  method ValidateEntry(lineages: map<Key, LineageRow>, a: Key) returns (ok: bool)
    requires a in lineages
    ensures ok <==> EntryValid(lineages, a)
  {
    var row := lineages[a];
    if row.parent.Some? {
      var parent := row.parent.value;
      if parent !in lineages || !lineages[parent].sealed || lineages[parent].shard == row.shard {
        return false;
      }
      var ends := AncestryEnds(lineages, parent);
      if !ends {
        return false;
      }
    }
    if row.sealed {
      ok := TwoChildren(lineages, a);
    } else {
      ok := true;
    }
  }

  // ----- Row changes -----

  datatype RowChange = PutEpoch(epoch: nat) | PutLineage(lineage: LineageRow) | PutSequence(sequence: SequenceRow)
                     | PutReceipt(receipt: Receipt)

  function ApplyRow(s: Store, c: RowChange): Store {
    match c
    case PutEpoch(epoch) => s.(epoch := epoch)
    case PutLineage(row) => s.(lineages := s.lineages[row.lineage := row])
    case PutSequence(row) => s.(sequences := s.sequences[row.shard := row])
    case PutReceipt(receipt) => s.(receipts := s.receipts[receipt.request.operation := receipt])
  }

  function ApplyRows(s: Store, changes: seq<RowChange>): Store {
    if changes == [] then s else ApplyRow(ApplyRows(s, changes[..|changes| - 1]), changes[|changes| - 1])
  }

  lemma ApplyRowsAppend(s: Store, changes: seq<RowChange>, c: RowChange)
    ensures ApplyRows(s, changes + [c]) == ApplyRow(ApplyRows(s, changes), c)
  {
    assert (changes + [c])[..|changes|] == changes;
  }
}
