/** The byte envelope of a lowered batch, computed before anything is staged. */
module Footprint {
  import opened Outcomes
  import opened Bytes
  import opened ValueLayout
  import opened Lowering

  datatype ConflictLayout = UnknownConflicts | NotCharged | Coalesced(metadataBytes: nat)

  /** Driver facts that sizing needs; no value limit means that values are never chunked. */
  datatype NativeLayout = NativeLayout(
    valueBytes: Option<nat>, prefixBytes: nat, batchMetadata: nat, mutationMetadata: nat, conflicts: ConflictLayout)

  /** Machine-size arithmetic: a result beyond usize is an overflow error. */
  function Checked(n: nat): Result<nat> {
    if n <= USIZE_MAX then Ok(n) else Err(Internal)
  }

  function Product(a: nat, b: nat): nat {
    a * b
  }

  function SaturatingPred(n: nat): nat {
    if n == 0 then 0 else n - 1
  }

  /** Checks that an earlier check already implies are not repeated. */
  function LoweredPutBatchBytes(keyBytes: nat, valueBytes: nat, records: nat, layout: NativeLayout): Result<nat> {
    var key := keyBytes + layout.prefixBytes;
    if layout.valueBytes.Some? then
      var overhead :- Checked(key + KV_CHUNK_HEADER_BYTES + (key + KV_CHUNK_KEY_OVERHEAD - 2) * 2);
      var chunks :- Checked(ChunkCount(valueBytes) + SaturatingPred(records));
      var chunkKeys :- Checked(Product(key + KV_CHUNK_KEY_OVERHEAD, chunks));
      var total :- Checked(Product(overhead, records));
      Checked(valueBytes + chunkKeys + total)
    else
      var head :- Checked(key + KV_CHUNK_HEADER_BYTES);
      var total :- Checked(Product(head, records));
      Checked(valueBytes + total)
  }

  function PointConflictBytes(keyBytes: nat, metadata: nat): Result<nat> {
    Checked(keyBytes * 2 + 1 + metadata)
  }

  /** Conflict ranges charged on top of the mutations of a batch. */
  function ConflictBytes(key: nat, chunks: nat, records: nat, metadata: nat): Result<nat> {
    var head :- PointConflictBytes(key, metadata);
    var chunk :- PointConflictBytes(key + KV_CHUNK_KEY_OVERHEAD, metadata);
    var chunkPoints :- Checked(chunks * 2 + records);
    var heads :- Checked(Product(head, records) * 3);
    var points :- Checked(heads + Product(chunk, chunkPoints));
    var endpoints :- Checked((key + KV_CHUNK_KEY_OVERHEAD - 2) * 2 + metadata);
    var cleanup :- Checked(Product(endpoints, records));
    Checked(points + cleanup + Product(key * 2 + metadata, records))
  }

  function BoundProtectedBatchBytes(keyBytes: nat, valueBytes: nat, records: nat, layout: NativeLayout): Result<nat> {
    var lowered :- LoweredPutBatchBytes(keyBytes, valueBytes, records, layout);
    var mutations :- Checked(lowered + layout.batchMetadata);
    if records == 0 then Ok(mutations)
    else
      var key := keyBytes + layout.prefixBytes;
      var chunks := if layout.valueBytes.Some? then ChunkCount(valueBytes) + (records - 1) else 0;
      var count :- Checked(records * 2 + chunks);
      var metadata :- Checked(Product(count, layout.mutationMetadata));
      var bytes :- Checked(mutations + metadata + Product(key + 1, records));
      match layout.conflicts
      case UnknownConflicts => Err(CapacityRejected)
      case NotCharged => Ok(bytes)
      case Coalesced(conflictMetadata) =>
        var conflicts :- ConflictBytes(key, chunks, records, conflictMetadata);
        Checked(bytes + conflicts)
  }

  // ----- What a native batch really costs -----

  /** Bytes of one native mutation. A point deletion is a range clear: two key endpoints. */
  function MutationBytes(m: Mutation, prefix: nat): nat {
    match m
    case Put(key, value) => prefix + |key| + |value|
    case PutUnchunked(key, value) => prefix + |key| + |value|
    case Delete(key) => 2 * (prefix + |key|) + 1
    case DeleteUnchunked(key) => 2 * (prefix + |key|) + 1
    case DeleteRange(begin, end) => 2 * prefix + |begin| + |end|
  }

  function NativeBytes(ms: seq<Mutation>, prefix: nat): nat {
    if ms == [] then 0 else NativeBytes(ms[..|ms| - 1], prefix) + MutationBytes(ms[|ms| - 1], prefix)
  }

  lemma {:induction false} NativeBytesAppend(a: seq<Mutation>, b: seq<Mutation>, prefix: nat)
    ensures NativeBytes(a + b, prefix) == NativeBytes(a, prefix) + NativeBytes(b, prefix)
    decreases |b|
  {
    if b == [] {
      assert a + b == a;
    } else {
      assert (a + b)[..|a + b| - 1] == a + b[..|b| - 1];
      NativeBytesAppend(a, b[..|b| - 1], prefix);
    }
  }

  lemma NativeBytesOne(m: Mutation, prefix: nat)
    ensures NativeBytes([m], prefix) == MutationBytes(m, prefix)
  {
    assert [m][..0] == [];
  }

  function ValueSize(m: Mutation): nat {
    match m
    case Put(_, value) => |value|
    case PutUnchunked(_, value) => |value|
    case _ => 0
  }

  function KeySize(m: Mutation): nat {
    if m.DeleteRange? then |m.begin| else |m.key|
  }

  function ValueTotal(changes: seq<Mutation>): nat {
    if changes == [] then 0 else ValueTotal(changes[..|changes| - 1]) + ValueSize(changes[|changes| - 1])
  }

  /** Chunk rows a batch can need at most. */
  function CeilTotal(changes: seq<Mutation>): nat {
    if changes == [] then 0 else CeilTotal(changes[..|changes| - 1]) + ChunkCount(ValueSize(changes[|changes| - 1]))
  }

  /** The sum of ceilings is at most the ceiling of the sum plus one less than the count. */
  lemma {:induction false} SumOfCeilings(changes: seq<Mutation>)
    ensures CeilTotal(changes) <= ChunkCount(ValueTotal(changes)) + SaturatingPred(|changes|)
    decreases |changes|
  {
    if changes != [] {
      SumOfCeilings(changes[..|changes| - 1]);
    }
  }

  lemma ChunksWithin(changes: seq<Mutation>, valueBytes: nat, records: nat)
    requires |changes| <= records && ValueTotal(changes) <= valueBytes
    ensures CeilTotal(changes) <= ChunkCount(valueBytes) + SaturatingPred(records)
  {
    SumOfCeilings(changes);
  }

  function FlatSize(parts: seq<Key>): nat {
    if parts == [] then 0 else FlatSize(parts[..|parts| - 1]) + |parts[|parts| - 1]|
  }

  lemma {:induction false} FlatSizeIsLength(parts: seq<Key>)
    ensures FlatSize(parts) == |Flatten(parts)|
    decreases |parts|
  {
    if parts != [] { FlatSizeIsLength(parts[..|parts| - 1]); }
  }

  lemma {:induction false} ChunkPutsCost(key: Key, chunks: seq<Key>, prefix: nat, n: nat)
    requires n <= |chunks|
    ensures NativeBytes(ChunkPuts(key, chunks)[..n], prefix)
            == n * (prefix + |key| + KV_CHUNK_KEY_OVERHEAD) + FlatSize(chunks[..n])
    decreases n
  {
    if n > 0 {
      ChunkPutsCost(key, chunks, prefix, n - 1);
      ChunkPutStep(key, chunks, prefix, n - 1);
      Distribute(n - 1, 1, prefix + |key| + KV_CHUNK_KEY_OVERHEAD);
    }
  }

  lemma ChunkPutStep(key: Key, chunks: seq<Key>, prefix: nat, n: nat)
    requires n < |chunks|
    ensures NativeBytes(ChunkPuts(key, chunks)[..n + 1], prefix)
         == NativeBytes(ChunkPuts(key, chunks)[..n], prefix) + prefix + |key| + KV_CHUNK_KEY_OVERHEAD + |chunks[n]|
    ensures FlatSize(chunks[..n + 1]) == FlatSize(chunks[..n]) + |chunks[n]|
  {
    var puts := ChunkPuts(key, chunks);
    assert puts[..n + 1][..n] == puts[..n] && puts[..n + 1][n] == puts[n];
    assert chunks[..n + 1][..n] == chunks[..n];
  }

  /** The chunk rows of a value cost one chunk key each, and the value once. */
  lemma AllChunksCost(key: Key, value: Key, prefix: nat, bound: nat)
    requires |key| + prefix <= bound
    ensures NativeBytes(ChunkPuts(key, Chunks(value)), prefix)
            <= ChunkCount(|value|) * (bound + KV_CHUNK_KEY_OVERHEAD) + |value|
  {
    var chunks := Chunks(value);
    var puts := ChunkPuts(key, chunks);
    ChunkPutsCost(key, chunks, prefix, |chunks|);
    assert puts[..|chunks|] == puts && chunks[..|chunks|] == chunks;
    FlatSizeIsLength(chunks);
    ChunksRebuild(value);
    Scale(prefix + |key| + KV_CHUNK_KEY_OVERHEAD, bound + KV_CHUNK_KEY_OVERHEAD, |chunks|);
  }

  lemma Scale(a: nat, b: nat, c: nat)
    requires a <= b
    ensures c * a <= c * b
  {
  }

  /** Bytes charged for one record besides its payload and chunk keys. */
  function RecordOverhead(key: nat, chunked: bool): nat {
    key + KV_CHUNK_HEADER_BYTES + (key + 1) + if chunked then 2 * (key + KV_CHUNK_KEY_OVERHEAD - 2) else 0
  }

  lemma Distribute(a: nat, b: nat, c: nat)
    ensures (a + b) * c == a * c + b * c
    ensures a <= b ==> a * c <= b * c
  {
  }

  lemma ChunkedPutCost(key: Key, p: PreparedValue, prefix: nat, bound: nat)
    requires |key| + prefix <= bound && p.encoding.Chunked?
    ensures NativeBytes(Expand(ChunkablePut(key, p)), prefix)
         <= |p.value| + ChunkCount(|p.value|) * (bound + KV_CHUNK_KEY_OVERHEAD)
           + 2 * (bound + KV_CHUNK_KEY_OVERHEAD - 2) + bound + KV_CHUNK_HEADER_BYTES
  {
    var puts := ChunkPuts(key, Chunks(p.value));
    AllChunksCost(key, p.value, prefix, bound);
    NativeBytesAppend([ClearChunks(key)], puts, prefix);
    NativeBytesAppend([ClearChunks(key)] + puts, [Put(key, Head(p))], prefix);
    NativeBytesOne(ClearChunks(key), prefix);
    NativeBytesOne(Put(key, Head(p)), prefix);
  }

  lemma InlinePutCost(key: Key, p: PreparedValue, prefix: nat, bound: nat)
    requires |key| + prefix <= bound && p.encoding.Inline?
    ensures NativeBytes(Expand(ChunkablePut(key, p)), prefix)
         <= |p.value| + 2 * (bound + KV_CHUNK_KEY_OVERHEAD - 2) + bound + KV_CHUNK_HEADER_BYTES
    ensures |Expand(ChunkablePut(key, p))| == 2
    ensures NativeBytes(Expand(InlinePut(key, p)), prefix) <= |p.value| + bound + KV_CHUNK_HEADER_BYTES
  {
    assert [ClearChunks(key)] + ChunkPuts(key, []) + [Put(key, Head(p))] == [ClearChunks(key)] + [Put(key, Head(p))];
    NativeBytesAppend([ClearChunks(key)], [Put(key, Head(p))], prefix);
    NativeBytesOne(ClearChunks(key), prefix);
    NativeBytesOne(Put(key, Head(p)), prefix);
  }

  lemma DeleteCost(key: Key, prefix: nat, bound: nat)
    requires |key| + prefix <= bound
    ensures NativeBytes(Expand(ChunkableDelete(key)), prefix) <= RecordOverhead(bound, true)
    ensures NativeBytes(Expand(InlineDelete(key)), prefix) <= RecordOverhead(bound, false)
  {
    assert [ClearChunks(key), Delete(key)] == [ClearChunks(key)] + [Delete(key)];
    NativeBytesAppend([ClearChunks(key)], [Delete(key)], prefix);
    NativeBytesOne(ClearChunks(key), prefix);
    NativeBytesOne(Delete(key), prefix);
  }

  /** What one change may cost: its payload, its chunk keys and the record overhead. */
  predicate WithinCost(m: Mutation, native: seq<Mutation>, prefix: nat, bound: nat, chunked: bool) {
    && NativeBytes(native, prefix)
       <= ValueSize(m) + (if chunked then ChunkCount(ValueSize(m)) * (bound + KV_CHUNK_KEY_OVERHEAD) else 0)
         + RecordOverhead(bound, chunked)
    && |native| <= 2 + if chunked then ChunkCount(ValueSize(m)) else 0
  }

  lemma PutCost(key: Key, value: Key, limit: nat, prefix: nat, bound: nat)
    requires PrepareValue(value, limit).Ok? && |key| + prefix <= bound
    ensures WithinCost(Put(key, value), Expand(ChunkablePut(key, PrepareValue(value, limit).value)), prefix, bound,
            true)
  {
    var p := PrepareValue(value, limit).value;
    if p.encoding.Inline? {
      InlinePutCost(key, p, prefix, bound);
    } else {
      ChunkedPutCost(key, p, prefix, bound);
    }
  }

  lemma DeletionCost(m: Mutation, key: Key, prefix: nat, bound: nat, chunked: bool)
    requires (m == Delete(key) || m == DeleteUnchunked(key)) && |key| + prefix <= bound
    ensures WithinCost(m, Expand(InlineDelete(key)), prefix, bound, chunked)
    ensures chunked ==> WithinCost(m, Expand(ChunkableDelete(key)), prefix, bound, chunked)
  {
    DeleteCost(key, prefix, bound);
  }

  lemma PlainPutCost(m: Mutation, key: Key, value: Key, limit: nat, prefix: nat, bound: nat, chunked: bool)
    requires (m == Put(key, value) || m == PutUnchunked(key, value)) && PrepareInline(value, limit).Ok?
             && |key| + prefix <= bound
    ensures WithinCost(m, Expand(InlinePut(key, PrepareInline(value, limit).value)), prefix, bound, chunked)
  {
    InlinePutCost(key, PrepareInline(value, limit).value, prefix, bound);
    Scale(0, bound + KV_CHUNK_KEY_OVERHEAD, ChunkCount(|value|));
  }

  /** Every lowered change stays within its cost. */
  lemma ChangeCost(m: Mutation, limit: nat, prefix: nat, bound: nat)
    requires PrepareMutation(m, limit).Ok? && KeySize(m) + prefix <= bound
    ensures WithinCost(m, Expand(PrepareMutation(m, limit).value), prefix, bound, limit != USIZE_MAX)
  {
    match m {
      case Put(key, value) =>
        if limit != USIZE_MAX {
          PutCost(key, value, limit, prefix, bound);
        } else {
          PlainPutCost(m, key, value, limit, prefix, bound, false);
        }
      case PutUnchunked(key, value) => PlainPutCost(m, key, value, limit, prefix, bound, limit != USIZE_MAX);
      case Delete(key) => DeletionCost(m, key, prefix, bound, limit != USIZE_MAX);
      case DeleteUnchunked(key) => DeletionCost(m, key, prefix, bound, limit != USIZE_MAX);
      case DeleteRange(_, _) =>
    }
  }

  function Allowance(m: Mutation, bound: nat, chunked: bool): nat {
    ValueSize(m) + (if chunked then ChunkCount(ValueSize(m)) * (bound + KV_CHUNK_KEY_OVERHEAD) else 0)
      + RecordOverhead(bound, chunked)
  }

  function AllowanceTotal(changes: seq<Mutation>, bound: nat, chunked: bool): nat {
    if changes == [] then 0
    else AllowanceTotal(changes[..|changes| - 1], bound, chunked) + Allowance(changes[|changes| - 1], bound, chunked)
  }

  lemma {:induction false} AllowanceClosedForm(changes: seq<Mutation>, bound: nat, chunked: bool)
    ensures AllowanceTotal(changes, bound, chunked)
         == ValueTotal(changes) + (if chunked then CeilTotal(changes) * (bound + KV_CHUNK_KEY_OVERHEAD) else 0)
           + |changes| * RecordOverhead(bound, chunked)
    decreases |changes|
  {
    if changes != [] {
      var before, last := changes[..|changes| - 1], changes[|changes| - 1];
      AllowanceClosedForm(before, bound, chunked);
      Distribute(CeilTotal(before), ChunkCount(ValueSize(last)), bound + KV_CHUNK_KEY_OVERHEAD);
      Distribute(|before|, 1, RecordOverhead(bound, chunked));
    }
  }

  lemma {:induction false} BatchCost(changes: seq<Mutation>, limit: nat, prefix: nat, bound: nat)
    requires LowerBatch(changes, limit).Ok? && forall i :: 0 <= i < |changes| ==> KeySize(changes[i]) + prefix <= bound
    ensures NativeBytes(LowerBatch(changes, limit).value, prefix) <= AllowanceTotal(changes, bound, limit != USIZE_MAX)
    ensures |LowerBatch(changes, limit).value| <= 2 * |changes| + if limit != USIZE_MAX then CeilTotal(changes) else 0
    decreases |changes|
  {
    if changes != [] {
      var before, last := changes[..|changes| - 1], changes[|changes| - 1];
      BatchCost(before, limit, prefix, bound);
      ChangeCost(last, limit, prefix, bound);
      NativeBytesAppend(LowerBatch(before, limit).value, Expand(PrepareMutation(last, limit).value), prefix);
    }
  }

  /** The charge for mutations and metadata in closed form. */
  function ClosedBound(key: nat, valueBytes: nat, records: nat, chunked: bool, metadata: nat): nat {
    var chunks := if chunked then ChunkCount(valueBytes) + SaturatingPred(records) else 0;
    valueBytes + (key + KV_CHUNK_KEY_OVERHEAD) * chunks + RecordOverhead(key, chunked) * records
      + (records * 2 + chunks) * metadata
  }

  /** The computed bound covers the closed form, whenever its arithmetic does not overflow. */
  lemma BoundCoversClosedForm(keyBytes: nat, valueBytes: nat, records: nat, layout: NativeLayout)
    requires BoundProtectedBatchBytes(keyBytes, valueBytes, records, layout).Ok? && records > 0
    ensures BoundProtectedBatchBytes(keyBytes, valueBytes, records, layout).value
         >= ClosedBound(keyBytes + layout.prefixBytes, valueBytes, records, layout.valueBytes.Some?,
           layout.mutationMetadata) + layout.batchMetadata
  {
    var key, chunked := keyBytes + layout.prefixBytes, layout.valueBytes.Some?;
    var base := key + KV_CHUNK_HEADER_BYTES + if chunked then (key + KV_CHUNK_KEY_OVERHEAD - 2) * 2 else 0;
    Distribute(base, key + 1, records);
  }

  /** Fewer chunks and fewer records cost less. */
  lemma CostMonotone(values: nat, valueBytes: nat, c: nat, chunks: nat, unit: nat, n: nat, records: nat, overhead: nat,
      q: nat, metadata: nat, cost: nat)
    requires values <= valueBytes && c <= chunks && n <= records && q <= 2 * n + c
    requires cost <= values + c * unit + n * overhead
    ensures cost + q * metadata
            <= valueBytes + unit * chunks + overhead * records + (records * 2 + chunks) * metadata
  {
    Distribute(c, chunks, unit);
    Distribute(n, records, overhead);
    Distribute(q, records * 2 + chunks, metadata);
  }

  lemma BatchWithinClosedForm(changes: seq<Mutation>, limit: nat, prefix: nat, keyBytes: nat, valueBytes: nat,
      records: nat, metadata: nat)
    requires |changes| <= records && ValueTotal(changes) <= valueBytes && records > 0
    requires forall i :: 0 <= i < |changes| ==> KeySize(changes[i]) <= keyBytes
    requires LowerBatch(changes, limit).Ok?
    ensures NativeBytes(LowerBatch(changes, limit).value, prefix) + |LowerBatch(changes, limit).value| * metadata
         <= ClosedBound(keyBytes + prefix, valueBytes, records, limit != USIZE_MAX, metadata)
  {
    var key, chunked := keyBytes + prefix, limit != USIZE_MAX;
    var c := if chunked then CeilTotal(changes) else 0;
    var chunks := if chunked then ChunkCount(valueBytes) + SaturatingPred(records) else 0;
    var unit, overhead := key + KV_CHUNK_KEY_OVERHEAD, RecordOverhead(key, chunked);
    var cost := NativeBytes(LowerBatch(changes, limit).value, prefix);
    BatchCostClosed(changes, limit, prefix, key, c, unit, overhead);
    ChunksWithin(changes, valueBytes, records);
    CostMonotone(ValueTotal(changes), valueBytes, c, chunks, unit, |changes|, records, overhead,
      |LowerBatch(changes, limit).value|, metadata, cost);
  }

  lemma BatchCostClosed(changes: seq<Mutation>, limit: nat, prefix: nat, key: nat, c: nat, unit: nat, overhead: nat)
    requires LowerBatch(changes, limit).Ok? && forall i :: 0 <= i < |changes| ==> KeySize(changes[i]) + prefix <= key
    requires c == if limit != USIZE_MAX then CeilTotal(changes) else 0
    requires unit == key + KV_CHUNK_KEY_OVERHEAD && overhead == RecordOverhead(key, limit != USIZE_MAX)
    ensures NativeBytes(LowerBatch(changes, limit).value, prefix)
         <= ValueTotal(changes) + c * unit + |changes| * overhead
    ensures |LowerBatch(changes, limit).value| <= 2 * |changes| + c
  {
    BatchCost(changes, limit, prefix, key);
    AllowanceClosedForm(changes, key, limit != USIZE_MAX);
  }

  /** The byte bound: no admitted batch of at most `records` puts and deletes, with keys and a
      payload within their allowances, costs more native bytes and metadata than computed. */
  lemma BatchWithinBound(changes: seq<Mutation>, limit: nat, keyBytes: nat, valueBytes: nat, records: nat,
      layout: NativeLayout)
    requires limit == USIZE_MAX <==> layout.valueBytes.None?
    requires |changes| <= records && ValueTotal(changes) <= valueBytes
    requires forall i :: 0 <= i < |changes| ==> KeySize(changes[i]) <= keyBytes
    requires LowerBatch(changes, limit).Ok? && BoundProtectedBatchBytes(keyBytes, valueBytes, records, layout).Ok?
    ensures NativeBytes(LowerBatch(changes, limit).value, layout.prefixBytes)
            + |LowerBatch(changes, limit).value| * layout.mutationMetadata + layout.batchMetadata
         <= BoundProtectedBatchBytes(keyBytes, valueBytes, records, layout).value
  {
    if records > 0 {
      BatchWithinClosedForm(changes, limit, layout.prefixBytes, keyBytes, valueBytes, records, layout.mutationMetadata);
      BoundCoversClosedForm(keyBytes, valueBytes, records, layout);
    }
  }

  // ----- When the bound exists, and what it is -----

  /** What the conflict ranges of a batch are charged. */
  function ConflictTotal(key: nat, chunks: nat, records: nat, layout: ConflictLayout): nat {
    match layout
    case Coalesced(m) =>
      Product(key * 2 + 1 + m, records) * 3 + Product((key + KV_CHUNK_KEY_OVERHEAD) * 2 + 1 + m, chunks * 2 + records)
      + Product((key + KV_CHUNK_KEY_OVERHEAD - 2) * 2 + m, records) + Product(key * 2 + m, records)
    case _ => 0
  }

  function ChunksCharged(valueBytes: nat, records: nat, layout: NativeLayout): nat {
    if layout.valueBytes.Some? then ChunkCount(valueBytes) + SaturatingPred(records) else 0
  }

  function PutOverhead(key: nat, layout: NativeLayout): nat {
    key + KV_CHUNK_HEADER_BYTES + if layout.valueBytes.Some? then (key + KV_CHUNK_KEY_OVERHEAD - 2) * 2 else 0
  }

  /** The charge for the puts of a batch, with no machine width. */
  function PutTotal(key: nat, valueBytes: nat, records: nat, layout: NativeLayout): nat {
    valueBytes + Product(key + KV_CHUNK_KEY_OVERHEAD, ChunksCharged(valueBytes, records, layout))
    + Product(PutOverhead(key, layout), records)
  }

  function BoundTotal(keyBytes: nat, valueBytes: nat, records: nat, layout: NativeLayout): nat {
    var key := keyBytes + layout.prefixBytes;
    var chunks := ChunksCharged(valueBytes, records, layout);
    PutTotal(key, valueBytes, records, layout) + layout.batchMetadata
    + if records == 0 then 0 else
      Product(records * 2 + chunks, layout.mutationMetadata) + Product(key + 1, records)
      + ConflictTotal(key, chunks, records, layout.conflicts)
  }

  lemma ProductGrows(a: nat, b: nat)
    ensures b > 0 ==> a <= Product(a, b)
    ensures a > 0 ==> b <= Product(a, b)
  {
    if b > 0 { Distribute(1, b, a); }
    if a > 0 { Distribute(1, a, b); }
  }

  lemma PutsExact(keyBytes: nat, valueBytes: nat, records: nat, layout: NativeLayout)
    ensures var key, r := keyBytes + layout.prefixBytes, LoweredPutBatchBytes(keyBytes, valueBytes, records, layout);
            && (PutOverhead(key, layout) <= USIZE_MAX ==> r == Checked(PutTotal(key, valueBytes, records, layout)))
            && (PutOverhead(key, layout) > USIZE_MAX ==> r == Err(Internal))
    ensures var key := keyBytes + layout.prefixBytes;
            records > 0 ==> PutOverhead(key, layout) <= PutTotal(key, valueBytes, records, layout)
  {
    var key, chunks := keyBytes + layout.prefixBytes, ChunksCharged(valueBytes, records, layout);
    ProductGrows(PutOverhead(key, layout), records);
    ProductGrows(key + KV_CHUNK_KEY_OVERHEAD, chunks);
    assert Product(key + KV_CHUNK_KEY_OVERHEAD, 0) == 0;
  }

  lemma ConflictsExact(key: nat, chunks: nat, records: nat, m: nat)
    requires records > 0
    ensures ConflictBytes(key, chunks, records, m) == Checked(ConflictTotal(key, chunks, records, Coalesced(m)))
  {
    var chunk, points := (key + KV_CHUNK_KEY_OVERHEAD) * 2 + 1 + m, chunks * 2 + records;
    ProductGrows(key * 2 + 1 + m, records);
    ProductGrows(chunk, points);
    ProductGrows((key + KV_CHUNK_KEY_OVERHEAD - 2) * 2 + m, records);
  }

  lemma CountFits(key: nat, valueBytes: nat, records: nat, layout: NativeLayout)
    ensures records * 2 + ChunksCharged(valueBytes, records, layout) <= PutTotal(key, valueBytes, records, layout)
  {
    var chunks := ChunksCharged(valueBytes, records, layout);
    ProductGrows(key + KV_CHUNK_KEY_OVERHEAD, chunks);
    Distribute(2, PutOverhead(key, layout), records);
  }

  lemma RecordsBoundExact(keyBytes: nat, valueBytes: nat, records: nat, layout: NativeLayout)
    requires records > 0
    ensures BoundProtectedBatchBytes(keyBytes, valueBytes, records, layout).Ok? <==>
            !layout.conflicts.UnknownConflicts? && BoundTotal(keyBytes, valueBytes, records, layout) <= USIZE_MAX
    ensures BoundProtectedBatchBytes(keyBytes, valueBytes, records, layout).Ok? ==>
            BoundProtectedBatchBytes(keyBytes, valueBytes, records, layout).value
            == BoundTotal(keyBytes, valueBytes, records, layout)
  {
    var key, chunks := keyBytes + layout.prefixBytes, ChunksCharged(valueBytes, records, layout);
    PutsExact(keyBytes, valueBytes, records, layout);
    CountFits(key, valueBytes, records, layout);
    if layout.conflicts.Coalesced? {
      ConflictsExact(key, chunks, records, layout.conflicts.metadataBytes);
    }
  }

  /** A batch is bounded exactly when its conflict charges are known, unless it is empty, and both
      the overhead of one record and the charge fit the machine word; the bound is then that charge. */
  lemma BoundExact(keyBytes: nat, valueBytes: nat, records: nat, layout: NativeLayout)
    ensures BoundProtectedBatchBytes(keyBytes, valueBytes, records, layout).Ok? <==>
            && (records == 0 || !layout.conflicts.UnknownConflicts?)
            && PutOverhead(keyBytes + layout.prefixBytes, layout) <= USIZE_MAX
            && BoundTotal(keyBytes, valueBytes, records, layout) <= USIZE_MAX
    ensures BoundProtectedBatchBytes(keyBytes, valueBytes, records, layout).Ok? ==>
            BoundProtectedBatchBytes(keyBytes, valueBytes, records, layout).value
            == BoundTotal(keyBytes, valueBytes, records, layout)
  {
    PutsExact(keyBytes, valueBytes, records, layout);
    if records > 0 {
      RecordsBoundExact(keyBytes, valueBytes, records, layout);
    }
  }

  /** Where conflicts are not charged, the bound is the closed form of the batch's cost and no more. */
  lemma BoundIsClosedForm(keyBytes: nat, valueBytes: nat, records: nat, layout: NativeLayout)
    requires records > 0 && layout.conflicts.NotCharged?
    ensures BoundTotal(keyBytes, valueBytes, records, layout)
         == ClosedBound(keyBytes + layout.prefixBytes, valueBytes, records, layout.valueBytes.Some?,
           layout.mutationMetadata) + layout.batchMetadata
  {
    var key := keyBytes + layout.prefixBytes;
    Distribute(PutOverhead(key, layout), key + 1, records);
  }
}
