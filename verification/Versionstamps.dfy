/** Commit versionstamps inside values and keys, lowered before anything is staged. */
module Versionstamps {
  import opened Outcomes
  import opened Bytes
  import opened ValueLayout
  import opened Lowering

  const STAMP_BYTES: nat := 10
  /** The operand of a stamped value carries a trailing u32 offset. */
  const OFFSET_TRAILER: nat := 4

  // ----- Stamps inside a value -----

  datatype StampPlan = StampPlan(changes: seq<Mutation>, stampedKey: Key, stampedValue: Key, offset: nat)

  function Splice(value: Key, offset: nat, stamp: Key): (r: Key)
    requires offset + |stamp| <= |value|
    ensures |r| == |value|
  {
    value[..offset] + stamp + value[offset + |stamp|..]
  }

  /** When a stamp at `offset` can be planned: the slot lies in the value, in one chunk if the
      value is chunked, and the layout leaves room for the operand's offset trailer. */
  predicate Plannable(key: Key, value: Key, offset: nat, limit: nat) {
    && offset + STAMP_BYTES <= |value| <= KV_MAX_VALUE_BYTES && OFFSET_TRAILER <= limit && Addressable(key)
    && (|| |value| + 1 + OFFSET_TRAILER <= limit
        || (offset % KV_CHUNK_BYTES + STAMP_BYTES <= KV_CHUNK_BYTES && KV_CHUNK_BYTES + OFFSET_TRAILER <= limit))
  }

  predicate StampsInline(value: Key, limit: nat) {
    |value| + 1 + OFFSET_TRAILER <= limit
  }

  lemma StampedChunkExists(value: Key, offset: nat)
    requires offset + STAMP_BYTES <= |value|
    ensures offset / KV_CHUNK_BYTES < ChunkCount(|value|)
  {
  }

  function PlanFor(key: Key, value: Key, offset: nat, limit: nat): StampPlan
    requires Plannable(key, value, offset, limit)
  {
    if StampsInline(value, limit) then
      StampPlan([ClearChunks(key)], key, value + [KV_VALUE_INLINE_TAG], offset)
    else
      StampedChunkExists(value, offset);
      var n := offset / KV_CHUNK_BYTES;
      StampPlan(RowsBefore(key, value, n) + RowsAfter(key, value, n), ChunkKey(key, n), Chunk(value, n),
        offset % KV_CHUNK_BYTES)
  }

  /** The rows of a chunked value that are staged before and after chunk `n`. */
  function RowsBefore(key: Key, value: Key, n: nat): seq<Mutation>
    requires n < ChunkCount(|value|)
  {
    [ClearChunks(key)] + ChunkPuts(key, Chunks(value))[..n]
  }

  function RowsAfter(key: Key, value: Key, n: nat): seq<Mutation>
    requires n < ChunkCount(|value|)
  {
    ChunkPuts(key, Chunks(value))[n + 1..] + [Put(key, ChunkedHead(|value|))]
  }

  lemma RowsSplit(key: Key, value: Key, n: nat)
    requires n < ChunkCount(|value|)
    ensures [ClearChunks(key)] + ChunkPuts(key, Chunks(value)) + [Put(key, ChunkedHead(|value|))]
         == RowsBefore(key, value, n) + [Put(ChunkKey(key, n), Chunk(value, n))] + RowsAfter(key, value, n)
  {
    var puts := ChunkPuts(key, Chunks(value));
    assert puts == puts[..n] + [puts[n]] + puts[n + 1..];
  }

  /** No other row of the value is put under the key of chunk `n`. */
  lemma OtherRowsDiffer(key: Key, value: Key, n: nat)
    requires Addressable(key) && |value| <= KV_MAX_VALUE_BYTES && n < ChunkCount(|value|)
    ensures forall i :: 0 <= i < |RowsBefore(key, value, n)| ==>
      !(RowsBefore(key, value, n)[i].Put? && RowsBefore(key, value, n)[i].key == ChunkKey(key, n))
    ensures forall i :: 0 <= i < |RowsAfter(key, value, n)| ==>
      RowsAfter(key, value, n)[i].Put? && RowsAfter(key, value, n)[i].key != ChunkKey(key, n)
  {
    var puts := ChunkPuts(key, Chunks(value));
    forall i | 0 <= i < |puts| && i != n ensures puts[i].key != ChunkKey(key, n) { ChunkKeysDistinct(key, i, key, n); }
  }

  lemma RemoveMiddle(a: seq<Mutation>, m: Mutation, b: seq<Mutation>)
    ensures (a + [m] + b)[..|a|] + (a + [m] + b)[|a| + 1..] == a + b && (a + [m] + b)[|a|] == m
  {
  }

  /** The first staged put of a key. */
  method FindPut(changes: seq<Mutation>, key: Key) returns (position: Option<nat>)
    ensures position.None? <==> forall i :: 0 <= i < |changes| ==> !(changes[i].Put? && changes[i].key == key)
    ensures position.Some? ==>
            position.value < |changes| && changes[position.value].Put? && changes[position.value].key == key
    ensures position.Some? ==> forall i :: 0 <= i < position.value ==> !(changes[i].Put? && changes[i].key == key)
  {
    for i := 0 to |changes|
      invariant forall j :: 0 <= j < i ==> !(changes[j].Put? && changes[j].key == key)
    {
      if changes[i].Put? && changes[i].key == key {
        return Some(i);
      }
    }
    return None;
  }

  /** Lowers the value, then takes out the one row that will carry the stamp. */
  method TryNew(key: Key, value: Key, offset: nat, limit: nat) returns (r: Result<StampPlan>)
    requires limit <= USIZE_MAX && offset <= 0xFFFF_FFFF
    ensures r.Ok? <==> Plannable(key, value, offset, limit)
    ensures r.Ok? ==> r.value == PlanFor(key, value, offset, limit)
  {
    if offset + STAMP_BYTES > |value| || limit < OFFSET_TRAILER {
      return Err(Internal);
    }
    var inlineLimit := limit - OFFSET_TRAILER;
    var stampedKey, localOffset := key, offset;
    if |value| + 1 > inlineLimit {
      localOffset := offset % KV_CHUNK_BYTES;
      if localOffset + STAMP_BYTES > KV_CHUNK_BYTES || !Addressable(key) || offset / KV_CHUNK_BYTES > 65535 {
        assert |value| > KV_MAX_VALUE_BYTES || !Plannable(key, value, offset, limit);
        return Err(Internal);
      }
      stampedKey := ChunkKey(key, offset / KV_CHUNK_BYTES);
    }
    var changes := ExpandMutations([Put(key, value)], inlineLimit);
    LowerOnePut(key, value, inlineLimit);
    if changes.Err? {
      return Err(changes.error);
    }
    var position := FindPut(changes.value, stampedKey);
    StampedPosition(key, value, offset, limit, stampedKey, changes.value, position);
    var stamped := changes.value[position.value];
    return Ok(StampPlan(changes.value[..position.value] + changes.value[position.value + 1..], stamped.key,
      stamped.value, localOffset));
  }

  lemma LowerOnePut(key: Key, value: Key, limit: nat)
    requires limit < USIZE_MAX
    ensures LowerBatch([Put(key, value)], limit).Ok? <==> PrepareValue(value, limit).Ok? && Addressable(key)
    ensures LowerBatch([Put(key, value)], limit).Ok? ==>
      LowerBatch([Put(key, value)], limit).value == Expand(ChunkablePut(key, PrepareValue(value, limit).value))
  {
    assert [Put(key, value)][..0] == [];
    assert LowerBatch([], limit) == Ok([]);
  }

  /** The searched row is where the plan says it is. */
  lemma StampedPosition(key: Key, value: Key, offset: nat, limit: nat, stampedKey: Key, changes: seq<Mutation>,
      position: Option<nat>)
    requires Plannable(key, value, offset, limit) && PrepareValue(value, limit - OFFSET_TRAILER).Ok?
    requires changes == Expand(ChunkablePut(key, PrepareValue(value, limit - OFFSET_TRAILER).value))
    requires stampedKey == if StampsInline(value, limit) then key else ChunkKey(key, offset / KV_CHUNK_BYTES)
    requires position.None? <==> forall i :: 0 <= i < |changes| ==> !(changes[i].Put? && changes[i].key == stampedKey)
    requires position.Some? ==>
             position.value < |changes| && changes[position.value].Put? && changes[position.value].key == stampedKey
    requires position.Some? ==> forall i :: 0 <= i < position.value ==>
             !(changes[i].Put? && changes[i].key == stampedKey)
    ensures position.Some?
    ensures var plan, at := PlanFor(key, value, offset, limit), position.value;
      changes[..at] + changes[at + 1..] == plan.changes && changes[at] == Put(plan.stampedKey, plan.stampedValue)
  {
    var a: seq<Mutation>, m: Mutation, b: seq<Mutation>;
    if StampsInline(value, limit) {
      a, m, b := [ClearChunks(key)], Put(key, value + [KV_VALUE_INLINE_TAG]), [];
      assert ChunkPuts(key, []) == [];
    } else {
      StampedChunkExists(value, offset);
      var n := offset / KV_CHUNK_BYTES;
      a, m, b := RowsBefore(key, value, n), Put(ChunkKey(key, n), Chunk(value, n)), RowsAfter(key, value, n);
      RowsSplit(key, value, n);
      OtherRowsDiffer(key, value, n);
    }
    assert changes == a + [m] + b;
    FoundAt(a, m, b, position);
    RemoveMiddle(a, m, b);
    assert a + b == PlanFor(key, value, offset, limit).changes;
  }

  lemma FoundAt(a: seq<Mutation>, m: Mutation, b: seq<Mutation>, position: Option<nat>)
    requires m.Put? && forall i :: 0 <= i < |a| ==> !(a[i].Put? && a[i].key == m.key)
    requires forall i :: 0 <= i < |b| ==> b[i].Put? && b[i].key != m.key
    requires var all := a + [m] + b;
      && (position.None? <==> forall i :: 0 <= i < |all| ==> !(all[i].Put? && all[i].key == m.key))
      && (position.Some? ==> position.value < |all| && all[position.value].Put? && all[position.value].key == m.key)
    ensures position == Some(|a|)
  {
    assert (a + [m] + b)[|a|] == m;
  }

  /** What the driver leaves after commit: the plan's rows, then the stamped row with the
      stamp in its slot. */
  function Commit(store: Store, plan: StampPlan, stamp: Key): Store
    requires plan.offset + |stamp| <= |plan.stampedValue|
  {
    Apply(ApplyAll(store, plan.changes), Put(plan.stampedKey, Splice(plan.stampedValue, plan.offset, stamp)))
  }

  /** Every operand of a plan fits the native limit, the stamped one with its trailer. */
  lemma OperandsFit(key: Key, value: Key, offset: nat, limit: nat)
    requires Plannable(key, value, offset, limit)
    ensures var plan := PlanFor(key, value, offset, limit);
      && plan.offset + STAMP_BYTES <= |plan.stampedValue| && |plan.stampedValue| + OFFSET_TRAILER <= limit
      && forall i :: 0 <= i < |plan.changes| && plan.changes[i].Put? ==> |plan.changes[i].value| <= limit
  {
    if !StampsInline(value, limit) {
      StampedChunkExists(value, offset);
    }
  }

  /** A put may move behind later puts of other keys. */
  lemma {:induction false} PutMovesLast(store: Store, a: seq<Mutation>, m: Mutation, b: seq<Mutation>)
    requires m.Put? && forall i :: 0 <= i < |b| ==> b[i].Put? && b[i].key != m.key
    ensures ApplyAll(store, a + [m] + b) == Apply(ApplyAll(store, a + b), m)
    decreases |b|
  {
    if b == [] {
      assert a + [m] + b == a + [m] && a + b == a;
      assert (a + [m])[..|a|] == a;
    } else {
      var c, last := b[..|b| - 1], b[|b| - 1];
      PutMovesLast(store, a, m, c);
      LastSplits(store, a + [m], b);
      LastSplits(store, a, b);
      PutsCommute(ApplyAll(store, a + c), m, last);
    }
  }

  lemma LastSplits(store: Store, a: seq<Mutation>, b: seq<Mutation>)
    requires b != []
    ensures ApplyAll(store, a + b) == Apply(ApplyAll(store, a + b[..|b| - 1]), b[|b| - 1])
  {
    assert (a + b)[..|a + b| - 1] == a + b[..|b| - 1];
  }

  lemma PutsCommute(store: Store, m: Mutation, n: Mutation)
    requires m.Put? && n.Put? && m.key != n.key
    ensures Apply(Apply(store, m), n) == Apply(Apply(store, n), m)
  {
  }

  lemma SpliceChunk(value: Key, offset: nat, stamp: Key, n: nat)
    requires |stamp| == STAMP_BYTES && offset + STAMP_BYTES <= |value|
             && offset % KV_CHUNK_BYTES + STAMP_BYTES <= KV_CHUNK_BYTES
    requires n < ChunkCount(|value|)
    ensures n == offset / KV_CHUNK_BYTES ==> offset % KV_CHUNK_BYTES + STAMP_BYTES <= |Chunk(value, n)|
    ensures Chunk(Splice(value, offset, stamp), n) ==
            if n == offset / KV_CHUNK_BYTES then Splice(Chunk(value, n), offset % KV_CHUNK_BYTES, stamp)
              else Chunk(value, n)
  {
    var from, to := n * KV_CHUNK_BYTES, Min(|value|, (n + 1) * KV_CHUNK_BYTES);
    if n == offset / KV_CHUNK_BYTES {
      SpliceWithin(value, offset, stamp, from, to);
    } else {
      SpliceBeside(value, offset, stamp, from, to);
    }
  }

  lemma SpliceWithin(value: Key, offset: nat, stamp: Key, from: nat, to: nat)
    requires from <= offset && offset + |stamp| <= to <= |value|
    ensures Splice(value, offset, stamp)[from..to] == Splice(value[from..to], offset - from, stamp)
  {
  }

  lemma SpliceBeside(value: Key, offset: nat, stamp: Key, from: nat, to: nat)
    requires offset + |stamp| <= |value| && from <= to <= |value| && (to <= offset || offset + |stamp| <= from)
    ensures Splice(value, offset, stamp)[from..to] == value[from..to]
  {
  }

  lemma ChunkedCommitIsLowering(store: Store, key: Key, value: Key, offset: nat, limit: nat, stamp: Key)
    requires Plannable(key, value, offset, limit) && !StampsInline(value, limit) && |stamp| == STAMP_BYTES
             && Logical(key)
    ensures var plan := PlanFor(key, value, offset, limit);
      && plan.offset + |stamp| <= |plan.stampedValue|
      && Commit(store, plan, stamp)
         == ApplyAll(store,
           [ClearChunks(key)] + ChunkPuts(key, Chunks(Splice(value, offset, stamp))) + [Put(key, ChunkedHead(|value|))])
  {
    StampedChunkExists(value, offset);
    var plan, n, spliced := PlanFor(key, value, offset, limit), offset / KV_CHUNK_BYTES, Splice(value, offset, stamp);
    SpliceChunk(value, offset, stamp, n);
    var m := Put(ChunkKey(key, n), Chunk(spliced, n));
    SplicedRows(key, value, offset, stamp);
    RowsSplit(key, spliced, n);
    OtherRowsDiffer(key, value, n);
    PutMovesLast(store, RowsBefore(key, value, n), m, RowsAfter(key, value, n));
  }

  /** Splicing touches only the row of the stamped chunk. */
  lemma SplicedRows(key: Key, value: Key, offset: nat, stamp: Key)
    requires |stamp| == STAMP_BYTES && offset + STAMP_BYTES <= |value|
             && offset % KV_CHUNK_BYTES + STAMP_BYTES <= KV_CHUNK_BYTES
    ensures var n, spliced := offset / KV_CHUNK_BYTES, Splice(value, offset, stamp);
      && n < ChunkCount(|value|)
      && RowsBefore(key, value, n) == RowsBefore(key, spliced, n)
      && RowsAfter(key, value, n) == RowsAfter(key, spliced, n)
  {
    StampedChunkExists(value, offset);
    var n := offset / KV_CHUNK_BYTES;
    var puts, spliced := ChunkPuts(key, Chunks(value)), ChunkPuts(key, Chunks(Splice(value, offset, stamp)));
    forall i | 0 <= i < |puts| && i != n ensures puts[i] == spliced[i] { SpliceChunk(value, offset, stamp, i); }
    assert puts[..n] == spliced[..n] && puts[n + 1..] == spliced[n + 1..];
  }

  lemma InlineCommitIsLowering(store: Store, key: Key, value: Key, offset: nat, limit: nat, stamp: Key)
    requires Plannable(key, value, offset, limit) && StampsInline(value, limit) && |stamp| == STAMP_BYTES
    ensures var plan := PlanFor(key, value, offset, limit);
      && plan.offset + |stamp| <= |plan.stampedValue|
      && Commit(store, plan, stamp)
         == ApplyAll(store,
           [ClearChunks(key)] + ChunkPuts(key, []) + [Put(key, Splice(value, offset, stamp) + [KV_VALUE_INLINE_TAG])])
  {
    var head := Splice(value, offset, stamp) + [KV_VALUE_INLINE_TAG];
    assert Splice(value + [KV_VALUE_INLINE_TAG], offset, stamp) == head;
    assert [ClearChunks(key)] + ChunkPuts(key, []) + [Put(key, head)] == [ClearChunks(key)] + [Put(key, head)];
    ApplyAllAppend(store, [ClearChunks(key)], [Put(key, head)]);
    ApplyOne(ApplyAll(store, [ClearChunks(key)]), Put(key, head));
  }

  /** Stamping commutes with lowering: staging a plan and committing any stamp leaves rows that
      stand for the logical map updated with the stamped value. */
  lemma StampCommutes(profile: Profile, store: Store, logical: Store, key: Key, value: Key, offset: nat, stamp: Key)
    requires profile.limit <= USIZE_MAX && Represents(profile, store, logical) && Logical(key) && key !in profile.fixed
    requires Plannable(key, value, offset, profile.limit) && |stamp| == STAMP_BYTES
    ensures var plan := PlanFor(key, value, offset, profile.limit);
      && plan.offset + |stamp| <= |plan.stampedValue|
      && Represents(profile, Commit(store, plan, stamp), logical[key := Splice(value, offset, stamp)])
  {
    var limit, spliced := profile.limit, Splice(value, offset, stamp);
    if StampsInline(value, limit) {
      InlineCommitIsLowering(store, key, value, offset, limit, stamp);
      ChunkablePutEffect(store, key, [], spliced + [KV_VALUE_INLINE_TAG]);
      RewriteRefines(profile, store, Commit(store, PlanFor(key, value, offset, limit), stamp), logical,
                     key, Some(spliced), Some(spliced + [KV_VALUE_INLINE_TAG]), []);
    } else {
      ChunkedCommitIsLowering(store, key, value, offset, limit, stamp);
      ChunkablePutEffect(store, key, Chunks(spliced), ChunkedHead(|value|));
      RewriteRefines(profile, store, Commit(store, PlanFor(key, value, offset, limit), stamp), logical,
                     key, Some(spliced), Some(ChunkedHead(|value|)), Chunks(spliced));
    }
  }

  // ----- Stamps inside a key -----

  /** One put whose key is completed by the stamp and two user bytes. */
  datatype StampedPut = StampedPut(prefix: Key, userBytes: Key, value: Key)

  datatype StampedMutation = StampedMutation(prefix: Key, userBytes: Key, suffix: Key, value: Key)

  function ResolvedKey(put: StampedPut, stamp: Key): Key {
    put.prefix + stamp + put.userBytes
  }

  /** The row a driver writes for a stamped mutation once the stamp is known. */
  function ResolveStamp(m: StampedMutation, stamp: Key): Mutation {
    Put(m.prefix + stamp + m.userBytes + m.suffix, m.value)
  }

  function ResolveStamps(ms: seq<StampedMutation>, stamp: Key): (r: seq<Mutation>)
    ensures |r| == |ms|
  {
    seq(|ms|, i requires 0 <= i < |ms| => ResolveStamp(ms[i], stamp))
  }

  function StampedChunkPuts(put: StampedPut, chunks: seq<Key>): (r: seq<StampedMutation>)
    ensures |r| == |chunks|
  {
    seq(|chunks|, n requires 0 <= n < |chunks| =>
          StampedMutation(ChunkPrefixFor(put.prefix, |put.prefix| + 12), put.userBytes, Be(n, 2), chunks[n]))
  }

  /** Chunk rows first, then the head, with the length of the completed key in the chunk address. */
  function ExpandStamped(put: StampedPut, prepared: PreparedValue): seq<StampedMutation> {
    StampedChunkPuts(put, StoredChunks(prepared)) + [StampedMutation(put.prefix, put.userBytes, [], Head(prepared))]
  }

  function PrepareStamped(put: StampedPut, limit: nat): Result<PreparedValue> {
    if |put.prefix| + 12 > 65535 then Err(Internal) else PrepareValue(put.value, limit)
  }

  function LowerStamped(puts: seq<StampedPut>, limit: nat): Result<seq<StampedMutation>> {
    if puts == [] then Ok([])
    else
      var before :- LowerStamped(puts[..|puts| - 1], limit);
      var last :- PrepareStamped(puts[|puts| - 1], limit);
      Ok(before + ExpandStamped(puts[|puts| - 1], last))
  }

  lemma {:induction false} LowerStampedPrefix(puts: seq<StampedPut>, limit: nat, n: nat)
    requires n <= |puts| && LowerStamped(puts[..n], limit).Err?
    ensures LowerStamped(puts, limit) == LowerStamped(puts[..n], limit)
    decreases |puts|
  {
    if n == |puts| {
      assert puts[..n] == puts;
    } else {
      assert puts[..|puts| - 1][..n] == puts[..n];
      LowerStampedPrefix(puts[..|puts| - 1], limit, n);
    }
  }

  /** A stamped put the layout and the native limit have room for. */
  predicate StampAdmissible(put: StampedPut, limit: nat) {
    && |put.prefix| + 12 <= 65535 && |put.value| <= KV_MAX_VALUE_BYTES
    && (|put.value| + 1 <= limit || KV_CHUNK_BYTES <= limit)
  }

  lemma StampedPrepares(put: StampedPut, limit: nat)
    requires limit <= USIZE_MAX
    ensures PrepareStamped(put, limit).Ok? <==> StampAdmissible(put, limit)
  {
    PreparedExactly(put.value, limit);
  }

  /** Stamped puts are staged exactly when every one of them is admissible. */
  lemma {:induction false} LowerStampedAdmits(puts: seq<StampedPut>, limit: nat)
    requires limit <= USIZE_MAX
    ensures LowerStamped(puts, limit).Ok? <==> forall i :: 0 <= i < |puts| ==> StampAdmissible(puts[i], limit)
    decreases |puts|
  {
    if puts != [] {
      var before, last := puts[..|puts| - 1], puts[|puts| - 1];
      LowerStampedAdmits(before, limit);
      assert forall i :: 0 <= i < |before| ==> before[i] == puts[i];
      StampedPrepares(last, limit);
    }
  }

  function ExpandStampedEach(puts: seq<StampedPut>, prepared: seq<PreparedValue>): seq<StampedMutation>
    requires |puts| == |prepared|
  {
    if puts == [] then []
    else
      ExpandStampedEach(puts[..|puts| - 1], prepared[..|puts| - 1])
      + ExpandStamped(puts[|puts| - 1], prepared[|puts| - 1])
  }

  method ExpandStampedInto(put: StampedPut, prepared: PreparedValue, expanded: seq<StampedMutation>)
    returns (r: seq<StampedMutation>)
    ensures r == expanded + ExpandStamped(put, prepared)
  {
    var head, chunks := Encode(prepared);
    r := expanded;
    for n := 0 to |chunks|
      invariant r == expanded + StampedChunkPuts(put, chunks)[..n]
    {
      r := r + [StampedMutation(ChunkPrefixFor(put.prefix, |put.prefix| + 12), put.userBytes, Be(n, 2), chunks[n])];
    }
    r := r + [StampedMutation(put.prefix, put.userBytes, [], head)];
  }

  lemma PreparedStep(puts: seq<StampedPut>, limit: nat, i: nat, prepared: seq<PreparedValue>)
    requires |prepared| == i < |puts| && LowerStamped(puts[..i], limit) == Ok(ExpandStampedEach(puts[..i], prepared))
    ensures var one := PrepareStamped(puts[i], limit);
      && (one.Err? ==> LowerStamped(puts, limit) == Err(one.error))
      && (one.Ok? ==>
           LowerStamped(puts[..i + 1], limit) == Ok(ExpandStampedEach(puts[..i + 1], prepared + [one.value])))
  {
    var more := puts[..i + 1];
    assert more[..i] == puts[..i] && more[i] == puts[i];
    var one := PrepareStamped(puts[i], limit);
    if one.Err? {
      LowerStampedPrefix(puts, limit, i + 1);
    } else {
      assert (prepared + [one.value])[..i] == prepared;
    }
  }

  method PrepareStampedPuts(puts: seq<StampedPut>, limit: nat) returns (r: Result<seq<PreparedValue>>)
    ensures r.Err? ==> LowerStamped(puts, limit) == Err(r.error)
    ensures r.Ok? ==> |r.value| == |puts| && LowerStamped(puts, limit) == Ok(ExpandStampedEach(puts, r.value))
  {
    var prepared: seq<PreparedValue> := [];
    for i := 0 to |puts|
      invariant |prepared| == i && LowerStamped(puts[..i], limit) == Ok(ExpandStampedEach(puts[..i], prepared))
    {
      PreparedStep(puts, limit, i, prepared);
      var one := PrepareStamped(puts[i], limit);
      if one.Err? {
        return Err(one.error);
      }
      prepared := prepared + [one.value];
    }
    assert puts[..|puts|] == puts;
    return Ok(prepared);
  }

  /** Qualifies every put, then expands them in order. */
  method ExpandVersionstampedPuts(puts: seq<StampedPut>, limit: nat) returns (r: Result<seq<StampedMutation>>)
    ensures r == LowerStamped(puts, limit)
    ensures limit <= USIZE_MAX ==> (r.Ok? <==> forall i :: 0 <= i < |puts| ==> StampAdmissible(puts[i], limit))
  {
    if limit <= USIZE_MAX { LowerStampedAdmits(puts, limit); }
    var prepared := PrepareStampedPuts(puts, limit);
    if prepared.Err? {
      return Err(prepared.error);
    }
    var expanded: seq<StampedMutation> := [];
    for i := 0 to |puts|
      invariant expanded == ExpandStampedEach(puts[..i], prepared.value[..i])
    {
      assert puts[..i + 1][..i] == puts[..i] && prepared.value[..i + 1][..i] == prepared.value[..i];
      expanded := ExpandStampedInto(puts[i], prepared.value[i], expanded);
    }
    assert prepared.value[..|puts|] == prepared.value && puts[..|puts|] == puts;
    return Ok(expanded);
  }

  /** Stamped chunk rows land exactly where a reader of the completed key looks. */
  lemma StampedRowsAreChunkRows(put: StampedPut, prepared: PreparedValue, stamp: Key)
    requires |stamp| == STAMP_BYTES && |put.userBytes| == 2
    ensures var key := ResolvedKey(put, stamp);
      ResolveStamps(ExpandStamped(put, prepared), stamp)
        == ChunkPuts(key, StoredChunks(prepared)) + [Put(key, Head(prepared))]
  {
    var key, chunks := ResolvedKey(put, stamp), StoredChunks(prepared);
    var lowered := ResolveStamps(ExpandStamped(put, prepared), stamp);
    forall n | 0 <= n < |chunks| ensures lowered[n] == Put(ChunkKey(key, n), chunks[n]) {
      var m := StampedChunkPuts(put, chunks)[n];
      assert ExpandStamped(put, prepared)[n] == m;
      assert m.prefix + stamp + m.userBytes + m.suffix == ChunkKey(key, n);
    }
    assert put.prefix + stamp + put.userBytes + [] == key;
  }

  lemma UnclearedPutEffect(store: Store, key: Key, chunks: seq<Key>, head: Key)
    requires Addressable(key) && Logical(key) && NoChunks(store, key) && |chunks| <= 65535
    ensures Rewritten(store, ApplyAll(store, ChunkPuts(key, chunks) + [Put(key, head)]), key, Some(head), chunks)
  {
    var puts := ChunkPuts(key, chunks);
    ChunkPutsEffect(store, key, chunks, |chunks|);
    assert puts[..|puts|] == puts && chunks[..|chunks|] == chunks;
    ApplyAllAppend(store, puts, [Put(key, head)]);
    var filled := ApplyAll(store, puts);
    ApplyOne(filled, Put(key, head));
    var after := filled[key := head];
    assert !Owns(key, key) by { if Owns(key, key) { ChunkPrefixParts(key, key); } }
    forall n | 0 <= n < |chunks| ensures Get(after, ChunkKey(key, n)) == Some(chunks[n]) {
      assert ChunkKey(key, n) != key;
      assert Get(filled, ChunkKey(key, n)) == Some(chunks[n]);
    }
  }

  /** What a committed batch of stamped puts means to the plain map. */
  function StampLogical(logical: Store, puts: seq<StampedPut>, stamp: Key): Store {
    if puts == [] then logical
    else StampLogical(logical, puts[..|puts| - 1],
      stamp)[ResolvedKey(puts[|puts| - 1], stamp) := puts[|puts| - 1].value]
  }

  /** Completed keys are logical keys that no current value and no other put of the batch uses. */
  ghost predicate FreshKeys(profile: Profile, logical: Store, puts: seq<StampedPut>, stamp: Key) {
    && (forall i :: 0 <= i < |puts| ==>
          && |puts[i].userBytes| == 2 && Logical(ResolvedKey(puts[i], stamp))
          && ResolvedKey(puts[i], stamp) !in logical && ResolvedKey(puts[i], stamp) !in profile.fixed)
    && (forall i, j :: 0 <= i < j < |puts| ==> ResolvedKey(puts[i], stamp) != ResolvedKey(puts[j], stamp))
  }

  lemma {:induction false} StampLogicalKeys(logical: Store, puts: seq<StampedPut>, stamp: Key, key: Key)
    requires key !in logical && forall i :: 0 <= i < |puts| ==> ResolvedKey(puts[i], stamp) != key
    ensures key !in StampLogical(logical, puts, stamp)
    decreases |puts|
  {
    if puts != [] { StampLogicalKeys(logical, puts[..|puts| - 1], stamp, key); }
  }

  /** A fresh batch stays fresh without its last put, whose key is then still unused. */
  lemma FreshSplits(profile: Profile, logical: Store, puts: seq<StampedPut>, stamp: Key)
    requires puts != [] && FreshKeys(profile, logical, puts, stamp)
    ensures var before, last := puts[..|puts| - 1], puts[|puts| - 1];
      && FreshKeys(profile, logical, before, stamp)
      && |last.userBytes| == 2 && Logical(ResolvedKey(last, stamp)) && ResolvedKey(last, stamp) !in profile.fixed
      && ResolvedKey(last, stamp) !in StampLogical(logical, before, stamp)
  {
    StampLogicalKeys(logical, puts[..|puts| - 1], stamp, ResolvedKey(puts[|puts| - 1], stamp));
  }

  lemma ResolveConcat(a: seq<StampedMutation>, b: seq<StampedMutation>, stamp: Key)
    ensures ResolveStamps(a + b, stamp) == ResolveStamps(a, stamp) + ResolveStamps(b, stamp)
  {
  }

  lemma ResolveAppend(store: Store, a: seq<StampedMutation>, b: seq<StampedMutation>, stamp: Key)
    ensures ApplyAll(store, ResolveStamps(a + b, stamp))
            == ApplyAll(ApplyAll(store, ResolveStamps(a, stamp)), ResolveStamps(b, stamp))
  {
    ResolveConcat(a, b, stamp);
    ApplyAllAppend(store, ResolveStamps(a, stamp), ResolveStamps(b, stamp));
  }

  /** A committed batch of stamped puts adds exactly its completed keys to the logical map. */
  lemma {:induction false} StampedKeysRefine(profile: Profile, store: Store, logical: Store, puts: seq<StampedPut>,
      stamp: Key)
    requires profile.limit <= USIZE_MAX && Represents(profile, store, logical) && |stamp| == STAMP_BYTES
    requires FreshKeys(profile, logical, puts, stamp) && LowerStamped(puts, profile.limit).Ok?
    ensures Represents(profile, ApplyAll(store, ResolveStamps(LowerStamped(puts, profile.limit).value, stamp)),
            StampLogical(logical, puts, stamp))
    decreases |puts|
  {
    if puts != [] {
      var before, last := puts[..|puts| - 1], puts[|puts| - 1];
      FreshSplits(profile, logical, puts, stamp);
      StampedKeysRefine(profile, store, logical, before, stamp);
      var lowered := LowerStamped(before, profile.limit).value;
      var p := PrepareStamped(last, profile.limit).value;
      ResolveAppend(store, lowered, ExpandStamped(last, p), stamp);
      StampedPutRefines(profile, ApplyAll(store, ResolveStamps(lowered, stamp)), StampLogical(logical, before, stamp),
        last, p, stamp);
    }
  }

  /** One committed stamped put adds its completed key. */
  lemma StampedPutRefines(profile: Profile, store: Store, logical: Store, put: StampedPut, p: PreparedValue, stamp: Key)
    requires profile.limit <= USIZE_MAX && Represents(profile, store, logical) && |stamp| == STAMP_BYTES
             && |put.userBytes| == 2
    requires PrepareStamped(put, profile.limit) == Ok(p)
    requires Logical(ResolvedKey(put, stamp)) && ResolvedKey(put, stamp) !in logical
             && ResolvedKey(put, stamp) !in profile.fixed
    ensures Represents(profile, ApplyAll(store, ResolveStamps(ExpandStamped(put, p), stamp)),
            logical[ResolvedKey(put, stamp) := put.value])
  {
    var key := ResolvedKey(put, stamp);
    StampedRowsAreChunkRows(put, p, stamp);
    assert Holds(store, key, None);
    PreparedEncodes(profile, key, put.value, p);
    UnclearedPutEffect(store, key, StoredChunks(p), Head(p));
    RewriteRefines(profile, store, ApplyAll(store, ResolveStamps(ExpandStamped(put, p), stamp)), logical, key,
      Some(put.value), Some(Head(p)), StoredChunks(p));
  }
}
