/** The primary item envelope: a fixed authority header, provenance, then the item image. */
module ItemCodec {
  import opened Outcomes
  import opened Bytes

  const PRIMARY_ITEM_FORMAT: Byte := 2
  const PRIMARY_ITEM_HEADER_BYTES: nat := 22
  const TWO63: int := 0x8000_0000_0000_0000
  const TWO64: int := 0x1_0000_0000_0000_0000

  /** A decoded item; revisions are positive u64 values, expiry epochs are i64 values. */
  datatype Envelope = Envelope(revision: nat, ttlEpoch: Option<int>, provenance: Key, image: Key)

  predicate Representable(e: Envelope) {
    && 0 < e.revision < TWO64
    && (e.ttlEpoch.Some? ==> -TWO63 <= e.ttlEpoch.value < TWO63)
    && |e.provenance| <= 0xFFFF_FFFF
  }

  function AsU64(v: int): nat
    requires -TWO63 <= v < TWO63
  {
    if v < 0 then v + TWO64 else v
  }

  function AsI64(u: nat): int {
    if u < TWO63 then u else u - TWO64
  }

  function DecodePrimaryRevision(bytes: Key): Result<nat> {
    if |bytes| < PRIMARY_ITEM_HEADER_BYTES then Err(Internal)
    else if bytes[0] != PRIMARY_ITEM_FORMAT then Err(Internal)
    else
      var revision := FromBe(bytes[1..9]);
      if revision == 0 then Err(Internal) else Ok(revision)
  }

  function Decode(bytes: Key): Result<Envelope> {
    if |bytes| < PRIMARY_ITEM_HEADER_BYTES then Err(Internal)
    else
      var header := bytes[..PRIMARY_ITEM_HEADER_BYTES];
      var revision :- DecodePrimaryRevision(header);
      var ttl := AsI64(FromBe(header[10..18]));
      if header[9] != 1 && !(header[9] == 0 && ttl == 0) then Err(Internal)
      else
        var imageStart := PRIMARY_ITEM_HEADER_BYTES + FromBe(header[18..22]);
        if imageStart > |bytes| then Err(Internal)
        else if bytes[imageStart..] == [] then Err(Internal)
        else Ok(Envelope(revision, if header[9] == 1 then Some(ttl) else None,
                         bytes[PRIMARY_ITEM_HEADER_BYTES..imageStart], bytes[imageStart..]))
  }

  function HeaderOf(e: Envelope): (r: Key)
    requires Representable(e)
    ensures |r| == PRIMARY_ITEM_HEADER_BYTES
  {
    [PRIMARY_ITEM_FORMAT] + Be(e.revision, 8) + [if e.ttlEpoch.Some? then 1 else 0]
    + Be(if e.ttlEpoch.Some? then AsU64(e.ttlEpoch.value) else 0, 8) + Be(|e.provenance|, 4)
  }

  /** The stored bytes of an item. */
  function Encode(e: Envelope): Key
    requires Representable(e)
  {
    HeaderOf(e) + e.provenance + e.image
  }

  /** Builds the stored bytes field by field; a provenance or a size out of range is refused. */
  method EncodePrimaryItem(e: Envelope) returns (r: Result<Key>)
    requires 0 < e.revision < TWO64 && (e.ttlEpoch.Some? ==> -TWO63 <= e.ttlEpoch.value < TWO63)
    ensures r.Ok? <==> Representable(e) && PRIMARY_ITEM_HEADER_BYTES + |e.provenance| + |e.image| <= USIZE_MAX
    ensures r.Ok? ==> r.value == Encode(e)
  {
    if |e.provenance| > 0xFFFF_FFFF {
      return Err(Internal);
    }
    if PRIMARY_ITEM_HEADER_BYTES + |e.provenance| + |e.image| > USIZE_MAX {
      return Err(CapacityRejected);
    }
    var bytes: Key := [PRIMARY_ITEM_FORMAT];
    bytes := bytes + Be(e.revision, 8);
    bytes := bytes + [if e.ttlEpoch.Some? then 1 else 0];
    bytes := bytes + Be(if e.ttlEpoch.Some? then AsU64(e.ttlEpoch.value) else 0, 8);
    bytes := bytes + Be(|e.provenance|, 4);
    bytes := bytes + e.provenance;
    bytes := bytes + e.image;
    r := Ok(bytes);
  }

  lemma FixedFields(format: Key, revision: Key, flag: Key, stamp: Key, length: Key)
    requires |format| == 1 && |revision| == 8 && |flag| == 1 && |stamp| == 8 && |length| == 4
    ensures var h := format + revision + flag + stamp + length;
      && |h| == 22 && h[0] == format[0] && h[1..9] == revision && h[9] == flag[0] && h[10..18] == stamp
      && h[18..22] == length
  {
  }

  /** The header fields sit where the decoder looks. */
  lemma HeaderFields(e: Envelope)
    requires Representable(e)
    ensures var h := HeaderOf(e);
      && h[0] == PRIMARY_ITEM_FORMAT && FromBe(h[1..9]) == e.revision
      && h[9] == (if e.ttlEpoch.Some? then 1 else 0)
      && AsI64(FromBe(h[10..18])) == (if e.ttlEpoch.Some? then e.ttlEpoch.value else 0)
      && FromBe(h[18..22]) == |e.provenance|
  {
    var stamp := if e.ttlEpoch.Some? then AsU64(e.ttlEpoch.value) else 0;
    FixedFields([PRIMARY_ITEM_FORMAT], Be(e.revision, 8), [if e.ttlEpoch.Some? then 1 else 0], Be(stamp, 8),
      Be(|e.provenance|, 4));
    Widths();
    FromBeOfBe(e.revision, 8);
    FromBeOfBe(stamp, 8);
    FromBeOfBe(|e.provenance|, 4);
  }

  /** Encoding is undone by decoding exactly when the image is not empty; the encoder does
      not refuse an empty image, the decoder does. */
  lemma DecodeUndoesEncode(e: Envelope)
    requires Representable(e)
    ensures Decode(Encode(e)) == Ok(e) <==> e.image != []
    ensures e.image == [] ==> Decode(Encode(e)).Err?
  {
    HeaderFields(e);
    var bytes := Encode(e);
    var start := PRIMARY_ITEM_HEADER_BYTES + |e.provenance|;
    assert bytes[..PRIMARY_ITEM_HEADER_BYTES] == HeaderOf(e);
    assert bytes[PRIMARY_ITEM_HEADER_BYTES..start] == e.provenance;
    assert bytes[start..] == e.image;
  }

  lemma HeaderSplits(h: Key)
    requires |h| == PRIMARY_ITEM_HEADER_BYTES
    ensures h == [h[0]] + h[1..9] + [h[9]] + h[10..18] + h[18..22]
  {
  }

  /** Every accepted row is the encoding of what was decoded, so no two rows decode alike. */
  lemma EncodeUndoesDecode(bytes: Key)
    requires Decode(bytes).Ok?
    ensures Representable(Decode(bytes).value) && Encode(Decode(bytes).value) == bytes
  {
    var e := Decode(bytes).value;
    var h := bytes[..PRIMARY_ITEM_HEADER_BYTES];
    var start := PRIMARY_ITEM_HEADER_BYTES + |e.provenance|;
    Widths();
    BeOfFromBe(h[1..9]);
    BeOfFromBe(h[10..18]);
    BeOfFromBe(h[18..22]);
    HeaderSplits(h);
    assert HeaderOf(e) == h;
    assert bytes == h + bytes[PRIMARY_ITEM_HEADER_BYTES..start] + bytes[start..];
  }

  /** The revision of a row depends only on its first 22 bytes, and agrees with a full decode. */
  lemma RevisionFromPrefix(bytes: Key, n: nat)
    requires PRIMARY_ITEM_HEADER_BYTES <= n
    ensures DecodePrimaryRevision(if |bytes| < n then bytes else bytes[..n]) == DecodePrimaryRevision(bytes)
    ensures Decode(bytes).Ok? ==> DecodePrimaryRevision(bytes) == Ok(Decode(bytes).value.revision)
  {
    if n <= |bytes| {
      assert bytes[..n][1..9] == bytes[1..9];
    }
    if PRIMARY_ITEM_HEADER_BYTES <= |bytes| {
      assert bytes[..PRIMARY_ITEM_HEADER_BYTES][1..9] == bytes[1..9];
    }
  }
}

/** Prefix reads that skip hydration, and the grouped revision read built on them. */
module PrefixReads {
  import opened Outcomes
  import opened Bytes
  import opened ValueLayout
  import opened Lowering
  import opened ValueAllowance
  import opened ValueReads
  import opened BatchReads
  import opened ItemCodec

  const KV_UNQUALIFIED_VALUE_BYTES: nat := 10485760

  datatype ValuePrefix = ValuePrefix(length: nat, bytes: Key)

  function CopyPrefix(value: Key, prefixBytes: nat): Key {
    value[..Min(|value|, prefixBytes)]
  }

  /** The first chunk row of a chunked key, which is all a prefix read fetches. */
  predicate FirstChunkIntact(store: Store, key: Key) {
    IsChunked(Get(store, key)) ==>
      && Addressable(key) && ChunkKey(key, 0) in store
      && RequireChunkLength(store[ChunkKey(key, 0)], SlotLength(Get(store, key)), 0)
  }

  function PrefixOf(store: Store, key: Key, prefixBytes: nat): Option<ValuePrefix> {
    var raw := Get(store, key);
    if raw.None? || ParseHeader(raw.value).Err? then None
    else match ParseHeader(raw.value).value
      case InlineHeader(v) => Some(ValuePrefix(|v|, CopyPrefix(v, prefixBytes)))
      case ChunkedHeader(length, _) =>
        Some(ValuePrefix(length, CopyPrefix(RowOr(store, ChunkKey(key, 0)), prefixBytes)))
  }

  predicate PrefixReadable(store: Store, keys: seq<Key>, prefixBytes: nat, maximum: nat, batch: nat) {
    && prefixBytes <= KV_CHUNK_BYTES && HeadsAdmitted(store, keys, maximum, batch)
    && forall i :: 0 <= i < |keys| ==> HeadOk(Get(store, keys[i])) && FirstChunkIntact(store, keys[i])
  }

  function PendingKeys(keys: seq<Key>, pending: seq<(nat, nat)>): (r: seq<Key>)
    requires forall p :: 0 <= p < |pending| ==> pending[p].0 < |keys|
    ensures |r| == |pending|
  {
    seq(|pending|, p requires 0 <= p < |pending| => ChunkKey(keys[pending[p].0], 0))
  }

  /** The chunked keys in order, with their lengths. */
  ghost predicate PendingFor(store: Store, keys: seq<Key>, n: nat, pending: seq<(nat, nat)>) {
    && n <= |keys|
    && (forall p :: 0 <= p < |pending| ==>
          pending[p].0 < n && IsChunked(Get(store, keys[pending[p].0]))
            && pending[p].1 == SlotLength(Get(store, keys[pending[p].0])))
    && (forall p, q :: 0 <= p < q < |pending| ==> pending[p].0 < pending[q].0)
    && (forall i :: 0 <= i < n && IsChunked(Get(store, keys[i])) ==>
         exists p :: 0 <= p < |pending| && pending[p].0 == i)
  }

  /** Splits heads into finished prefixes and chunked keys still to fetch. */
  method SplitHeads(store: Store, keys: seq<Key>, heads: seq<Option<Key>>, prefixBytes: nat)
    returns (ok: bool, output: seq<Option<ValuePrefix>>, pending: seq<(nat, nat)>)
    requires heads == Rows(store, keys)
    ensures ok <==> forall i :: 0 <= i < |keys| ==> HeadOk(Get(store, keys[i]))
    ensures ok ==> PendingFor(store, keys, |keys|, pending) && |output| == |keys|
    ensures ok ==> forall i :: 0 <= i < |keys| ==> output[i] == if IsChunked(heads[i]) then None
            else PrefixOf(store, keys[i], prefixBytes)
  {
    output, pending := [], [];
    for i := 0 to |keys|
      invariant |output| == i && forall j :: 0 <= j < i ==> HeadOk(heads[j])
      invariant forall j :: 0 <= j < i ==> output[j] == if IsChunked(heads[j]) then None
                else PrefixOf(store, keys[j], prefixBytes)
      invariant PendingFor(store, keys, i, pending)
    {
      assert heads[i] == Get(store, keys[i]);
      if heads[i].None? {
        output := output + [None];
      } else {
        var header := ParseHeader(heads[i].value);
        if header.Err? {
          assert !HeadOk(Get(store, keys[i]));
          return false, [], [];
        }
        match header.value {
          case InlineHeader(value) =>
            output := output + [Some(ValuePrefix(|value|, CopyPrefix(value, prefixBytes)))];
          case ChunkedHeader(length, _) =>
            output := output + [None];
            PendingGrows(store, keys, i, pending, length);
            pending := pending + [(i, length)];
        }
      }
    }
    return true, output, pending;
  }

  lemma PendingGrows(store: Store, keys: seq<Key>, i: nat, pending: seq<(nat, nat)>, length: nat)
    requires PendingFor(store, keys, i, pending) && i < |keys| && IsChunked(Get(store, keys[i]))
             && length == SlotLength(Get(store, keys[i]))
    ensures PendingFor(store, keys, i + 1, pending + [(i, length)])
  {
    var next := pending + [(i, length)];
    forall j | 0 <= j < i + 1 && IsChunked(Get(store, keys[j])) ensures exists p :: 0 <= p < |next| && next[p].0 == j {
      if j < i {
        var p :| 0 <= p < |pending| && pending[p].0 == j;
        assert next[p].0 == j;
      } else {
        assert next[|pending|].0 == j;
      }
    }
  }

  function FirstLengths(pending: seq<(nat, nat)>): (r: seq<nat>)
    ensures |r| == |pending|
  {
    seq(|pending|, p requires 0 <= p < |pending| => Min(pending[p].1, KV_CHUNK_BYTES))
  }

  /** First chunks of the demanded length fit the budget summed from their heads. */
  lemma FirstChunksFit(store: Store, keys: seq<Key>, pending: seq<(nat, nat)>)
    requires PendingFor(store, keys, |keys|, pending)
    requires forall i :: 0 <= i < |keys| ==> FirstChunkIntact(store, keys[i])
    ensures Admits(KV_CHUNK_BYTES, Total(FirstLengths(pending)), RowSizes(Rows(store, PendingKeys(keys, pending))))
  {
    var sizes := RowSizes(Rows(store, PendingKeys(keys, pending)));
    forall p | 0 <= p < |pending| ensures sizes[p] == FirstLengths(pending)[p] {
      assert FirstChunkIntact(store, keys[pending[p].0]);
    }
    TotalBound(sizes, FirstLengths(pending), 0);
  }

  method SumFirstLengths(pending: seq<(nat, nat)>) returns (total: nat)
    ensures total == Total(FirstLengths(pending))
  {
    total := 0;
    for p := 0 to |pending|
      invariant total == Total(FirstLengths(pending)[..p])
    {
      TotalTake(FirstLengths(pending), p);
      total := total + Min(pending[p].1, KV_CHUNK_BYTES);
    }
    assert FirstLengths(pending)[..|pending|] == FirstLengths(pending);
  }

  /** Checks every fetched first chunk and overwrites the output slot it belongs to. */
  method OverwritePending(store: Store, keys: seq<Key>, prefixBytes: nat, output: seq<Option<ValuePrefix>>,
                          pending: seq<(nat, nat)>, rows: seq<Option<Key>>)
                            returns (ok: bool, filled: seq<Option<ValuePrefix>>)
    requires PendingFor(store, keys, |keys|, pending) && |output| == |keys|
             && rows == Rows(store, PendingKeys(keys, pending))
    requires forall p :: 0 <= p < |pending| ==> Addressable(keys[pending[p].0])
    ensures ok <==> forall p :: 0 <= p < |pending| ==> FirstChunkIntact(store, keys[pending[p].0])
    ensures ok ==> |filled| == |keys|
    ensures ok ==> forall p :: 0 <= p < |pending| ==>
            filled[pending[p].0] == PrefixOf(store, keys[pending[p].0], prefixBytes)
    ensures ok ==> forall i :: 0 <= i < |keys| && !IsChunked(Get(store, keys[i])) ==> filled[i] == output[i]
  {
    filled := output;
    for p := 0 to |pending|
      invariant |filled| == |keys|
      invariant forall q :: 0 <= q < p ==> FirstChunkIntact(store, keys[pending[q].0])
                                           && filled[pending[q].0] == PrefixOf(store, keys[pending[q].0], prefixBytes)
      invariant forall i :: 0 <= i < |keys| && !IsChunked(Get(store, keys[i])) ==> filled[i] == output[i]
    {
      var index, length := pending[p].0, pending[p].1;
      assert rows[p] == Get(store, ChunkKey(keys[index], 0));
      if rows[p].None? || !RequireChunkLength(rows[p].value, length, 0) {
        assert !FirstChunkIntact(store, keys[index]);
        return false, [];
      }
      filled := filled[index := Some(ValuePrefix(length, CopyPrefix(rows[p].value, prefixBytes)))];
    }
    return true, filled;
  }

  /** The keys whose first chunk matters are exactly the pending ones. */
  lemma PendingCovers(store: Store, keys: seq<Key>, pending: seq<(nat, nat)>)
    requires PendingFor(store, keys, |keys|, pending)
    ensures (forall p :: 0 <= p < |pending| ==> FirstChunkIntact(store, keys[pending[p].0]))
       <==> (forall i :: 0 <= i < |keys| ==> FirstChunkIntact(store, keys[i]))
  {
    if forall p :: 0 <= p < |pending| ==> FirstChunkIntact(store, keys[pending[p].0]) {
      forall i | 0 <= i < |keys| ensures FirstChunkIntact(store, keys[i]) {
        if IsChunked(Get(store, keys[i])) {
          var p :| 0 <= p < |pending| && pending[p].0 == i;
          assert FirstChunkIntact(store, keys[pending[p].0]);
        }
      }
    }
  }

  /** Fetches the first chunk of every pending key and overwrites its output. */
  method FillPending(store: Store, keys: seq<Key>, prefixBytes: nat, output: seq<Option<ValuePrefix>>,
      pending: seq<(nat, nat)>)
    returns (r: Result<seq<Option<ValuePrefix>>>)
    requires PendingFor(store, keys, |keys|, pending) && |output| == |keys|
    requires forall i :: 0 <= i < |keys| && !IsChunked(Get(store, keys[i])) ==>
             output[i] == PrefixOf(store, keys[i], prefixBytes)
    ensures r.Ok? <==> forall i :: 0 <= i < |keys| ==> FirstChunkIntact(store, keys[i])
    ensures r.Ok? ==> |r.value| == |keys| && forall i :: 0 <= i < |keys| ==>
            r.value[i] == PrefixOf(store, keys[i], prefixBytes)
  {
    for p := 0 to |pending|
      invariant forall q :: 0 <= q < p ==> Addressable(keys[pending[q].0])
    {
      if !Addressable(keys[pending[p].0]) {
        assert !FirstChunkIntact(store, keys[pending[p].0]);
        return Err(Internal);
      }
    }
    var maximum := SumFirstLengths(pending);
    var allowance := new KvValueAllowance(KV_CHUNK_BYTES, maximum);
    var rows := NativeGetBatch(store, PendingKeys(keys, pending), allowance);
    if rows.Err? {
      if forall i :: 0 <= i < |keys| ==> FirstChunkIntact(store, keys[i]) { FirstChunksFit(store, keys, pending); }
      return Err(rows.error);
    }
    var ok, filled := OverwritePending(store, keys, prefixBytes, output, pending, rows.value);
    PendingCovers(store, keys, pending);
    if !ok {
      return Err(Internal);
    }
    forall i | 0 <= i < |keys| ensures filled[i] == PrefixOf(store, keys[i], prefixBytes) {
      if IsChunked(Get(store, keys[i])) {
        var p :| 0 <= p < |pending| && pending[p].0 == i;
        assert filled[pending[p].0] == PrefixOf(store, keys[pending[p].0], prefixBytes);
      }
    }
    return Ok(filled);
  }

  /** Reads up to `prefixBytes` logical bytes of every key without hydrating values. */
  method LoadValuePrefixes(store: Store, keys: seq<Key>, prefixBytes: nat, maximum: nat, batch: nat)
    returns (r: Result<seq<Option<ValuePrefix>>>)
    requires maximum <= USIZE_MAX && batch <= USIZE_MAX
    ensures r.Ok? <==> PrefixReadable(store, keys, prefixBytes, maximum, batch)
    ensures r.Ok? ==> |r.value| == |keys| && forall i :: 0 <= i < |keys| ==>
            r.value[i] == PrefixOf(store, keys[i], prefixBytes)
  {
    if prefixBytes > KV_CHUNK_BYTES {
      return Err(Internal);
    }
    var allowance := new KvValueAllowance(maximum, batch);
    var headAllowance := allowance.ForHeadReads(|keys|);
    if headAllowance.None? {
      return Err(CapacityRejected);
    }
    var heads := NativeGetBatch(store, keys, headAllowance.value);
    if heads.Err? {
      return Err(heads.error);
    }
    var ok, output, pending := SplitHeads(store, keys, heads.value, prefixBytes);
    if !ok {
      return Err(Internal);
    }
    forall i | 0 <= i < |keys| ensures heads.value[i] == Get(store, keys[i]) {}
    if pending != [] {
      r := FillPending(store, keys, prefixBytes, output, pending);
    } else {
      r := Ok(output);
    }
  }

  // ----- The fast path agrees with the full read -----

  function LogicalPrefix(value: Option<Key>, prefixBytes: nat): Option<ValuePrefix> {
    match value
    case None => None
    case Some(v) => Some(ValuePrefix(|v|, if |v| <= prefixBytes then v else v[..prefixBytes]))
  }

  lemma CopiedPrefix(v: Key, prefixBytes: nat)
    ensures Some(ValuePrefix(|v|, CopyPrefix(v, prefixBytes))) == LogicalPrefix(Some(v), prefixBytes)
  {
    assert |v| <= prefixBytes ==> v[..|v|] == v;
  }

  lemma FirstChunkPrefix(v: Key, prefixBytes: nat)
    requires 0 < |v| && prefixBytes <= KV_CHUNK_BYTES
    ensures CopyPrefix(Chunk(v, 0), prefixBytes) == CopyPrefix(v, prefixBytes)
  {
    assert Chunk(v, 0)[..Min(|Chunk(v, 0)|, prefixBytes)] == v[..Min(|v|, prefixBytes)];
  }

  lemma InlinePrefixMeans(store: Store, key: Key, v: Key, prefixBytes: nat)
    requires Holds(store, key, Some(v)) && HoldsInline(store, key, v)
    ensures HeadOk(Get(store, key)) && FirstChunkIntact(store, key)
    ensures PrefixOf(store, key, prefixBytes) == LogicalPrefix(Some(v), prefixBytes)
  {
    HeadParses(store, key, v);
    CopiedPrefix(v, prefixBytes);
  }

  lemma ChunkedHeadMeans(store: Store, key: Key, v: Key)
    requires Holds(store, key, Some(v)) && HoldsChunked(store, key, v)
    ensures Get(store, key).Some? && ParseHeader(store[key]) == Ok(ChunkedHeader(|v|, ChunkCount(|v|)))
    ensures FirstChunkIntact(store, key) && 0 < |v| && RowOr(store, ChunkKey(key, 0)) == Chunk(v, 0)
  {
    HeadParses(store, key, v);
    StoredChunksIntact(store, key, v, 0);
    assert Get(store, ChunkKey(key, 0)) == Some(Chunks(v)[0]);
  }

  lemma ChunkedPrefixMeans(store: Store, key: Key, v: Key, prefixBytes: nat)
    requires Holds(store, key, Some(v)) && HoldsChunked(store, key, v) && prefixBytes <= KV_CHUNK_BYTES
    ensures HeadOk(Get(store, key)) && FirstChunkIntact(store, key)
    ensures PrefixOf(store, key, prefixBytes) == LogicalPrefix(Some(v), prefixBytes)
  {
    ChunkedHeadMeans(store, key, v);
    FirstChunkPrefix(v, prefixBytes);
    CopiedPrefix(v, prefixBytes);
  }

  /** A prefix read of a represented key sees the head of the logical value. */
  lemma PrefixMeans(store: Store, key: Key, value: Option<Key>, prefixBytes: nat)
    requires Holds(store, key, value) && prefixBytes <= KV_CHUNK_BYTES
    ensures HeadOk(Get(store, key)) && FirstChunkIntact(store, key)
    ensures PrefixOf(store, key, prefixBytes) == LogicalPrefix(value, prefixBytes)
  {
    if value.Some? {
      if HoldsInline(store, key, value.value) {
        InlinePrefixMeans(store, key, value.value, prefixBytes);
      } else {
        ChunkedPrefixMeans(store, key, value.value, prefixBytes);
      }
    }
  }

  function PerHead(limit: nat): nat {
    var bounded := Min(limit, KV_MAX_VALUE_BYTES);
    if bounded < 1 then 1 else bounded
  }

  function GroupSize(limit: nat): (r: nat)
    ensures r >= 1
  {
    var size := KV_UNQUALIFIED_VALUE_BYTES / PerHead(limit);
    if size < 1 then 1 else size
  }

  function GroupBudget(limit: nat): nat {
    if KV_UNQUALIFIED_VALUE_BYTES < PerHead(limit) then PerHead(limit) else KV_UNQUALIFIED_VALUE_BYTES
  }

  lemma GroupFits(limit: nat, n: nat)
    requires n <= GroupSize(limit)
    ensures n * PerHead(limit) <= GroupBudget(limit)
  {
    var per := PerHead(limit);
    var size := KV_UNQUALIFIED_VALUE_BYTES / per;
    if size < 1 {
      assert n == 0 || n == 1;
    } else {
      assert n * per <= size * per <= KV_UNQUALIFIED_VALUE_BYTES by { MulMono(n, size, per); }
    }
  }

  lemma MulMono(a: nat, b: nat, c: nat)
    requires a <= b
    ensures a * c <= b * c
  {
  }

  lemma GroupArithmetic(limit: nat, n: nat, total: nat)
    requires n <= GroupSize(limit) && total <= n * (PerHead(limit) + 1)
    ensures HeadBudgetFits(n, KV_MAX_VALUE_BYTES, GroupBudget(limit))
    ensures total <= Min(GroupBudget(limit), n * KV_MAX_VALUE_BYTES) + n * KV_CHUNK_HEADER_BYTES
  {
    var per := PerHead(limit);
    GroupFits(limit, n);
    assert n * (per + 1) == n * per + n;
    assert n * per <= n * KV_MAX_VALUE_BYTES by { MulMono(per, KV_MAX_VALUE_BYTES, n); }
    assert KV_UNQUALIFIED_VALUE_BYTES / per <= KV_UNQUALIFIED_VALUE_BYTES;
  }

  /** No group of head reads is ever refused: the group size matches the byte budget. */
  lemma GroupAdmitted(profile: Profile, store: Store, logical: Store, keys: seq<Key>)
    requires Represents(profile, store, logical) && profile.limit <= USIZE_MAX
    requires |keys| <= GroupSize(profile.limit) && forall i :: 0 <= i < |keys| ==> Logical(keys[i])
    ensures HeadsAdmitted(store, keys, KV_MAX_VALUE_BYTES, GroupBudget(profile.limit))
  {
    var per := PerHead(profile.limit);
    var sizes := RowSizes(Rows(store, keys));
    forall i | 0 <= i < |keys| ensures sizes[i] <= per + 1 && sizes[i] <= KV_MAX_VALUE_BYTES + KV_CHUNK_HEADER_BYTES {
      assert Holds(store, keys[i], Get(logical, keys[i]));
      HeadRowBound(profile, store, keys[i], Get(logical, keys[i]));
    }
    TotalAtMost(sizes, per + 1);
    GroupArithmetic(profile.limit, |keys|, Total(sizes));
  }

  lemma HeadRowBound(profile: Profile, store: Store, key: Key, value: Option<Key>)
    requires Holds(store, key, value) && (key in store ==> |store[key]| <= profile.limit)
    ensures key in store ==>
            |store[key]| <= PerHead(profile.limit) + 1 && |store[key]| <= KV_MAX_VALUE_BYTES + KV_CHUNK_HEADER_BYTES
  {
  }

  function RevisionOf(value: Option<Key>): Option<nat> {
    if value.None? then None
    else match DecodePrimaryRevision(value.value)
      case Ok(revision) => Some(revision)
      case Err(_) => None
  }

  predicate RevisionReadable(value: Option<Key>) {
    value.Some? ==> DecodePrimaryRevision(value.value).Ok?
  }

  /** Decodes one group of prefixes. */
  method DecodeRevisions(prefixes: seq<Option<ValuePrefix>>) returns (r: Result<seq<Option<nat>>>)
    ensures r.Ok? <==>
            forall i :: 0 <= i < |prefixes| && prefixes[i].Some? ==> DecodePrimaryRevision(prefixes[i].value.bytes).Ok?
    ensures r.Ok? ==> |r.value| == |prefixes| && forall i :: 0 <= i < |prefixes| ==>
      r.value[i] == if prefixes[i].Some? then Some(DecodePrimaryRevision(prefixes[i].value.bytes).value) else None
  {
    var revisions: seq<Option<nat>> := [];
    for i := 0 to |prefixes|
      invariant |revisions| == i
      invariant forall j :: 0 <= j < i && prefixes[j].Some? ==> DecodePrimaryRevision(prefixes[j].value.bytes).Ok?
      invariant forall j :: 0 <= j < i ==>
        revisions[j] == if prefixes[j].Some? then Some(DecodePrimaryRevision(prefixes[j].value.bytes).value) else None
    {
      if prefixes[i].None? {
        revisions := revisions + [None];
      } else {
        var one := DecodePrimaryRevision(prefixes[i].value.bytes);
        if one.Err? {
          return Err(one.error);
        }
        revisions := revisions + [Some(one.value)];
      }
    }
    return Ok(revisions);
  }

  lemma GroupMeans(profile: Profile, store: Store, logical: Store, keys: seq<Key>)
    requires Represents(profile, store, logical) && profile.limit <= USIZE_MAX
    requires |keys| <= GroupSize(profile.limit) && forall i :: 0 <= i < |keys| ==> Logical(keys[i])
    ensures PrefixReadable(store, keys, PRIMARY_ITEM_HEADER_BYTES, KV_MAX_VALUE_BYTES, GroupBudget(profile.limit))
    ensures forall i :: 0 <= i < |keys| ==>
      && PrefixOf(store, keys[i], PRIMARY_ITEM_HEADER_BYTES).Some? == Get(logical, keys[i]).Some?
      && (Get(logical, keys[i]).Some? ==>
            DecodePrimaryRevision(PrefixOf(store, keys[i], PRIMARY_ITEM_HEADER_BYTES).value.bytes)
              == DecodePrimaryRevision(Get(logical, keys[i]).value))
  {
    GroupAdmitted(profile, store, logical, keys);
    forall i | 0 <= i < |keys|
      ensures HeadOk(Get(store, keys[i])) && FirstChunkIntact(store, keys[i])
      ensures PrefixOf(store, keys[i], PRIMARY_ITEM_HEADER_BYTES)
              == LogicalPrefix(Get(logical, keys[i]), PRIMARY_ITEM_HEADER_BYTES)
      ensures Get(logical, keys[i]).Some? ==>
        DecodePrimaryRevision(CopyPrefix(logical[keys[i]], PRIMARY_ITEM_HEADER_BYTES))
          == DecodePrimaryRevision(logical[keys[i]])
    {
      PrefixMeans(store, keys[i], Get(logical, keys[i]), PRIMARY_ITEM_HEADER_BYTES);
      if Get(logical, keys[i]).Some? { RevisionFromPrefix(logical[keys[i]], PRIMARY_ITEM_HEADER_BYTES); }
    }
  }

  ghost predicate Revisions(logical: Store, keys: seq<Key>, r: Result<seq<Option<nat>>>) {
    && (r.Ok? <==> forall i :: 0 <= i < |keys| ==> RevisionReadable(Get(logical, keys[i])))
    && (r.Ok? ==> |r.value| == |keys| && forall i :: 0 <= i < |keys| ==>
         r.value[i] == RevisionOf(Get(logical, keys[i])))
  }

  ghost predicate Serves(profile: Profile, store: Store, logical: Store, keys: seq<Key>, limit: nat) {
    profile.limit == limit && Represents(profile, store, logical) && forall i :: 0 <= i < |keys| ==> Logical(keys[i])
  }

  /** One group: prefixes, then their revisions. */
  method LoadGroup(store: Store, keys: seq<Key>, limit: nat, ghost profile: Profile, ghost logical: Store)
    returns (r: Result<seq<Option<nat>>>)
    requires limit <= USIZE_MAX && |keys| <= GroupSize(limit)
    ensures Serves(profile, store, logical, keys, limit) ==> Revisions(logical, keys, r)
  {
    if Serves(profile, store, logical, keys, limit) { GroupMeans(profile, store, logical, keys); }
    var prefixes := LoadValuePrefixes(store, keys, PRIMARY_ITEM_HEADER_BYTES, KV_MAX_VALUE_BYTES, GroupBudget(limit));
    if prefixes.Err? {
      return Err(prefixes.error);
    }
    r := DecodeRevisions(prefixes.value);
  }

  /** Revisions of live items, read group by group from prefixes: on a store that stands for
      a logical map no group is refused for size, and every key yields the revision in its
      logical value. */
  method LoadLiveRevisions(store: Store, keys: seq<Key>, limit: nat, ghost profile: Profile, ghost logical: Store)
    returns (r: Result<seq<Option<nat>>>)
    requires limit <= USIZE_MAX
    ensures Serves(profile, store, logical, keys, limit) ==> Revisions(logical, keys, r)
  {
    ghost var serves := Serves(profile, store, logical, keys, limit);
    var revisions: seq<Option<nat>> := [];
    var start := 0;
    while start < |keys|
      invariant start <= |keys|
      invariant serves ==> Revisions(logical, keys[..start], Ok(revisions))
    {
      var end := Min(|keys|, start + GroupSize(limit));
      var group := keys[start..end];
      var one := LoadGroup(store, group, limit, profile, logical);
      if one.Err? {
        if serves { GroupFails(logical, keys, start, end); }
        return Err(one.error);
      }
      if serves { RevisionsJoin(logical, keys, start, end, revisions, one.value); }
      revisions := revisions + one.value;
      start := end;
    }
    assert keys[..start] == keys;
    return Ok(revisions);
  }

  lemma GroupFails(logical: Store, keys: seq<Key>, start: nat, end: nat)
    requires start <= end <= |keys|
    requires exists i :: 0 <= i < end - start && !RevisionReadable(Get(logical, keys[start..end][i]))
    ensures exists i :: 0 <= i < |keys| && !RevisionReadable(Get(logical, keys[i]))
  {
    var i :| 0 <= i < end - start && !RevisionReadable(Get(logical, keys[start..end][i]));
    assert keys[start..end][i] == keys[start + i];
  }

  lemma RevisionsJoin(logical: Store, keys: seq<Key>, start: nat, end: nat, a: seq<Option<nat>>, b: seq<Option<nat>>)
    requires start <= end <= |keys|
    requires Revisions(logical, keys[..start], Ok(a)) && Revisions(logical, keys[start..end], Ok(b))
    ensures Revisions(logical, keys[..end], Ok(a + b))
  {
    forall i | 0 <= i < end
      ensures RevisionReadable(Get(logical, keys[i])) && (a + b)[i] == RevisionOf(Get(logical, keys[i])) {
      if i < start {
        assert keys[..start][i] == keys[i];
      } else {
        assert keys[start..end][i - start] == keys[i];
      }
    }
  }

  /** What a batch read of whole values returns. */
  ghost predicate FullRead(store: Store, keys: seq<Key>, full: seq<Option<Key>>) {
    |full| == |keys| && forall i :: 0 <= i < |keys| ==> full[i] == Resolved(store, Heads(store, keys)[i])
  }

  function RevisionIn(value: Option<Key>): Option<nat>
    requires value.Some? ==> Decode(value.value).Ok?
  {
    if value.None? then None else Some(Decode(value.value).value.revision)
  }

  /** The fast path agrees with the slow one: after any run of staged batches, if every value
      that a batch read returns decodes as an item, then reading prefixes succeeds and gives for
      every key the revision in its decoded item. */
  lemma FastPathAgrees(profile: Profile, batches: seq<seq<Mutation>>, keys: seq<Key>, full: seq<Option<Key>>,
      fast: Result<seq<Option<nat>>>)
    requires profile.limit <= USIZE_MAX && forall i :: 0 <= i < |keys| ==> Logical(keys[i])
    requires forall b, i :: 0 <= b < |batches| && 0 <= i < |batches[b]| ==> Disciplined(profile, batches[b][i])
    requires FullRead(RunStore(map[], batches, profile.limit), keys, full)
    requires var store, logical := RunStore(map[], batches, profile.limit), RunLogical(map[], batches, profile.limit);
             Serves(profile, store, logical, keys, profile.limit) ==> Revisions(logical, keys, fast)
    requires forall i :: 0 <= i < |full| && full[i].Some? ==> Decode(full[i].value).Ok?
    ensures fast.Ok? && |fast.value| == |keys|
    ensures forall i :: 0 <= i < |keys| ==> fast.value[i] == RevisionIn(full[i])
  {
    var logical := RunLogical(map[], batches, profile.limit);
    RunRefines(profile, batches);
    ReadAfterRun(profile, batches, keys, 0, 0);
    forall i | 0 <= i < |keys|
      ensures RevisionReadable(Get(logical, keys[i])) && RevisionOf(Get(logical, keys[i])) == RevisionIn(full[i]) {
      if full[i].Some? {
        RevisionFromPrefix(full[i].value, PRIMARY_ITEM_HEADER_BYTES);
      }
    }
  }
}
