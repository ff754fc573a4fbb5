/** One logical value layout for every key-value driver: a tagged head row, and
    64 KiB chunk rows under a key family of their own. */
module ValueLayout {
  import opened Outcomes
  import opened Bytes

  const KV_CHUNK_BYTES: nat := 65536
  const KV_CHUNK_HEADER_BYTES: nat := 7
  const KV_VALUE_INLINE_TAG: Byte := 0
  const KV_VALUE_CHUNKED_TAG: Byte := 1
  /** The bytes of "\0chunk/". */
  const KV_CHUNK_KEY_FAMILY: Key := [0, 99, 104, 117, 110, 107, 47]
  const KV_CHUNK_KEY_OVERHEAD: nat := 11
  const KV_MAX_VALUE_BYTES: nat := 65536 * 65535

  function DivCeil(a: nat, b: nat): nat
    requires b > 0
  {
    (a + b - 1) / b
  }

  function ChunkCount(length: nat): nat {
    DivCeil(length, KV_CHUNK_BYTES)
  }

  function Min(a: nat, b: nat): nat {
    if a < b then a else b
  }

  // ----- Preparing and encoding values -----

  datatype Encoding = Inline | Chunked(length: nat, count: nat)

  datatype PreparedValue = PreparedValue(value: Key, encoding: Encoding)

  function PrepareEncoding(length: nat, nativeLimit: nat): Result<Encoding> {
    if length > KV_MAX_VALUE_BYTES then Err(CapacityRejected)
    else if length + 1 <= nativeLimit then Ok(Inline)
    else if nativeLimit < KV_CHUNK_BYTES then Err(CapacityRejected)
    else if ChunkCount(length) > 65535 then Err(CapacityRejected)
    else Ok(Chunked(length, ChunkCount(length)))
  }

  function PrepareValue(value: Key, nativeLimit: nat): Result<PreparedValue> {
    var encoding :- PrepareEncoding(|value|, nativeLimit);
    Ok(PreparedValue(value, encoding))
  }

  function PrepareInline(value: Key, nativeLimit: nat): Result<PreparedValue> {
    var prepared :- PrepareValue(value, nativeLimit);
    if prepared.encoding.Inline? then Ok(prepared) else Err(CapacityRejected)
  }

  /** Chunk `n` of a value. */
  function Chunk(value: Key, n: nat): (r: Key)
    requires n < ChunkCount(|value|)
    ensures 0 < |r| <= KV_CHUNK_BYTES
    ensures |r| == Min(|value| - n * KV_CHUNK_BYTES, KV_CHUNK_BYTES)
  {
    value[n * KV_CHUNK_BYTES .. Min(|value|, (n + 1) * KV_CHUNK_BYTES)]
  }

  /** All chunks in order. */
  function Chunks(value: Key): seq<Key> {
    seq(ChunkCount(|value|), n requires 0 <= n < ChunkCount(|value|) => Chunk(value, n))
  }

  function ChunkedHead(length: nat): Key {
    Be(length, 4) + Be(ChunkCount(length), 2) + [KV_VALUE_CHUNKED_TAG]
  }

  /** The head row that announces a prepared value. */
  function Head(p: PreparedValue): Key {
    match p.encoding
    case Inline => p.value + [KV_VALUE_INLINE_TAG]
    case Chunked(length, count) => Be(length, 4) + Be(count, 2) + [KV_VALUE_CHUNKED_TAG]
  }

  function Flatten(parts: seq<Key>): Key {
    if parts == [] then [] else Flatten(parts[..|parts| - 1]) + parts[|parts| - 1]
  }

  /** The first `n` chunks are the first `n` chunk lengths of the value. */
  lemma {:induction false} FlattenChunks(value: Key, n: nat)
    requires n <= ChunkCount(|value|)
    ensures Flatten(Chunks(value)[..n]) == value[..Min(|value|, n * KV_CHUNK_BYTES)]
    decreases n
  {
    if n > 0 {
      FlattenChunks(value, n - 1);
      assert Chunks(value)[..n][..n - 1] == Chunks(value)[..n - 1];
      assert Chunks(value)[..n][n - 1] == Chunk(value, n - 1);
    }
  }

  /** Which values are accepted, that they stay inline exactly when that fits, and that every row
      of an accepted value fits the native limit. */
  lemma PreparedExactly(value: Key, nativeLimit: nat)
    requires nativeLimit <= USIZE_MAX
    ensures PrepareValue(value, nativeLimit).Ok? <==>
            |value| <= KV_MAX_VALUE_BYTES && (|value| + 1 <= nativeLimit || KV_CHUNK_BYTES <= nativeLimit)
    ensures PrepareValue(value, nativeLimit).Ok? ==>
              var p := PrepareValue(value, nativeLimit).value;
              && p.value == value && (p.encoding.Inline? <==> |value| + 1 <= nativeLimit)
              && |Head(p)| <= nativeLimit
              && (p.encoding.Chunked? ==> forall n :: 0 <= n < |Chunks(value)| ==> |Chunks(value)[n]| <= nativeLimit)
  {
  }

  /** Splitting a value into chunks loses nothing. */
  lemma ChunksRebuild(value: Key)
    ensures Flatten(Chunks(value)) == value
  {
    FlattenChunks(value, ChunkCount(|value|));
    assert Chunks(value)[..ChunkCount(|value|)] == Chunks(value);
    assert value[..|value|] == value;
  }

  /** Cuts a value into owned chunk buffers of the fixed size, the last one possibly shorter. */
  method CutChunks(value: Key) returns (chunks: seq<Key>)
    ensures chunks == Chunks(value)
  {
    chunks := [];
    var start := 0;
    while start < |value|
      invariant start == |chunks| * KV_CHUNK_BYTES && |chunks| <= ChunkCount(|value|)
      invariant chunks == Chunks(value)[..|chunks|]
      decreases |value| - start
    {
      var end := Min(|value|, start + KV_CHUNK_BYTES);
      assert value[start..end] == Chunk(value, |chunks|);
      chunks := chunks + [value[start..end]];
      start := start + KV_CHUNK_BYTES;
    }
  }

  /** Appends the tag to a small value, or writes the chunk manifest and cuts the value. */
  method Encode(p: PreparedValue) returns (head: Key, chunks: seq<Key>)
    ensures head == Head(p)
    ensures chunks == if p.encoding.Inline? then [] else Chunks(p.value)
  {
    match p.encoding {
      case Inline =>
        head, chunks := p.value + [KV_VALUE_INLINE_TAG], [];
      case Chunked(length, count) =>
        head := Be(length, 4) + Be(count, 2) + [KV_VALUE_CHUNKED_TAG];
        chunks := CutChunks(p.value);
    }
  }

  // ----- Reading head rows -----

  datatype ValueHeader = InlineHeader(value: Key) | ChunkedHeader(length: nat, count: nat)

  predicate ValidChunkHeader(length: nat, count: nat) {
    0 < length <= KV_MAX_VALUE_BYTES && count == ChunkCount(length)
  }

  function ParseHeader(raw: Key): Result<ValueHeader> {
    if raw == [] then Err(Internal)
    else if raw[|raw| - 1] == KV_VALUE_INLINE_TAG && |raw| - 1 <= KV_MAX_VALUE_BYTES then
      Ok(InlineHeader(raw[..|raw| - 1]))
    else if raw[|raw| - 1] == KV_VALUE_CHUNKED_TAG && |raw| == KV_CHUNK_HEADER_BYTES then
      var length, count := FromBe(raw[..4]), FromBe(raw[4..6]);
      if ValidChunkHeader(length, count) then Ok(ChunkedHeader(length, count)) else Err(Internal)
    else Err(Internal)
  }

  function HeaderBytes(h: ValueHeader): Key {
    match h
    case InlineHeader(value) => value + [KV_VALUE_INLINE_TAG]
    case ChunkedHeader(length, count) => Be(length, 4) + Be(count, 2) + [KV_VALUE_CHUNKED_TAG]
  }

  predicate ValidHeader(h: ValueHeader) {
    match h
    case InlineHeader(value) => |value| <= KV_MAX_VALUE_BYTES
    case ChunkedHeader(length, count) => ValidChunkHeader(length, count)
  }

  lemma HeaderFieldsFit(length: nat, count: nat)
    requires ValidChunkHeader(length, count)
    ensures length < Pow256(4) && count < Pow256(2)
  {
    Widths();
  }

  lemma HeaderParsesBack(h: ValueHeader)
    requires ValidHeader(h)
    ensures ParseHeader(HeaderBytes(h)) == Ok(h)
  {
    match h {
      case InlineHeader(value) =>
        assert HeaderBytes(h)[..|value|] == value;
      case ChunkedHeader(length, count) =>
        var bytes := HeaderBytes(h);
        assert bytes[..4] == Be(length, 4) && bytes[4..6] == Be(count, 2);
        HeaderFieldsFit(length, count);
        FromBeOfBe(length, 4);
        FromBeOfBe(count, 2);
    }
  }

  lemma ParsedHeaderWrites(raw: Key)
    requires ParseHeader(raw).Ok?
    ensures ValidHeader(ParseHeader(raw).value) && HeaderBytes(ParseHeader(raw).value) == raw
  {
    if ParseHeader(raw).value.InlineHeader? {
      assert raw[..|raw| - 1] + [raw[|raw| - 1]] == raw;
    } else {
      BeOfFromBe(raw[..4]);
      BeOfFromBe(raw[4..6]);
      assert raw[..4] + raw[4..6] + [raw[6]] == raw;
    }
  }

  /** Header bytes and headers determine each other: every valid header parses back to
      itself, and every accepted row is the one encoding of what was parsed. */
  lemma HeaderRoundTrip(h: ValueHeader, raw: Key)
    ensures ValidHeader(h) ==> ParseHeader(HeaderBytes(h)) == Ok(h)
    ensures ParseHeader(raw).Ok? ==> ValidHeader(ParseHeader(raw).value) && HeaderBytes(ParseHeader(raw).value) == raw
  {
    if ValidHeader(h) { HeaderParsesBack(h); }
    if ParseHeader(raw).Ok? { ParsedHeaderWrites(raw); }
  }

  /** The logical length a head row announces. */
  function LogicalValueLen(raw: Key): Result<nat> {
    var header :- ParseHeader(raw);
    match header
    case InlineHeader(value) => Ok(|value|)
    case ChunkedHeader(length, _) => Ok(length)
  }

  /** Saturating usize arithmetic, as the length check performs it. */
  function ExpectedChunkLength(length: nat, number: nat): nat {
    var skipped := Min(number * KV_CHUNK_BYTES, USIZE_MAX);
    Min(if skipped < length then length - skipped else 0, KV_CHUNK_BYTES)
  }

  predicate RequireChunkLength(chunk: Key, length: nat, number: nat) {
    |chunk| == ExpectedChunkLength(length, number) && ExpectedChunkLength(length, number) != 0
  }

  /** A chunk is accepted exactly under the number and with the length of a cut of the value. */
  lemma ChunkLengthExact(value: Key, chunk: Key, n: nat)
    requires |value| <= KV_MAX_VALUE_BYTES
    ensures RequireChunkLength(chunk, |value|, n) <==> n < ChunkCount(|value|) && |chunk| == |Chunk(value, n)|
  {
    ChunkCountBound(|value|, n);
  }

  lemma NextCut(length: nat, n: nat)
    requires length <= KV_MAX_VALUE_BYTES && ExpectedChunkLength(length, n) != 0
    ensures Min(length, n * KV_CHUNK_BYTES) + ExpectedChunkLength(length, n) == Min(length, (n + 1) * KV_CHUNK_BYTES)
    ensures ExpectedChunkLength(length, n) <= KV_CHUNK_BYTES
  {
  }

  lemma ChunkCountBound(length: nat, n: nat)
    ensures n < ChunkCount(length) <==> n * KV_CHUNK_BYTES < length
  {
  }

  // ----- Chunk addresses -----

  /** Logical keys live outside the chunk family. */
  predicate Logical(key: Key) {
    !(KV_CHUNK_KEY_FAMILY <= key)
  }

  predicate Addressable(key: Key) {
    |key| <= 65535
  }

  /** The chunk-family prefix of a key, or of the leading part of a longer key. */
  function ChunkPrefixFor(key: Key, keyLength: nat): (r: Key)
    ensures |r| == |key| + KV_CHUNK_KEY_OVERHEAD - 2
  {
    KV_CHUNK_KEY_FAMILY + Be(keyLength, 2) + key
  }

  function ChunkPrefix(key: Key): (r: Key)
    ensures |r| == |key| + KV_CHUNK_KEY_OVERHEAD - 2
  {
    ChunkPrefixFor(key, |key|)
  }

  function ChunkKey(key: Key, number: nat): (r: Key)
    ensures |r| == |key| + KV_CHUNK_KEY_OVERHEAD
  {
    ChunkPrefix(key) + Be(number, 2)
  }

  lemma SliceOfPrefix(p: Key, x: Key, lo: nat, hi: nat)
    requires p <= x && lo <= hi <= |p|
    ensures x[lo..hi] == p[lo..hi]
  {
    assert x[..|p|][lo..hi] == x[lo..hi];
  }

  lemma JoinedSlices(a: Key, b: Key, c: Key, x: Key)
    requires a + b + c <= x
    ensures a <= x && |x| >= |a| + |b| + |c|
    ensures x[|a|..|a| + |b|] == b && x[|a| + |b|..|a| + |b| + |c|] == c
  {
    var p := a + b + c;
    SliceOfPrefix(p, x, 0, |a|);
    SliceOfPrefix(p, x, |a|, |a| + |b|);
    SliceOfPrefix(p, x, |a| + |b|, |p|);
  }

  /** Every row under a chunk prefix spells out the family, the key length and the key. */
  lemma ChunkPrefixParts(key: Key, x: Key)
    requires ChunkPrefix(key) <= x
    ensures KV_CHUNK_KEY_FAMILY <= x && |x| >= 9 + |key|
    ensures x[7..9] == Be(|key|, 2) && x[9..9 + |key|] == key
  {
    JoinedSlices(KV_CHUNK_KEY_FAMILY, Be(|key|, 2), key, x);
  }

  /** No row lies under the chunk prefixes of two keys, even when one key is a prefix of
      the other: the embedded length tells them apart. */
  lemma ChunkPrefixesDisjoint(a: Key, b: Key, x: Key)
    requires Addressable(a) && Addressable(b)
    requires ChunkPrefix(a) <= x && ChunkPrefix(b) <= x
    ensures a == b
  {
    ChunkPrefixParts(a, x);
    ChunkPrefixParts(b, x);
    Widths();
    BeInjective(|a|, |b|, 2);
  }

  lemma ChunkKeysDistinct(a: Key, m: nat, b: Key, n: nat)
    requires Addressable(a) && Addressable(b) && m <= 65535 && n <= 65535
    ensures ChunkKey(a, m) == ChunkKey(b, n) <==> a == b && m == n
    ensures ChunkPrefix(a) <= ChunkKey(b, n) <==> a == b
    ensures !Logical(ChunkKey(a, m))
  {
    var x := ChunkKey(b, n);
    assert ChunkPrefix(b) <= x;
    assert ChunkPrefix(a) <= ChunkKey(a, m);
    ChunkPrefixParts(a, ChunkKey(a, m));
    if ChunkPrefix(a) <= x {
      ChunkPrefixesDisjoint(a, b, x);
    }
    if ChunkKey(a, m) == x {
      assert x[|x| - 2..] == Be(n, 2) && ChunkKey(a, m)[|x| - 2..] == Be(m, 2);
      Widths();
      BeInjective(m, n, 2);
    }
  }

  /** The range cleared before a key is rewritten: the loop that increments the prefix
      always finds a byte to increment, and the range holds exactly the rows under the
      key's own chunk prefix. */
  method ClearRange(key: Key) returns (begin: Key, end: Key)
    ensures begin == ChunkPrefix(key) && |end| <= |begin| && Some(end) == PrefixEnd(begin)
    ensures forall x: Key :: InRange(x, begin, end) <==> ChunkPrefix(key) <= x
  {
    begin := ChunkPrefix(key);
    PrefixEndExists(begin);
    assert begin[0] == 0;
    var bound := IncrementPrefix(begin);
    end := bound.value;
    forall x: Key ensures InRange(x, begin, end) <==> ChunkPrefix(key) <= x {
      PrefixRangeExact(begin, x);
    }
  }
}
