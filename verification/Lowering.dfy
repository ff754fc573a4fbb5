/** Lowering of logical puts and deletes to native rows, and the refinement it keeps:
    the native rows always stand for one plain map from key to value. */
module Lowering {
  import opened Outcomes
  import opened Bytes
  import opened ValueLayout

  datatype Mutation =
    | Put(key: Key, value: Key)
    | PutUnchunked(key: Key, value: Key)
    | Delete(key: Key)
    | DeleteUnchunked(key: Key)
    | DeleteRange(begin: Key, end: Key)

  /** Native rows, and the plain logical map they stand for. */
  type Store = map<Key, Key>

  function Get(store: Store, key: Key): Option<Key> {
    if key in store then Some(store[key]) else None
  }

  /** What a native driver does with one staged mutation. */
  function Apply(store: Store, m: Mutation): Store {
    match m
    case Put(key, value) => store[key := value]
    case PutUnchunked(key, value) => store[key := value]
    case Delete(key) => store - {key}
    case DeleteUnchunked(key) => store - {key}
    case DeleteRange(begin, end) => map x | x in store && !InRange(x, begin, end) :: store[x]
  }

  function ApplyAll(store: Store, ms: seq<Mutation>): Store {
    if ms == [] then store else Apply(ApplyAll(store, ms[..|ms| - 1]), ms[|ms| - 1])
  }

  lemma {:induction false} ApplyAllAppend(store: Store, a: seq<Mutation>, b: seq<Mutation>)
    ensures ApplyAll(store, a + b) == ApplyAll(ApplyAll(store, a), b)
    decreases |b|
  {
    if b == [] {
      assert a + b == a;
    } else {
      assert (a + b)[..|a + b| - 1] == a + b[..|b| - 1];
      ApplyAllAppend(store, a, b[..|b| - 1]);
    }
  }

  lemma ApplyOne(store: Store, m: Mutation)
    ensures ApplyAll(store, [m]) == Apply(store, m)
  {
    assert [m][..0] == [];
  }

  // ----- Preparation and expansion -----

  datatype PreparedMutation =
    | ChunkablePut(key: Key, value: PreparedValue)
    | InlinePut(key: Key, value: PreparedValue)
    | ChunkableDelete(key: Key)
    | InlineDelete(key: Key)

  function PrepareMutation(change: Mutation, limit: nat): Result<PreparedMutation> {
    match change
    case Put(key, value) =>
      if limit != USIZE_MAX then
        var prepared :- PrepareValue(value, limit);
        if Addressable(key) then Ok(ChunkablePut(key, prepared)) else Err(Internal)
      else
        var prepared :- PrepareInline(value, limit);
        Ok(InlinePut(key, prepared))
    case PutUnchunked(key, value) =>
      var prepared :- PrepareInline(value, limit);
      Ok(InlinePut(key, prepared))
    case Delete(key) =>
      if limit == USIZE_MAX then Ok(InlineDelete(key))
      else if Addressable(key) then Ok(ChunkableDelete(key)) else Err(Internal)
    case DeleteUnchunked(key) => Ok(InlineDelete(key))
    case DeleteRange(_, _) => Err(Internal)
  }

  /** The mutation that clears every chunk row of a key. */
  function ClearChunks(key: Key): (m: Mutation)
    ensures m.DeleteRange? && forall x: Key :: InRange(x, m.begin, m.end) <==> ChunkPrefix(key) <= x
    ensures |m.begin| == |key| + KV_CHUNK_KEY_OVERHEAD - 2 && |m.end| <= |m.begin|
  {
    var begin := ChunkPrefix(key);
    assert begin[0] == 0;
    PrefixEndExists(begin);
    var end := PrefixEnd(begin).value;
    assert forall x: Key :: InRange(x, begin, end) <==> ChunkPrefix(key) <= x by {
      forall x: Key ensures InRange(x, begin, end) <==> ChunkPrefix(key) <= x { PrefixRangeExact(begin, x); }
    }
    DeleteRange(begin, end)
  }

  function ChunkPuts(key: Key, chunks: seq<Key>): (r: seq<Mutation>)
    ensures |r| == |chunks|
  {
    seq(|chunks|, n requires 0 <= n < |chunks| => Put(ChunkKey(key, n), chunks[n]))
  }

  function StoredChunks(p: PreparedValue): seq<Key> {
    if p.encoding.Inline? then [] else Chunks(p.value)
  }

  function Expand(p: PreparedMutation): seq<Mutation> {
    match p
    case ChunkablePut(key, value) =>
      [ClearChunks(key)] + ChunkPuts(key, StoredChunks(value)) + [Put(key, Head(value))]
    case InlinePut(key, value) => [Put(key, Head(value))]
    case ChunkableDelete(key) => [ClearChunks(key), Delete(key)]
    case InlineDelete(key) => [Delete(key)]
  }

  /** The native batch for a logical batch: every change qualifies before any is expanded. */
  function LowerBatch(changes: seq<Mutation>, limit: nat): Result<seq<Mutation>> {
    if changes == [] then Ok([])
    else
      var before :- LowerBatch(changes[..|changes| - 1], limit);
      var last :- PrepareMutation(changes[|changes| - 1], limit);
      Ok(before + Expand(last))
  }

  function ExpandEach(prepared: seq<PreparedMutation>): seq<Mutation> {
    if prepared == [] then [] else ExpandEach(prepared[..|prepared| - 1]) + Expand(prepared[|prepared| - 1])
  }

  /** A batch that fails to lower at some position fails as a whole. */
  lemma {:induction false} LowerBatchPrefix(changes: seq<Mutation>, limit: nat, n: nat)
    requires n <= |changes| && LowerBatch(changes[..n], limit).Err?
    ensures LowerBatch(changes, limit) == LowerBatch(changes[..n], limit)
    decreases |changes|
  {
    if n == |changes| {
      assert changes[..n] == changes;
    } else {
      assert changes[..|changes| - 1][..n] == changes[..n];
      LowerBatchPrefix(changes[..|changes| - 1], limit, n);
    }
  }

  method ExpandMutations(changes: seq<Mutation>, limit: nat) returns (r: Result<seq<Mutation>>)
    ensures r == LowerBatch(changes, limit)
  {
    var prepared: seq<PreparedMutation> := [];
    for i := 0 to |changes|
      invariant |prepared| == i
      invariant LowerBatch(changes[..i], limit) == Ok(ExpandEach(prepared))
    {
      assert changes[..i + 1][..i] == changes[..i];
      var one := PrepareMutation(changes[i], limit);
      if one.Err? {
        LowerBatchPrefix(changes, limit, i + 1);
        return Err(one.error);
      }
      assert (prepared + [one.value])[..i] == prepared;
      prepared := prepared + [one.value];
    }
    assert changes[..|changes|] == changes;
    var expanded: seq<Mutation> := [];
    for i := 0 to |prepared|
      invariant expanded == ExpandEach(prepared[..i])
    {
      assert prepared[..i + 1][..i] == prepared[..i];
      expanded := ExpandInto(prepared[i], expanded);
    }
    assert prepared[..|prepared|] == prepared;
    return Ok(expanded);
  }

  /** Pushes the rows of one prepared mutation behind those already expanded. */
  method ExpandInto(p: PreparedMutation, expanded: seq<Mutation>) returns (r: seq<Mutation>)
    ensures r == expanded + Expand(p)
  {
    r := expanded;
    match p {
      case ChunkablePut(key, value) =>
        var head, chunks := Encode(value);
        var begin, end := ClearRange(key);
        r := r + [DeleteRange(begin, end)];
        var cleared := r;
        for n := 0 to |chunks|
          invariant r == cleared + ChunkPuts(key, chunks)[..n]
        {
          r := r + [Put(ChunkKey(key, n), chunks[n])];
        }
        r := r + [Put(key, head)];
      case InlinePut(key, value) =>
        var head, _ := Encode(value);
        r := r + [Put(key, head)];
      case ChunkableDelete(key) =>
        var begin, end := ClearRange(key);
        r := r + [DeleteRange(begin, end)];
        r := r + [Delete(key)];
      case InlineDelete(key) =>
        r := r + [Delete(key)];
    }
  }

  /** When a store admits a logical change, stated without the lowering. */
  predicate Admissible(m: Mutation, limit: nat) {
    match m
    case Put(key, value) =>
      && |value| <= KV_MAX_VALUE_BYTES
      && (|value| + 1 <= limit || KV_CHUNK_BYTES <= limit)
      && (limit == USIZE_MAX || |key| <= 65535)
    case PutUnchunked(key, value) => |value| <= KV_MAX_VALUE_BYTES && |value| + 1 <= limit
    case Delete(key) => limit == USIZE_MAX || |key| <= 65535
    case DeleteUnchunked(key) => true
    case DeleteRange(_, _) => false
  }

  /** A batch is staged exactly when every one of its changes is admissible. */
  lemma {:induction false} LowerBatchAdmits(changes: seq<Mutation>, limit: nat)
    requires limit <= USIZE_MAX
    ensures LowerBatch(changes, limit).Ok? <==> forall i :: 0 <= i < |changes| ==> Admissible(changes[i], limit)
    decreases |changes|
  {
    if changes != [] {
      var before, last := changes[..|changes| - 1], changes[|changes| - 1];
      LowerBatchAdmits(before, limit);
      assert forall i :: 0 <= i < |before| ==> before[i] == changes[i];
      assert PrepareMutation(last, limit).Ok? <==> Admissible(last, limit);
    }
  }

  // ----- The representation invariant -----

  /** One store: its driver's value limit, and the keys of formats that never use chunks. */
  datatype Profile = Profile(limit: nat, fixed: iset<Key>)

  /** The rows that belong to a key besides its head. */
  predicate Owns(key: Key, x: Key) {
    Addressable(key) && ChunkPrefix(key) <= x
  }

  ghost predicate NoChunks(store: Store, key: Key) {
    forall x :: x in store ==> !Owns(key, x)
  }

  ghost predicate IsChunkRow(key: Key, count: nat, x: Key) {
    exists n :: 0 <= n < count && x == ChunkKey(key, n)
  }

  /** The chunk rows of a key are `chunks`, in order and without extras. */
  ghost predicate ChunksAre(store: Store, key: Key, chunks: seq<Key>) {
    && (forall n :: 0 <= n < |chunks| ==> Get(store, ChunkKey(key, n)) == Some(chunks[n]))
    && (forall x :: x in store && Owns(key, x) ==> IsChunkRow(key, |chunks|, x))
  }

  ghost predicate HoldsInline(store: Store, key: Key, value: Key) {
    Get(store, key) == Some(value + [KV_VALUE_INLINE_TAG]) && NoChunks(store, key)
  }

  ghost predicate HoldsChunked(store: Store, key: Key, value: Key) {
    && 0 < |value| && Addressable(key)
    && Get(store, key) == Some(ChunkedHead(|value|)) && ChunksAre(store, key, Chunks(value))
  }

  /** The rows of one logical key stand for its logical value. */
  ghost predicate Holds(store: Store, key: Key, value: Option<Key>) {
    match value
    case None => Get(store, key) == None && NoChunks(store, key)
    case Some(v) => |v| <= KV_MAX_VALUE_BYTES && (HoldsInline(store, key, v) || HoldsChunked(store, key, v))
  }

  /** The native rows stand for the logical map, with no row left over. */
  ghost predicate Represents(profile: Profile, store: Store, logical: Store) {
    && (forall k :: k in logical ==> Logical(k))
    && (forall k :: Logical(k) ==> Holds(store, k, Get(logical, k)))
    && (forall k :: k in profile.fixed ==> NoChunks(store, k))
    && (forall x :: x in store ==> Logical(x) || exists k :: Logical(k) && Owns(k, x))
    && (forall x :: x in store ==> |store[x]| <= profile.limit)
    && (profile.limit == USIZE_MAX ==> forall x :: x in store ==> Logical(x))
  }

  ghost predicate NamesChunk(store: Store, k: Key, n: nat, x: Key) {
    && k in store && Logical(k) && x == ChunkKey(k, n)
    && ParseHeader(store[k]).Ok? && ParseHeader(store[k]).value.ChunkedHeader? && n < ParseHeader(store[k]).value.count
  }

  /** A key's head tells how its value is laid out. */
  lemma HeadParses(store: Store, k: Key, value: Key)
    requires Holds(store, k, Some(value))
    ensures HoldsInline(store, k, value) ==> ParseHeader(store[k]) == Ok(InlineHeader(value))
    ensures HoldsChunked(store, k, value) ==> ParseHeader(store[k]) == Ok(ChunkedHeader(|value|, ChunkCount(|value|)))
  {
    HeaderRoundTrip(InlineHeader(value), []);
    if 0 < |value| {
      HeaderRoundTrip(ChunkedHeader(|value|, ChunkCount(|value|)), []);
    }
  }

  lemma ChunkRowHasHead(profile: Profile, store: Store, logical: Store, x: Key) returns (k: Key, n: nat)
    requires Represents(profile, store, logical) && !Logical(x) && x in store
    ensures NamesChunk(store, k, n, x)
  {
    k :| Logical(k) && Owns(k, x);
    assert Holds(store, k, Get(logical, k));
    assert HoldsChunked(store, k, logical[k]);
    HeadParses(store, k, logical[k]);
    assert IsChunkRow(k, |Chunks(logical[k])|, x);
    n :| 0 <= n < |Chunks(logical[k])| && x == ChunkKey(k, n);
  }

  lemma HeadHasChunkRow(profile: Profile, store: Store, logical: Store, k: Key, n: nat, x: Key)
    requires Represents(profile, store, logical) && NamesChunk(store, k, n, x)
    ensures x in store
  {
    assert Holds(store, k, Get(logical, k));
    HeadParses(store, k, logical[k]);
    assert HoldsChunked(store, k, logical[k]);
    assert Get(store, ChunkKey(k, n)) == Some(Chunks(logical[k])[n]);
  }

  /** Chunk rows are exactly those that the current chunked heads name. */
  lemma ChunkRowsAreNamed(profile: Profile, store: Store, logical: Store, x: Key)
    requires Represents(profile, store, logical) && !Logical(x)
    ensures x in store <==> exists k: Key, n: nat :: NamesChunk(store, k, n, x)
  {
    if x in store {
      var k, n := ChunkRowHasHead(profile, store, logical, x);
    }
    if k: Key, n: nat :| NamesChunk(store, k, n, x) {
      HeadHasChunkRow(profile, store, logical, k, n, x);
    }
  }

  // ----- One rewritten key -----

  /** Every row of `key` is replaced by `head` and `chunks`; no other row changes. */
  ghost predicate Rewritten(store: Store, after: Store, key: Key, head: Option<Key>, chunks: seq<Key>) {
    && Get(after, key) == head
    && ChunksAre(after, key, chunks)
    && (forall x :: x != key && !Owns(key, x) ==> Get(after, x) == Get(store, x))
  }

  /** How a logical value may be laid out. */
  ghost predicate Encodes(profile: Profile, key: Key, value: Option<Key>, head: Option<Key>, chunks: seq<Key>) {
    match value
    case None => head == None && chunks == []
    case Some(v) =>
      && |v| <= KV_MAX_VALUE_BYTES && head.Some? && |head.value| <= profile.limit
      && (|| (head.value == v + [KV_VALUE_INLINE_TAG] && chunks == [])
          || (&& 0 < |v| && Addressable(key) && key !in profile.fixed
              && head.value == ChunkedHead(|v|) && chunks == Chunks(v)
              && KV_CHUNK_BYTES <= profile.limit < USIZE_MAX))
  }

  function Update(logical: Store, key: Key, value: Option<Key>): Store {
    match value
    case None => logical - {key}
    case Some(v) => logical[key := v]
  }

  lemma OtherKeyUntouched(key: Key, other: Key, x: Key)
    requires Logical(key) && Logical(other) && key != other && Owns(other, x)
    ensures x != key && !Owns(key, x) && !Logical(x)
  {
    ChunkPrefixParts(other, x);
    if Owns(key, x) { ChunkPrefixesDisjoint(key, other, x); }
  }

  /** A logical key different from the rewritten one keeps its rows and their meaning. */
  lemma HoldsFrame(store: Store, after: Store, key: Key, head: Option<Key>, chunks: seq<Key>, other: Key,
      value: Option<Key>)
    requires Rewritten(store, after, key, head, chunks)
    requires Logical(key) && Logical(other) && key != other && Holds(store, other, value)
    ensures Holds(after, other, value)
  {
    assert !Owns(key, other) by { if Owns(key, other) { ChunkPrefixParts(key, other); } }
    assert Get(after, other) == Get(store, other);
    forall x | Owns(other, x) ensures Get(after, x) == Get(store, x) {
      OtherKeyUntouched(key, other, x);
    }
    if value.Some? && HoldsChunked(store, other, value.value) {
      var cs := Chunks(value.value);
      forall n | 0 <= n < |cs| ensures Get(after, ChunkKey(other, n)) == Some(cs[n]) {
        assert Owns(other, ChunkKey(other, n));
      }
      assert ChunksAre(after, other, cs);
    } else {
      assert NoChunks(after, other);
    }
  }

  /** Rewriting one key is one update of the logical map. */
  lemma RewriteRefines(profile: Profile, store: Store, after: Store, logical: Store,
                       key: Key, value: Option<Key>, head: Option<Key>, chunks: seq<Key>)
    requires Represents(profile, store, logical) && Logical(key)
    requires Rewritten(store, after, key, head, chunks) && Encodes(profile, key, value, head, chunks)
    ensures Represents(profile, after, Update(logical, key, value))
  {
    var logical' := Update(logical, key, value);
    assert Holds(after, key, value);
    forall k | Logical(k) ensures Holds(after, k, Get(logical', k)) {
      if k != key {
        HoldsFrame(store, after, key, head, chunks, k, Get(logical, k));
      }
    }
    forall k | k in profile.fixed ensures NoChunks(after, k) {
      FixedStaysUnchunked(profile, store, after, key, value, head, chunks, k);
    }
    forall x | x in after
      ensures Logical(x) || exists k :: Logical(k) && Owns(k, x)
      ensures |after[x]| <= profile.limit
      ensures profile.limit == USIZE_MAX ==> Logical(x)
    {
      if Owns(key, x) {
        var n :| 0 <= n < |chunks| && x == ChunkKey(key, n);
        assert Get(after, x) == Some(chunks[n]);
      } else if x != key {
        assert Get(after, x) == Get(store, x);
      }
    }
  }

  lemma FixedStaysUnchunked(profile: Profile, store: Store, after: Store,
                            key: Key, value: Option<Key>, head: Option<Key>, chunks: seq<Key>, k: Key)
    requires Rewritten(store, after, key, head, chunks) && Encodes(profile, key, value, head, chunks)
    requires Logical(key) && k in profile.fixed && NoChunks(store, k)
    ensures NoChunks(after, k)
  {
    forall x | x in after ensures !Owns(k, x) {
      if x != key && !Owns(key, x) {
        assert Get(after, x) == Get(store, x);
      } else if Owns(k, x) {
        ChunkPrefixParts(k, x);
        ChunkPrefixesDisjoint(k, key, x);
      }
    }
  }

  // ----- The effect of each lowered mutation -----

  lemma ClearEffect(store: Store, key: Key)
    requires Addressable(key)
    ensures forall x :: Get(Apply(store, ClearChunks(key)), x) == if Owns(key, x) then None else Get(store, x)
  {
  }

  /** Staging chunk rows over cleared rows leaves exactly those chunks. */
  lemma {:induction false} ChunkPutsEffect(store: Store, key: Key, chunks: seq<Key>, n: nat)
    requires Addressable(key) && NoChunks(store, key) && n <= |chunks| <= 65535
    ensures ChunksAre(ApplyAll(store, ChunkPuts(key, chunks)[..n]), key, chunks[..n])
    ensures forall x :: !Owns(key, x) ==> Get(ApplyAll(store, ChunkPuts(key, chunks)[..n]), x) == Get(store, x)
    decreases n
  {
    if n > 0 {
      ChunkPutsEffect(store, key, chunks, n - 1);
      var puts := ChunkPuts(key, chunks);
      assert puts[..n][..n - 1] == puts[..n - 1];
      var before, after := ApplyAll(store, puts[..n - 1]), ApplyAll(store, puts[..n]);
      assert after == before[ChunkKey(key, n - 1) := chunks[n - 1]];
      assert Owns(key, ChunkKey(key, n - 1));
      forall m | 0 <= m < n ensures Get(after, ChunkKey(key, m)) == Some(chunks[..n][m]) {
        ChunkKeysDistinct(key, m, key, n - 1);
      }
      forall x | x in after && Owns(key, x) ensures IsChunkRow(key, n, x) {
        if x != ChunkKey(key, n - 1) {
          var m :| 0 <= m < n - 1 && x == ChunkKey(key, m);
        }
      }
    }
  }

  lemma ChunkablePutEffect(store: Store, key: Key, chunks: seq<Key>, head: Key)
    requires Addressable(key) && Logical(key) && |chunks| <= 65535
    ensures Rewritten(store, ApplyAll(store, [ClearChunks(key)] + ChunkPuts(key, chunks) + [Put(key, head)]), key,
            Some(head), chunks)
  {
    var puts := ChunkPuts(key, chunks);
    ClearEffect(store, key);
    var cleared := Apply(store, ClearChunks(key));
    assert NoChunks(cleared, key) by {
      forall x | x in cleared ensures !Owns(key, x) { assert Get(cleared, x).Some?; }
    }
    ChunkPutsEffect(cleared, key, chunks, |chunks|);
    assert puts[..|puts|] == puts && chunks[..|chunks|] == chunks;
    ApplyAllAppend(store, [ClearChunks(key)], puts);
    ApplyAllAppend(store, [ClearChunks(key)] + puts, [Put(key, head)]);
    assert ApplyAll(store, [ClearChunks(key)]) == cleared;
    var filled := ApplyAll(cleared, puts);
    var after := filled[key := head];
    assert !Owns(key, key) by { if Owns(key, key) { ChunkPrefixParts(key, key); } }
    assert ChunksAre(after, key, chunks) by {
      forall n | 0 <= n < |chunks| ensures Get(after, ChunkKey(key, n)) == Some(chunks[n]) {
        assert ChunkKey(key, n) != key;
        assert Get(filled, ChunkKey(key, n)) == Some(chunks[n]);
      }
    }
  }

  // ----- Whole batches and whole runs -----

  /** The discipline callers follow: logical keys only, and formats declared unchunked are
      written through their own mutations. */
  ghost predicate Disciplined(profile: Profile, m: Mutation) {
    match m
    case Put(key, _) => Logical(key) && key !in profile.fixed
    case PutUnchunked(key, _) => Logical(key) && key in profile.fixed
    case Delete(key) => Logical(key)
    case DeleteUnchunked(key) => Logical(key) && key in profile.fixed
    case DeleteRange(_, _) => true
  }

  /** What a change means to the plain map. */
  function ApplyLogical(logical: Store, m: Mutation): Store {
    match m
    case Put(key, value) => logical[key := value]
    case PutUnchunked(key, value) => logical[key := value]
    case Delete(key) => logical - {key}
    case DeleteUnchunked(key) => logical - {key}
    case DeleteRange(_, _) => logical
  }

  function ApplyLogicalAll(logical: Store, ms: seq<Mutation>): Store {
    if ms == [] then logical else ApplyLogical(ApplyLogicalAll(logical, ms[..|ms| - 1]), ms[|ms| - 1])
  }

  lemma PlainWriteEffect(store: Store, after: Store, key: Key, head: Option<Key>)
    requires NoChunks(store, key) && after == Update(store, key, head)
    requires Logical(key)
    ensures Rewritten(store, after, key, head, [])
  {
    assert !Owns(key, key) by { if Owns(key, key) { ChunkPrefixParts(key, key); } }
  }

  lemma ClearedDeleteEffect(store: Store, key: Key)
    requires Addressable(key) && Logical(key)
    ensures Rewritten(store, ApplyAll(store, [ClearChunks(key), Delete(key)]), key, None, [])
  {
    ClearEffect(store, key);
    var cleared := Apply(store, ClearChunks(key));
    var ms := [ClearChunks(key), Delete(key)];
    assert ms[..1] == [ClearChunks(key)] && ms[..1][..0] == [];
    assert ApplyAll(store, ms[..1]) == cleared;
    var after := cleared - {key};
    assert ApplyAll(store, ms) == after;
    forall x | x in after ensures !Owns(key, x) { assert Get(cleared, x).Some?; }
  }

  lemma UnlimitedHasNoChunks(profile: Profile, store: Store, logical: Store, key: Key)
    requires Represents(profile, store, logical) && (profile.limit == USIZE_MAX || key in profile.fixed)
    ensures NoChunks(store, key)
  {
    if profile.limit == USIZE_MAX {
      forall x | x in store ensures !Owns(key, x) {
        if Owns(key, x) { ChunkPrefixParts(key, x); }
      }
    }
  }

  /** A prepared value always has a layout its store admits. */
  lemma PreparedEncodes(profile: Profile, key: Key, value: Key, p: PreparedValue)
    requires PrepareValue(value, profile.limit) == Ok(p)
    requires p.encoding.Inline? || (Addressable(key) && key !in profile.fixed && profile.limit < USIZE_MAX)
    ensures Encodes(profile, key, Some(value), Some(Head(p)), StoredChunks(p)) && |StoredChunks(p)| <= 65535
  {
  }

  lemma PutRefines(profile: Profile, store: Store, logical: Store, key: Key, p: PreparedValue)
    requires Represents(profile, store, logical) && Logical(key) && key !in profile.fixed
    requires profile.limit < USIZE_MAX && Addressable(key) && PrepareValue(p.value, profile.limit) == Ok(p)
    ensures Represents(profile, ApplyAll(store, Expand(ChunkablePut(key, p))), logical[key := p.value])
  {
    PreparedEncodes(profile, key, p.value, p);
    ChunkablePutEffect(store, key, StoredChunks(p), Head(p));
    RewriteRefines(profile, store, ApplyAll(store, Expand(ChunkablePut(key, p))), logical, key, Some(p.value),
      Some(Head(p)), StoredChunks(p));
  }

  lemma InlinePutRefines(profile: Profile, store: Store, logical: Store, key: Key, p: PreparedValue)
    requires Represents(profile, store, logical) && Logical(key)
    requires profile.limit == USIZE_MAX || key in profile.fixed
    requires PrepareValue(p.value, profile.limit) == Ok(p) && p.encoding.Inline?
    ensures Represents(profile, ApplyAll(store, Expand(InlinePut(key, p))), logical[key := p.value])
  {
    var after := ApplyAll(store, [Put(key, Head(p))]);
    ApplyOne(store, Put(key, Head(p)));
    UnlimitedHasNoChunks(profile, store, logical, key);
    PreparedEncodes(profile, key, p.value, p);
    PlainWriteEffect(store, after, key, Some(Head(p)));
    RewriteRefines(profile, store, after, logical, key, Some(p.value), Some(Head(p)), []);
  }

  lemma DeleteRefines(profile: Profile, store: Store, logical: Store, key: Key)
    requires Represents(profile, store, logical) && Logical(key)
    ensures Addressable(key) ==> Represents(profile, ApplyAll(store, Expand(ChunkableDelete(key))), logical - {key})
    ensures profile.limit == USIZE_MAX || key in profile.fixed
            ==> Represents(profile, ApplyAll(store, Expand(InlineDelete(key))), logical - {key})
  {
    if Addressable(key) {
      ClearedDeleteEffect(store, key);
      RewriteRefines(profile, store, ApplyAll(store, [ClearChunks(key), Delete(key)]), logical, key, None, None, []);
    }
    if profile.limit == USIZE_MAX || key in profile.fixed {
      var after := ApplyAll(store, [Delete(key)]);
      ApplyOne(store, Delete(key));
      UnlimitedHasNoChunks(profile, store, logical, key);
      PlainWriteEffect(store, after, key, None);
      RewriteRefines(profile, store, after, logical, key, None, None, []);
    }
  }

  /** One lowered change updates the logical map by that change alone. */
  lemma ChangeRefines(profile: Profile, store: Store, logical: Store, m: Mutation)
    requires profile.limit <= USIZE_MAX
    requires Represents(profile, store, logical) && Disciplined(profile, m)
    requires PrepareMutation(m, profile.limit).Ok?
    ensures Represents(profile, ApplyAll(store, Expand(PrepareMutation(m, profile.limit).value)),
            ApplyLogical(logical, m))
  {
    match PrepareMutation(m, profile.limit).value {
      case ChunkablePut(key, p) => PutRefines(profile, store, logical, key, p);
      case InlinePut(key, p) => InlinePutRefines(profile, store, logical, key, p);
      case ChunkableDelete(key) => DeleteRefines(profile, store, logical, key);
      case InlineDelete(key) => DeleteRefines(profile, store, logical, key);
    }
  }

  /** One staged batch behaves as the same batch on the plain map. */
  lemma {:induction false} BatchRefines(profile: Profile, store: Store, logical: Store, changes: seq<Mutation>)
    requires profile.limit <= USIZE_MAX
    requires Represents(profile, store, logical)
    requires forall i :: 0 <= i < |changes| ==> Disciplined(profile, changes[i])
    requires LowerBatch(changes, profile.limit).Ok?
    ensures Represents(profile, ApplyAll(store, LowerBatch(changes, profile.limit).value),
            ApplyLogicalAll(logical, changes))
    decreases |changes|
  {
    if changes != [] {
      var before, last := changes[..|changes| - 1], changes[|changes| - 1];
      BatchRefines(profile, store, logical, before);
      var lowered := LowerBatch(before, profile.limit).value;
      var expanded := Expand(PrepareMutation(last, profile.limit).value);
      ApplyAllAppend(store, lowered, expanded);
      ChangeRefines(profile, ApplyAll(store, lowered), ApplyLogicalAll(logical, before), last);
    }
  }

  /** Rows after a run of staged batches; a rejected batch stages nothing. */
  function RunStore(store: Store, batches: seq<seq<Mutation>>, limit: nat): Store {
    if batches == [] then store
    else
      var before := RunStore(store, batches[..|batches| - 1], limit);
      match LowerBatch(batches[|batches| - 1], limit)
      case Ok(native) => ApplyAll(before, native)
      case Err(_) => before
  }

  predicate BatchAdmitted(changes: seq<Mutation>, limit: nat) {
    forall i :: 0 <= i < |changes| ==> Admissible(changes[i], limit)
  }

  /** The same run on a plain map: admitted batches apply, others do not. */
  function RunLogical(logical: Store, batches: seq<seq<Mutation>>, limit: nat): Store {
    if batches == [] then logical
    else
      var before := RunLogical(logical, batches[..|batches| - 1], limit);
      var last := batches[|batches| - 1];
      if BatchAdmitted(last, limit) then ApplyLogicalAll(before, last) else before
  }

  /** The headline refinement: from an empty store, after any run of staged batches, the
      native rows stand for what the plain map holds. */
  lemma {:induction false} RunRefines(profile: Profile, batches: seq<seq<Mutation>>)
    requires profile.limit <= USIZE_MAX
    requires forall b, i :: 0 <= b < |batches| && 0 <= i < |batches[b]| ==> Disciplined(profile, batches[b][i])
    ensures Represents(profile, RunStore(map[], batches, profile.limit), RunLogical(map[], batches, profile.limit))
    decreases |batches|
  {
    if batches != [] {
      var before, last := batches[..|batches| - 1], batches[|batches| - 1];
      RunRefines(profile, before);
      LowerBatchAdmits(last, profile.limit);
      if BatchAdmitted(last, profile.limit) {
        BatchRefines(profile, RunStore(map[], before, profile.limit), RunLogical(map[], before, profile.limit), last);
      }
    }
  }
}
