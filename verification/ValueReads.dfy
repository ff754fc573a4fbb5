/** Admission budgets for native responses. */
module ValueAllowance {
  import opened Outcomes
  import opened Bytes
  import opened ValueLayout

  function Total(sizes: seq<nat>): nat {
    if sizes == [] then 0 else Total(sizes[..|sizes| - 1]) + sizes[|sizes| - 1]
  }

  lemma {:induction false} TotalAppend(a: seq<nat>, b: seq<nat>)
    ensures Total(a + b) == Total(a) + Total(b)
    decreases |b|
  {
    if b == [] {
      assert a + b == a;
    } else {
      assert (a + b)[..|a + b| - 1] == a + b[..|b| - 1];
      TotalAppend(a, b[..|b| - 1]);
    }
  }

  /** Pointwise bounds add up. */
  lemma {:induction false} TotalBound(a: seq<nat>, b: seq<nat>, extra: nat)
    requires |a| == |b| && forall i :: 0 <= i < |a| ==> a[i] <= b[i] + extra
    ensures Total(a) <= Total(b) + |a| * extra
    decreases |a|
  {
    if a != [] {
      TotalBound(a[..|a| - 1], b[..|b| - 1], extra);
      assert |a| * extra == (|a| - 1) * extra + extra;
    }
  }

  lemma {:induction false} TotalAtMost(a: seq<nat>, bound: nat)
    requires forall i :: 0 <= i < |a| ==> a[i] <= bound
    ensures Total(a) <= |a| * bound
    decreases |a|
  {
    if a != [] {
      TotalAtMost(a[..|a| - 1], bound);
      assert |a| * bound == (|a| - 1) * bound + bound;
    }
  }

  lemma {:induction false} TotalPrefix(a: seq<nat>, n: nat)
    requires n <= |a|
    ensures Total(a[..n]) <= Total(a)
  {
    assert a == a[..n] + a[n..];
    TotalAppend(a[..n], a[n..]);
  }

  /** A response of these sizes fits a scalar and a batch limit. */
  predicate Admits(maximum: nat, batch: nat, sizes: seq<nat>) {
    (forall i :: 0 <= i < |sizes| ==> sizes[i] <= maximum) && Total(sizes) <= batch
  }

  lemma AdmitsPrefix(maximum: nat, batch: nat, sizes: seq<nat>, n: nat)
    requires n <= |sizes| && !Admits(maximum, batch, sizes[..n])
    ensures !Admits(maximum, batch, sizes)
  {
    TotalPrefix(sizes, n);
    assert forall i :: 0 <= i < n ==> sizes[..n][i] == sizes[i];
  }

  /** One more value is admitted when it fits what is left. */
  lemma AdmitsOneMore(maximum: nat, batch: nat, sizes: seq<nat>, n: nat)
    requires n < |sizes| && Admits(maximum, batch, sizes[..n])
    ensures Total(sizes[..n + 1]) == Total(sizes[..n]) + sizes[n]
    ensures Admits(maximum, batch, sizes[..n + 1]) <==> sizes[n] <= maximum && sizes[n] <= batch - Total(sizes[..n])
    ensures !Admits(maximum, batch, sizes[..n + 1]) ==> !Admits(maximum, batch, sizes)
  {
    assert sizes[..n + 1][..n] == sizes[..n];
    assert forall i :: 0 <= i < n ==> sizes[..n + 1][i] == sizes[..n][i];
    if !Admits(maximum, batch, sizes[..n + 1]) {
      AdmitsPrefix(maximum, batch, sizes, n + 1);
    }
  }

  /** When the budget for `count` head reads is representable. */
  predicate HeadBudgetFits(count: nat, maximum: nat, batch: nat) {
    && count * KV_CHUNK_HEADER_BYTES <= USIZE_MAX
    && Min(batch, count * maximum) + count * KV_CHUNK_HEADER_BYTES <= USIZE_MAX
    && maximum + KV_CHUNK_HEADER_BYTES <= USIZE_MAX
  }

  class KvValueAllowance {
    const maximum: nat
    var remaining: nat

    constructor (maximumValueBytes: nat, maximumBatchBytes: nat)
      ensures maximum == maximumValueBytes && remaining == maximumBatchBytes
    {
      maximum := maximumValueBytes;
      remaining := maximumBatchBytes;
    }

    /** Charges one value, or refuses it and charges nothing. */
    method RequireValueBytes(bytes: nat) returns (ok: bool)
      modifies this
      ensures ok <==> bytes <= maximum && bytes <= old(remaining)
      ensures remaining == if ok then old(remaining) - bytes else old(remaining)
    {
      if bytes > maximum {
        return false;
      }
      if bytes > remaining {
        return false;
      }
      remaining := remaining - bytes;
      return true;
    }

    /** The budget of the head reads that precede hydration. */
    method ForHeadReads(count: nat) returns (r: Option<KvValueAllowance>)
      requires maximum <= USIZE_MAX && remaining <= USIZE_MAX
      ensures r.Some? <==> HeadBudgetFits(count, maximum, remaining)
      ensures r.Some? ==> fresh(r.value)
      ensures r.Some? ==> r.value.maximum == maximum + KV_CHUNK_HEADER_BYTES
      ensures r.Some? ==> r.value.remaining == Min(remaining, count * maximum) + count * KV_CHUNK_HEADER_BYTES
    {
      var logical := Min(count * maximum, USIZE_MAX);
      var framing := count * KV_CHUNK_HEADER_BYTES;
      if framing > USIZE_MAX {
        return None;
      }
      var batch := Min(remaining, logical) + framing;
      if batch > USIZE_MAX || maximum + KV_CHUNK_HEADER_BYTES > USIZE_MAX {
        return None;
      }
      var heads := new KvValueAllowance(maximum + KV_CHUNK_HEADER_BYTES, batch);
      return Some(heads);
    }
  }
}

/** Batch reads: heads first, then the planned chunk rows, then reconstruction. */
module ValueReads {
  import opened Outcomes
  import opened Bytes
  import opened ValueLayout
  import opened Lowering
  import opened ValueAllowance

  /** A requested key with its raw head, later its logical value. */
  datatype Slot = Slot(key: Key, value: Option<Key>)

  datatype ChunkedValue = ChunkedValue(slot: nat, length: nat, begin: nat, end: nat)

  datatype Hydration = Hydration(values: seq<ChunkedValue>, keys: seq<Key>, bytes: nat)

  // ----- What a read means, on any store -----

  predicate HeadOk(raw: Option<Key>) {
    raw.Some? ==> ParseHeader(raw.value).Ok?
  }

  predicate IsChunked(raw: Option<Key>) {
    raw.Some? && ParseHeader(raw.value).Ok? && ParseHeader(raw.value).value.ChunkedHeader?
  }

  /** The logical length a slot announces; absent and unreadable heads count nothing. */
  function SlotLength(raw: Option<Key>): nat {
    if raw.None? then 0
    else match LogicalValueLen(raw.value)
      case Ok(length) => length
      case Err(_) => 0
  }

  function SlotCount(raw: Option<Key>): nat {
    if IsChunked(raw) then ParseHeader(raw.value).value.count else 0
  }

  function Lengths(slots: seq<Slot>): (r: seq<nat>)
    ensures |r| == |slots|
  {
    seq(|slots|, i requires 0 <= i < |slots| => SlotLength(slots[i].value))
  }

  /** Every chunk row a chunked head names is present with the length its place demands. */
  predicate ChunksIntact(store: Store, slot: Slot) {
    IsChunked(slot.value) ==>
      && Addressable(slot.key)
      && forall n :: 0 <= n < SlotCount(slot.value) ==>
           && ChunkKey(slot.key, n) in store
           && RequireChunkLength(store[ChunkKey(slot.key, n)], SlotLength(slot.value), n)
  }

  function RowOr(store: Store, key: Key): Key {
    if key in store then store[key] else []
  }

  /** The bytes under a key's first `count` chunk rows. */
  function Rebuilt(store: Store, key: Key, count: nat): Key {
    if count == 0 then [] else Rebuilt(store, key, count - 1) + RowOr(store, ChunkKey(key, count - 1))
  }

  function Resolved(store: Store, slot: Slot): Option<Key> {
    if slot.value.None? || ParseHeader(slot.value.value).Err? then None
    else match ParseHeader(slot.value.value).value
      case InlineHeader(v) => Some(v)
      case ChunkedHeader(_, count) => Some(Rebuilt(store, slot.key, count))
  }

  /** Whatever the store holds, a value that resolves has exactly the length its head announces. */
  lemma ResolvedLength(store: Store, slot: Slot)
    requires slot.value.Some? && HeadOk(slot.value) && ChunksIntact(store, slot)
    ensures Resolved(store, slot).Some? && |Resolved(store, slot).value| == SlotLength(slot.value)
  {
    if IsChunked(slot.value) {
      RebuiltLength(store, slot, SlotCount(slot.value));
    }
  }

  lemma {:induction false} RebuiltLength(store: Store, slot: Slot, n: nat)
    requires IsChunked(slot.value) && ChunksIntact(store, slot) && n <= SlotCount(slot.value)
    ensures |Rebuilt(store, slot.key, n)| == Min(SlotLength(slot.value), n * KV_CHUNK_BYTES)
    decreases n
  {
    if n > 0 {
      RebuiltLength(store, slot, n - 1);
      NextCut(SlotLength(slot.value), n - 1);
    }
  }

  function ResolvedAll(store: Store, slots: seq<Slot>): seq<Slot> {
    seq(|slots|, i requires 0 <= i < |slots| => Slot(slots[i].key, Resolved(store, slots[i])))
  }

  /** When a batch of raw heads resolves: heads parse, the logical budget admits the
      lengths, and every named chunk row is intact. */
  predicate Resolvable(store: Store, slots: seq<Slot>, maximum: nat, batch: nat) {
    && (forall i :: 0 <= i < |slots| ==> HeadOk(slots[i].value) && ChunksIntact(store, slots[i]))
    && Admits(maximum, batch, Lengths(slots))
  }

  // ----- The read plan -----

  function KeyRun(key: Key, count: nat): (r: seq<Key>)
    ensures |r| == count
  {
    seq(count, n requires 0 <= n < count => ChunkKey(key, n))
  }

  /** Which chunk rows to fetch, and where each run of them belongs. */
  function Plan(slots: seq<Slot>): (p: Hydration)
    ensures p.values == [] ==> p.keys == []
    ensures p.values != [] ==> p.values[|p.values| - 1].end == |p.keys|
  {
    if slots == [] then Hydration([], [], 0)
    else
      var before, last := Plan(slots[..|slots| - 1]), slots[|slots| - 1];
      if IsChunked(last.value) then
        var count := SlotCount(last.value);
        Hydration(before.values
                  + [ChunkedValue(|slots| - 1, SlotLength(last.value), |before.keys|, |before.keys| + count)],
                  before.keys + KeyRun(last.key, count), before.bytes + SlotLength(last.value))
      else before
  }

  /** What slots hold after their heads are taken: inline values, and nothing where chunks are due. */
  function Taken(slot: Slot): Slot {
    if slot.value.Some? && ParseHeader(slot.value.value).Ok? && ParseHeader(slot.value.value).value.InlineHeader? then
      Slot(slot.key, Some(ParseHeader(slot.value.value).value.value))
    else Slot(slot.key, None)
  }

  predicate ChunkedAddressable(slots: seq<Slot>) {
    forall i :: 0 <= i < |slots| && IsChunked(slots[i].value) ==> Addressable(slots[i].key)
  }

  predicate HeadsOk(slots: seq<Slot>) {
    forall i :: 0 <= i < |slots| ==> HeadOk(slots[i].value)
  }

  /** The plan grows by one slot at a time. */
  lemma PlanStep(slots: seq<Slot>, i: nat)
    requires i < |slots|
    ensures var before, after := Plan(slots[..i]), Plan(slots[..i + 1]);
      if IsChunked(slots[i].value) then
        var count := SlotCount(slots[i].value);
        after == Hydration(before.values
                           + [ChunkedValue(i, SlotLength(slots[i].value), |before.keys|, |before.keys| + count)],
                           before.keys + KeyRun(slots[i].key, count),
                           before.bytes + SlotLength(slots[i].value))
      else after == before
  {
    assert slots[..i + 1][..i] == slots[..i];
  }

  /** Where the chunk rows of the next planned value begin. */
  function NextRow(values: seq<ChunkedValue>): nat {
    if values == [] then 0 else values[|values| - 1].end
  }

  datatype ValueSlot = Absent | InlineSlot(value: Key) | ChunkedSlot(length: nat, count: nat)

  /** What an accepted head says about its slot. */
  predicate Describes(slot: ValueSlot, raw: Option<Key>) {
    match slot
    case Absent => raw.None?
    case InlineSlot(v) => raw.Some? && ParseHeader(raw.value) == Ok(InlineHeader(v))
    case ChunkedSlot(length, count) => raw.Some? && ParseHeader(raw.value) == Ok(ChunkedHeader(length, count))
  }

  /** Admits the logical length of a head before its value is kept. */
  method DecodeBounded(raw: Option<Key>, allowance: KvValueAllowance) returns (r: Result<ValueSlot>)
    modifies allowance
    ensures r.Ok? <==>
            HeadOk(raw) && SlotLength(raw) <= allowance.maximum && SlotLength(raw) <= old(allowance.remaining)
    ensures r.Ok? ==> Describes(r.value, raw) && allowance.remaining == old(allowance.remaining) - SlotLength(raw)
  {
    if raw.None? {
      return Ok(Absent);
    }
    var header := ParseHeader(raw.value);
    if header.Err? {
      return Err(header.error);
    }
    var length := if header.value.InlineHeader? then |header.value.value| else header.value.length;
    var admitted := allowance.RequireValueBytes(length);
    if !admitted {
      return Err(CapacityRejected);
    }
    match header.value {
      case InlineHeader(_) => return Ok(InlineSlot(raw.value[..|raw.value| - 1]));
      case ChunkedHeader(n, count) => return Ok(ChunkedSlot(n, count));
    }
  }

  ghost predicate Planned(slots: seq<Slot>, i: nat, values: seq<ChunkedValue>, bytes: nat) {
    i <= |slots| && values == Plan(slots[..i]).values && bytes == Plan(slots[..i]).bytes
  }

  lemma PlannedStep(slots: seq<Slot>, i: nat, values: seq<ChunkedValue>, bytes: nat, slot: ValueSlot)
    requires i < |slots| && Planned(slots, i, values, bytes) && Describes(slot, slots[i].value)
    ensures slot.ChunkedSlot? ==>
      Planned(slots, i + 1, values + [ChunkedValue(i, slot.length, NextRow(values), NextRow(values) + slot.count)],
        bytes + slot.length)
    ensures !slot.ChunkedSlot? ==> Planned(slots, i + 1, values, bytes)
  {
    PlanStep(slots, i);
  }

  /** Takes one head out of its slot and puts an inline value back. */
  method TakeHead(raw: array<Slot>, i: nat, allowance: KvValueAllowance) returns (r: Result<ValueSlot>)
    requires i < raw.Length
    modifies raw, allowance
    ensures r.Ok? <==> HeadOk(old(raw[i].value)) && SlotLength(old(raw[i].value)) <= allowance.maximum
                       && SlotLength(old(raw[i].value)) <= old(allowance.remaining)
    ensures r.Ok? ==> Describes(r.value, old(raw[i].value)) && raw[i] == Taken(old(raw[i]))
                      && allowance.remaining == old(allowance.remaining) - SlotLength(old(raw[i].value))
    ensures forall j :: 0 <= j < raw.Length && j != i ==> raw[j] == old(raw[j])
  {
    var head := raw[i].value;
    raw[i] := Slot(raw[i].key, None);
    r := DecodeBounded(head, allowance);
    if r.Ok? && r.value.InlineSlot? {
      raw[i] := Slot(raw[i].key, Some(r.value.value));
    }
  }

  /** The first `i` heads are taken, the others untouched. */
  ghost predicate HeadsTaken(slots: seq<Slot>, i: nat, current: seq<Slot>) {
    && i <= |slots| == |current|
    && (forall j :: 0 <= j < i ==> current[j] == Taken(slots[j]) && HeadOk(slots[j].value))
    && (forall j :: i <= j < |slots| ==> current[j] == slots[j])
  }

  /** What the first `i` values leave of a budget that admits them. */
  ghost predicate Spent(maximum: nat, budget: nat, slots: seq<Slot>, i: nat, remaining: nat) {
    i <= |slots| && Admits(maximum, budget, Lengths(slots)[..i]) && remaining == budget - Total(Lengths(slots)[..i])
  }

  lemma SpentStep(maximum: nat, budget: nat, slots: seq<Slot>, i: nat, remaining: nat)
    requires i < |slots| && Spent(maximum, budget, slots, i, remaining)
    ensures var n := SlotLength(slots[i].value);
      && (n <= maximum && n <= remaining ==> Spent(maximum, budget, slots, i + 1, remaining - n))
      && (n > maximum || n > remaining ==> !Admits(maximum, budget, Lengths(slots)))
  {
    AdmitsOneMore(maximum, budget, Lengths(slots), i);
  }

  /** Decodes every head within the budget, taking inline values in place. */
  method TakeHeads(raw: array<Slot>, allowance: KvValueAllowance)
    returns (ok: bool, values: seq<ChunkedValue>, bytes: nat)
    modifies raw, allowance
    ensures ok <==> HeadsOk(old(raw[..])) && Admits(allowance.maximum, old(allowance.remaining), Lengths(old(raw[..])))
    ensures ok ==> values == Plan(old(raw[..])).values && bytes == Plan(old(raw[..])).bytes
    ensures ok ==> forall i :: 0 <= i < raw.Length ==> raw[i] == Taken(old(raw[i]))
  {
    ghost var slots := raw[..];
    ghost var budget := allowance.remaining;
    values, bytes := [], 0;
    for i := 0 to raw.Length
      invariant HeadsTaken(slots, i, raw[..])
      invariant Spent(allowance.maximum, budget, slots, i, allowance.remaining)
      invariant Planned(slots, i, values, bytes)
    {
      ok, values, bytes := TakeNext(raw, i, allowance, values, bytes, slots, budget);
      if !ok {
        return;
      }
    }
    ghost var sizes := Lengths(slots);
    assert slots[..raw.Length] == slots && sizes[..raw.Length] == sizes;
    ok := true;
  }

  /** Takes the next head and plans its chunk rows. */
  method TakeNext(raw: array<Slot>, i: nat, allowance: KvValueAllowance, values: seq<ChunkedValue>, bytes: nat,
      ghost slots: seq<Slot>, ghost budget: nat)
    returns (ok: bool, values': seq<ChunkedValue>, bytes': nat)
    requires i < raw.Length && HeadsTaken(slots, i, raw[..]) && Planned(slots, i, values, bytes)
    requires Spent(allowance.maximum, budget, slots, i, allowance.remaining)
    modifies raw, allowance
    ensures ok ==> HeadsTaken(slots, i + 1, raw[..]) && Planned(slots, i + 1, values', bytes')
                   && Spent(allowance.maximum, budget, slots, i + 1, allowance.remaining)
    ensures !ok ==> !(HeadsOk(slots) && Admits(allowance.maximum, budget, Lengths(slots)))
  {
    ghost var before := raw[..];
    assert raw[i] == before[i];
    SpentStep(allowance.maximum, budget, slots, i, allowance.remaining);
    values', bytes' := values, bytes;
    var slot := TakeHead(raw, i, allowance);
    if slot.Err? {
      return false, values, bytes;
    }
    assert raw[..] == before[i := Taken(slots[i])];
    PlannedStep(slots, i, values, bytes, slot.value);
    if slot.value.ChunkedSlot? {
      bytes' := bytes + slot.value.length;
      values' := values + [ChunkedValue(i, slot.value.length, NextRow(values), NextRow(values) + slot.value.count)];
    }
    ok := true;
  }

  /** Takes every head, then plans the chunk rows. */
  method PrepareReads(raw: array<Slot>, allowance: KvValueAllowance) returns (r: Result<Hydration>)
    modifies raw, allowance
    ensures r.Ok? <==> HeadsOk(old(raw[..])) && ChunkedAddressable(old(raw[..]))
                       && Admits(allowance.maximum, old(allowance.remaining), Lengths(old(raw[..])))
    ensures r.Ok? ==> r.value == Plan(old(raw[..]))
    ensures r.Ok? ==> forall i :: 0 <= i < raw.Length ==> raw[i] == Taken(old(raw[i]))
  {
    ghost var slots := raw[..];
    var ok, values, bytes := TakeHeads(raw, allowance);
    if !ok {
      return Err(CapacityRejected);
    }
    var keys := PrepareChunkKeys(raw, values, slots);
    if keys.Err? {
      return Err(Internal);
    }
    return Ok(Hydration(values, keys.value, bytes));
  }

  lemma {:induction false} PlanSlots(slots: seq<Slot>, v: nat)
    requires v < |Plan(slots).values|
    ensures Plan(slots).values[v].slot < |slots| && IsChunked(slots[Plan(slots).values[v].slot].value)
    ensures Plan(slots).values[v].end - Plan(slots).values[v].begin
            == SlotCount(slots[Plan(slots).values[v].slot].value)
    decreases |slots|
  {
    var before := slots[..|slots| - 1];
    if v < |Plan(before).values| {
      PlanSlots(before, v);
      assert Plan(slots).values[v] == Plan(before).values[v];
      assert before[Plan(slots).values[v].slot] == slots[Plan(slots).values[v].slot];
    }
  }

  lemma {:induction false} PlanFinds(slots: seq<Slot>, i: nat) returns (v: nat)
    requires i < |slots| && IsChunked(slots[i].value)
    ensures v < |Plan(slots).values| && Plan(slots).values[v].slot == i
    decreases |slots|
  {
    var before := slots[..|slots| - 1];
    if i < |before| {
      v := PlanFinds(before, i);
    } else {
      v := |Plan(before).values|;
    }
  }

  /** The chunk keys for the first `v` planned values. */
  function RunsFor(slots: seq<Slot>, values: seq<ChunkedValue>): seq<Key>
    requires forall v :: 0 <= v < |values| ==> values[v].slot < |slots| && values[v].begin <= values[v].end
  {
    if values == [] then []
    else
      var last := values[|values| - 1];
      RunsFor(slots, values[..|values| - 1]) + KeyRun(slots[last.slot].key, last.end - last.begin)
  }

  lemma {:induction false} RunsAreKeys(slots: seq<Slot>, all: seq<Slot>)
    requires |slots| <= |all| && forall i :: 0 <= i < |slots| ==> all[i].key == slots[i].key
    ensures forall v :: 0 <= v < |Plan(slots).values| ==>
              Plan(slots).values[v].slot < |all| && Plan(slots).values[v].begin <= Plan(slots).values[v].end
    ensures RunsFor(all, Plan(slots).values) == Plan(slots).keys
    decreases |slots|
  {
    if slots != [] {
      RunsAreKeys(slots[..|slots| - 1], all);
      var values := Plan(slots).values;
      if IsChunked(slots[|slots| - 1].value) {
        assert values[..|values| - 1] == Plan(slots[..|slots| - 1]).values;
      }
    }
  }

  /** Addresses every chunked value before any key is encoded. */
  method PrepareChunkKeys(raw: array<Slot>, values: seq<ChunkedValue>, ghost slots: seq<Slot>)
    returns (r: Result<seq<Key>>)
    requires |slots| == raw.Length && forall i :: 0 <= i < |slots| ==> raw[i].key == slots[i].key
    requires values == Plan(slots).values
    ensures r.Ok? <==> ChunkedAddressable(slots)
    ensures r.Ok? ==> r.value == Plan(slots).keys
  {
    forall v | 0 <= v < |values| ensures values[v].slot < |slots| && IsChunked(slots[values[v].slot].value) {
      PlanSlots(slots, v);
    }
    for v := 0 to |values|
      invariant forall w :: 0 <= w < v ==> Addressable(slots[values[w].slot].key)
    {
      if !Addressable(raw[values[v].slot].key) {
        return Err(Internal);
      }
    }
    forall i | 0 <= i < |slots| && IsChunked(slots[i].value) ensures Addressable(slots[i].key) {
      var v := PlanFinds(slots, i);
      assert values[v].slot == i;
    }
    var keys := EncodeChunkKeys(raw, values, slots);
    return Ok(keys);
  }

  method EncodeChunkKeys(raw: array<Slot>, values: seq<ChunkedValue>, ghost slots: seq<Slot>) returns (keys: seq<Key>)
    requires |slots| == raw.Length && forall i :: 0 <= i < |slots| ==> raw[i].key == slots[i].key
    requires values == Plan(slots).values
    ensures keys == Plan(slots).keys
  {
    RunsAreKeys(slots, slots);
    keys := EncodeRuns(raw, values, slots);
  }

  method EncodeRuns(raw: array<Slot>, values: seq<ChunkedValue>, ghost slots: seq<Slot>) returns (keys: seq<Key>)
    requires |slots| == raw.Length && forall i :: 0 <= i < |slots| ==> raw[i].key == slots[i].key
    requires forall v :: 0 <= v < |values| ==> values[v].slot < |slots| && values[v].begin <= values[v].end
    ensures keys == RunsFor(slots, values)
  {
    keys := [];
    for v := 0 to |values|
      invariant keys == RunsFor(slots, values[..v])
    {
      var value := values[v];
      var run := EncodeRun(raw[value.slot].key, value.end - value.begin);
      RunsForNext(slots, values, v);
      keys := keys + run;
    }
    assert values[..|values|] == values;
  }

  lemma RunsForNext(slots: seq<Slot>, values: seq<ChunkedValue>, v: nat)
    requires forall w :: 0 <= w < |values| ==> values[w].slot < |slots| && values[w].begin <= values[w].end
    requires v < |values|
    ensures RunsFor(slots, values[..v + 1])
            == RunsFor(slots, values[..v]) + KeyRun(slots[values[v].slot].key, values[v].end - values[v].begin)
  {
    assert values[..v + 1][..v] == values[..v];
  }

  method EncodeRun(key: Key, count: nat) returns (run: seq<Key>)
    ensures run == KeyRun(key, count)
  {
    run := [];
    for n := 0 to count
      invariant run == KeyRun(key, count)[..n]
    {
      run := run + [ChunkKey(key, n)];
    }
  }

  // ----- Native point reads -----

  function Rows(store: Store, keys: seq<Key>): (r: seq<Option<Key>>)
    ensures |r| == |keys|
  {
    seq(|keys|, i requires 0 <= i < |keys| => Get(store, keys[i]))
  }

  function RowSizes(rows: seq<Option<Key>>): (r: seq<nat>)
    ensures |r| == |rows|
  {
    seq(|rows|, i requires 0 <= i < |rows| => if rows[i].Some? then |rows[i].value| else 0)
  }

  /** Copies rows one by one while the allowance admits them. */
  method NativeGetBatch(store: Store, keys: seq<Key>, allowance: KvValueAllowance) returns (r: Result<seq<Option<Key>>>)
    modifies allowance
    ensures r.Ok? <==> Admits(allowance.maximum, old(allowance.remaining), RowSizes(Rows(store, keys)))
    ensures r.Ok? ==> r.value == Rows(store, keys)
  {
    ghost var budget := allowance.remaining;
    ghost var sizes := RowSizes(Rows(store, keys));
    var values: seq<Option<Key>> := [];
    for i := 0 to |keys|
      invariant values == Rows(store, keys)[..i]
      invariant Admits(allowance.maximum, budget, sizes[..i])
      invariant allowance.remaining == budget - Total(sizes[..i])
    {
      AdmitsOneMore(allowance.maximum, budget, sizes, i);
      var value := Get(store, keys[i]);
      if value.Some? {
        var admitted := allowance.RequireValueBytes(|value.value|);
        if !admitted {
          return Err(CapacityRejected);
        }
      }
      values := values + [value];
    }
    assert sizes[..|keys|] == sizes;
    return Ok(values);
  }

  // ----- Hydration -----

  predicate RowIntact(rows: seq<Option<Key>>, value: ChunkedValue, n: nat) {
    && value.begin + n < |rows| && rows[value.begin + n].Some?
    && RequireChunkLength(rows[value.begin + n].value, value.length, n)
  }

  /** A run of fetched rows has the lengths its value demands. */
  predicate RunIntact(rows: seq<Option<Key>>, value: ChunkedValue) {
    forall n :: 0 <= n < value.end - value.begin ==> RowIntact(rows, value, n)
  }

  method ValidateChunks(p: Hydration, rows: seq<Option<Key>>) returns (ok: bool)
    requires forall v :: 0 <= v < |p.values| ==> p.values[v].begin <= p.values[v].end <= |p.keys|
    ensures ok <==> |rows| == |p.keys| && forall v :: 0 <= v < |p.values| ==> RunIntact(rows, p.values[v])
  {
    if |rows| != |p.keys| {
      return false;
    }
    for v := 0 to |p.values|
      invariant forall w :: 0 <= w < v ==> RunIntact(rows, p.values[w])
    {
      var value := p.values[v];
      for n := 0 to value.end - value.begin
        invariant forall m :: 0 <= m < n ==> RowIntact(rows, value, m)
      {
        var row := rows[value.begin + n];
        if row.None? || !RequireChunkLength(row.value, value.length, n) {
          assert !RowIntact(rows, value, n);
          return false;
        }
      }
    }
    return true;
  }

  lemma SliceKept(a: seq<Key>, b: seq<Key>, lo: nat, hi: nat)
    requires lo <= hi <= |a|
    ensures (a + b)[lo..hi] == a[lo..hi]
  {
  }

  lemma SliceAdded(a: seq<Key>, b: seq<Key>)
    ensures (a + b)[|a|..|a| + |b|] == b
  {
  }

  /** Where each planned run lies: within the plan's keys, fetching the slot's own chunk keys. */
  lemma {:induction false} PlanRuns(slots: seq<Slot>, v: nat)
    requires v < |Plan(slots).values|
    ensures var value := Plan(slots).values[v];
      && value.begin <= value.end <= |Plan(slots).keys| && value.slot < |slots|
      && value.length == SlotLength(slots[value.slot].value)
      && Plan(slots).keys[value.begin..value.end] == KeyRun(slots[value.slot].key, SlotCount(slots[value.slot].value))
    decreases |slots|
  {
    var before := slots[..|slots| - 1];
    var q, last := Plan(before), slots[|slots| - 1];
    var run := KeyRun(last.key, SlotCount(last.value));
    if v < |q.values| {
      PlanRuns(before, v);
      var value := q.values[v];
      assert Plan(slots).values[v] == value && before[value.slot] == slots[value.slot];
      SliceKept(q.keys, run, value.begin, value.end);
    } else {
      SliceAdded(q.keys, run);
    }
  }

  /** Planned values follow slot order. */
  lemma {:induction false} PlanSorted(slots: seq<Slot>, w: nat, v: nat)
    requires w < v < |Plan(slots).values|
    ensures Plan(slots).values[w].slot < Plan(slots).values[v].slot
    decreases |slots|
  {
    var before := slots[..|slots| - 1];
    if v < |Plan(before).values| {
      PlanSorted(before, w, v);
      assert Plan(slots).values[w] == Plan(before).values[w] && Plan(slots).values[v] == Plan(before).values[v];
    } else {
      PlanSlots(before, w);
      assert Plan(slots).values[w] == Plan(before).values[w];
    }
  }

  /** Slot `i` once the first `v` planned values are written back. */
  function Partial(store: Store, slots: seq<Slot>, v: nat, i: nat): Slot
    requires i < |slots| && v <= |Plan(slots).values|
  {
    if IsChunked(slots[i].value) && (v == |Plan(slots).values| || i < Plan(slots).values[v].slot)
    then Slot(slots[i].key, Resolved(store, slots[i]))
    else Taken(slots[i])
  }

  ghost predicate RunFetched(rows: seq<Option<Key>>, begin: nat, count: nat, store: Store, key: Key) {
    && begin + count <= |rows|
    && forall n :: 0 <= n < count ==>
       ChunkKey(key, n) in store && rows[begin..begin + count][n] == Some(store[ChunkKey(key, n)])
  }

  /** Concatenates the fetched rows of one value. */
  method RebuildValue(rows: seq<Option<Key>>, begin: nat, count: nat, ghost store: Store, ghost key: Key)
    returns (bytes: Key)
    requires RunFetched(rows, begin, count, store, key)
    ensures bytes == Rebuilt(store, key, count)
  {
    bytes := [];
    for n := 0 to count
      invariant bytes == Rebuilt(store, key, n)
    {
      assert ChunkKey(key, n) in store && rows[begin..begin + count][n] == Some(store[ChunkKey(key, n)]);
      bytes := bytes + rows[begin + n].value;
    }
  }

  predicate RowFetched(rows: seq<Option<Key>>, begin: nat, n: nat, store: Store, key: Key) {
    && begin + n < |rows| && ChunkKey(key, n) in store
    && rows[begin + n] == Some(store[ChunkKey(key, n)])
  }

  lemma RowsFetched(rows: seq<Option<Key>>, begin: nat, count: nat, store: Store, key: Key)
    requires begin + count <= |rows| && forall n :: 0 <= n < count ==> RowFetched(rows, begin, n, store, key)
    ensures RunFetched(rows, begin, count, store, key)
  {
    forall n | 0 <= n < count
      ensures ChunkKey(key, n) in store && rows[begin..begin + count][n] == Some(store[ChunkKey(key, n)])
    {
      assert RowFetched(rows, begin, n, store, key);
    }
  }

  lemma IntactRowFetched(store: Store, slots: seq<Slot>, v: nat, n: nat)
    requires v < |Plan(slots).values| && n < Plan(slots).values[v].end - Plan(slots).values[v].begin
    requires RunIntact(Rows(store, Plan(slots).keys), Plan(slots).values[v])
    ensures var value := Plan(slots).values[v];
            && value.slot < |slots|
            && RowFetched(Rows(store, Plan(slots).keys), value.begin, n, store, slots[value.slot].key)
  {
    PlanRuns(slots, v);
    PlanSlots(slots, v);
    RunRow(store, slots, v, n);
    assert RowIntact(Rows(store, Plan(slots).keys), Plan(slots).values[v], n);
  }

  /** An intact planned run holds the chunk rows of its own slot. */
  lemma IntactRunFetched(store: Store, slots: seq<Slot>, v: nat)
    requires v < |Plan(slots).values| && RunIntact(Rows(store, Plan(slots).keys), Plan(slots).values[v])
    ensures var value := Plan(slots).values[v];
      && value.slot < |slots| && IsChunked(slots[value.slot].value)
      && value.end - value.begin == SlotCount(slots[value.slot].value)
      && RunFetched(Rows(store, Plan(slots).keys), value.begin, value.end - value.begin, store, slots[value.slot].key)
  {
    PlanRuns(slots, v);
    PlanSlots(slots, v);
    var p := Plan(slots);
    var value, rows := p.values[v], Rows(store, p.keys);
    forall n | 0 <= n < value.end - value.begin ensures RowFetched(rows, value.begin, n, store, slots[value.slot].key) {
      IntactRowFetched(store, slots, v, n);
    }
    RowsFetched(rows, value.begin, value.end - value.begin, store, slots[value.slot].key);
  }

  lemma PartialStart(store: Store, slots: seq<Slot>, i: nat)
    requires i < |slots|
    ensures Partial(store, slots, 0, i) == Taken(slots[i])
  {
    if IsChunked(slots[i].value) { NothingBeforeFirst(slots, i); }
  }

  /** Writing back one value settles its slot and no other. */
  lemma PartialStep(store: Store, slots: seq<Slot>, v: nat, i: nat)
    requires i < |slots| && v < |Plan(slots).values|
    ensures Partial(store, slots, v + 1, i) ==
            if i == Plan(slots).values[v].slot
              then Slot(slots[i].key, Some(Rebuilt(store, slots[i].key, SlotCount(slots[i].value))))
            else Partial(store, slots, v, i)
  {
    PlanSlots(slots, v);
    if IsChunked(slots[i].value) { PlanOrder(slots, i, v); }
  }

  lemma PartialEnd(store: Store, slots: seq<Slot>, i: nat)
    requires i < |slots| && HeadOk(slots[i].value)
    ensures Partial(store, slots, |Plan(slots).values|, i) == Slot(slots[i].key, Resolved(store, slots[i]))
  {
  }

  /** Rebuilds every planned value into its slot. */
  method WriteBack(p: Hydration, raw: array<Slot>, rows: seq<Option<Key>>, ghost store: Store, ghost slots: seq<Slot>)
    requires |slots| == raw.Length && p == Plan(slots) && rows == Rows(store, p.keys)
    requires forall i :: 0 <= i < raw.Length ==> raw[i] == Taken(slots[i])
    requires forall v :: 0 <= v < |p.values| ==> RunIntact(rows, p.values[v])
    modifies raw
    ensures forall i :: 0 <= i < raw.Length ==> raw[i] == Partial(store, slots, |p.values|, i)
  {
    forall i | 0 <= i < |slots|
      ensures Partial(store, slots, 0, i) == Taken(slots[i]) { PartialStart(store, slots, i); }
    for v := 0 to |p.values|
      invariant forall i :: 0 <= i < raw.Length ==> raw[i] == Partial(store, slots, v, i)
    {
      IntactRunFetched(store, slots, v);
      var value := p.values[v];
      var bytes := RebuildValue(rows, value.begin, value.end - value.begin, store, slots[value.slot].key);
      raw[value.slot] := Slot(raw[value.slot].key, Some(bytes));
      forall i | 0 <= i < raw.Length
        ensures raw[i] == Partial(store, slots, v + 1, i) { PartialStep(store, slots, v, i); }
    }
  }

  /** Writes rebuilt values back, once every fetched run has its planned shape. */
  method HydrateValues(p: Hydration, raw: array<Slot>, rows: seq<Option<Key>>, ghost store: Store,
      ghost slots: seq<Slot>) returns (r: bool)
    requires |slots| == raw.Length && p == Plan(slots) && rows == Rows(store, p.keys)
    requires forall i :: 0 <= i < raw.Length ==> raw[i] == Taken(slots[i])
    requires HeadsOk(slots)
    modifies raw
    ensures r <==> forall v :: 0 <= v < |p.values| ==> RunIntact(rows, p.values[v])
    ensures r ==> raw[..] == ResolvedAll(store, slots)
  {
    forall v | 0 <= v < |p.values| ensures p.values[v].begin <= p.values[v].end <= |p.keys| { PlanRuns(slots, v); }
    r := ValidateChunks(p, rows);
    if r {
      WriteBack(p, raw, rows, store, slots);
      forall i | 0 <= i < raw.Length ensures raw[i] == ResolvedAll(store, slots)[i] { PartialEnd(store, slots, i); }
    }
  }

  /** Before any value is written back, no chunked slot precedes the first planned one. */
  lemma NothingBeforeFirst(slots: seq<Slot>, i: nat)
    requires i < |slots| && IsChunked(slots[i].value)
    ensures Plan(slots).values != [] && Plan(slots).values[0].slot <= i
  {
    var w := PlanFinds(slots, i);
    if w > 0 { PlanSorted(slots, 0, w); }
  }

  /** Every chunked slot is planned, so none lies strictly between two planned ones. */
  lemma PlanOrder(slots: seq<Slot>, i: nat, v: nat)
    requires i < |slots| && IsChunked(slots[i].value) && v < |Plan(slots).values|
    ensures (v + 1 == |Plan(slots).values| || i < Plan(slots).values[v + 1].slot) <==> i <= Plan(slots).values[v].slot
  {
    var w := PlanFinds(slots, i);
    if w < v {
      PlanSorted(slots, w, v);
    } else if v < w {
      PlanSorted(slots, v, w);
    }
    if v + 1 < |Plan(slots).values| {
      PlanSorted(slots, v, v + 1);
      if v + 1 < w { PlanSorted(slots, v + 1, w); }
    }
  }

  // ----- The chunk budget is exact -----

  lemma {:induction false} RunTotal(store: Store, slot: Slot, n: nat)
    requires IsChunked(slot.value) && ChunksIntact(store, slot) && n <= SlotCount(slot.value)
    ensures Total(RowSizes(Rows(store, KeyRun(slot.key, SlotCount(slot.value))))[..n])
            == Min(SlotLength(slot.value), n * KV_CHUNK_BYTES)
    ensures forall i :: 0 <= i < n ==>
            RowSizes(Rows(store, KeyRun(slot.key, SlotCount(slot.value))))[i] <= KV_CHUNK_BYTES
    decreases n
  {
    if n > 0 {
      RunTotal(store, slot, n - 1);
      var sizes := RowSizes(Rows(store, KeyRun(slot.key, SlotCount(slot.value))));
      assert sizes[..n][..n - 1] == sizes[..n - 1];
      assert ChunkKey(slot.key, n - 1) in store;
      assert sizes[n - 1] == |store[ChunkKey(slot.key, n - 1)]|;
      NextCut(SlotLength(slot.value), n - 1);
    }
  }

  /** Budgets of separate key runs add up. */
  lemma AdmitsTogether(store: Store, a: seq<Key>, m: nat, b: seq<Key>, n: nat)
    requires Admits(KV_CHUNK_BYTES, m, RowSizes(Rows(store, a)))
    requires Admits(KV_CHUNK_BYTES, n, RowSizes(Rows(store, b))[..|b|])
    ensures Admits(KV_CHUNK_BYTES, m + n, RowSizes(Rows(store, a + b)))
  {
    var x, y := RowSizes(Rows(store, a)), RowSizes(Rows(store, b));
    assert y[..|b|] == y;
    TotalAppend(x, y);
    assert RowSizes(Rows(store, a + b)) == x + y;
  }

  /** Intact chunk rows always fit the budget planned for them. */
  lemma {:induction false} ChunkBudgetSuffices(store: Store, slots: seq<Slot>)
    requires forall i :: 0 <= i < |slots| ==> ChunksIntact(store, slots[i])
    ensures Admits(KV_CHUNK_BYTES, Plan(slots).bytes, RowSizes(Rows(store, Plan(slots).keys)))
    decreases |slots|
  {
    if slots != [] {
      var before, last := slots[..|slots| - 1], slots[|slots| - 1];
      ChunkBudgetSuffices(store, before);
      if IsChunked(last.value) {
        var count := SlotCount(last.value);
        RunTotal(store, last, count);
        AdmitsTogether(store, Plan(before).keys, Plan(before).bytes, KeyRun(last.key, count), SlotLength(last.value));
      }
    }
  }

  ghost predicate RunsIntact(p: Hydration, rows: seq<Option<Key>>) {
    forall v :: 0 <= v < |p.values| ==> RunIntact(rows, p.values[v])
  }

  ghost predicate SlotsIntact(store: Store, slots: seq<Slot>) {
    forall i :: 0 <= i < |slots| ==> ChunksIntact(store, slots[i])
  }

  lemma SlotsOfIntactRuns(store: Store, slots: seq<Slot>)
    requires ChunkedAddressable(slots) && RunsIntact(Plan(slots), Rows(store, Plan(slots).keys))
    ensures SlotsIntact(store, slots)
  {
    forall i | 0 <= i < |slots| ensures ChunksIntact(store, slots[i]) {
      if IsChunked(slots[i].value) {
        var v := PlanFinds(slots, i);
        OneRunExact(store, slots, v);
      }
    }
  }

  lemma RunsOfIntactSlots(store: Store, slots: seq<Slot>)
    requires ChunkedAddressable(slots) && SlotsIntact(store, slots)
    ensures RunsIntact(Plan(slots), Rows(store, Plan(slots).keys))
  {
    forall v | 0 <= v < |Plan(slots).values| ensures RunIntact(Rows(store, Plan(slots).keys), Plan(slots).values[v]) {
      OneRunExact(store, slots, v);
    }
  }

  /** The fetched runs are intact exactly when the rows each head names are. */
  lemma RunsIntactExact(store: Store, slots: seq<Slot>)
    requires ChunkedAddressable(slots)
    ensures RunsIntact(Plan(slots), Rows(store, Plan(slots).keys)) <==> SlotsIntact(store, slots)
  {
    if RunsIntact(Plan(slots), Rows(store, Plan(slots).keys)) {
      SlotsOfIntactRuns(store, slots);
    }
    if SlotsIntact(store, slots) {
      RunsOfIntactSlots(store, slots);
    }
  }

  lemma OneRunExact(store: Store, slots: seq<Slot>, v: nat)
    requires ChunkedAddressable(slots) && v < |Plan(slots).values|
    ensures Plan(slots).values[v].slot < |slots|
    ensures RunIntact(Rows(store, Plan(slots).keys), Plan(slots).values[v]) <==>
            ChunksIntact(store, slots[Plan(slots).values[v].slot])
  {
    PlanRuns(slots, v);
    PlanSlots(slots, v);
    RunOfSlot(store, Plan(slots).keys, Plan(slots).values[v], slots[Plan(slots).values[v].slot]);
  }

  lemma RunOfSlot(store: Store, keys: seq<Key>, value: ChunkedValue, slot: Slot)
    requires value.begin <= value.end <= |keys| && value.end - value.begin == SlotCount(slot.value)
    requires keys[value.begin..value.end] == KeyRun(slot.key, SlotCount(slot.value))
    requires IsChunked(slot.value) && Addressable(slot.key) && value.length == SlotLength(slot.value)
    ensures RunIntact(Rows(store, keys), value) <==> ChunksIntact(store, slot)
  {
    forall n | 0 <= n < value.end - value.begin
      ensures RowIntact(Rows(store, keys), value, n) <==>
              ChunkKey(slot.key, n) in store
              && RequireChunkLength(store[ChunkKey(slot.key, n)], SlotLength(slot.value), n)
    {
      KeyRunRow(store, keys, value.begin, value.end, slot.key, n);
    }
  }

  lemma KeyRunRow(store: Store, keys: seq<Key>, begin: nat, end: nat, key: Key, n: nat)
    requires begin + n < end <= |keys| && keys[begin..end] == KeyRun(key, end - begin)
    ensures Rows(store, keys)[begin + n] == Get(store, ChunkKey(key, n))
  {
    assert keys[begin..end][n] == ChunkKey(key, n);
  }

  lemma RunRow(store: Store, slots: seq<Slot>, v: nat, n: nat)
    requires v < |Plan(slots).values|
    requires Plan(slots).values[v].begin + n < Plan(slots).values[v].end
    ensures var p := Plan(slots);
      && p.values[v].slot < |slots| && p.values[v].end <= |p.keys|
      && Rows(store, p.keys)[p.values[v].begin + n] == Get(store, ChunkKey(slots[p.values[v].slot].key, n))
  {
    PlanRuns(slots, v);
    PlanSlots(slots, v);
    var value := Plan(slots).values[v];
    KeyRunRow(store, Plan(slots).keys, value.begin, value.end, slots[value.slot].key, n);
  }

  lemma {:induction false} PlanEmpty(slots: seq<Slot>)
    ensures Plan(slots).keys == [] <==> forall i :: 0 <= i < |slots| ==> !IsChunked(slots[i].value)
    decreases |slots|
  {
    if slots != [] {
      PlanEmpty(slots[..|slots| - 1]);
      assert forall i :: 0 <= i < |slots| - 1 ==> slots[..|slots| - 1][i] == slots[i];
    }
  }

  /** Resolves a batch of raw heads: exactly the resolvable batches succeed. */
  method ResolveValues(store: Store, raw: array<Slot>, allowance: KvValueAllowance) returns (ok: bool)
    modifies raw, allowance
    ensures ok <==> Resolvable(store, old(raw[..]), allowance.maximum, old(allowance.remaining))
    ensures ok ==> raw[..] == ResolvedAll(store, old(raw[..]))
  {
    ghost var slots := raw[..];
    RunsIntactWhenAddressable(store, slots);
    var prepared := PrepareReads(raw, allowance);
    if prepared.Err? {
      return false;
    }
    PlanEmpty(slots);
    if prepared.value.keys == [] {
      assert raw[..] == ResolvedAll(store, slots);
      return true;
    }
    var chunkAllowance := new KvValueAllowance(KV_CHUNK_BYTES, prepared.value.bytes);
    var rows := NativeGetBatch(store, prepared.value.keys, chunkAllowance);
    if rows.Err? {
      if forall i :: 0 <= i < |slots| ==> ChunksIntact(store, slots[i]) { ChunkBudgetSuffices(store, slots); }
      return false;
    }
    ok := HydrateValues(prepared.value, raw, rows.value, store, slots);
  }

  lemma RunsIntactWhenAddressable(store: Store, slots: seq<Slot>)
    ensures (forall i :: 0 <= i < |slots| ==> ChunksIntact(store, slots[i])) ==> ChunkedAddressable(slots)
    ensures ChunkedAddressable(slots) ==>
      ((forall v :: 0 <= v < |Plan(slots).values| ==> RunIntact(Rows(store, Plan(slots).keys), Plan(slots).values[v]))
        <==> (forall i :: 0 <= i < |slots| ==> ChunksIntact(store, slots[i])))
  {
    if ChunkedAddressable(slots) { RunsIntactExact(store, slots); }
  }
}
