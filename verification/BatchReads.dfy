/** Reads over a store that stands for a logical map: batch reads, trimmed pages and prefixes. */
module BatchReads {
  import opened Outcomes
  import opened Bytes
  import opened ValueLayout
  import opened Lowering
  import opened ValueAllowance
  import opened ValueReads

  // ----- Batch reads -----

  function Heads(store: Store, keys: seq<Key>): (r: seq<Slot>)
    ensures |r| == |keys|
  {
    seq(|keys|, i requires 0 <= i < |keys| => Slot(keys[i], Get(store, keys[i])))
  }

  predicate HeadsAdmitted(store: Store, keys: seq<Key>, maximum: nat, batch: nat) {
    && HeadBudgetFits(|keys|, maximum, batch)
    && Admits(maximum + KV_CHUNK_HEADER_BYTES, Min(batch, |keys| * maximum) + |keys| * KV_CHUNK_HEADER_BYTES,
         RowSizes(Rows(store, keys)))
  }

  predicate Readable(store: Store, keys: seq<Key>, maximum: nat, batch: nat) {
    HeadsAdmitted(store, keys, maximum, batch) && Resolvable(store, Heads(store, keys), maximum, batch)
  }

  /** Admits and loads heads, then hydrates them under the logical budget. */
  method GetBatchAdmitted(store: Store, keys: seq<Key>, maximum: nat, batch: nat) returns (r: Result<seq<Option<Key>>>)
    requires maximum <= USIZE_MAX && batch <= USIZE_MAX
    ensures r.Ok? <==> Readable(store, keys, maximum, batch)
    ensures r.Ok? ==> |r.value| == |keys| && forall i :: 0 <= i < |keys| ==>
            r.value[i] == Resolved(store, Heads(store, keys)[i])
  {
    var allowance := new KvValueAllowance(maximum, batch);
    var headAllowance := allowance.ForHeadReads(|keys|);
    if headAllowance.None? {
      return Err(CapacityRejected);
    }
    var raw := NativeGetBatch(store, keys, headAllowance.value);
    if raw.Err? {
      return Err(raw.error);
    }
    var inputs := new Slot[|keys|](i requires 0 <= i < |keys| && |raw.value| == |keys| => Slot(keys[i], raw.value[i]));
    assert inputs[..] == Heads(store, keys);
    var ok := ResolveValues(store, inputs, allowance);
    if !ok {
      return Err(CapacityRejected);
    }
    var output: seq<Option<Key>> := [];
    for i := 0 to inputs.Length
      invariant |output| == i && forall j :: 0 <= j < i ==> output[j] == Resolved(store, Heads(store, keys)[j])
    {
      assert inputs[i] == ResolvedAll(store, Heads(store, keys))[i];
      output := output + [inputs[i].value];
    }
    return Ok(output);
  }

  lemma {:induction false} RebuiltIsFlatten(store: Store, key: Key, chunks: seq<Key>, n: nat)
    requires n <= |chunks| && forall i :: 0 <= i < |chunks| ==> Get(store, ChunkKey(key, i)) == Some(chunks[i])
    ensures Rebuilt(store, key, n) == Flatten(chunks[..n])
    decreases n
  {
    if n > 0 {
      RebuiltIsFlatten(store, key, chunks, n - 1);
      assert chunks[..n][..n - 1] == chunks[..n - 1];
    }
  }

  /** A slot reads back a logical value. */
  ghost predicate SlotReads(store: Store, key: Key, value: Option<Key>) {
    var slot := Slot(key, Get(store, key));
    && HeadOk(slot.value) && ChunksIntact(store, slot)
    && SlotLength(slot.value) == (if value.Some? then |value.value| else 0)
    && Resolved(store, slot) == value
  }

  lemma InlineSlotReads(store: Store, key: Key, value: Key)
    requires |value| <= KV_MAX_VALUE_BYTES && HoldsInline(store, key, value)
    ensures SlotReads(store, key, Some(value))
  {
    HeadParses(store, key, value);
  }

  /** Every chunk of a value has the length its place demands. */
  lemma ChunkLengthExpected(value: Key, n: nat)
    requires |value| <= KV_MAX_VALUE_BYTES && n < ChunkCount(|value|)
    ensures RequireChunkLength(Chunk(value, n), |value|, n)
  {
  }

  lemma StoredChunksIntact(store: Store, key: Key, value: Key, n: nat)
    requires |value| <= KV_MAX_VALUE_BYTES && HoldsChunked(store, key, value) && n < ChunkCount(|value|)
    ensures ChunkKey(key, n) in store && RequireChunkLength(store[ChunkKey(key, n)], |value|, n)
  {
    assert Get(store, ChunkKey(key, n)) == Some(Chunks(value)[n]);
    ChunkLengthExpected(value, n);
  }

  lemma ChunkedSlotReads(store: Store, key: Key, value: Key)
    requires |value| <= KV_MAX_VALUE_BYTES && HoldsChunked(store, key, value)
    ensures SlotReads(store, key, Some(value))
  {
    HeadParses(store, key, value);
    var count := ChunkCount(|value|);
    var raw := Get(store, key);
    assert IsChunked(raw) && SlotCount(raw) == count && SlotLength(raw) == |value|;
    assert Rebuilt(store, key, count) == value by {
      RebuiltIsFlatten(store, key, Chunks(value), count);
      assert Chunks(value)[..count] == Chunks(value);
      ChunksRebuild(value);
    }
    forall n | 0 <= n < count
      ensures ChunkKey(key, n) in store && RequireChunkLength(store[ChunkKey(key, n)], |value|, n) {
      StoredChunksIntact(store, key, value, n);
    }
  }

  /** A slot of a represented key reads back the logical value, whatever its layout. */
  lemma SlotMeans(store: Store, key: Key, value: Option<Key>)
    requires Holds(store, key, value)
    ensures SlotReads(store, key, value)
    ensures value.Some? ==> |store[key]| <= |value.value| + KV_CHUNK_HEADER_BYTES
  {
    if value.Some? {
      if HoldsInline(store, key, value.value) {
        InlineSlotReads(store, key, value.value);
      } else {
        ChunkedSlotReads(store, key, value.value);
      }
    }
  }

  function LogicalSizes(logical: Store, keys: seq<Key>): (r: seq<nat>)
    ensures |r| == |keys|
  {
    RowSizes(Rows(logical, keys))
  }

  /** The head budget never refuses what the logical budget accepts. */
  lemma HeadBudgetSuffices(profile: Profile, store: Store, logical: Store, keys: seq<Key>, maximum: nat, batch: nat)
    requires Represents(profile, store, logical) && forall i :: 0 <= i < |keys| ==> Logical(keys[i])
    requires HeadBudgetFits(|keys|, maximum, batch) && Admits(maximum, batch, LogicalSizes(logical, keys))
    ensures HeadsAdmitted(store, keys, maximum, batch)
  {
    var heads, sizes := RowSizes(Rows(store, keys)), LogicalSizes(logical, keys);
    forall i | 0 <= i < |keys| ensures heads[i] <= sizes[i] + KV_CHUNK_HEADER_BYTES && sizes[i] <= maximum {
      SlotMeans(store, keys[i], Get(logical, keys[i]));
    }
    TotalBound(heads, sizes, KV_CHUNK_HEADER_BYTES);
    TotalAtMost(sizes, maximum);
  }

  /** Admission is exact: a batch read succeeds exactly when every logical value is within the
      value limit and their total is within the batch limit, and it returns the logical map. */
  lemma ReadExact(profile: Profile, store: Store, logical: Store, keys: seq<Key>, maximum: nat, batch: nat)
    requires Represents(profile, store, logical) && forall i :: 0 <= i < |keys| ==> Logical(keys[i])
    ensures Readable(store, keys, maximum, batch)
       <==> HeadBudgetFits(|keys|, maximum, batch) && Admits(maximum, batch, LogicalSizes(logical, keys))
    ensures forall i :: 0 <= i < |keys| ==> Resolved(store, Heads(store, keys)[i]) == Get(logical, keys[i])
  {
    var slots := Heads(store, keys);
    forall i | 0 <= i < |keys|
      ensures HeadOk(slots[i].value) && ChunksIntact(store, slots[i])
              && Resolved(store, slots[i]) == Get(logical, keys[i])
      ensures Lengths(slots)[i] == LogicalSizes(logical, keys)[i]
    {
      SlotMeans(store, keys[i], Get(logical, keys[i]));
    }
    assert Lengths(slots) == LogicalSizes(logical, keys);
    if HeadBudgetFits(|keys|, maximum, batch) && Admits(maximum, batch, LogicalSizes(logical, keys)) {
      HeadBudgetSuffices(profile, store, logical, keys, maximum, batch);
    }
  }

  /** After any run of staged batches, reading any keys gives what the plain map holds. */
  lemma ReadAfterRun(profile: Profile, batches: seq<seq<Mutation>>, keys: seq<Key>, maximum: nat, batch: nat)
    requires profile.limit <= USIZE_MAX
    requires forall b, i :: 0 <= b < |batches| && 0 <= i < |batches[b]| ==> Disciplined(profile, batches[b][i])
    requires forall i :: 0 <= i < |keys| ==> Logical(keys[i])
    ensures var store, logical := RunStore(map[], batches, profile.limit), RunLogical(map[], batches, profile.limit);
      && (Readable(store, keys, maximum, batch)
          <==> HeadBudgetFits(|keys|, maximum, batch) && Admits(maximum, batch, LogicalSizes(logical, keys)))
      && forall i :: 0 <= i < |keys| ==> Resolved(store, Heads(store, keys)[i]) == Get(logical, keys[i])
  {
    RunRefines(profile, batches);
    ReadExact(profile, RunStore(map[], batches, profile.limit), RunLogical(map[], batches, profile.limit), keys,
      maximum, batch);
  }

  // ----- Trimmed pages -----

  datatype Entry = Entry(key: Key, value: Key)

  datatype Page = Page(entries: seq<Entry>, more: bool)

  /** Logical bytes of an entry: its key and the value its head announces. */
  function EntrySize(e: Entry): nat {
    |e.key| + SlotLength(Some(e.value))
  }

  function EntrySizes(entries: seq<Entry>): (r: seq<nat>)
    ensures |r| == |entries|
  {
    seq(|entries|, i requires 0 <= i < |entries| => EntrySize(entries[i]))
  }

  function EntryLengths(entries: seq<Entry>): (r: seq<nat>)
    ensures |r| == |entries|
  {
    seq(|entries|, i requires 0 <= i < |entries| => SlotLength(Some(entries[i].value)))
  }

  /** Keeping `k` entries fits the budget; a first entry is always kept. */
  predicate Fits(entries: seq<Entry>, budget: nat, k: nat) {
    k <= |entries| && (k <= 1 || Total(EntrySizes(entries)[..k]) <= budget)
  }

  /** `k` is the largest fitting prefix. */
  ghost predicate LongestFit(entries: seq<Entry>, budget: nat, k: nat) {
    Fits(entries, budget, k) && forall j: nat :: Fits(entries, budget, j) ==> j <= k
  }

  predicate HeadersOk(entries: seq<Entry>) {
    forall i :: 0 <= i < |entries| ==> HeadOk(Some(entries[i].value))
  }

  lemma LongestWhenNextOverflows(entries: seq<Entry>, budget: nat, k: nat)
    requires 1 <= k < |entries| && Fits(entries, budget, k) && Total(EntrySizes(entries)[..k + 1]) > budget
    ensures LongestFit(entries, budget, k)
  {
    var sizes := EntrySizes(entries);
    forall j: nat | Fits(entries, budget, j) ensures j <= k {
      if j > k {
        assert sizes[..j][..k + 1] == sizes[..k + 1];
        TotalPrefix(sizes[..j], k + 1);
      }
    }
  }

  lemma TotalTake(sizes: seq<nat>, k: nat)
    requires k < |sizes|
    ensures Total(sizes[..k + 1]) == Total(sizes[..k]) + sizes[k]
  {
    assert sizes[..k + 1][..k] == sizes[..k];
  }

  lemma TrimStep(entries: seq<Entry>, k: nat)
    requires k < |entries|
    ensures Total(EntrySizes(entries)[..k + 1]) == Total(EntrySizes(entries)[..k]) + EntrySize(entries[k])
            <= Total(EntrySizes(entries))
    ensures Total(EntryLengths(entries)[..k + 1])
            == Total(EntryLengths(entries)[..k]) + SlotLength(Some(entries[k].value))
    ensures EntryLengths(entries[..k]) == EntryLengths(entries)[..k]
  {
    TotalTake(EntrySizes(entries), k);
    TotalTake(EntryLengths(entries), k);
    TotalPrefix(EntrySizes(entries), k + 1);
  }

  /** The first `k` entries are kept, with these sums. */
  ghost predicate Trimming(entries: seq<Entry>, budget: nat, k: nat, used: nat, valueBytes: nat) {
    && Fits(entries, budget, k) && HeadersOk(entries[..k])
    && used == Total(EntrySizes(entries)[..k]) <= USIZE_MAX && valueBytes == Total(EntryLengths(entries[..k])) <= used
  }

  /** Reading entry `k` fails: its head is bad, or with it the entries' bytes leave the machine word. */
  predicate Faulty(entries: seq<Entry>, k: nat)
    requires k < |entries|
  {
    !HeadOk(Some(entries[k].value)) || Total(EntrySizes(entries)[..k + 1]) > USIZE_MAX
  }

  /** A faulty entry among those that fit the budget and the one after them. */
  ghost predicate TrimFails(entries: seq<Entry>, budget: nat) {
    exists k: nat :: k < |entries| && Fits(entries, budget, k) && Faulty(entries, k)
  }

  lemma TrimmingFails(entries: seq<Entry>, budget: nat, k: nat, used: nat, valueBytes: nat)
    requires k < |entries| && Trimming(entries, budget, k, used, valueBytes)
    requires !HeadOk(Some(entries[k].value)) || used + EntrySize(entries[k]) > USIZE_MAX
    ensures TrimFails(entries, budget)
  {
    TrimStep(entries, k);
    assert Faulty(entries, k);
  }

  lemma TrimmingExtends(entries: seq<Entry>, budget: nat, k: nat, used: nat, valueBytes: nat)
    requires k < |entries| && Trimming(entries, budget, k, used, valueBytes) && HeadOk(Some(entries[k].value))
    requires used + EntrySize(entries[k]) <= USIZE_MAX && (k == 0 || used + EntrySize(entries[k]) <= budget)
    ensures Trimming(entries, budget, k + 1, used + EntrySize(entries[k]),
                     valueBytes + SlotLength(Some(entries[k].value)))
  {
    TrimStep(entries, k);
    assert entries[..k + 1] == entries[..k] + [entries[k]];
    assert EntryLengths(entries[..k + 1]) == EntryLengths(entries)[..k + 1];
  }

  /** Before entry `n` nothing is faulty. */
  lemma NoFaultBefore(entries: seq<Entry>, n: nat, k: nat)
    requires k < n <= |entries| && HeadersOk(entries[..n]) && Total(EntrySizes(entries)[..n]) <= USIZE_MAX
    ensures !Faulty(entries, k)
  {
    assert entries[..n][k] == entries[k];
    assert EntrySizes(entries)[..n][..k + 1] == EntrySizes(entries)[..k + 1];
    TotalPrefix(EntrySizes(entries)[..n], k + 1);
  }

  lemma TrimmingStops(entries: seq<Entry>, budget: nat, k: nat, used: nat, valueBytes: nat)
    requires 0 < k < |entries| && Trimming(entries, budget, k, used, valueBytes) && HeadOk(Some(entries[k].value))
    requires budget < used + EntrySize(entries[k]) <= USIZE_MAX
    ensures LongestFit(entries, budget, k) && !TrimFails(entries, budget)
  {
    TrimStep(entries, k);
    LongestWhenNextOverflows(entries, budget, k);
    forall j: nat | j < |entries| && Fits(entries, budget, j) ensures !Faulty(entries, j) {
      if j < k { NoFaultBefore(entries, k, j); }
    }
  }

  lemma TrimmingEnds(entries: seq<Entry>, budget: nat, used: nat, valueBytes: nat)
    requires Trimming(entries, budget, |entries|, used, valueBytes)
    ensures LongestFit(entries, budget, |entries|) && !TrimFails(entries, budget)
  {
    forall j: nat | j < |entries| ensures !Faulty(entries, j) { NoFaultBefore(entries, |entries|, j); }
  }

  /** What trimming makes of a page. */
  ghost predicate Trimmed(page: Page, budget: nat, kept: Page) {
    && LongestFit(page.entries, budget, |kept.entries|)
    && kept.entries == page.entries[..|kept.entries|] && HeadersOk(kept.entries)
    && kept.more == (page.more || |kept.entries| < |page.entries|)
  }

  lemma TrimmedAt(page: Page, budget: nat, k: nat, used: nat, valueBytes: nat)
    requires Trimming(page.entries, budget, k, used, valueBytes) && LongestFit(page.entries, budget, k)
    ensures Trimmed(page, budget, Page(page.entries[..k], page.more || k < |page.entries|))
    ensures valueBytes == Total(EntryLengths(page.entries[..k])) && valueBytes <= USIZE_MAX
  {
  }

  /** What to do with one entry. */
  datatype Choice = Keep(used: nat, valueBytes: nat) | Stop | Fail(error: Error)

  method TrimEntry(entries: seq<Entry>, budget: nat, k: nat, used: nat, valueBytes: nat) returns (r: Choice)
    requires k < |entries| && Trimming(entries, budget, k, used, valueBytes)
    ensures r.Keep? ==> Trimming(entries, budget, k + 1, r.used, r.valueBytes)
    ensures r.Stop? ==> LongestFit(entries, budget, k) && !TrimFails(entries, budget)
    ensures r.Fail? ==> TrimFails(entries, budget)
  {
    var entry := entries[k];
    var length := LogicalValueLen(entry.value);
    if length.Err? {
      TrimmingFails(entries, budget, k, used, valueBytes);
      return Fail(length.error);
    }
    var next := used + |entry.key| + length.value;
    if next > USIZE_MAX {
      TrimmingFails(entries, budget, k, used, valueBytes);
      return Fail(Internal);
    }
    if k > 0 && next > budget {
      TrimmingStops(entries, budget, k, used, valueBytes);
      return Stop;
    }
    TrimmingExtends(entries, budget, k, used, valueBytes);
    return Keep(next, valueBytes + length.value);
  }

  /** Keeps the longest prefix within the byte budget, and always the first entry. It fails exactly
      on a faulty entry among the kept ones and the next. */
  method TrimPage(page: Page, budget: nat) returns (r: Result<(Page, nat)>)
    ensures r.Err? <==> TrimFails(page.entries, budget)
    ensures r.Ok? ==> Trimmed(page, budget, r.value.0)
    ensures r.Ok? ==> r.value.1 == Total(EntryLengths(r.value.0.entries)) && r.value.1 <= USIZE_MAX
  {
    var retained: seq<Entry> := [];
    var used, valueBytes := 0, 0;
    for k := 0 to |page.entries|
      invariant retained == page.entries[..k]
      invariant 0 <= valueBytes <= used && Trimming(page.entries, budget, k, used, valueBytes)
    {
      var choice := TrimEntry(page.entries, budget, k, used, valueBytes);
      match choice {
        case Fail(error) => return Err(error);
        case Stop =>
          TrimmedAt(page, budget, k, used, valueBytes);
          return Ok((Page(retained, true), valueBytes));
        case Keep(used', valueBytes') =>
          used, valueBytes := used', valueBytes';
          retained := retained + [page.entries[k]];
      }
    }
    TrimmingEnds(page.entries, budget, used, valueBytes);
    TrimmedAt(page, budget, |page.entries|, used, valueBytes);
    return Ok((Page(retained, page.more), valueBytes));
  }

  // ----- Shared hydration of several pages -----

  function PageSlots(entries: seq<Entry>): (r: seq<Slot>)
    ensures |r| == |entries|
  {
    seq(|entries|, i requires 0 <= i < |entries| => Slot(entries[i].key, Some(entries[i].value)))
  }

  function FlatSlots(pages: seq<Page>): seq<Slot> {
    if pages == [] then [] else FlatSlots(pages[..|pages| - 1]) + PageSlots(pages[|pages| - 1].entries)
  }

  function FlatBytes(pages: seq<Page>): nat {
    if pages == [] then 0 else FlatBytes(pages[..|pages| - 1]) + Total(EntryLengths(pages[|pages| - 1].entries))
  }

  /** A page whose entries are rows of the store. */
  predicate RowsOf(store: Store, page: Page) {
    forall i :: 0 <= i < |page.entries| ==>
      Logical(page.entries[i].key) && Get(store, page.entries[i].key) == Some(page.entries[i].value)
  }

  /** The bytes a caller receives. */
  function AnsweredBytes(entries: seq<Entry>): nat {
    if entries == [] then 0
    else AnsweredBytes(entries[..|entries| - 1]) + |entries[|entries| - 1].key| + |entries[|entries| - 1].value|
  }

  /** The bytes returned are within the budget unless a single entry is returned, and with the
      next entry of the page they would not be. */
  ghost predicate FillsBudget(logical: Store, page: Page, budget: nat, out: Page) {
    var n := |out.entries|;
    && n <= |page.entries| && (page.entries != [] ==> n > 0)
    && (n > 1 ==> AnsweredBytes(out.entries) <= budget)
    && (n < |page.entries| ==>
          && page.entries[n].key in logical
          && AnsweredBytes(out.entries) + |page.entries[n].key| + |logical[page.entries[n].key]| > budget)
  }

  /** A page answered from the logical map: the longest prefix within budget, with logical values. */
  ghost predicate Answers(logical: Store, page: Page, budget: nat, out: Page) {
    && LongestFit(page.entries, budget, |out.entries|) && FillsBudget(logical, page, budget, out)
    && out.more == (page.more || |out.entries| < |page.entries|)
    && forall i :: 0 <= i < |out.entries| ==>
         out.entries[i].key == page.entries[i].key && Get(logical, out.entries[i].key) == Some(out.entries[i].value)
  }

  lemma {:induction false} FlatSlice(pages: seq<Page>, p: nat)
    requires p < |pages|
    ensures |FlatSlots(pages[..p])| + |pages[p].entries| <= |FlatSlots(pages)|
    ensures FlatSlots(pages)[|FlatSlots(pages[..p])|..][..|pages[p].entries|] == PageSlots(pages[p].entries)
    ensures |FlatSlots(pages[..p + 1])| == |FlatSlots(pages[..p])| + |pages[p].entries|
    decreases |pages|
  {
    assert pages[..p + 1][..p] == pages[..p];
    var before := pages[..|pages| - 1];
    if p < |before| {
      FlatSlice(before, p);
      assert before[..p] == pages[..p];
      assert FlatSlots(pages)[|FlatSlots(pages[..p])|..][..|pages[p].entries|]
          == FlatSlots(before)[|FlatSlots(pages[..p])|..][..|pages[p].entries|];
    } else {
      assert pages[..p] == before;
    }
  }

  /** Every slot of a flattened page set is an entry of one of the pages. */
  lemma {:induction false} FlatMember(pages: seq<Page>, i: nat) returns (p: nat, e: nat)
    requires i < |FlatSlots(pages)|
    ensures p < |pages| && e < |pages[p].entries|
    ensures FlatSlots(pages)[i] == Slot(pages[p].entries[e].key, Some(pages[p].entries[e].value))
    decreases |pages|
  {
    var before := pages[..|pages| - 1];
    if i < |FlatSlots(before)| {
      p, e := FlatMember(before, i);
    } else {
      p, e := |pages| - 1, i - |FlatSlots(before)|;
    }
  }

  lemma {:induction false} FlatLengths(pages: seq<Page>)
    ensures Total(Lengths(FlatSlots(pages))) == FlatBytes(pages)
    decreases |pages|
  {
    if pages != [] {
      var before, last := pages[..|pages| - 1], pages[|pages| - 1];
      FlatLengths(before);
      LengthsAppend(FlatSlots(before), last.entries);
      TotalAppend(Lengths(FlatSlots(before)), EntryLengths(last.entries));
    }
  }

  lemma LengthsAppend(slots: seq<Slot>, entries: seq<Entry>)
    ensures Lengths(slots + PageSlots(entries)) == Lengths(slots) + EntryLengths(entries)
  {
  }

  /** How many entries trimming keeps, given that it keeps the first `k`. */
  function KeptCount(entries: seq<Entry>, budget: nat, k: nat): (n: nat)
    requires k <= |entries|
    ensures k <= n <= |entries|
    decreases |entries| - k
  {
    if k < |entries| && Fits(entries, budget, k + 1) then KeptCount(entries, budget, k + 1) else k
  }

  lemma FitsShorter(entries: seq<Entry>, budget: nat, j: nat, k: nat)
    requires j <= k && Fits(entries, budget, k)
    ensures Fits(entries, budget, j)
  {
    var sizes := EntrySizes(entries)[..k];
    assert sizes[..j] == EntrySizes(entries)[..j];
    TotalPrefix(sizes, j);
  }

  lemma {:induction false} KeptCountIsLongest(entries: seq<Entry>, budget: nat, k: nat)
    requires Fits(entries, budget, k)
    ensures LongestFit(entries, budget, KeptCount(entries, budget, k))
    decreases |entries| - k
  {
    if k < |entries| && Fits(entries, budget, k + 1) {
      KeptCountIsLongest(entries, budget, k + 1);
    } else {
      forall j: nat | Fits(entries, budget, j) ensures j <= k {
        if j > k { FitsShorter(entries, budget, k + 1, j); }
      }
    }
  }

  /** The logical bytes that trimming keeps of several pages. */
  function KeptBytes(pages: seq<Page>, budgets: seq<nat>): nat
    requires |pages| == |budgets|
  {
    if pages == [] then 0
    else
      var n := |pages| - 1;
      var entries := pages[n].entries;
      KeptBytes(pages[..n], budgets[..n]) + Total(EntryLengths(entries[..KeptCount(entries, budgets[n], 0)]))
  }

  lemma KeptPageBytes(page: Page, budget: nat, kept: Page)
    requires Trimmed(page, budget, kept)
    ensures kept.entries == page.entries[..KeptCount(page.entries, budget, 0)]
  {
    KeptCountIsLongest(page.entries, budget, 0);
  }

  lemma AllTrimmedPrefix(pages: seq<Page>, budgets: seq<nat>, kept: seq<Page>, n: nat)
    requires AllTrimmed(pages, budgets, kept) && n <= |pages|
    ensures AllTrimmed(pages[..n], budgets[..n], kept[..n])
  {
  }

  lemma {:induction false} KeptBytesExact(pages: seq<Page>, budgets: seq<nat>, kept: seq<Page>)
    requires AllTrimmed(pages, budgets, kept)
    ensures FlatBytes(kept) == KeptBytes(pages, budgets)
    decreases |pages|
  {
    if pages != [] {
      var n := |pages| - 1;
      AllTrimmedPrefix(pages, budgets, kept, n);
      KeptBytesExact(pages[..n], budgets[..n], kept[..n]);
      KeptPageBytes(pages[n], budgets[n], kept[n]);
    }
  }

  lemma {:induction false} KeptBytesPrefix(pages: seq<Page>, budgets: seq<nat>, n: nat)
    requires |pages| == |budgets| && n <= |pages|
    ensures KeptBytes(pages[..n], budgets[..n]) <= KeptBytes(pages, budgets)
    decreases |pages|
  {
    var last := |pages| - 1;
    if n == |pages| {
      assert pages[..n] == pages && budgets[..n] == budgets;
    } else {
      KeptBytesPrefix(pages[..last], budgets[..last], n);
      assert pages[..last][..n] == pages[..n] && budgets[..last][..n] == budgets[..n];
    }
  }

  /** Some page cannot be trimmed, or what is kept of all of them leaves the machine word. */
  ghost predicate TrimsFail(pages: seq<Page>, budgets: seq<nat>)
    requires |pages| == |budgets|
  {
    (exists p :: 0 <= p < |pages| && TrimFails(pages[p].entries, budgets[p])) || KeptBytes(pages, budgets) > USIZE_MAX
  }

  /** The first `p` pages are trimmed. */
  ghost predicate TrimmedUpTo(pages: seq<Page>, budgets: seq<nat>, p: nat, kept: seq<Page>, valueBytes: nat) {
    && |pages| == |budgets| && p <= |pages| && AllTrimmed(pages[..p], budgets[..p], kept)
    && valueBytes == FlatBytes(kept) <= USIZE_MAX
    && forall q :: 0 <= q < p ==> !TrimFails(pages[q].entries, budgets[q])
  }

  lemma TrimmedNext(pages: seq<Page>, budgets: seq<nat>, p: nat, kept: seq<Page>, valueBytes: nat, page: Page)
    requires p < |pages| && TrimmedUpTo(pages, budgets, p, kept, valueBytes)
    requires !TrimFails(pages[p].entries, budgets[p]) && Trimmed(pages[p], budgets[p], page)
    ensures var bytes := valueBytes + Total(EntryLengths(page.entries));
            && (bytes <= USIZE_MAX ==> TrimmedUpTo(pages, budgets, p + 1, kept + [page], bytes))
            && (bytes > USIZE_MAX ==> TrimsFail(pages, budgets))
  {
    TrimmedAppend(pages, budgets, kept, p, page);
    assert [page][..0] == [];
    if valueBytes + Total(EntryLengths(page.entries)) > USIZE_MAX {
      KeptBytesExact(pages[..p + 1], budgets[..p + 1], kept + [page]);
      KeptBytesPrefix(pages, budgets, p + 1);
    }
  }

  lemma TrimmedAll(pages: seq<Page>, budgets: seq<nat>, kept: seq<Page>, valueBytes: nat)
    requires TrimmedUpTo(pages, budgets, |pages|, kept, valueBytes)
    ensures !TrimsFail(pages, budgets) && AllTrimmed(pages, budgets, kept)
  {
    assert pages[..|pages|] == pages && budgets[..|pages|] == budgets;
    KeptBytesExact(pages, budgets, kept);
  }

  /** Qualifies every page before any chunk is fetched. */
  method TrimPages(pages: seq<Page>, budgets: seq<nat>) returns (r: Result<(seq<Page>, nat)>)
    requires |pages| == |budgets|
    ensures r.Err? <==> TrimsFail(pages, budgets)
    ensures r.Ok? ==> AllTrimmed(pages, budgets, r.value.0)
    ensures r.Ok? ==> r.value.1 == FlatBytes(r.value.0) <= USIZE_MAX
  {
    var kept: seq<Page> := [];
    var valueBytes := 0;
    for p := 0 to |pages|
      invariant 0 <= valueBytes && TrimmedUpTo(pages, budgets, p, kept, valueBytes)
    {
      var one := TrimPage(pages[p], budgets[p]);
      if one.Err? {
        return Err(one.error);
      }
      TrimmedNext(pages, budgets, p, kept, valueBytes, one.value.0);
      if valueBytes + one.value.1 > USIZE_MAX {
        return Err(Internal);
      }
      valueBytes := valueBytes + one.value.1;
      kept := kept + [one.value.0];
    }
    TrimmedAll(pages, budgets, kept, valueBytes);
    return Ok((kept, valueBytes));
  }

  /** Good heads and sizes within the machine word are always trimmed. */
  lemma TrimsSucceed(pages: seq<Page>, budgets: seq<nat>)
    requires |pages| == |budgets| && PageBytes(pages) <= USIZE_MAX
    requires forall p :: 0 <= p < |pages| ==> HeadersOk(pages[p].entries)
    ensures !TrimsFail(pages, budgets)
  {
    forall p | 0 <= p < |pages| ensures !TrimFails(pages[p].entries, budgets[p]) {
      var entries := pages[p].entries;
      PageBytesPrefix(pages, p);
      assert entries[..|entries|] == entries && EntrySizes(entries)[..|entries|] == EntrySizes(entries);
      forall k: nat | k < |entries| ensures !Faulty(entries, k) { NoFaultBefore(entries, |entries|, k); }
    }
    KeptWithinPages(pages, budgets);
  }

  lemma {:induction false} KeptWithinPages(pages: seq<Page>, budgets: seq<nat>)
    requires |pages| == |budgets|
    ensures KeptBytes(pages, budgets) <= PageBytes(pages)
    decreases |pages|
  {
    if pages != [] {
      var n := |pages| - 1;
      var entries := pages[n].entries;
      KeptWithinPages(pages[..n], budgets[..n]);
      KeptCountIsLongest(entries, budgets[n], 0);
      PrefixBytes(entries, KeptCount(entries, budgets[n], 0));
    }
  }

  lemma PrefixBytes(entries: seq<Entry>, k: nat)
    requires k <= |entries|
    ensures Total(EntryLengths(entries[..k])) <= Total(EntrySizes(entries))
  {
    TotalBound(EntryLengths(entries[..k]), EntrySizes(entries)[..k], 0);
    TotalPrefix(EntrySizes(entries), k);
  }

  ghost predicate AllTrimmed(pages: seq<Page>, budgets: seq<nat>, kept: seq<Page>) {
    |pages| == |budgets| == |kept| && forall p :: 0 <= p < |pages| ==> Trimmed(pages[p], budgets[p], kept[p])
  }

  lemma TrimmedAppend(pages: seq<Page>, budgets: seq<nat>, kept: seq<Page>, p: nat, page: Page)
    requires |pages| == |budgets| && p < |pages| && AllTrimmed(pages[..p], budgets[..p], kept)
             && Trimmed(pages[p], budgets[p], page)
    ensures AllTrimmed(pages[..p + 1], budgets[..p + 1], kept + [page])
    ensures FlatBytes(kept + [page]) == FlatBytes(kept) + FlatBytes([page])
  {
    assert (kept + [page])[..p] == kept && [page][..0] == [];
  }

  function PageBytes(pages: seq<Page>): nat {
    if pages == [] then 0 else PageBytes(pages[..|pages| - 1]) + Total(EntrySizes(pages[|pages| - 1].entries))
  }

  lemma {:induction false} PageBytesPrefix(pages: seq<Page>, n: nat)
    requires n <= |pages|
    ensures PageBytes(pages[..n]) <= PageBytes(pages)
    ensures n < |pages| ==> Total(EntrySizes(pages[n].entries)) <= PageBytes(pages)
    decreases |pages|
  {
    if n == |pages| {
      assert pages[..n] == pages;
    } else {
      var before := pages[..|pages| - 1];
      assert before[..n] == pages[..n];
      PageBytesPrefix(before, n);
    }
  }

  /** One page's run of resolved values; a value that disappeared fails the read. */
  method RestoreEntries(values: seq<Slot>, position: nat, count: nat) returns (r: Result<seq<Entry>>)
    requires position + count <= |values|
    ensures r.Ok? <==> forall i :: position <= i < position + count ==> values[i].value.Some?
    ensures r.Ok? ==> |r.value| == count
    ensures r.Ok? ==> PageSlots(r.value) == values[position..position + count]
  {
    var entries: seq<Entry> := [];
    for i := 0 to count
      invariant |entries| == i && PageSlots(entries) == values[position..position + i]
      invariant forall j :: position <= j < position + i ==> values[j].value.Some?
    {
      var slot := values[position + i];
      if slot.value.None? {
        return Err(Internal);
      }
      var entry := Entry(slot.key, slot.value.value);
      assert slot == Slot(entry.key, Some(entry.value));
      assert PageSlots(entries + [entry]) == PageSlots(entries) + [slot];
      assert values[position..position + i + 1] == values[position..position + i] + [slot];
      entries := entries + [entry];
    }
    return Ok(entries);
  }

  lemma {:induction false} ResolvedSlice(store: Store, kept: seq<Page>, p: nat, out: seq<Entry>)
    requires p < |kept| && |FlatSlots(kept[..p])| + |kept[p].entries| <= |FlatSlots(kept)|
    requires |out| == |kept[p].entries|
    requires PageSlots(out)
             == ResolvedAll(store, FlatSlots(kept))[|FlatSlots(kept[..p])|..|FlatSlots(kept[..p])| + |kept[p].entries|]
    ensures RestoredPage(store, kept[p], Page(out, kept[p].more))
  {
    FlatSlice(kept, p);
    var position, flat, run := |FlatSlots(kept[..p])|, FlatSlots(kept), PageSlots(kept[p].entries);
    forall i | 0 <= i < |out|
      ensures out[i].key == kept[p].entries[i].key && Some(out[i].value) == Resolved(store, run[i]) {
      assert PageSlots(out)[i] == ResolvedAll(store, flat)[position + i];
      assert flat[position..][..|kept[p].entries|][i] == flat[position + i];
    }
  }

  /** Pages of the same sizes and flags, whatever their entries hold. */
  predicate SameShape(kept: seq<Page>, out: seq<Page>) {
    |out| == |kept| && forall p :: 0 <= p < |kept| ==>
      out[p].more == kept[p].more && |out[p].entries| == |kept[p].entries|
  }

  lemma RestoreNext(values: seq<Slot>, kept: seq<Page>, p: nat, out: seq<Page>, page: Page)
    requires p < |kept| && SameShape(kept[..p], out) && page.more == kept[p].more && |page.entries| == |kept[p].entries|
    requires |FlatSlots(out)| + |page.entries| <= |values| && FlatSlots(out) == values[..|FlatSlots(out)|]
    requires PageSlots(page.entries) == values[|FlatSlots(out)|..|FlatSlots(out)| + |page.entries|]
    ensures SameShape(kept[..p + 1], out + [page])
    ensures FlatSlots(out + [page]) == values[..|FlatSlots(out)| + |page.entries|]
  {
    assert (out + [page])[..p] == out;
  }

  /** Hands each page its own run of the values: the pages keep their shape, together they hold
      exactly the values in order, and only a missing value fails. */
  method RestorePages(values: seq<Slot>, kept: seq<Page>) returns (r: Result<seq<Page>>)
    requires |values| == |FlatSlots(kept)|
    ensures r.Ok? <==> forall i :: 0 <= i < |values| ==> values[i].value.Some?
    ensures r.Ok? ==> SameShape(kept, r.value) && FlatSlots(r.value) == values
  {
    var out: seq<Page> := [];
    var position := 0;
    for p := 0 to |kept|
      invariant position == |FlatSlots(kept[..p])| <= |values| && SameShape(kept[..p], out)
      invariant FlatSlots(out) == values[..position]
      invariant forall i :: 0 <= i < position ==> values[i].value.Some?
    {
      FlatSlice(kept, p);
      var entries := RestoreEntries(values, position, |kept[p].entries|);
      if entries.Err? {
        return Err(Internal);
      }
      var page := Page(entries.value, kept[p].more);
      RestoreNext(values, kept, p, out, page);
      out := out + [page];
      position := position + |kept[p].entries|;
    }
    assert kept[..|kept|] == kept;
    return Ok(out);
  }

  lemma {:induction false} FlatShape(kept: seq<Page>, out: seq<Page>, p: nat)
    requires SameShape(kept, out) && p <= |kept|
    ensures |FlatSlots(out[..p])| == |FlatSlots(kept[..p])|
    decreases p
  {
    if p > 0 {
      assert kept[..p][..p - 1] == kept[..p - 1] && out[..p][..p - 1] == out[..p - 1];
      FlatShape(kept, out, p - 1);
    }
  }

  /** Pages of the right shape that hold the resolved values hold each page's own. */
  lemma RestoredByShape(store: Store, kept: seq<Page>, out: seq<Page>, p: nat)
    requires SameShape(kept, out) && FlatSlots(out) == ResolvedAll(store, FlatSlots(kept)) && p < |kept|
    ensures RestoredPage(store, kept[p], out[p])
  {
    FlatShape(kept, out, p);
    FlatSlice(kept, p);
    FlatSlice(out, p);
    var position, n := |FlatSlots(kept[..p])|, |kept[p].entries|;
    assert FlatSlots(out)[position..][..n] == FlatSlots(out)[position..position + n];
    ResolvedSlice(store, kept, p, out[p].entries);
  }

  predicate RestoredPage(store: Store, kept: Page, out: Page) {
    && out.more == kept.more && |out.entries| == |kept.entries|
    && forall i :: 0 <= i < |kept.entries| ==>
         && out.entries[i].key == kept.entries[i].key
         && Some(out.entries[i].value) == Resolved(store, PageSlots(kept.entries)[i])
  }

  /** The allowance summed while trimming admits exactly what was kept. */
  lemma PlannedPagesResolve(profile: Profile, store: Store, logical: Store, kept: seq<Page>)
    requires Represents(profile, store, logical) && forall p :: 0 <= p < |kept| ==> RowsOf(store, kept[p])
    ensures Resolvable(store, FlatSlots(kept), KV_MAX_VALUE_BYTES, FlatBytes(kept))
    ensures forall i :: 0 <= i < |FlatSlots(kept)| ==> Resolved(store, FlatSlots(kept)[i]).Some?
  {
    var slots := FlatSlots(kept);
    FlatLengths(kept);
    forall i | 0 <= i < |slots|
      ensures HeadOk(slots[i].value) && ChunksIntact(store, slots[i]) && Lengths(slots)[i] <= KV_MAX_VALUE_BYTES
      ensures Resolved(store, slots[i]).Some?
    {
      var p, e := FlatMember(kept, i);
      assert RowsOf(store, kept[p]);
      SlotMeans(store, slots[i].key, Get(logical, slots[i].key));
      assert Holds(store, slots[i].key, Get(logical, slots[i].key));
    }
  }

  lemma LogicalEntrySize(profile: Profile, store: Store, logical: Store, page: Page, i: nat)
    requires Represents(profile, store, logical) && RowsOf(store, page) && i < |page.entries|
    ensures page.entries[i].key in logical
    ensures EntrySize(page.entries[i]) == |page.entries[i].key| + |logical[page.entries[i].key]|
  {
    SlotMeans(store, page.entries[i].key, Get(logical, page.entries[i].key));
  }

  lemma {:induction false} AnsweredTotal(profile: Profile, store: Store, logical: Store, page: Page,
      entries: seq<Entry>)
    requires Represents(profile, store, logical) && RowsOf(store, page) && |entries| <= |page.entries|
    requires forall i :: 0 <= i < |entries| ==>
             entries[i].key == page.entries[i].key && Get(logical, entries[i].key) == Some(entries[i].value)
    ensures AnsweredBytes(entries) == Total(EntrySizes(page.entries)[..|entries|])
    decreases |entries|
  {
    if entries != [] {
      var last := |entries| - 1;
      AnsweredTotal(profile, store, logical, page, entries[..last]);
      LogicalEntrySize(profile, store, logical, page, last);
      TotalTake(EntrySizes(page.entries), last);
    }
  }

  lemma RestoredFills(profile: Profile, store: Store, logical: Store, page: Page, budget: nat, out: Page)
    requires Represents(profile, store, logical) && RowsOf(store, page)
    requires LongestFit(page.entries, budget, |out.entries|)
    requires forall i :: 0 <= i < |out.entries| ==>
             out.entries[i].key == page.entries[i].key && Get(logical, out.entries[i].key) == Some(out.entries[i].value)
    ensures FillsBudget(logical, page, budget, out)
  {
    var n := |out.entries|;
    AnsweredTotal(profile, store, logical, page, out.entries);
    assert page.entries != [] ==> Fits(page.entries, budget, 1);
    if n < |page.entries| {
      LogicalEntrySize(profile, store, logical, page, n);
      TotalTake(EntrySizes(page.entries), n);
      assert !Fits(page.entries, budget, n + 1);
    }
  }

  lemma RestoredAnswers(profile: Profile, store: Store, logical: Store, page: Page, budget: nat, kept: Page, out: Page)
    requires Represents(profile, store, logical) && RowsOf(store, page) && Trimmed(page, budget, kept)
             && RestoredPage(store, kept, out)
    ensures Answers(logical, page, budget, out)
  {
    forall i | 0 <= i < |out.entries|
      ensures out.entries[i].key == page.entries[i].key
              && Get(logical, out.entries[i].key) == Some(out.entries[i].value)
    {
      assert kept.entries[i] == page.entries[i];
      SlotMeans(store, page.entries[i].key, Get(logical, page.entries[i].key));
    }
    RestoredFills(profile, store, logical, page, budget, out);
  }

  /** Pages of rows of a store that stands for a logical map, within machine sizes. */
  ghost predicate Scanned(profile: Profile, store: Store, logical: Store, pages: seq<Page>) {
    && Represents(profile, store, logical) && PageBytes(pages) <= USIZE_MAX
    && forall p :: 0 <= p < |pages| ==> RowsOf(store, pages[p])
  }

  lemma ScannedHeaders(profile: Profile, store: Store, logical: Store, pages: seq<Page>, p: nat)
    requires Scanned(profile, store, logical, pages) && p < |pages|
    ensures HeadersOk(pages[p].entries)
  {
    forall i | 0 <= i < |pages[p].entries| ensures HeadOk(Some(pages[p].entries[i].value)) {
      SlotMeans(store, pages[p].entries[i].key, Get(logical, pages[p].entries[i].key));
    }
  }

  lemma ScannedKept(store: Store, page: Page, budget: nat, kept: Page)
    requires RowsOf(store, page) && Trimmed(page, budget, kept)
    ensures RowsOf(store, kept)
  {
    assert forall i :: 0 <= i < |kept.entries| ==> kept.entries[i] == page.entries[i];
  }

  /** Trims every page, hydrates all of them together and restores their shapes: pages of
      store rows are always answered, each from the logical map and within its own budget. */
  method ResolvePages(store: Store, pages: seq<Page>, budgets: seq<nat>, ghost profile: Profile, ghost logical: Store)
    returns (r: Result<seq<Page>>)
    ensures |pages| != |budgets| ==> r.Err?
    ensures |pages| == |budgets| && Scanned(profile, store, logical, pages) ==>
      r.Ok? && |r.value| == |pages| && forall p :: 0 <= p < |pages| ==>
        Answers(logical, pages[p], budgets[p], r.value[p])
  {
    if |pages| != |budgets| {
      return Err(Internal);
    }
    ghost var scanned := Scanned(profile, store, logical, pages);
    if scanned {
      forall p | 0 <= p < |pages|
        ensures HeadersOk(pages[p].entries) { ScannedHeaders(profile, store, logical, pages, p); }
      TrimsSucceed(pages, budgets);
    }
    var trimmed := TrimPages(pages, budgets);
    if trimmed.Err? {
      return Err(trimmed.error);
    }
    var kept := trimmed.value.0;
    if scanned {
      forall p | 0 <= p < |kept| ensures RowsOf(store, kept[p]) { ScannedKept(store, pages[p], budgets[p], kept[p]); }
      PlannedPagesResolve(profile, store, logical, kept);
    }
    var flat := FlatSlots(kept);
    var raw := new Slot[|flat|](i requires 0 <= i < |flat| => flat[i]);
    assert raw[..] == flat;
    var allowance := new KvValueAllowance(KV_MAX_VALUE_BYTES, trimmed.value.1);
    var ok := ResolveValues(store, raw, allowance);
    if !ok {
      return Err(Internal);
    }
    r := RestorePages(raw[..], kept);
    if scanned {
      forall p | 0 <= p < |pages| ensures Answers(logical, pages[p], budgets[p], r.value[p]) {
        RestoredByShape(store, kept, r.value, p);
        RestoredAnswers(profile, store, logical, pages[p], budgets[p], kept[p], r.value[p]);
      }
    }
  }
}
