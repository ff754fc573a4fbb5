/** Record batches under infrastructure limits, and their greedy division into waves. */
module Waves {
  import opened Outcomes
  import opened Bytes

  const INFRASTRUCTURE_KEY_BYTES: nat := 1024
  const I64_MAX: nat := 0x7FFF_FFFF_FFFF_FFFF
  const REVISION_MAX: nat := 0xFFFF_FFFF_FFFF_FFFF

  // ----- Limits -----

  datatype Limits = Limits(keyBytes: nat, recordBytes: nat, bytes: nat, records: nat)

  /** What every limits value satisfies: the only constructor checks it. */
  predicate Qualified(l: Limits) {
    && 0 < l.keyBytes <= INFRASTRUCTURE_KEY_BYTES && 0 < l.recordBytes && 0 < l.records
    && l.keyBytes + l.recordBytes <= l.bytes <= USIZE_MAX
    && l.records < I64_MAX
  }

  method TryNewLimits(keyBytes: nat, recordBytes: nat, bytes: nat, records: nat) returns (r: Result<Limits>)
    requires 0 < keyBytes <= USIZE_MAX && 0 < recordBytes <= USIZE_MAX && 0 < bytes <= USIZE_MAX
             && 0 < records <= USIZE_MAX
    ensures r.Ok? <==> Qualified(Limits(keyBytes, recordBytes, bytes, records))
    ensures r == Ok(Limits(keyBytes, recordBytes, bytes, records)) || r == Err(InvalidBound)
  {
    if keyBytes > INFRASTRUCTURE_KEY_BYTES || keyBytes + recordBytes > USIZE_MAX || keyBytes + recordBytes > bytes
       || records + 1 > I64_MAX {
      return Err(InvalidBound);
    }
    return Ok(Limits(keyBytes, recordBytes, bytes, records));
  }

  // ----- Changes -----

  datatype Address = Address(ns: Key, resource: Key, generation: nat, suffix: Key)

  datatype Record = Record(address: Address, revision: nat, bytes: Key)

  datatype Expectation = Absent | Revision(previous: nat)

  datatype Change = Store(expected: Expectation, record: Record) | Delete(deleted: nat, target: Address)

  function AddressOf(c: Change): Address {
    match c
    case Store(_, record) => record.address
    case Delete(_, target) => target
  }

  function AddressBytes(a: Address): nat {
    |a.ns| + |a.resource| + |a.suffix| + 16
  }

  /** The bytes one change is charged. */
  function Size(c: Change): nat {
    AddressBytes(AddressOf(c)) + (if c.Store? then |c.record.bytes| else 0)
  }

  /** The written revision directly follows the expected one. */
  predicate Follows(c: Change) {
    c.Store? ==> match c.expected
                 case Absent => c.record.revision == 0
                 case Revision(previous) => previous < REVISION_MAX && c.record.revision == previous + 1
  }

  predicate Sound(c: Change, l: Limits) {
    Follows(c) && AddressBytes(AddressOf(c)) <= l.keyBytes && (c.Store? ==> |c.record.bytes| <= l.recordBytes)
  }

  function ValidateKey(a: Address, l: Limits): Result<nat> {
    var size := |a.ns| + |a.resource| + |a.suffix| + 16;
    if size > USIZE_MAX || size > l.keyBytes then Err(InvalidBound) else Ok(size)
  }

  function ValidateRecord(record: Record, l: Limits): Result<nat> {
    var keyBytes :- ValidateKey(record.address, l);
    if |record.bytes| > l.recordBytes || keyBytes + |record.bytes| > USIZE_MAX then Err(InvalidBound)
    else Ok(keyBytes + |record.bytes|)
  }

  function CheckBatch(l: Limits, count: nat, bytes: nat): Result<()> {
    if count > l.records || bytes > l.bytes then Err(InvalidBound) else Ok(())
  }

  function RequiredRevision(expected: Expectation): Result<nat> {
    match expected
    case Absent => Ok(0)
    case Revision(previous) => if previous >= REVISION_MAX then Err(InvalidBound) else Ok(previous + 1)
  }

  /** Admits one change under qualified limits: exactly the sound ones, charged their size. */
  function Validate(c: Change, l: Limits): (r: Result<nat>)
    requires Qualified(l)
    ensures r.Ok? <==> Sound(c, l)
    ensures r.Ok? ==> r.value == Size(c) <= l.bytes
  {
    var bytes :-
      match c {
        case Delete(_, target) => ValidateKey(target, l)
        case Store(expected, record) =>
          var revision :- RequiredRevision(expected);
          if record.revision != revision then Err(Encoding) else ValidateRecord(record, l)
      };
    var checked :- CheckBatch(l, 1, bytes);
    Ok(bytes)
  }

  // ----- Batches -----

  function SizeSum(changes: seq<Change>): nat {
    if changes == [] then 0 else SizeSum(changes[..|changes| - 1]) + Size(changes[|changes| - 1])
  }

  lemma {:induction false} SizeSumConcat(a: seq<Change>, b: seq<Change>)
    ensures SizeSum(a + b) == SizeSum(a) + SizeSum(b)
    decreases |b|
  {
    if b == [] {
      assert a + b == a;
    } else {
      var last := |b| - 1;
      assert (a + b)[..|a + b| - 1] == a + b[..last];
      SizeSumConcat(a, b[..last]);
    }
  }

  lemma SizeSumSplit(s: seq<Change>, k: nat)
    requires k <= |s|
    ensures SizeSum(s[..k]) + SizeSum(s[k..]) == SizeSum(s)
  {
    JoinSlices(s, k);
    SizeSumConcat(s[..k], s[k..]);
  }

  lemma JoinSlices(s: seq<Change>, k: nat)
    requires k <= |s|
    ensures s[..k] + s[k..] == s
  {
  }

  lemma SizeSumSlice(s: seq<Change>, i: nat, j: nat)
    requires i <= j <= |s|
    ensures SizeSum(s[i..j]) <= SizeSum(s)
  {
    SliceIsSuffix(s, i, j);
    SizeSumSplit(s, j);
    SizeSumSplit(s[..j], i);
  }

  lemma SliceIsSuffix(s: seq<Change>, i: nat, j: nat)
    requires i <= j <= |s|
    ensures s[..j][i..] == s[i..j]
  {
  }

  lemma SizeSumNext(s: seq<Change>, i: nat, j: nat)
    requires i <= j < |s|
    ensures SizeSum(s[i..j + 1]) == SizeSum(s[i..j]) + Size(s[j])
  {
    assert s[i..j + 1][..j - i] == s[i..j];
  }

  predicate Within(changes: seq<Change>, l: Limits) {
    |changes| <= l.records && SizeSum(changes) <= l.bytes
  }

  predicate AllSound(changes: seq<Change>, l: Limits) {
    forall i :: 0 <= i < |changes| ==> Sound(changes[i], l)
  }

  predicate DistinctKeys(changes: seq<Change>) {
    forall i, j :: 0 <= i < j < |changes| ==> AddressOf(changes[i]) != AddressOf(changes[j])
  }

  function Keys(changes: seq<Change>): set<Address> {
    set i | 0 <= i < |changes| :: AddressOf(changes[i])
  }

  predicate Admissible(changes: seq<Change>, l: Limits) {
    Within(changes, l) && AllSound(changes, l) && DistinctKeys(changes)
  }

  lemma KeysAppend(changes: seq<Change>, i: nat)
    requires i < |changes|
    ensures Keys(changes[..i + 1]) == Keys(changes[..i]) + {AddressOf(changes[i])}
    ensures DistinctKeys(changes[..i + 1]) <==>
            DistinctKeys(changes[..i]) && AddressOf(changes[i]) !in Keys(changes[..i])
  {
    var a, b := changes[..i], changes[..i + 1];
    assert forall j :: 0 <= j < i ==> b[j] == a[j];
    forall k ensures k in Keys(b) <==> k in Keys(a) || k == AddressOf(changes[i]) {
      if k in Keys(a) {
        var j :| 0 <= j < |a| && AddressOf(a[j]) == k;
        assert AddressOf(b[j]) == k;
      }
      assert AddressOf(b[i]) == AddressOf(changes[i]);
    }
    if DistinctKeys(b) {
      forall j | 0 <= j < i
        ensures AddressOf(a[j]) != AddressOf(changes[i]) { assert b[j] == a[j] && b[i] == changes[i]; }
    }
  }

  /** A record batch accepts exactly the admissible lists of changes. */
  method TryNewBatch(changes: seq<Change>, l: Limits) returns (r: Result<()>)
    requires Qualified(l)
    ensures r.Ok? <==> Admissible(changes, l)
  {
    var counted := CheckBatch(l, |changes|, 0);
    if counted.Err? {
      return counted;
    }
    var keys: set<Address> := {};
    var bytes := 0;
    for i := 0 to |changes|
      invariant keys == Keys(changes[..i]) && DistinctKeys(changes[..i]) && AllSound(changes[..i], l)
      invariant bytes == SizeSum(changes[..i]) <= USIZE_MAX
    {
      var c := changes[i];
      KeysAppend(changes, i);
      SizeSumNext(changes, 0, i);
      assert changes[0..i] == changes[..i] && changes[0..i + 1] == changes[..i + 1];
      if AddressOf(c) in keys {
        assert !DistinctKeys(changes);
        return Err(Encoding);
      }
      keys := keys + {AddressOf(c)};
      var size := Validate(c, l);
      if size.Err? {
        return Err(size.error);
      }
      SizeSumSlice(changes, 0, i + 1);
      if bytes + size.value > USIZE_MAX {
        return Err(InvalidBound);
      }
      bytes := bytes + size.value;
    }
    assert changes[..|changes|] == changes;
    r := CheckBatch(l, |changes|, bytes);
  }

  // ----- Waves -----

  function Concat(waves: seq<seq<Change>>): seq<Change> {
    if waves == [] then [] else Concat(waves[..|waves| - 1]) + waves[|waves| - 1]
  }

  /** Where wave `k` starts in the concatenation. */
  function Offset(waves: seq<seq<Change>>, k: nat): nat
    requires k <= |waves|
  {
    |Concat(waves[..k])|
  }

  lemma OffsetStep(waves: seq<seq<Change>>, k: nat)
    requires k < |waves|
    ensures Concat(waves[..k + 1]) == Concat(waves[..k]) + waves[k]
    ensures Offset(waves, k + 1) == Offset(waves, k) + |waves[k]|
  {
    assert waves[..k + 1][..k] == waves[..k];
  }

  lemma {:induction false} ConcatPrefix(waves: seq<seq<Change>>, k: nat)
    requires k <= |waves|
    ensures Offset(waves, k) <= |Concat(waves)| && Concat(waves)[..Offset(waves, k)] == Concat(waves[..k])
    decreases |waves| - k
  {
    if k == |waves| {
      assert waves[..k] == waves;
    } else {
      ConcatPrefix(waves, k + 1);
      OffsetStep(waves, k);
      assert Concat(waves)[..Offset(waves, k)] == Concat(waves)[..Offset(waves, k + 1)][..Offset(waves, k)];
    }
  }

  /** Wave `k` is a contiguous run of the concatenated list. */
  lemma WaveIsSlice(waves: seq<seq<Change>>, k: nat)
    requires k < |waves|
    ensures Offset(waves, k) <= Offset(waves, k + 1) <= |Concat(waves)|
    ensures waves[k] == Concat(waves)[Offset(waves, k)..Offset(waves, k + 1)]
  {
    ConcatPrefix(waves, k + 1);
    OffsetStep(waves, k);
    assert Concat(waves)[Offset(waves, k)..Offset(waves, k + 1)]
      == Concat(waves)[..Offset(waves, k + 1)][Offset(waves, k)..];
  }

  /** Wave `k` could not have taken the change after it. */
  predicate Full(waves: seq<seq<Change>>, changes: seq<Change>, l: Limits, k: nat)
    requires k < |waves|
  {
    Offset(waves, k + 1) < |changes| ==>
      |waves[k]| == l.records || SizeSum(waves[k]) + Size(changes[Offset(waves, k + 1)]) > l.bytes
  }

  ghost predicate GoodWaves(waves: seq<seq<Change>>, changes: seq<Change>, l: Limits) {
    forall k :: 0 <= k < |waves| ==> waves[k] != [] && Within(waves[k], l) && Full(waves, changes, l, k)
  }

  /** The waves of a group: its changes in order, in non-empty batches within the limits,
      each as long as it can be. */
  ghost predicate WavesOf(waves: seq<seq<Change>>, changes: seq<Change>, l: Limits) {
    Concat(waves) == changes && GoodWaves(waves, changes, l)
  }

  // ----- Optimality -----

  ghost predicate Division(other: seq<seq<Change>>, changes: seq<Change>, l: Limits) {
    Concat(other) == changes && forall k :: 0 <= k < |other| ==> Within(other[k], l)
  }

  lemma SliceOfSlice(s: seq<Change>, i: nat, j: nat, from: nat, to: nat)
    requires i <= j <= |s| && from <= to <= j - i
    ensures s[i..j][from..to] == s[i + from..i + to]
  {
    var a, b := s[i..j][from..to], s[i + from..i + to];
    forall k | 0 <= k < |a| ensures a[k] == b[k] {
      assert a[k] == s[i..j][from + k];
    }
    assert a == b;
  }

  /** A run that starts no later than a full wave and takes more than it is over a limit. */
  lemma TooLong(changes: seq<Change>, l: Limits, o0: nat, w0: nat, w1: nat, o1: nat)
    requires o0 <= w0 <= w1 < o1 <= |changes|
    requires w1 - w0 == l.records || SizeSum(changes[w0..w1]) + Size(changes[w1]) > l.bytes
    ensures !Within(changes[o0..o1], l)
  {
    var run, from, to := changes[o0..o1], w0 - o0, w1 + 1 - o0;
    SliceOfSlice(changes, o0, o1, from, to);
    SizeSumSlice(run, from, to);
    SizeSumNext(changes, w0, w1);
  }

  /** After as many batches, the waves have covered at least as much as any other division. */
  lemma {:induction false} StaysAhead(waves: seq<seq<Change>>, other: seq<seq<Change>>, changes: seq<Change>, l: Limits,
      k: nat)
    requires WavesOf(waves, changes, l) && Division(other, changes, l)
    requires k <= |waves| && k <= |other|
    ensures Offset(other, k) <= Offset(waves, k)
    decreases k
  {
    if k > 0 {
      StaysAhead(waves, other, changes, l, k - 1);
      WaveIsSlice(waves, k - 1);
      WaveIsSlice(other, k - 1);
      assert Full(waves, changes, l, k - 1) && Within(other[k - 1], l);
      if Offset(waves, k) < Offset(other, k) {
        TooLong(changes, l, Offset(other, k - 1), Offset(waves, k - 1), Offset(waves, k), Offset(other, k));
      }
    }
  }

  /** No contiguous division into batches within the limits uses fewer batches. */
  lemma WavesAreFewest(waves: seq<seq<Change>>, other: seq<seq<Change>>, changes: seq<Change>, l: Limits)
    requires WavesOf(waves, changes, l) && Division(other, changes, l)
    ensures |waves| <= |other|
  {
    if |other| < |waves| {
      assert other[..|other|] == other;
      WaveIsSlice(waves, |other|);
      OffsetStep(waves, |other|);
      StaysAhead(waves, other, changes, l, |other|);
    }
  }

  // ----- Planning -----

  /** Where the open wave starts when the changes before `position` have been placed: each change
      extends the wave before it if that stays within the limits. */
  function OpenStart(changes: seq<Change>, l: Limits, position: nat): (start: nat)
    requires position <= |changes|
    ensures start <= position && (position > 0 ==> start < position)
  {
    if position == 0 then 0
    else
      var start := OpenStart(changes, l, position - 1);
      if Within(changes[start..position], l) then start else position - 1
  }

  /** A change and the open wave before it are together more than a machine word can count. */
  predicate LeavesWord(changes: seq<Change>, l: Limits, position: nat)
    requires position < |changes|
  {
    SizeSum(changes[OpenStart(changes, l, position)..position]) + Size(changes[position]) > USIZE_MAX
  }

  predicate Counted(changes: seq<Change>, l: Limits, n: nat)
    requires n <= |changes|
  {
    forall position :: 0 <= position < n ==> !LeavesWord(changes, l, position)
  }

  predicate Countable(changes: seq<Change>, l: Limits) {
    Counted(changes, l, |changes|)
  }

  predicate Plannable(changes: seq<Change>, l: Limits, keys: set<Address>) {
    AllSound(changes, l) && DistinctKeys(changes) && Keys(changes) !! keys
  }

  /** Planning state: finished waves cover `changes[..start]`, the open wave `changes[start..position]`. */
  ghost predicate Planning(changes: seq<Change>, l: Limits, waves: seq<seq<Change>>, start: nat, position: nat,
      bytes: nat) {
    && position <= |changes| && start == OpenStart(changes, l, position)
    && Concat(waves) == changes[..start] && GoodWaves(waves, changes, l)
    && position - start <= l.records && bytes == SizeSum(changes[start..position]) <= l.bytes
  }

  lemma PushWave(changes: seq<Change>, l: Limits, waves: seq<seq<Change>>, start: nat, position: nat, bytes: nat)
    requires Planning(changes, l, waves, start, position, bytes) && start < position
    requires position < |changes| ==> position - start == l.records || bytes + Size(changes[position]) > l.bytes
    ensures Concat(waves + [changes[start..position]]) == changes[..position]
    ensures GoodWaves(waves + [changes[start..position]], changes, l)
  {
    var more := waves + [changes[start..position]];
    assert more[..|waves|] == waves;
    assert changes[..start] + changes[start..position] == changes[..position];
    forall k | 0 <= k < |more| ensures more[k] != [] && Within(more[k], l) && Full(more, changes, l, k) {
      if k < |waves| {
        assert more[..k + 1] == waves[..k + 1] && Full(waves, changes, l, k);
      } else {
        assert more[..k + 1] == more;
      }
    }
  }

  lemma ExtendWave(changes: seq<Change>, l: Limits, waves: seq<seq<Change>>, start: nat, position: nat, bytes: nat)
    requires Planning(changes, l, waves, start, position, bytes) && position < |changes|
    requires position - start < l.records && bytes + Size(changes[position]) <= l.bytes
    ensures Planning(changes, l, waves, start, position + 1, bytes + Size(changes[position]))
  {
    SizeSumNext(changes, start, position);
  }

  lemma OpenWave(changes: seq<Change>, l: Limits, waves: seq<seq<Change>>, start: nat, position: nat, bytes: nat)
    requires Qualified(l) && Planning(changes, l, waves, start, position, bytes) && position < |changes|
    requires position - start == l.records || bytes + Size(changes[position]) > l.bytes
    requires Size(changes[position]) <= l.bytes
    ensures Planning(changes, l, waves + [changes[start..position]], position, position + 1, Size(changes[position]))
  {
    SizeSumNext(changes, start, position);
    PushWave(changes, l, waves, start, position, bytes);
    assert changes[position..position + 1] == [changes[position]];
  }

  /** The open wave holds at most the byte limit. */
  lemma {:induction false} OpenBytes(changes: seq<Change>, l: Limits, position: nat)
    requires Qualified(l) && AllSound(changes, l) && position <= |changes|
    ensures SizeSum(changes[OpenStart(changes, l, position)..position]) <= l.bytes
    decreases position
  {
    if position > 0 {
      var start := OpenStart(changes, l, position - 1);
      if !Within(changes[start..position], l) {
        assert changes[position - 1..position] == [changes[position - 1]];
        assert Sound(changes[position - 1], l);
      }
    }
  }

  /** Sound changes are countable whenever their sizes add up to a machine word, as those of
      changes held in one address space do, and under every limit of at most half a word. */
  lemma CountableWhen(changes: seq<Change>, l: Limits)
    requires Qualified(l) && AllSound(changes, l) && (SizeSum(changes) <= USIZE_MAX || l.bytes <= USIZE_MAX / 2)
    ensures Countable(changes, l)
  {
    forall position | 0 <= position < |changes| ensures !LeavesWord(changes, l, position) {
      var start := OpenStart(changes, l, position);
      SizeSumNext(changes, start, position);
      SizeSumSlice(changes, start, position + 1);
      OpenBytes(changes, l, position);
      assert Sound(changes[position], l);
    }
  }

  /** The arithmetic needs its guard: two sound changes of half a word each, under a limit of a
      word, are not countable. No address space holds such changes, so no caller gets there. */
  lemma UncountableExists() returns (changes: seq<Change>, l: Limits)
    ensures Qualified(l) && Plannable(changes, l, {}) && |changes| == 2 && !Countable(changes, l)
  {
    var half := 0x8000_0000_0000_0000;
    l := Limits(INFRASTRUCTURE_KEY_BYTES, half, USIZE_MAX, 2);
    var bytes: Key := seq(half, _ => 0);
    var a := Store(Absent, Record(Address([], [], 0, []), 0, bytes));
    var b := Store(Absent, Record(Address([], [], 0, [0]), 0, bytes));
    changes := [a, b];
    assert changes[0..1] == [a] && SizeSum([a]) == Size(a);
    assert OpenStart(changes, l, 1) == 0;
    assert LeavesWord(changes, l, 1);
  }

  lemma PlanningStarts(changes: seq<Change>, l: Limits)
    ensures Planning(changes, l, [], 0, 0, 0) && Plannable(changes[..0], l, {})
  {
    assert changes[0..0] == [] && changes[..0] == [];
  }

  /** Records the key of the next change and charges it. */
  method Admit(changes: seq<Change>, l: Limits, keys: set<Address>, position: nat, seen: set<Address>)
    returns (r: Result<nat>, more: set<Address>)
    requires Qualified(l) && position < |changes|
    requires Plannable(changes[..position], l, keys) && seen == keys + Keys(changes[..position])
    ensures r.Ok? ==> Plannable(changes[..position + 1], l, keys) && more == keys + Keys(changes[..position + 1])
                      && r.value == Size(changes[position]) <= l.bytes
    ensures r.Err? ==> !Plannable(changes, l, keys)
  {
    var c := changes[position];
    KeysAppend(changes, position);
    if AddressOf(c) in seen {
      NotPlannable(changes, l, keys, position);
      return Err(Encoding), seen;
    }
    more := seen + {AddressOf(c)};
    r := Validate(c, l);
    assert changes[..position + 1] == changes[..position] + [c];
  }

  method PrepareGroupWaves(changes: seq<Change>, l: Limits, keys: set<Address>)
    returns (r: Result<seq<seq<Change>>>, seen: set<Address>)
    requires Qualified(l)
    ensures r.Ok? ==> seen == keys + Keys(changes) && WavesOf(r.value, changes, l)
    ensures r.Ok? <==> Plannable(changes, l, keys) && Countable(changes, l)
  {
    seen := keys;
    var waves: seq<seq<Change>> := [];
    var start: nat, bytes: nat := 0, 0;
    PlanningStarts(changes, l);
    for position := 0 to |changes|
      invariant Planning(changes, l, waves, start, position, bytes)
      invariant Plannable(changes[..position], l, keys) && seen == keys + Keys(changes[..position])
      invariant Counted(changes, l, position)
    {
      var size;
      size, seen := Admit(changes, l, keys, position, seen);
      if size.Err? {
        return Err(size.error), seen;
      }
      var ok;
      ok, waves, start, bytes := Place(changes, l, waves, start, position, bytes, size.value);
      if !ok {
        return Err(InvalidBound), seen;
      }
    }
    assert changes[..|changes|] == changes;
    waves := Finish(changes, l, waves, start, bytes);
    r := Ok(waves);
  }

  /** Adds a change to the open wave, or closes that wave and opens the next with it. */
  method Place(changes: seq<Change>, l: Limits, waves: seq<seq<Change>>, start: nat, position: nat, bytes: nat,
      size: nat)
    returns (ok: bool, waves': seq<seq<Change>>, start': nat, bytes': nat)
    requires Qualified(l) && Planning(changes, l, waves, start, position, bytes) && position < |changes|
    requires size == Size(changes[position]) <= l.bytes
    ensures ok <==> !LeavesWord(changes, l, position)
    ensures ok ==> Planning(changes, l, waves', start', position + 1, bytes')
  {
    if bytes + size > USIZE_MAX {
      return false, waves, start, bytes;
    }
    if position - start == l.records || bytes + size > l.bytes {
      OpenWave(changes, l, waves, start, position, bytes);
      return true, waves + [changes[start..position]], position, size;
    }
    ExtendWave(changes, l, waves, start, position, bytes);
    return true, waves, start, bytes + size;
  }

  method Finish(changes: seq<Change>, l: Limits, waves: seq<seq<Change>>, start: nat, bytes: nat)
    returns (all: seq<seq<Change>>)
    requires Planning(changes, l, waves, start, |changes|, bytes)
    ensures WavesOf(all, changes, l)
  {
    all := waves;
    assert changes[..|changes|] == changes;
    if start < |changes| {
      PushWave(changes, l, waves, start, |changes|, bytes);
      assert changes[start..] == changes[start..|changes|];
      all := waves + [changes[start..]];
    }
  }

  lemma NotPlannable(changes: seq<Change>, l: Limits, keys: set<Address>, i: nat)
    requires i < |changes| && AddressOf(changes[i]) in keys + Keys(changes[..i])
    ensures !Plannable(changes, l, keys)
  {
    if AddressOf(changes[i]) in keys {
      assert AddressOf(changes[i]) in Keys(changes);
    } else {
      var j :| 0 <= j < |changes[..i]| && AddressOf(changes[..i][j]) == AddressOf(changes[i]);
      assert changes[j] == changes[..i][j];
    }
  }

  /** All phases together: sound changes and no key twice, within or across phases. */
  predicate PlannableAll(groups: seq<seq<Change>>, l: Limits) {
    AllSound(Concat(groups), l) && DistinctKeys(Concat(groups)) && |Concat(groups)| <= USIZE_MAX
  }

  lemma ConcatPlannable(a: seq<Change>, b: seq<Change>, l: Limits)
    ensures AllSound(a + b, l) && DistinctKeys(a + b) <==> AllSound(a, l) && DistinctKeys(a) && Plannable(b, l, Keys(a))
    ensures Keys(a + b) == Keys(a) + Keys(b)
  {
    var s := a + b;
    assert forall i :: 0 <= i < |a| ==> s[i] == a[i];
    assert forall i :: 0 <= i < |b| ==> s[|a| + i] == b[i];
    forall k ensures k in Keys(s) <==> k in Keys(a) || k in Keys(b) {
      if k in Keys(a) { var i :| 0 <= i < |a| && AddressOf(a[i]) == k; assert AddressOf(s[i]) == k; }
      if k in Keys(b) { var i :| 0 <= i < |b| && AddressOf(b[i]) == k; assert AddressOf(s[|a| + i]) == k; }
    }
    if DistinctKeys(s) {
      forall k | k in Keys(a) ensures k !in Keys(b) {
        var i :| 0 <= i < |a| && AddressOf(a[i]) == k;
        forall j | 0 <= j < |b| ensures AddressOf(b[j]) != k { assert s[i] == a[i] && s[|a| + j] == b[j]; }
      }
      assert forall i, j :: 0 <= i < j < |b| ==> s[|a| + i] == b[i] && s[|a| + j] == b[j];
    }
    if DistinctKeys(a) && Plannable(b, l, Keys(a)) {
      forall i, j | 0 <= i < j < |s| ensures AddressOf(s[i]) != AddressOf(s[j]) {
        if i < |a| <= j {
          assert AddressOf(a[i]) in Keys(a) && AddressOf(b[j - |a|]) in Keys(b);
        }
      }
    }
  }

  /** Plans every phase before anything is dispatched. It succeeds exactly for countable sound
      changes with keys unique across all phases, and every wave is a batch the limits admit. */
  method PlanWaves(groups: seq<seq<Change>>, l: Limits) returns (r: Result<seq<seq<seq<Change>>>>)
    requires Qualified(l)
    ensures r.Ok? <==> PlannableAll(groups, l) && forall g :: 0 <= g < |groups| ==> Countable(groups[g], l)
    ensures r.Ok? ==> |r.value| == |groups|
    ensures r.Ok? ==> forall g :: 0 <= g < |groups| ==> WavesOf(r.value[g], groups[g], l)
    ensures r.Ok? ==> forall g, w :: 0 <= g < |groups| && 0 <= w < |r.value[g]| ==> Admissible(r.value[g][w], l)
  {
    if Count(groups) > USIZE_MAX {
      return Err(CapacityRejected);
    }
    var keys: set<Address> := {};
    var waves: seq<seq<seq<Change>>> := [];
    assert Concat(groups[..0]) == [];
    for g := 0 to |groups|
      invariant |waves| == g && keys == Keys(Concat(groups[..g]))
      invariant AllSound(Concat(groups[..g]), l) && DistinctKeys(Concat(groups[..g]))
      invariant forall h :: 0 <= h < g ==> WavesOf(waves[h], groups[h], l) && Countable(groups[h], l)
    {
      GroupPlannable(groups, l, g);
      var planned;
      planned, keys := PrepareGroupWaves(groups[g], l, keys);
      if planned.Err? {
        RefusedGroup(groups, l, g);
        return Err(planned.error);
      }
      waves := waves + [planned.value];
    }
    assert groups[..|groups|] == groups;
    forall g, w | 0 <= g < |groups| && 0 <= w < |waves[g]| ensures Admissible(waves[g][w], l) {
      WaveAdmissible(groups, l, waves[g], g, w);
    }
    r := Ok(waves);
  }

  function Count(groups: seq<seq<Change>>): (n: nat)
    ensures n == |Concat(groups)|
  {
    if groups == [] then 0 else Count(groups[..|groups| - 1]) + |groups[|groups| - 1]|
  }

  lemma PrefixPlannable(groups: seq<seq<Change>>, l: Limits, k: nat)
    requires k <= |groups|
    ensures PlannableAll(groups, l) ==> AllSound(Concat(groups[..k]), l) && DistinctKeys(Concat(groups[..k]))
  {
    ConcatPrefix(groups, k);
    var p, s := Concat(groups[..k]), Concat(groups);
    assert forall i :: 0 <= i < |p| ==> p[i] == s[i];
  }

  /** Adding one group to those before it. */
  lemma GroupPlannable(groups: seq<seq<Change>>, l: Limits, g: nat)
    requires g < |groups| && AllSound(Concat(groups[..g]), l) && DistinctKeys(Concat(groups[..g]))
    ensures AllSound(Concat(groups[..g + 1]), l) && DistinctKeys(Concat(groups[..g + 1]))
       <==> Plannable(groups[g], l, Keys(Concat(groups[..g])))
    ensures Keys(Concat(groups[..g + 1])) == Keys(Concat(groups[..g])) + Keys(groups[g])
  {
    OffsetStep(groups, g);
    ConcatPlannable(Concat(groups[..g]), groups[g], l);
  }

  lemma RefusedGroup(groups: seq<seq<Change>>, l: Limits, g: nat)
    requires g < |groups| && AllSound(Concat(groups[..g]), l) && DistinctKeys(Concat(groups[..g]))
    ensures PlannableAll(groups, l) ==> Plannable(groups[g], l, Keys(Concat(groups[..g])))
  {
    GroupPlannable(groups, l, g);
    PrefixPlannable(groups, l, g + 1);
  }

  lemma SliceSound(s: seq<Change>, l: Limits, i: nat, j: nat)
    requires i <= j <= |s| && AllSound(s, l) && DistinctKeys(s)
    ensures AllSound(s[i..j], l) && DistinctKeys(s[i..j])
  {
    assert forall k :: 0 <= k < j - i ==> s[i..j][k] == s[i + k];
  }

  lemma WaveAdmissible(groups: seq<seq<Change>>, l: Limits, waves: seq<seq<Change>>, g: nat, w: nat)
    requires g < |groups| && w < |waves|
    requires PlannableAll(groups, l) && WavesOf(waves, groups[g], l)
    ensures Admissible(waves[w], l)
  {
    WaveIsSlice(groups, g);
    SliceSound(Concat(groups), l, Offset(groups, g), Offset(groups, g + 1));
    WaveIsSlice(waves, w);
    SliceSound(groups[g], l, Offset(waves, w), Offset(waves, w + 1));
  }

  /** Groups whose sizes add up to a machine word are planned exactly when they are plannable. */
  lemma CountableGroups(groups: seq<seq<Change>>, l: Limits)
    requires Qualified(l) && PlannableAll(groups, l)
    requires forall g :: 0 <= g < |groups| ==> SizeSum(groups[g]) <= USIZE_MAX || l.bytes <= USIZE_MAX / 2
    ensures forall g :: 0 <= g < |groups| ==> Countable(groups[g], l)
  {
    forall g | 0 <= g < |groups| ensures Countable(groups[g], l) {
      WaveIsSlice(groups, g);
      SliceSound(Concat(groups), l, Offset(groups, g), Offset(groups, g + 1));
      CountableWhen(groups[g], l);
    }
  }
}
