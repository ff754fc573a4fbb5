/** Every run of delivery creation, claims and settlements. */
module DeliveryRuns {
  import opened Outcomes
  import opened Bytes
  import opened KeyedRows
  import opened TimedKeys
  import opened Scans
  import opened Deliveries

  // ----- Operations -----

  predicate Storable(records: seq<Delivery>) {
    && (forall i :: 0 <= i < |records| ==> records[i].generation <= I64_MAX)
    && DistinctIds(records)
  }

  predicate DistinctIds(records: seq<Delivery>) {
    forall i, j :: 0 <= i < j < |records| ==> records[i].id != records[j].id
  }

  /** The proposed records that are not stored yet. */
  function Missing(store: Store, records: seq<Delivery>): (r: seq<Delivery>)
    ensures forall d :: d in r ==> d in records
  {
    if records == [] then []
    else
      var last := records[|records| - 1];
      Missing(store, records[..|records| - 1]) + (if ReadDelivery(store, last.id) == Ok(None) then [last] else [])
  }

  predicate IsMissing(store: Store, d: Delivery) {
    ReadDelivery(store, d.id) == Ok(None)
  }

  lemma MissingNext(store: Store, records: seq<Delivery>, i: nat)
    requires i < |records|
    ensures Missing(store, records[..i + 1])
            == Missing(store, records[..i]) + (if IsMissing(store, records[i]) then [records[i]] else [])
  {
    assert records[..i + 1][..i] == records[..i];
  }

  lemma {:induction false} MissingPrefix(store: Store, records: seq<Delivery>, i: nat)
    requires i <= |records|
    ensures Missing(store, records[..i]) <= Missing(store, records)
    decreases |records| - i
  {
    if i == |records| {
      assert records[..i] == records;
    } else {
      MissingNext(store, records, i);
      MissingPrefix(store, records, i + 1);
    }
  }

  /** Exactly the records without a stored delivery, in the order in which they were proposed. */
  lemma MissingExact(store: Store, records: seq<Delivery>)
    ensures forall d :: d in Missing(store, records) <==> d in records && IsMissing(store, d)
    ensures forall i :: 0 <= i < |records| && IsMissing(store, records[i]) ==>
              var n := |Missing(store, records[..i])|;
              n < |Missing(store, records)| && Missing(store, records)[n] == records[i]
  {
    forall i | 0 <= i < |records| && IsMissing(store, records[i])
      ensures |Missing(store, records[..i])| < |Missing(store, records)|
      ensures Missing(store, records)[|Missing(store, records[..i])|] == records[i]
    {
      MissingNext(store, records, i);
      MissingPrefix(store, records, i + 1);
    }
    forall d | d in records && IsMissing(store, d) ensures d in Missing(store, records) {
      var i :| 0 <= i < |records| && records[i] == d;
      assert IsMissing(store, records[i]);
      assert Missing(store, records)[|Missing(store, records[..i])|] == d;
    }
    OnlyMissing(store, records);
  }

  lemma {:induction false} OnlyMissing(store: Store, records: seq<Delivery>)
    ensures forall d :: d in Missing(store, records) ==> d in records && IsMissing(store, d)
    decreases |records|
  {
    if records != [] { OnlyMissing(store, records[..|records| - 1]); }
  }

  function BatchChanges(batch: seq<Replacement>): seq<RowChange> {
    if batch == [] then [] else BatchChanges(batch[..|batch| - 1]) + Changes(batch[|batch| - 1])
  }

  function Inserts(records: seq<Delivery>): (batch: seq<Replacement>)
    ensures |batch| == |records|
  {
    seq(|records|, i requires 0 <= i < |records| => Replacement(None, records[i]))
  }

  method Validate(records: seq<Delivery>) returns (ok: bool)
    ensures ok <==> Storable(records)
  {
    for i := 0 to |records|
      invariant forall j :: 0 <= j < i ==> records[j].generation <= I64_MAX
      invariant forall j, k :: 0 <= j < k < i ==> records[j].id != records[k].id
    {
      if records[i].generation > I64_MAX {
        return false;
      }
      for j := 0 to i
        invariant forall k :: 0 <= k < j ==> records[k].id != records[i].id
      {
        if records[j].id == records[i].id {
          return false;
        }
      }
    }
    return true;
  }

  /** Stages the rows of new deliveries; one that is stored already is a conflict. */
  method WriteDeliveryRecords(store: Store, records: seq<Delivery>) returns (r: Result<seq<RowChange>>)
    ensures r.Ok? <==> forall i :: 0 <= i < |records| ==> DeliveryKey(records[i].id) !in store
    ensures r.Ok? ==> r.value == BatchChanges(Inserts(records))
  {
    for i := 0 to |records|
      invariant forall j :: 0 <= j < i ==> DeliveryKey(records[j].id) !in store
    {
      if DeliveryKey(records[i].id) in store {
        return Err(Conflict);
      }
    }
    var changes: seq<RowChange> := [];
    for i := 0 to |records|
      invariant changes == BatchChanges(Inserts(records)[..i])
    {
      var due := DueAt(records[i]);
      assert Inserts(records)[..i + 1][..i] == Inserts(records)[..i];
      Pushed(changes, Inserts(records)[i]);
      if due.Some? {
        changes := changes + [Put(DueKey(due.value, records[i].id), Mark)];
      }
      changes := changes + [Put(DeliveryKey(records[i].id), Row(records[i]))];
    }
    assert Inserts(records)[..|records|] == Inserts(records);
    return Ok(changes);
  }

  /** Pushing a replacement's rows one by one stages its changes. */
  lemma Pushed(changes: seq<RowChange>, r: Replacement)
    ensures var unmarked := if OldMark(r).Some? then changes + [Delete(OldMark(r).value)] else changes;
            var marked := if MarkOf(r.next).Some? then unmarked + [Put(MarkOf(r.next).value, Mark)] else unmarked;
            marked + [Put(DeliveryKey(r.next.id), Row(r.next))] == changes + Changes(r)
  {
    var unmarked := changes + Unmark(OldMark(r));
    var marked := unmarked + MarkDue(MarkOf(r.next));
    assert OldMark(r).None? ==> unmarked == changes;
    assert MarkOf(r.next).None? ==> marked == unmarked;
    assert marked + [Put(DeliveryKey(r.next.id), Row(r.next))] == changes + Changes(r);
  }

  /** Every delivery of the batch replaces a stored one. */
  predicate Exchanges(batch: seq<Replacement>) {
    forall i :: 0 <= i < |batch| ==> batch[i].previous.Some?
  }

  predicate KeepsIdentity(r: Replacement) {
    r.previous.Some? && r.previous.value.id == r.next.id
  }

  /** Stages the rows of replacements: the old mark goes, the new mark and the record come. */
  method ReplaceDeliveries(batch: seq<Replacement>) returns (r: Result<seq<RowChange>>)
    requires Exchanges(batch)
    ensures r == Err(Internal) || r == Ok(BatchChanges(batch))
    ensures r.Ok? <==> forall i :: 0 <= i < |batch| ==> KeepsIdentity(batch[i])
  {
    var changes: seq<RowChange> := [];
    for i := 0 to |batch|
      invariant changes == BatchChanges(batch[..i])
      invariant forall j :: 0 <= j < i ==> KeepsIdentity(batch[j])
    {
      var expected, next := batch[i].previous.value, batch[i].next;
      if expected.id != next.id {
        return Err(Internal);
      }
      assert batch[..i + 1][..i] == batch[..i];
      Pushed(changes, batch[i]);
      var was, due := DueAt(expected), DueAt(next);
      if was.Some? {
        changes := changes + [Delete(DueKey(was.value, expected.id))];
      }
      if due.Some? {
        changes := changes + [Put(DueKey(due.value, next.id), Mark)];
      }
      changes := changes + [Put(DeliveryKey(next.id), Row(next))];
    }
    assert batch[..|batch|] == batch;
    return Ok(changes);
  }

  /** Creation never rewinds a stored delivery: only missing records are staged, so that the
      conflict of staging a stored one never arises. */
  method PutDeliveryRecords(store: Store, records: seq<Delivery>) returns (r: Result<seq<RowChange>>)
    ensures r.Ok? <==> Storable(records) && forall i :: 0 <= i < |records| ==> ReadDelivery(store, records[i].id).Ok?
    ensures r.Ok? ==> r.value == BatchChanges(Inserts(Missing(store, records)))
  {
    var valid := Validate(records);
    if !valid {
      return Err(Internal);
    }
    var missing: seq<Delivery> := [];
    for i := 0 to |records|
      invariant missing == Missing(store, records[..i])
      invariant forall j :: 0 <= j < i ==> ReadDelivery(store, records[j].id).Ok?
    {
      var stored := ReadDelivery(store, records[i].id);
      if stored.Err? {
        return Err(stored.error);
      }
      if stored.value.None? {
        missing := missing + [records[i]];
      }
      assert records[..i + 1][..i] == records[..i];
    }
    assert records[..|records|] == records;
    MissingHaveNoRow(store, records);
    r := WriteDeliveryRecords(store, missing);
  }

  lemma {:induction false} MissingHaveNoRow(store: Store, records: seq<Delivery>)
    ensures forall d :: d in Missing(store, records) ==> DeliveryKey(d.id) !in store
    decreases |records|
  {
    if records != [] { MissingHaveNoRow(store, records[..|records| - 1]); }
  }

  /** A batch of claims made on one due page. */
  predicate ClaimsOf(store: Store, page: seq<Key>, q: ClaimRequest, batch: seq<Replacement>) {
    && |batch| == |page|
    && forall j :: 0 <= j < |page| ==>
         && batch[j].previous.Some? && DueDelivery(store, page[j]) == Ok(batch[j].previous.value)
         && Claim(batch[j].previous.value, q) == Ok(Some(batch[j].next))
  }

  /** A claimed delivery: the next generation belongs to the owner until the lease ends, and
      everything else stays as it was. */
  predicate ClaimedBy(d: Delivery, q: ClaimRequest, next: Delivery) {
    && next.generation == d.generation + 1 && next.owner == Some(q.owner) && next.lease == Some(q.lease)
    && next.updated == q.now
    && next.id == d.id && next.payload == d.payload && next.created == d.created && next.status == d.status
    && next.attempts == d.attempts && next.nextAttempt == d.nextAttempt && next.error == d.error
  }

  /** A claim succeeds exactly on a claimable delivery, for a named owner, an open lease and a
      generation that has a successor, and does to it what a claim is for. */
  lemma ClaimMeans(d: Delivery, q: ClaimRequest)
    ensures Claimed(d, q) <==> IsClaimable(d, q.now) && q.owner != [] && q.now < q.lease && d.generation < I64_MAX
    ensures Claimed(d, q) ==> ClaimedBy(d, q, Claim(d, q).value.value)
  {
  }

  method ClaimInAttempt(store: Store, q: ClaimRequest, limit: nat)
    returns (r: Result<seq<Replacement>>, changes: seq<RowChange>, page: seq<Key>, more: bool)
    requires limit > 0
    ensures TimedEnd(DUE_PREFIX, q.now).Some?
            && IsPage(store.Keys, DUE_PREFIX, TimedEnd(DUE_PREFIX, q.now).value, page, more) && |page| <= limit
    ensures r.Ok? ==> ClaimsOf(store, page, q, r.value) && changes == BatchChanges(r.value)
    ensures r.Ok? ==> |r.value| == |page| && forall j :: 0 <= j < |page| ==>
            TakesFromPage(store, page[j], q, r.value[j])
    ensures r.Err? ==>
            exists j :: 0 <= j < |page| &&
              (DueDelivery(store, page[j]).Ok? ==> !Claimed(DueDelivery(store, page[j]).value, q))
  {
    changes := [];
    var candidates;
    candidates, page, more := ReadDueDeliveries(store, q.now, limit);
    if candidates.Err? {
      ghost var j :| 0 <= j < |page| && DueDelivery(store, page[j]).Err?;
      return Err(candidates.error), changes, page, more;
    }
    var replacements: seq<Replacement> := [];
    for j := 0 to |page|
      invariant ClaimsOf(store, page[..j], q, replacements)
    {
      var previous := candidates.value[j];
      var current := Claim(previous, q);
      if current.Err? || current.value.None? {
        assert !Claimed(DueDelivery(store, page[j]).value, q);
        return Err(Internal), changes, page, more;
      }
      replacements := replacements + [Replacement(Some(previous), current.value.value)];
    }
    assert page[..|page|] == page;
    var staged := ReplaceDeliveries(replacements);
    r, changes := Ok(replacements), staged.value;
    ClaimsTake(store, page, q, replacements);
  }

  /** The replacement claims the delivery that the due mark points to. */
  predicate TakesFromPage(store: Store, key: Key, q: ClaimRequest, r: Replacement) {
    && DueDelivery(store, key).Ok? && r.previous == Some(DueDelivery(store, key).value)
    && IsClaimable(r.previous.value, q.now) && ClaimedBy(r.previous.value, q, r.next)
  }

  lemma ClaimsTake(store: Store, page: seq<Key>, q: ClaimRequest, batch: seq<Replacement>)
    requires ClaimsOf(store, page, q, batch)
    ensures forall j :: 0 <= j < |page| ==> TakesFromPage(store, page[j], q, batch[j])
  {
    forall j | 0 <= j < |page| ensures TakesFromPage(store, page[j], q, batch[j]) {
      ClaimMeans(batch[j].previous.value, q);
    }
  }

  predicate Claimed(d: Delivery, q: ClaimRequest) {
    Claim(d, q).Ok? && Claim(d, q).value.Some?
  }

  /** The claim an outcome names is the one the delivery is under. */
  predicate NamesClaim(d: Delivery, o: Outcome) {
    d.id == o.id && o.generation > 0 && d.generation == o.generation && d.owner == Some(o.owner)
  }

  /** A settled delivery: its claim is over, the outcome is recorded, and what was accepted stays. */
  predicate SettledBy(d: Delivery, o: Outcome, next: Delivery) {
    && next.owner.None? && next.lease.None?
    && next.status == o.status && next.attempts == o.attempts && next.nextAttempt == o.nextAttempt
    && next.error == o.error && next.updated == o.updated
    && next.id == d.id && next.generation == d.generation && next.payload == d.payload && next.created == d.created
  }

  /** Settles the claim an outcome names, by its delivery, generation and owner; an outcome whose
      claim is lost, and one for a delivery that does not exist, changes nothing. */
  method SettleInAttempt(store: Store, o: Outcome) returns (r: Result<Option<Replacement>>, changes: seq<RowChange>)
    ensures r.Ok? <==> ReadDelivery(store, o.id).Ok?
    ensures r.Ok? ==> var stored := ReadDelivery(store, o.id).value;
                      && (r.value.Some? <==> stored.Some? && NamesClaim(stored.value, o))
                      && (r.value.Some? ==>
                           r.value.value.previous == stored && SettledBy(stored.value, o, r.value.value.next))
    ensures changes == if r.Ok? && r.value.Some? then Changes(r.value.value) else []
    ensures r.Ok? ==> r.value == Settlement(store, o)
  {
    changes := [];
    var previous := ReadDelivery(store, o.id);
    if previous.Err? {
      return Err(previous.error), changes;
    }
    if previous.value.None? {
      return Ok(None), changes;
    }
    var current := Settle(previous.value.value, o);
    if current.None? {
      return Ok(None), changes;
    }
    var replacement := Replacement(previous.value, current.value);
    var staged := ReplaceDeliveries([replacement]);
    assert [replacement][..0] == [];
    return Ok(Some(replacement)), staged.value;
  }

  function Settlement(store: Store, o: Outcome): Option<Replacement> {
    match ReadDelivery(store, o.id)
    case Ok(Some(d)) => (match Settle(d, o) case Some(s) => Some(Replacement(Some(d), s)) case None => None)
    case _ => None
  }

  // ----- Runs -----

  datatype Grant = Grant(id: Key, generation: nat, owner: Key)

  /** The store with, as bookkeeping, its deliveries, the claims granted and the settlements. */
  datatype State = State(store: Store, rows: Rows, grants: seq<Grant>, settled: seq<Grant>)

  datatype Step = Creates(records: seq<Delivery>)
                | Claims(request: ClaimRequest, page: seq<Key>, more: bool, batch: seq<Replacement>)
                | Settles(outcome: Outcome)

  const EMPTY := State(map[], map[], [], [])

  predicate Refused(s: State, o: Outcome) {
    Settlement(s.store, o).None?
  }

  ghost predicate Allowed(s: State, step: Step) {
    match step
    case Creates(records) => Storable(records)
    case Claims(q, page, more, batch) =>
      && TimedEnd(DUE_PREFIX, q.now).Some?
      && IsPage(s.store.Keys, DUE_PREFIX, TimedEnd(DUE_PREFIX, q.now).value, page, more)
      && ClaimsOf(s.store, page, q, batch)
    case Settles(_) => true
  }

  function Replace(s: State, r: Replacement): State {
    s.(store := ApplyAll(s.store, Changes(r)), rows := s.rows[r.next.id := r.next])
  }

  function Insert(s: State, records: seq<Delivery>): State {
    if records == [] then s
    else Replace(Insert(s, records[..|records| - 1]), Replacement(None, records[|records| - 1]))
  }

  function GrantOne(s: State, r: Replacement, owner: Key): State {
    Replace(s, r).(grants := s.grants + [Grant(r.next.id, r.next.generation, owner)])
  }

  function GrantAll(s: State, batch: seq<Replacement>, owner: Key): State {
    if batch == [] then s else GrantOne(GrantAll(s, batch[..|batch| - 1], owner), batch[|batch| - 1], owner)
  }

  function Next(s: State, step: Step): State {
    match step
    case Creates(records) => Insert(s, Missing(s.store, records))
    case Claims(q, _, _, batch) => GrantAll(s, batch, q.owner)
    case Settles(o) =>
      (match Settlement(s.store, o)
       case None => s
       case Some(r) => Replace(s, r).(settled := s.settled + [Grant(o.id, o.generation, o.owner)]))
  }

  function After(steps: seq<Step>): State {
    if steps == [] then EMPTY else Next(After(steps[..|steps| - 1]), steps[|steps| - 1])
  }

  ghost predicate Run(steps: seq<Step>) {
    steps == [] || (Run(steps[..|steps| - 1]) && Allowed(After(steps[..|steps| - 1]), steps[|steps| - 1]))
  }

  /** The changes staged together for a batch have the effect of its replacements in turn. */
  lemma {:induction false} GrantsStaged(s: State, batch: seq<Replacement>, owner: Key)
    ensures GrantAll(s, batch, owner).store == ApplyAll(s.store, BatchChanges(batch))
    decreases |batch|
  {
    if batch != [] {
      GrantsStaged(s, batch[..|batch| - 1], owner);
      ApplyAllConcat(s.store, BatchChanges(batch[..|batch| - 1]), Changes(batch[|batch| - 1]));
    }
  }

  lemma {:induction false} InsertsStaged(s: State, records: seq<Delivery>)
    ensures Insert(s, records).store == ApplyAll(s.store, BatchChanges(Inserts(records)))
    decreases |records|
  {
    if records != [] {
      var init, batch := records[..|records| - 1], Inserts(records);
      InsertsStaged(s, init);
      assert batch[..|batch| - 1] == Inserts(init);
      ApplyAllConcat(s.store, BatchChanges(Inserts(init)), Changes(batch[|batch| - 1]));
    }
  }

  /** The changes an operation stages for its step. */
  function Staged(store: Store, step: Step): seq<RowChange> {
    match step
    case Creates(records) => BatchChanges(Inserts(Missing(store, records)))
    case Claims(_, _, _, batch) => BatchChanges(batch)
    case Settles(o) => if Settlement(store, o).Some? then Changes(Settlement(store, o).value) else []
  }

  /** What creation, claims and settlements stage is what their steps do to the store. */
  lemma StepStaged(s: State, step: Step)
    ensures Next(s, step).store == ApplyAll(s.store, Staged(s.store, step))
  {
    match step {
      case Creates(records) => InsertsStaged(s, Missing(s.store, records));
      case Claims(q, _, _, batch) => GrantsStaged(s, batch, q.owner);
      case Settles(_) =>
    }
  }

  // ----- What every run keeps -----

  predicate Unique(log: seq<Grant>) {
    forall i, j :: 0 <= i < j < |log| ==> log[i].id != log[j].id || log[i].generation != log[j].generation
  }

  /** No grant is newer than its row, and the current generation's grant is the row's owner. */
  predicate GrantsFit(s: State) {
    forall g :: g in s.grants ==>
      && g.id in s.rows && 0 < g.generation <= s.rows[g.id].generation
      && (g.generation == s.rows[g.id].generation ==> s.rows[g.id].owner in {None, Some(g.owner)})
  }

  /** A settled generation is over. */
  predicate SettledFit(s: State) {
    forall g :: g in s.settled ==>
      g.id in s.rows && g.generation <= s.rows[g.id].generation
        && (g.generation == s.rows[g.id].generation ==> s.rows[g.id].owner.None?)
  }

  ghost predicate Fenced(s: State) {
    Represents(s.store, s.rows) && Unique(s.grants) && Unique(s.settled) && GrantsFit(s) && SettledFit(s)
  }

  /** How one state of a run may differ from an earlier one. */
  ghost predicate Follows(a: State, b: State) {
    && (forall id :: id in a.rows ==>
          && id in b.rows && a.rows[id].generation <= b.rows[id].generation
          && a.rows[id].payload == b.rows[id].payload && a.rows[id].created == b.rows[id].created)
    && a.grants <= b.grants && a.settled <= b.settled
  }

  lemma FollowsTransitive(a: State, b: State, c: State)
    requires Follows(a, b) && Follows(b, c)
    ensures Follows(a, c)
  {
  }

  lemma InsertOne(s: State, d: Delivery)
    requires Fenced(s) && d.id !in s.rows
    ensures Fenced(Replace(s, Replacement(None, d))) && Follows(s, Replace(s, Replacement(None, d)))
  {
    ReplaceRefines(s.store, s.rows, Replacement(None, d));
  }

  predicate AllNew(rows: Rows, records: seq<Delivery>) {
    forall d :: d in records ==> d.id !in rows
  }

  lemma {:induction false} InsertAll(s: State, records: seq<Delivery>)
    requires Fenced(s) && AllNew(s.rows, records) && DistinctIds(records)
    ensures Fenced(Insert(s, records)) && Follows(s, Insert(s, records))
    ensures forall id :: id !in s.rows && (forall d :: d in records ==> d.id != id) ==> id !in Insert(s, records).rows
    decreases |records|
  {
    if records != [] {
      var init, last := records[..|records| - 1], records[|records| - 1];
      InsertAll(s, init);
      var before := Insert(s, init);
      forall d | d in init ensures d.id != last.id {
        var i :| 0 <= i < |init| && init[i] == d;
        assert records[i].id != records[|records| - 1].id;
      }
      assert last in records && last.id !in before.rows;
      InsertOne(before, last);
      FollowsTransitive(s, before, Insert(s, records));
      assert forall d :: d in init ==> d in records;
    }
  }

  lemma {:induction false} MissingAreNew(s: State, records: seq<Delivery>)
    requires Represents(s.store, s.rows) && DistinctIds(records)
    ensures AllNew(s.rows, Missing(s.store, records)) && DistinctIds(Missing(s.store, records))
    decreases |records|
  {
    if records != [] {
      var init, last := records[..|records| - 1], records[|records| - 1];
      MissingAreNew(s, init);
      ReadExact(s.store, s.rows, last.id);
      forall d | d in init ensures d.id != last.id {
        var i :| 0 <= i < |init| && init[i] == d;
        assert records[i].id != records[|records| - 1].id;
      }
      var before := Missing(s.store, init);
      assert forall i :: 0 <= i < |before| ==> before[i] in init;
    }
  }

  predicate IsClaim(s: State, r: Replacement, owner: Key) {
    && r.previous == Find(s.rows, r.next.id) && r.previous.Some?
    && r.next.generation == r.previous.value.generation + 1 && r.next.owner == Some(owner)
    && r.next.payload == r.previous.value.payload && r.next.created == r.previous.value.created
  }

  lemma GrantOneFits(s: State, r: Replacement, owner: Key)
    requires Fenced(s) && IsClaim(s, r, owner)
    ensures Fenced(GrantOne(s, r, owner)) && Follows(s, GrantOne(s, r, owner))
  {
    ReplaceRefines(s.store, s.rows, r);
    var g, after := Grant(r.next.id, r.next.generation, owner), GrantOne(s, r, owner);
    forall i | 0 <= i < |s.grants| ensures s.grants[i].id != g.id || s.grants[i].generation != g.generation {
      assert s.grants[i] in s.grants;
    }
    assert GrantsFit(after);
  }

  /** Granting a batch leaves every other delivery alone. */
  lemma {:induction false} GrantsLeave(s: State, batch: seq<Replacement>, owner: Key, id: Key)
    requires forall i :: 0 <= i < |batch| ==> batch[i].next.id != id
    ensures Find(GrantAll(s, batch, owner).rows, id) == Find(s.rows, id)
    decreases |batch|
  {
    if batch != [] { GrantsLeave(s, batch[..|batch| - 1], owner, id); }
  }

  predicate DistinctTargets(batch: seq<Replacement>) {
    forall i, j :: 0 <= i < j < |batch| ==> batch[i].next.id != batch[j].next.id
  }

  predicate AllClaims(s: State, batch: seq<Replacement>, owner: Key) {
    forall i :: 0 <= i < |batch| ==> IsClaim(s, batch[i], owner)
  }

  lemma {:induction false} GrantAllFits(s: State, batch: seq<Replacement>, owner: Key)
    requires Fenced(s) && AllClaims(s, batch, owner) && DistinctTargets(batch)
    ensures Fenced(GrantAll(s, batch, owner)) && Follows(s, GrantAll(s, batch, owner))
    decreases |batch|
  {
    if batch != [] {
      var init, last := batch[..|batch| - 1], batch[|batch| - 1];
      GrantAllFits(s, init, owner);
      var before := GrantAll(s, init, owner);
      GrantsLeave(s, init, owner, last.next.id);
      assert IsClaim(s, last, owner);
      GrantOneFits(before, last, owner);
      FollowsTransitive(s, before, GrantAll(s, batch, owner));
    }
  }

  lemma ClaimsFit(s: State, q: ClaimRequest, page: seq<Key>, more: bool, batch: seq<Replacement>)
    requires Fenced(s) && Allowed(s, Claims(q, page, more, batch))
    ensures AllClaims(s, batch, q.owner) && DistinctTargets(batch)
  {
    DueReadsExact(s.store, s.rows, q.now, page, more);
    forall i | 0 <= i < |batch| ensures IsClaim(s, batch[i], q.owner) {
      assert DueBy(s.rows, q.now, DueDelivery(s.store, page[i]).value);
    }
  }

  predicate IsSettlement(s: State, r: Replacement, o: Outcome) {
    && r.next.id == o.id && r.previous == Find(s.rows, o.id) && r.previous.Some?
    && r.previous.value.generation == o.generation && r.previous.value.owner == Some(o.owner)
    && r.next.generation == o.generation && r.next.owner.None?
    && r.next.payload == r.previous.value.payload && r.next.created == r.previous.value.created
  }

  lemma SettleOneFits(s: State, r: Replacement, o: Outcome)
    requires Fenced(s) && IsSettlement(s, r, o)
    ensures var after := Replace(s, r).(settled := s.settled + [Grant(o.id, o.generation, o.owner)]);
            Fenced(after) && Follows(s, after)
  {
    ReplaceRefines(s.store, s.rows, r);
    SettleLogs(s, r, o);
  }

  lemma SettleLogs(s: State, r: Replacement, o: Outcome)
    requires Unique(s.settled) && GrantsFit(s) && SettledFit(s) && IsSettlement(s, r, o)
    ensures var after := Replace(s, r).(settled := s.settled + [Grant(o.id, o.generation, o.owner)]);
            Unique(after.settled) && GrantsFit(after) && SettledFit(after)
  {
    forall i | 0 <= i < |s.settled| ensures s.settled[i].id != o.id || s.settled[i].generation != o.generation {
      assert s.settled[i] in s.settled;
    }
  }

  lemma SettleFits(s: State, o: Outcome)
    requires Fenced(s)
    ensures Fenced(Next(s, Settles(o))) && Follows(s, Next(s, Settles(o)))
  {
    ReadExact(s.store, s.rows, o.id);
    if Settlement(s.store, o).Some? {
      var r := Settlement(s.store, o).value;
      assert IsSettlement(s, r, o);
      SettleOneFits(s, r, o);
    }
  }

  lemma StepFences(s: State, step: Step)
    requires Fenced(s) && Allowed(s, step)
    ensures Fenced(Next(s, step)) && Follows(s, Next(s, step))
  {
    match step {
      case Creates(records) =>
        MissingAreNew(s, records);
        InsertAll(s, Missing(s.store, records));
      case Claims(q, page, more, batch) =>
        ClaimsFit(s, q, page, more, batch);
        GrantAllFits(s, batch, q.owner);
      case Settles(o) => SettleFits(s, o);
    }
  }

  /** Every state of a run is fenced and its rows and due marks agree. */
  lemma {:induction false} RunFenced(steps: seq<Step>)
    requires Run(steps)
    ensures Fenced(After(steps))
    decreases |steps|
  {
    if steps != [] {
      RunFenced(steps[..|steps| - 1]);
      StepFences(After(steps[..|steps| - 1]), steps[|steps| - 1]);
    }
  }

  /** Later states never lose a delivery, lower a generation or change an accepted payload. */
  lemma {:induction false} RunFollows(steps: seq<Step>, i: nat)
    requires Run(steps) && i <= |steps|
    ensures Run(steps[..i]) && Follows(After(steps[..i]), After(steps))
    decreases |steps|
  {
    if i == |steps| {
      assert steps[..i] == steps;
    } else {
      var init := steps[..|steps| - 1];
      RunFollows(init, i);
      assert init[..i] == steps[..i];
      RunFenced(init);
      StepFences(After(init), steps[|steps| - 1]);
      FollowsTransitive(After(steps[..i]), After(init), After(steps));
    }
  }

  /** Each generation of a delivery is granted to one claim. */
  lemma GrantedOnce(steps: seq<Step>, i: nat, j: nat)
    requires Run(steps) && i < |After(steps).grants| && j < |After(steps).grants|
    requires After(steps).grants[i].id == After(steps).grants[j].id
             && After(steps).grants[i].generation == After(steps).grants[j].generation
    ensures i == j
  {
    RunFenced(steps);
  }

  /** Each generation of a delivery is settled at most once. */
  lemma SettledOnce(steps: seq<Step>, i: nat, j: nat)
    requires Run(steps) && i < |After(steps).settled| && j < |After(steps).settled|
    requires After(steps).settled[i].id == After(steps).settled[j].id
             && After(steps).settled[i].generation == After(steps).settled[j].generation
    ensures i == j
  {
    RunFenced(steps);
  }

  /** After a claim is granted, no outcome of an older generation changes anything, ever. */
  lemma StaleOutcomeRefused(steps: seq<Step>, i: nat, g: Grant, o: Outcome)
    requires Run(steps) && i <= |steps| && g in After(steps[..i]).grants
    requires o.id == g.id && o.generation < g.generation
    ensures Next(After(steps), Settles(o)) == After(steps)
  {
    RunFenced(steps);
    RunFollows(steps, i);
    var s := After(steps);
    assert g in s.grants;
    ReadExact(s.store, s.rows, o.id);
  }

  /** After a generation is settled, no further outcome of it changes anything, ever. */
  lemma SettledOutcomeRefused(steps: seq<Step>, i: nat, g: Grant, o: Outcome)
    requires Run(steps) && i <= |steps| && g in After(steps[..i]).settled
    requires o.id == g.id && o.generation <= g.generation
    ensures Next(After(steps), Settles(o)) == After(steps)
  {
    RunFenced(steps);
    RunFollows(steps, i);
    var s := After(steps);
    assert g in s.settled;
    ReadExact(s.store, s.rows, o.id);
  }

  /** The delivery is still as its claim left it, or that claim is over: a later one was granted or
      the generation was settled. */
  ghost predicate StillOrOver(s: State, claimed: Delivery) {
    && claimed.id in s.rows
    && (|| s.rows[claimed.id] == claimed
        || s.rows[claimed.id].generation > claimed.generation
        || SettledAt(s, claimed.id, claimed.generation))
  }

  ghost predicate SettledAt(s: State, id: Key, generation: nat) {
    exists g :: g in s.settled && g.id == id && g.generation == generation
  }

  lemma {:induction false} InsertKeepsRow(s: State, records: seq<Delivery>, id: Key)
    requires id in s.rows && forall d :: d in records ==> d.id != id
    ensures Find(Insert(s, records).rows, id) == Find(s.rows, id) && Insert(s, records).settled == s.settled
    decreases |records|
  {
    if records != [] {
      InsertKeepsRow(s, records[..|records| - 1], id);
      assert records[|records| - 1] in records;
    }
  }

  /** A batch of grants leaves a row alone or raises its generation. */
  lemma {:induction false} GrantsRaise(s: State, batch: seq<Replacement>, owner: Key, id: Key)
    requires id in s.rows && AllClaims(s, batch, owner)
    ensures id in GrantAll(s, batch, owner).rows && GrantAll(s, batch, owner).settled == s.settled
    ensures Find(GrantAll(s, batch, owner).rows, id) == Find(s.rows, id)
            || GrantAll(s, batch, owner).rows[id].generation > s.rows[id].generation
    decreases |batch|
  {
    if batch != [] {
      GrantsRaise(s, batch[..|batch| - 1], owner, id);
      assert IsClaim(s, batch[|batch| - 1], owner);
    }
  }

  lemma CreateStillOrOver(s: State, records: seq<Delivery>, claimed: Delivery)
    requires Fenced(s) && Storable(records) && StillOrOver(s, claimed)
    ensures StillOrOver(Next(s, Creates(records)), claimed)
  {
    MissingAreNew(s, records);
    InsertKeepsRow(s, Missing(s.store, records), claimed.id);
  }

  lemma ClaimStillOrOver(s: State, q: ClaimRequest, page: seq<Key>, more: bool, batch: seq<Replacement>,
      claimed: Delivery)
    requires Fenced(s) && Allowed(s, Claims(q, page, more, batch)) && StillOrOver(s, claimed)
    ensures StillOrOver(Next(s, Claims(q, page, more, batch)), claimed)
  {
    ClaimsFit(s, q, page, more, batch);
    GrantsRaise(s, batch, q.owner, claimed.id);
  }

  lemma SettleStillOrOver(s: State, o: Outcome, claimed: Delivery)
    requires Fenced(s) && StillOrOver(s, claimed)
    ensures StillOrOver(Next(s, Settles(o)), claimed)
  {
    var after := Next(s, Settles(o));
    ReadExact(s.store, s.rows, o.id);
    if SettledAt(s, claimed.id, claimed.generation) {
      var g :| g in s.settled && g.id == claimed.id && g.generation == claimed.generation;
      assert g in after.settled;
    } else if Settlement(s.store, o).Some? && o.id == claimed.id {
      assert IsSettlement(s, Settlement(s.store, o).value, o);
      assert Grant(o.id, o.generation, o.owner) in after.settled;
    }
  }

  lemma StepStillOrOver(s: State, step: Step, claimed: Delivery)
    requires Fenced(s) && Allowed(s, step) && StillOrOver(s, claimed)
    ensures StillOrOver(Next(s, step), claimed)
  {
    match step {
      case Creates(records) => CreateStillOrOver(s, records, claimed);
      case Claims(q, page, more, batch) => ClaimStillOrOver(s, q, page, more, batch, claimed);
      case Settles(o) => SettleStillOrOver(s, o, claimed);
    }
  }

  lemma {:induction false} RunStillOrOver(steps: seq<Step>, i: nat, k: nat, claimed: Delivery)
    requires Run(steps) && i <= k <= |steps| && StillOrOver(After(steps[..i]), claimed)
    ensures StillOrOver(After(steps[..k]), claimed)
    decreases k
  {
    if i < k {
      RunStillOrOver(steps, i, k - 1, claimed);
      RunUpTo(steps, k);
      RunFenced(steps[..k - 1]);
      assert steps[..k][..k - 1] == steps[..k - 1];
      StepStillOrOver(After(steps[..k - 1]), steps[k - 1], claimed);
    }
  }

  lemma {:induction false} RunUpTo(steps: seq<Step>, k: nat)
    requires Run(steps) && k <= |steps|
    ensures Run(steps[..k])
    ensures k > 0 ==> Run(steps[..k - 1]) && Allowed(After(steps[..k - 1]), steps[k - 1])
    decreases |steps|
  {
    if k == |steps| {
      assert steps[..k] == steps;
    } else {
      RunUpTo(steps[..|steps| - 1], k);
      assert steps[..|steps| - 1][..k] == steps[..k];
      if k > 0 { assert steps[..|steps| - 1][..k - 1] == steps[..k - 1]; }
    }
  }

  /** A batch with distinct identities leaves each of its deliveries in its row. */
  lemma {:induction false} GrantedRow(s: State, batch: seq<Replacement>, owner: Key, j: nat)
    requires j < |batch| && DistinctTargets(batch)
    ensures Find(GrantAll(s, batch, owner).rows, batch[j].next.id) == Some(batch[j].next)
    decreases |batch|
  {
    if j < |batch| - 1 {
      GrantedRow(s, batch[..|batch| - 1], owner, j);
    }
  }

  lemma ClaimLeavesRow(s: State, q: ClaimRequest, page: seq<Key>, more: bool, batch: seq<Replacement>, j: nat)
    requires Fenced(s) && Allowed(s, Claims(q, page, more, batch)) && j < |batch|
    ensures StillOrOver(Next(s, Claims(q, page, more, batch)), batch[j].next)
  {
    ClaimsFit(s, q, page, more, batch);
    GrantedRow(s, batch, q.owner, j);
  }

  /** What a run makes of the deliveries that one of its claims took. */
  lemma ClaimInRun(steps: seq<Step>, i: nat, k: nat, j: nat)
    requires Run(steps) && i < k <= |steps| && steps[i].Claims? && j < |steps[i].batch|
    ensures StillOrOver(After(steps[..k]), steps[i].batch[j].next)
    ensures steps[i].batch[j].previous.Some? && Claimed(steps[i].batch[j].previous.value, steps[i].request)
    ensures Claim(steps[i].batch[j].previous.value, steps[i].request).value.value == steps[i].batch[j].next
  {
    var q, batch := steps[i].request, steps[i].batch;
    RunUpTo(steps, i + 1);
    RunFenced(steps[..i]);
    ClaimLeavesRow(After(steps[..i]), q, steps[i].page, steps[i].more, batch, j);
    assert steps[..i + 1][..i] == steps[..i];
    RunStillOrOver(steps, i + 1, k, batch[j].next);
  }

  lemma DueAfterLease(d: Delivery, q: ClaimRequest, next: Delivery, now: I64)
    requires IsClaimable(d, q.now) && ClaimedBy(d, q, next) && q.lease <= now && next.created <= now
    requires next.nextAttempt.Some? ==> next.nextAttempt.value <= now
    ensures IsClaimable(next, now) && DueAt(next).Some? && DueAt(next).value <= now
  {
    DueVersusClaimable(next, now);
  }

  /** No claim loses a delivery: unless it is settled or claimed again, a claimed delivery is in
      every later state due again once its lease has ended. */
  lemma ClaimedDueAgain(steps: seq<Step>, i: nat, k: nat, j: nat, now: I64)
    requires Run(steps) && i < k <= |steps| && steps[i].Claims? && j < |steps[i].batch|
    requires var d := steps[i].batch[j].next;
             && d.id in After(steps[..k]).rows && After(steps[..k]).rows[d.id].generation <= d.generation
             && !SettledAt(After(steps[..k]), d.id, d.generation)
    requires var d := steps[i].batch[j].next;
             steps[i].request.lease <= now && d.created <= now && (d.nextAttempt.Some? ==> d.nextAttempt.value <= now)
    ensures DueBy(After(steps[..k]).rows, now, steps[i].batch[j].next)
    ensures IsClaimable(steps[i].batch[j].next, now)
  {
    ClaimInRun(steps, i, k, j);
    var r := steps[i].batch[j];
    ClaimMeans(r.previous.value, steps[i].request);
    DueAfterLease(r.previous.value, steps[i].request, r.next, now);
  }

  /** On every reachable state a claim reads its whole page, and each candidate is refused only
      for an invalid lease or an exhausted generation. */
  lemma ClaimsFailOnlyByRequest(steps: seq<Step>, q: ClaimRequest, page: seq<Key>, more: bool, j: nat)
    requires Run(steps) && j < |page|
    requires TimedEnd(DUE_PREFIX, q.now).Some?
    requires IsPage(After(steps).store.Keys, DUE_PREFIX, TimedEnd(DUE_PREFIX, q.now).value, page, more)
    ensures DueDelivery(After(steps).store, page[j]).Ok?
    ensures var d := DueDelivery(After(steps).store, page[j]).value;
            Claimed(d, q) <==> q.owner != [] && q.lease > q.now && d.generation < I64_MAX
  {
    RunRepresents(steps);
    PageEntryClaimable(After(steps).store, After(steps).rows, q.now, page, more, j);
    ClaimMeans(DueDelivery(After(steps).store, page[j]).value, q);
  }

  lemma RunRepresents(steps: seq<Step>)
    requires Run(steps)
    ensures Represents(After(steps).store, After(steps).rows)
  {
    RunFenced(steps);
  }

  lemma PageEntryClaimable(store: Store, rows: Rows, now: I64, page: seq<Key>, more: bool, j: nat)
    requires Represents(store, rows) && j < |page| && TimedEnd(DUE_PREFIX, now).Some?
    requires IsPage(store.Keys, DUE_PREFIX, TimedEnd(DUE_PREFIX, now).value, page, more)
    ensures DueDelivery(store, page[j]).Ok? && IsClaimable(DueDelivery(store, page[j]).value, now)
  {
    DueReadsExact(store, rows, now, page, more);
  }
}
