/** Publish deliveries: claim and settle transitions, their rows and their due index. */
module Deliveries {
  import opened Outcomes
  import opened Bytes
  import opened KeyedRows
  import opened TimedKeys
  import opened Scans

  const I64_MAX: nat := 0x7FFF_FFFF_FFFF_FFFF
  const DELIVERY_PREFIX: Key := [0x7F, 112, 47, 118, 47]
  const DUE_PREFIX: Key := [0x7F, 112, 47, 121, 47]

  datatype Status = Pending | Delivered | AcceptedByCustomSender | RetryScheduled | Failed

  /** What a delivery was accepted with. */
  datatype Payload = Payload(kind: Key, messageId: Key, subscription: Key, body: Option<Key>, subject: Option<Key>,
                             attributes: Key, target: Key)

  datatype Delivery = Delivery(id: Key, payload: Payload, status: Status, attempts: nat, generation: nat,
                               nextAttempt: Option<I64>, owner: Option<Key>, lease: Option<I64>, error: Option<Key>,
                               created: I64, updated: I64)

  datatype ClaimRequest = ClaimRequest(owner: Key, now: I64, lease: I64)

  datatype Outcome = Outcome(id: Key, generation: nat, owner: Key, status: Status, attempts: nat,
                             nextAttempt: Option<I64>, error: Option<Key>, updated: I64)

  // ----- Transitions -----

  predicate Waiting(d: Delivery) {
    d.status.Pending? || d.status.RetryScheduled?
  }

  predicate IsClaimable(d: Delivery, now: I64) {
    Waiting(d) && (d.nextAttempt.Some? ==> d.nextAttempt.value <= now) && (d.lease.Some? ==> d.lease.value <= now)
  }

  function Later(a: I64, b: Option<I64>): I64 {
    if b.Some? && b.value > a then b.value else a
  }

  function DueAt(d: Delivery): Option<I64> {
    if !Waiting(d) then None else Some(Later(Later(d.created, d.nextAttempt), d.lease))
  }

  /** The due index and the claim rule agree exactly on deliveries that are not from the future. */
  lemma DueVersusClaimable(d: Delivery, now: I64)
    ensures (DueAt(d).Some? && DueAt(d).value <= now) <==> IsClaimable(d, now) && d.created <= now
  {
  }

  /** A delivery created after `now` is claimable although it is not due. */
  lemma ClaimableBeforeDue() returns (d: Delivery, now: I64)
    ensures IsClaimable(d, now) && DueAt(d) == Some(1) && now == 0
  {
    d := Delivery([], Payload([], [], [], None, None, [], []), Pending, 0, 0, None, None, None, None, 1, 1);
    now := 0;
  }

  function Claim(d: Delivery, q: ClaimRequest): Result<Option<Delivery>> {
    if q.owner == [] || q.lease <= q.now then Err(Internal)
    else if !IsClaimable(d, q.now) then Ok(None)
    else if d.generation + 1 > I64_MAX then Err(Internal)
    else Ok(Some(d.(generation := d.generation + 1, owner := Some(q.owner), lease := Some(q.lease), updated := q.now)))
  }

  function Settle(d: Delivery, o: Outcome): Option<Delivery> {
    if d.id != o.id || o.generation == 0 || d.generation != o.generation || d.owner != Some(o.owner) then None
    else Some(d.(status := o.status, attempts := o.attempts, nextAttempt := o.nextAttempt, owner := None, lease := None,
                 error := o.error, updated := o.updated))
  }

  /** A claim opens the next generation for its owner until its lease; a settlement closes the
      generation; neither touches identity or payload. */
  lemma TransitionsFence(d: Delivery, q: ClaimRequest, o: Outcome)
    ensures Claim(d, q).Ok? && Claim(d, q).value.Some? ==>
              var c := Claim(d, q).value.value;
              && c.generation == d.generation + 1 && c.owner == Some(q.owner) && c.id == d.id && c.payload == d.payload
              && c.created == d.created
              && !IsClaimable(c, q.now) && (o.generation <= d.generation ==> Settle(c, o).None?)
    ensures Settle(d, o).Some? ==>
              var s := Settle(d, o).value;
              && s.generation == d.generation && s.id == d.id && s.payload == d.payload && s.created == d.created
              && forall o': Outcome :: Settle(s, o').None?
  {
  }

  // ----- Rows -----

  datatype Value = Row(delivery: Delivery) | Mark

  type Store = map<Key, Value>

  type RowChange = Change<Value>

  function DeliveryKey(id: Key): Key {
    DELIVERY_PREFIX + id
  }

  function DueKey(at: I64, id: Key): Key {
    TimedKey(DUE_PREFIX, at, id)
  }

  lemma KeysInjective(at: I64, id: Key, at': I64, id': Key)
    ensures DeliveryKey(id) != DueKey(at', id')
    ensures DeliveryKey(id) == DeliveryKey(id') ==> id == id'
    ensures DueKey(at, id) == DueKey(at', id') ==> at == at' && id == id'
  {
    assert DeliveryKey(id)[3] == 118 && DueKey(at', id')[3] == 121;
    assert DeliveryKey(id)[5..] == id && DeliveryKey(id')[5..] == id';
    if DueKey(at, id) == DueKey(at', id') {
      TimedKeyInjective(DUE_PREFIX, at, id, at', id');
    }
  }

  /** Where a delivery is marked as due, while it waits. */
  function MarkOf(d: Delivery): Option<Key> {
    if DueAt(d).Some? then Some(DueKey(DueAt(d).value, d.id)) else None
  }

  /** What a delivery's rows say under a key. */
  function RowOf(d: Delivery, k: Key): Option<Value> {
    if k == DeliveryKey(d.id) then Some(Row(d))
    else if MarkOf(d) == Some(k) then Some(Mark)
    else None
  }

  datatype Replacement = Replacement(previous: Option<Delivery>, next: Delivery)

  function Unmark(mark: Option<Key>): seq<RowChange> {
    if mark.Some? then [Delete(mark.value)] else []
  }

  function MarkDue(mark: Option<Key>): seq<RowChange> {
    if mark.Some? then [Put(mark.value, Mark)] else []
  }

  function OldMark(r: Replacement): Option<Key> {
    if r.previous.Some? then MarkOf(r.previous.value) else None
  }

  function RowChanges(was: Option<Key>, mark: Option<Key>, key: Key, d: Delivery): seq<RowChange> {
    Unmark(was) + MarkDue(mark) + [Put(key, Row(d))]
  }

  function Changes(r: Replacement): seq<RowChange> {
    RowChanges(OldMark(r), MarkOf(r.next), DeliveryKey(r.next.id), r.next)
  }

  lemma ChangesLookup(store: Store, was: Option<Key>, mark: Option<Key>, key: Key, d: Delivery, k: Key)
    ensures Get(ApplyAll(store, RowChanges(was, mark, key, d)), k) ==
            if k == key then Some(Row(d))
            else if mark == Some(k) then Some(Mark)
            else if was == Some(k) then None
            else Get(store, k)
  {
    ApplyAppend(store, Unmark(was) + MarkDue(mark), Put(key, Row(d)));
    if mark.Some? {
      ApplyAppend(store, Unmark(was), Put(mark.value, Mark));
    } else {
      assert Unmark(was) + MarkDue(mark) == Unmark(was);
    }
    if was.Some? {
      assert [] + Unmark(was) == [Delete(was.value)];
      ApplyAppend(store, [], Delete(was.value));
    }
  }

  /** Replacing a delivery leaves its new rows, none of its old ones, and every other row. */
  lemma ReplaceLookup(store: Store, r: Replacement, k: Key)
    requires r.previous.Some? ==> r.previous.value.id == r.next.id
    ensures Get(ApplyAll(store, Changes(r)), k) ==
            if RowOf(r.next, k).Some? then RowOf(r.next, k)
            else if r.previous.Some? && RowOf(r.previous.value, k).Some? then None
            else Get(store, k)
  {
    ChangesLookup(store, OldMark(r), MarkOf(r.next), DeliveryKey(r.next.id), r.next, k);
  }

  // ----- Agreement -----

  type Rows = map<Key, Delivery>

  function Find(rows: Rows, id: Key): Option<Delivery> {
    if id in rows then Some(rows[id]) else None
  }

  ghost predicate HasRow(rows: Rows, id: Key, k: Key) {
    id in rows && RowOf(rows[id], k).Some?
  }

  ghost predicate Keyed(rows: Rows) {
    forall id :: id in rows ==> rows[id].id == id
  }

  /** The store is the rows and due marks of exactly these deliveries. */
  ghost predicate Represents(store: Store, rows: Rows) {
    Keyed(rows) && RowsShown(store, rows) && RowsOwned(store, rows)
  }

  ghost predicate RowsShown(store: Store, rows: Rows) {
    forall id, k :: HasRow(rows, id, k) ==> Get(store, k) == RowOf(rows[id], k)
  }

  ghost predicate RowsOwned(store: Store, rows: Rows) {
    forall k :: k in store ==> Owned(rows, k)
  }

  ghost predicate Owned(rows: Rows, k: Key) {
    exists id :: HasRow(rows, id, k)
  }

  lemma RowsDisjoint(a: Delivery, b: Delivery, k: Key)
    requires RowOf(a, k).Some? && RowOf(b, k).Some?
    ensures a.id == b.id
  {
    var x := if DueAt(a).Some? then DueAt(a).value else 0;
    var y := if DueAt(b).Some? then DueAt(b).value else 0;
    KeysInjective(x, a.id, y, b.id);
    KeysInjective(y, b.id, x, a.id);
  }

  lemma ReplaceRefines(store: Store, rows: Rows, r: Replacement)
    requires Represents(store, rows) && r.previous == Find(rows, r.next.id)
    ensures Represents(ApplyAll(store, Changes(r)), rows[r.next.id := r.next])
  {
    ReplaceShows(store, rows, r);
    ReplaceOwns(store, rows, r);
  }

  lemma ReplaceShows(store: Store, rows: Rows, r: Replacement)
    requires Represents(store, rows) && r.previous == Find(rows, r.next.id)
    ensures RowsShown(ApplyAll(store, Changes(r)), rows[r.next.id := r.next])
  {
    var store', after := ApplyAll(store, Changes(r)), rows[r.next.id := r.next];
    forall id, k | HasRow(after, id, k) ensures Get(store', k) == RowOf(after[id], k) {
      RowReplaced(store, rows, r, id, k);
    }
  }

  lemma ReplaceOwns(store: Store, rows: Rows, r: Replacement)
    requires Represents(store, rows) && r.previous == Find(rows, r.next.id)
    ensures RowsOwned(ApplyAll(store, Changes(r)), rows[r.next.id := r.next])
  {
    forall k | k in ApplyAll(store, Changes(r)) ensures Owned(rows[r.next.id := r.next], k) {
      var id := RowHasOwner(store, rows, r, k);
    }
  }

  lemma RowReplaced(store: Store, rows: Rows, r: Replacement, id: Key, k: Key)
    requires Represents(store, rows) && r.previous == Find(rows, r.next.id) && HasRow(rows[r.next.id := r.next], id, k)
    ensures Get(ApplyAll(store, Changes(r)), k) == RowOf(rows[r.next.id := r.next][id], k)
  {
    ReplaceLookup(store, r, k);
    if id != r.next.id {
      assert HasRow(rows, id, k);
      OthersRow(rows[id], r.next, k);
      if r.previous.Some? { OthersRow(rows[id], r.previous.value, k); }
    }
  }

  lemma OthersRow(d: Delivery, e: Delivery, k: Key)
    requires d.id != e.id && RowOf(d, k).Some?
    ensures RowOf(e, k).None?
  {
    if RowOf(e, k).Some? { RowsDisjoint(d, e, k); }
  }

  lemma RowHasOwner(store: Store, rows: Rows, r: Replacement, k: Key) returns (id: Key)
    requires Represents(store, rows) && r.previous == Find(rows, r.next.id) && k in ApplyAll(store, Changes(r))
    ensures HasRow(rows[r.next.id := r.next], id, k)
  {
    ReplaceLookup(store, r, k);
    if RowOf(r.next, k).Some? {
      id := r.next.id;
    } else {
      assert k in store && Owned(rows, k);
      id :| HasRow(rows, id, k);
    }
  }

  // ----- Reads -----

  function ReadDelivery(store: Store, id: Key): Result<Option<Delivery>> {
    match Get<Value>(store, DeliveryKey(id))
    case None => Ok(None)
    case Some(Row(d)) => if d.id != id then Err(Internal) else Ok(Some(d))
    case Some(Mark) => Err(Internal)
  }

  lemma ReadExact(store: Store, rows: Rows, id: Key)
    requires Represents(store, rows)
    ensures ReadDelivery(store, id) == Ok(Find(rows, id))
  {
    var k := DeliveryKey(id);
    if id in rows {
      assert HasRow(rows, id, k);
    } else if k in store {
      assert Owned(rows, k);
      var x :| HasRow(rows, x, k);
      var at := if DueAt(rows[x]).Some? then DueAt(rows[x]).value else 0;
      KeysInjective(at, id, at, rows[x].id);
    }
  }

  /** One due mark with the delivery it points to, if the two agree. */
  function DueDelivery(store: Store, key: Key): Result<Delivery> {
    if !(DUE_PREFIX <= key) || |key| < |DUE_PREFIX| + 8 then Err(Internal)
    else
      var id := key[|DUE_PREFIX| + 8..];
      var found :- ReadDelivery(store, id);
      if found.None? || DueAt(found.value).None? || DueKey(DueAt(found.value).value, id) != key then Err(Internal)
      else Ok(found.value)
  }

  lemma ReadDeliveryExact(store: Store, id: Key, found: Option<Delivery>)
    ensures ReadDelivery(store, id) == Ok(found) <==>
            if found.None? then DeliveryKey(id) !in store
            else found.value.id == id && Get<Value>(store, DeliveryKey(id)) == Some(Row(found.value))
  {
  }

  /** The key is the due mark of the stored delivery. */
  predicate MarksStored(store: Store, key: Key, d: Delivery) {
    MarkOf(d) == Some(key) && Get<Value>(store, DeliveryKey(d.id)) == Some(Row(d))
  }

  /** A mark is accepted exactly when it is the due mark of a stored delivery. */
  lemma DueDeliveryExact(store: Store, key: Key, d: Delivery)
    ensures DueDelivery(store, key) == Ok(d) <==> MarksStored(store, key, d)
  {
    if MarkOf(d) == Some(key) {
      TimedKeyParts(DUE_PREFIX, DueAt(d).value, d.id);
      ReadDeliveryExact(store, d.id, Some(d));
    }
  }

  method ReadDueDeliveries(store: Store, now: I64, limit: nat)
    returns (r: Result<seq<Delivery>>, page: seq<Key>, more: bool)
    requires limit > 0
    ensures TimedEnd(DUE_PREFIX, now).Some?
            && IsPage(store.Keys, DUE_PREFIX, TimedEnd(DUE_PREFIX, now).value, page, more) && |page| <= limit
    ensures r.Ok? <==> forall j :: 0 <= j < |page| ==> DueDelivery(store, page[j]).Ok?
    ensures r.Ok? ==> |r.value| == |page| && forall j :: 0 <= j < |page| ==>
            DueDelivery(store, page[j]) == Ok(r.value[j])
    ensures r.Ok? ==> forall j :: 0 <= j < |page| ==> MarksStored(store, page[j], r.value[j])
    ensures r.Err? ==> exists j :: 0 <= j < |page| && forall d: Delivery :: !MarksStored(store, page[j], d)
  {
    TimedRangeExact(DUE_PREFIX, now, [], now, []);
    page, more := Scan(store.Keys, DUE_PREFIX, TimedEnd(DUE_PREFIX, now).value, limit);
    var result: seq<Delivery> := [];
    for j := 0 to |page|
      invariant |result| == j && forall k :: 0 <= k < j ==> DueDelivery(store, page[k]) == Ok(result[k])
      invariant forall k :: 0 <= k < j ==> MarksStored(store, page[k], result[k])
    {
      var d := DueDelivery(store, page[j]);
      if d.Err? {
        forall x: Delivery ensures !MarksStored(store, page[j], x) { DueDeliveryExact(store, page[j], x); }
        return Err(d.error), page, more;
      }
      DueDeliveryExact(store, page[j], d.value);
      result := result + [d.value];
    }
    r := Ok(result);
  }

  lemma DueMarkAgrees(store: Store, rows: Rows, key: Key) returns (id: Key)
    requires Represents(store, rows) && key in store && DUE_PREFIX <= key
    ensures id in rows && DueAt(rows[id]).Some? && key == DueKey(DueAt(rows[id]).value, id)
    ensures DueDelivery(store, key) == Ok(rows[id])
  {
    assert Owned(rows, key);
    id :| HasRow(rows, id, key);
    assert DeliveryKey(id)[3] == 118 && key[3] == DUE_PREFIX[3];
    TimedKeyParts(DUE_PREFIX, DueAt(rows[id]).value, id);
    ReadExact(store, rows, id);
  }

  ghost predicate DueBy(rows: Rows, now: I64, d: Delivery) {
    Find(rows, d.id) == Some(d) && DueAt(d).Some? && DueAt(d).value <= now
  }

  predicate DueBefore(a: Delivery, b: Delivery)
    requires DueAt(a).Some? && DueAt(b).Some?
  {
    DueAt(a).value < DueAt(b).value || (DueAt(a).value == DueAt(b).value && Less(a.id, b.id))
  }

  /** Due reads never fail. They return distinct deliveries due by now, and therefore claimable,
      in order of due time and id, and leave out only later ones. */
  lemma DueReadsExact(store: Store, rows: Rows, now: I64, page: seq<Key>, more: bool)
    requires Represents(store, rows)
    requires TimedEnd(DUE_PREFIX, now).Some?
             && IsPage(store.Keys, DUE_PREFIX, TimedEnd(DUE_PREFIX, now).value, page, more)
    ensures forall j :: 0 <= j < |page| ==>
            DueDelivery(store, page[j]).Ok? && DueBy(rows, now, DueDelivery(store, page[j]).value)
    ensures forall j :: 0 <= j < |page| ==> IsClaimable(DueDelivery(store, page[j]).value, now)
    ensures forall j, k :: 0 <= j < k < |page| ==>
            DueBefore(DueDelivery(store, page[j]).value, DueDelivery(store, page[k]).value)
    ensures forall j, k :: 0 <= j < k < |page| ==>
            DueDelivery(store, page[j]).value.id != DueDelivery(store, page[k]).value.id
    ensures forall d :: DueBy(rows, now, d) ==>
              (exists j :: 0 <= j < |page| && DueDelivery(store, page[j]) == Ok(d))
              || (more && forall j :: 0 <= j < |page| ==> DueBefore(DueDelivery(store, page[j]).value, d))
  {
    forall j | 0 <= j < |page|
      ensures DueDelivery(store, page[j]).Ok? && DueBy(rows, now, DueDelivery(store, page[j]).value)
                                       && MarkOf(DueDelivery(store, page[j]).value) == Some(page[j]) {
      PageEntry(store, rows, now, page[j]);
    }
    forall j, k | 0 <= j < k < |page|
      ensures DueBefore(DueDelivery(store, page[j]).value, DueDelivery(store, page[k]).value)
      ensures DueDelivery(store, page[j]).value.id != DueDelivery(store, page[k]).value.id
    {
      var a, b := DueDelivery(store, page[j]).value, DueDelivery(store, page[k]).value;
      assert Less(page[j], page[k]);
      LessTotal(page[j], page[k]);
      TimedKeyOrder(DUE_PREFIX, DueAt(a).value, a.id, DueAt(b).value, b.id);
    }
    forall d | DueBy(rows, now, d)
      ensures (exists j :: 0 <= j < |page| && DueDelivery(store, page[j]) == Ok(d))
              || (more && forall j :: 0 <= j < |page| ==> DueBefore(DueDelivery(store, page[j]).value, d))
    {
      DueIsInRange(store, rows, now, d);
      var key := DueKey(DueAt(d).value, d.id);
      if key in page {
        var j :| 0 <= j < |page| && page[j] == key;
        assert DueDelivery(store, page[j]) == Ok(d);
      } else {
        forall j | 0 <= j < |page| ensures DueBefore(DueDelivery(store, page[j]).value, d) {
          var a := DueDelivery(store, page[j]).value;
          TimedKeyOrder(DUE_PREFIX, DueAt(a).value, a.id, DueAt(d).value, d.id);
          assert Less(page[j], key);
        }
      }
    }
  }

  lemma PageEntry(store: Store, rows: Rows, now: I64, key: Key)
    requires Represents(store, rows) && TimedEnd(DUE_PREFIX, now).Some?
             && key in KeysIn(store.Keys, DUE_PREFIX, TimedEnd(DUE_PREFIX, now).value)
    ensures DueDelivery(store, key).Ok? && MarkOf(DueDelivery(store, key).value) == Some(key)
    ensures DueBy(rows, now, DueDelivery(store, key).value)
  {
    TimedRangeExact(DUE_PREFIX, now, key, now, []);
    var id := DueMarkAgrees(store, rows, key);
    TimedRangeExact(DUE_PREFIX, now, key, DueAt(rows[id]).value, id);
  }

  lemma DueIsInRange(store: Store, rows: Rows, now: I64, d: Delivery)
    requires Represents(store, rows) && DueBy(rows, now, d) && TimedEnd(DUE_PREFIX, now).Some?
    ensures DueKey(DueAt(d).value, d.id) in KeysIn(store.Keys, DUE_PREFIX, TimedEnd(DUE_PREFIX, now).value)
    ensures DueDelivery(store, DueKey(DueAt(d).value, d.id)) == Ok(d)
  {
    var key := DueKey(DueAt(d).value, d.id);
    TimedRangeExact(DUE_PREFIX, now, key, DueAt(d).value, d.id);
    assert HasRow(rows, d.id, key);
    TimedKeyParts(DUE_PREFIX, DueAt(d).value, d.id);
    var id := DueMarkAgrees(store, rows, key);
    TimedKeyInjective(DUE_PREFIX, DueAt(d).value, d.id, DueAt(rows[id]).value, id);
  }
}
