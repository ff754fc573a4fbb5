/** Queue message rows with their due and receipt indexes, over runs of writes and deletes. */
module QueueMessages {
  import opened Outcomes
  import opened Bytes
  import opened KeyedRows
  import opened TimedKeys
  import opened QueueKeys

  datatype Record = Record(incarnation: Incarnation, id: MessageId, receipt: Option<Key>, created: I64,
                           visibility: Option<I64>, expires: I64, body: Key)

  function VisibleAt(r: Record): I64 {
    if r.visibility.Some? then r.visibility.value else r.created
  }

  /** The message can be received at `now`: its visibility time has come, or it has none and was
      created by then. */
  predicate VisibleBy(r: Record, now: I64) {
    match r.visibility
    case Some(at) => at <= now
    case None => r.created <= now
  }

  /** A message row holds its record; index rows hold raw bytes. */
  datatype Value = Message(record: Record) | Raw(bytes: Key)

  type Store = map<Key, Value>

  type RowChange = Change<Value>

  // ----- The rows of one record -----

  function OwnKey(r: Record): Key {
    MessageKey(r.incarnation, r.id)
  }

  function OwnDue(r: Record): Key {
    DueKey(r.incarnation, VisibleAt(r), r.id)
  }

  /** What a record's rows say under a key; nothing if the key is not one of its rows. */
  function RowOf(r: Record, k: Key): Option<Value> {
    if k == OwnKey(r) then Some(Message(r))
    else if k == OwnDue(r) then Some(Raw(DueValue(r.receipt.Some?, r.expires)))
    else if r.receipt.Some? && k == ReceiptKey(r.incarnation, r.receipt.value) then Some(Raw(r.id))
    else None
  }

  function WriteChanges(r: Record, previous: Option<Record>): seq<RowChange> {
    (if previous.Some? then
       [Delete(OwnDue(previous.value))]
       + (if previous.value.receipt.Some?
         then [Delete(ReceiptKey(previous.value.incarnation, previous.value.receipt.value))] else [])
     else [])
    + [Put(OwnKey(r), Message(r)), Put(OwnDue(r), Raw(DueValue(r.receipt.Some?, r.expires)))]
    + (if r.receipt.Some? then [Put(ReceiptKey(r.incarnation, r.receipt.value), Raw(r.id))] else [])
  }

  function DeleteChanges(r: Record): seq<RowChange> {
    [Delete(OwnKey(r)), Delete(OwnDue(r))]
    + (if r.receipt.Some? then [Delete(ReceiptKey(r.incarnation, r.receipt.value))] else [])
  }

  lemma ApplyTwo(store: Store, a: RowChange, b: RowChange)
    ensures ApplyAll(store, [a, b]) == Apply(Apply(store, a), b)
  {
    assert [a] + [b] == [a, b];
    ApplyAllConcat(store, [a], [b]);
    ApplyOne(store, a);
    ApplyOne(Apply(store, a), b);
  }

  lemma ApplyOne(store: Store, a: RowChange)
    ensures ApplyAll(store, [a]) == Apply(store, a)
  {
    assert [a][..0] == [];
  }

  /** Rewriting a record leaves its new rows, none of its old ones, and every other row. */
  lemma WriteLookup(store: Store, r: Record, previous: Option<Record>, k: Key)
    requires previous.Some? ==> OwnKey(previous.value) == OwnKey(r)
    ensures Get(ApplyAll(store, WriteChanges(r, previous)), k) ==
            if RowOf(r, k).Some? then RowOf(r, k)
            else if previous.Some? && RowOf(previous.value, k).Some? then None
            else Get(store, k)
  {
    var cleared: seq<RowChange> :=
      if previous.Some? then
        [Delete(OwnDue(previous.value))]
        + (if previous.value.receipt.Some?
          then [Delete(ReceiptKey(previous.value.incarnation, previous.value.receipt.value))] else [])
      else [];
    var rows := [Put(OwnKey(r), Message(r)), Put(OwnDue(r), Raw(DueValue(r.receipt.Some?, r.expires)))];
    var receipt: seq<RowChange> :=
      if r.receipt.Some? then [Put(ReceiptKey(r.incarnation, r.receipt.value), Raw(r.id))] else [];
    assert WriteChanges(r, previous) == cleared + rows + receipt;
    ApplyAllConcat(store, cleared + rows, receipt);
    ApplyAllConcat(store, cleared, rows);
    var s1 := ApplyAll(store, cleared);
    ClearLookup(store, previous, k);
    ApplyTwo(s1, rows[0], rows[1]);
    var s2 := ApplyAll(s1, rows);
    if r.receipt.Some? {
      ApplyOne(s2, receipt[0]);
      KeysInjective(r.incarnation, r.id, VisibleAt(r), r.receipt.value, r.incarnation, r.id, VisibleAt(r),
        r.receipt.value);
    }
    KeysInjective(r.incarnation, r.id, VisibleAt(r), [], r.incarnation, r.id, VisibleAt(r), []);
  }

  lemma ClearLookup(store: Store, previous: Option<Record>, k: Key)
    ensures var cleared: seq<RowChange> :=
              if previous.Some? then
                [Delete(OwnDue(previous.value))]
                + (if previous.value.receipt.Some?
                  then [Delete(ReceiptKey(previous.value.incarnation, previous.value.receipt.value))] else [])
              else [];
            Get(ApplyAll(store, cleared), k) ==
            if previous.Some? && RowOf(previous.value, k).Some? && k != OwnKey(previous.value) then None
              else Get(store, k)
  {
    if previous.Some? {
      var p := previous.value;
      KeysInjective(p.incarnation, p.id, VisibleAt(p), [], p.incarnation, p.id, VisibleAt(p), []);
      if p.receipt.Some? {
        var both := [Delete(OwnDue(p)), Delete(ReceiptKey(p.incarnation, p.receipt.value))];
        assert [Delete(OwnDue(p))] + [Delete(ReceiptKey(p.incarnation, p.receipt.value))] == both;
        ApplyTwo(store, both[0], both[1]);
        KeysInjective(p.incarnation, p.id, VisibleAt(p), p.receipt.value, p.incarnation, p.id, VisibleAt(p),
          p.receipt.value);
      } else {
        var one: RowChange := Delete(OwnDue(p));
        assert [one] + [] == [one];
        ApplyOne(store, one);
      }
    }
  }

  lemma DeleteLookup(store: Store, r: Record, k: Key)
    ensures Get(ApplyAll(store, DeleteChanges(r)), k) == if RowOf(r, k).Some? then None else Get(store, k)
  {
    var two := [Delete(OwnKey(r)), Delete(OwnDue(r))];
    ApplyTwo(store, two[0], two[1]);
    if r.receipt.Some? {
      ApplyAllConcat(store, two, [Delete(ReceiptKey(r.incarnation, r.receipt.value))]);
      ApplyOne(ApplyAll(store, two), Delete(ReceiptKey(r.incarnation, r.receipt.value)));
    } else {
      assert DeleteChanges(r) == two;
    }
  }

  // ----- Agreement -----

  datatype Address = Address(incarnation: Incarnation, id: MessageId)

  type Messages = map<Address, Record>

  function AddressOf(r: Record): Address {
    Address(r.incarnation, r.id)
  }

  function Find(messages: Messages, a: Address): Option<Record> {
    if a in messages then Some(messages[a]) else None
  }

  predicate Holds(messages: Messages, a: Address, receipt: Key) {
    a in messages && messages[a].receipt == Some(receipt)
  }

  ghost predicate Keyed(messages: Messages) {
    forall a :: a in messages ==> AddressOf(messages[a]) == a
  }

  ghost predicate OneHolder(messages: Messages) {
    forall a, b, r :: Holds(messages, a, r) && Holds(messages, b, r) && a.incarnation == b.incarnation ==> a == b
  }

  ghost predicate HasRow(messages: Messages, a: Address, k: Key) {
    a in messages && RowOf(messages[a], k).Some?
  }

  /** The store is the message rows and index rows of exactly these messages. */
  ghost predicate Represents(store: Store, messages: Messages) {
    && Keyed(messages) && OneHolder(messages)
    && (forall a, k :: HasRow(messages, a, k) ==> Get(store, k) == RowOf(messages[a], k))
    && (forall k :: k in store ==> exists a :: HasRow(messages, a, k))
  }

  /** Different messages have no row in common. */
  lemma RowsDisjoint(messages: Messages, a: Address, b: Address, k: Key)
    requires Keyed(messages) && OneHolder(messages) && HasRow(messages, a, k) && HasRow(messages, b, k)
    ensures a == b
  {
    var x, y := messages[a], messages[b];
    var rx := if x.receipt.Some? then x.receipt.value else [];
    var ry := if y.receipt.Some? then y.receipt.value else [];
    KeysInjective(x.incarnation, x.id, VisibleAt(x), rx, y.incarnation, y.id, VisibleAt(y), ry);
    KeysInjective(y.incarnation, y.id, VisibleAt(y), ry, x.incarnation, x.id, VisibleAt(x), rx);
    assert AddressOf(x) == a && AddressOf(y) == b;
    if k != OwnKey(x) && k != OwnDue(x) {
      assert Holds(messages, a, rx) && Holds(messages, b, ry);
    }
  }

  /** The new receipt is held by no other message of the queue. */
  ghost predicate Unshared(messages: Messages, r: Record) {
    r.receipt.Some? ==> forall b :: Holds(messages, b, r.receipt.value) && b.incarnation == r.incarnation ==>
      b == AddressOf(r)
  }

  lemma KeepsOneHolder(messages: Messages, r: Record)
    requires Keyed(messages) && OneHolder(messages) && Unshared(messages, r)
    ensures Keyed(messages[AddressOf(r) := r]) && OneHolder(messages[AddressOf(r) := r])
  {
    var after := messages[AddressOf(r) := r];
    forall a, b, x | Holds(after, a, x) && Holds(after, b, x) && a.incarnation == b.incarnation ensures a == b {
      if a != AddressOf(r) { assert Holds(messages, a, x); }
      if b != AddressOf(r) { assert Holds(messages, b, x); }
    }
  }

  lemma WriteRefines(store: Store, messages: Messages, r: Record)
    requires Represents(store, messages) && Unshared(messages, r)
    ensures Represents(ApplyAll(store, WriteChanges(r, Find(messages, AddressOf(r)))), messages[AddressOf(r) := r])
  {
    var at, previous := AddressOf(r), Find(messages, AddressOf(r));
    var store', after := ApplyAll(store, WriteChanges(r, previous)), messages[at := r];
    KeepsOneHolder(messages, r);
    forall b, k | HasRow(after, b, k) ensures Get(store', k) == RowOf(after[b], k) {
      RowWritten(store, messages, r, b, k);
    }
    forall k | k in store' ensures exists b :: HasRow(after, b, k) {
      var b := RowHasOwner(store, messages, r, k);
    }
  }

  lemma RowWritten(store: Store, messages: Messages, r: Record, b: Address, k: Key)
    requires Represents(store, messages) && Unshared(messages, r) && HasRow(messages[AddressOf(r) := r], b, k)
    ensures Get(ApplyAll(store, WriteChanges(r, Find(messages, AddressOf(r)))), k)
            == RowOf(messages[AddressOf(r) := r][b], k)
  {
    WriteLookup(store, r, Find(messages, AddressOf(r)), k);
    if b != AddressOf(r) {
      assert HasRow(messages, b, k);
      WriteSpares(messages, r, b, k);
    }
  }

  lemma RowHasOwner(store: Store, messages: Messages, r: Record, k: Key) returns (b: Address)
    requires Represents(store, messages) && k in ApplyAll(store, WriteChanges(r, Find(messages, AddressOf(r))))
    ensures HasRow(messages[AddressOf(r) := r], b, k)
  {
    WriteLookup(store, r, Find(messages, AddressOf(r)), k);
    if RowOf(r, k).Some? {
      b := AddressOf(r);
    } else {
      assert Get(store, k).Some?;
      b :| HasRow(messages, b, k);
    }
  }

  lemma WriteSpares(messages: Messages, r: Record, b: Address, k: Key)
    requires Keyed(messages) && OneHolder(messages) && Unshared(messages, r)
    requires b != AddressOf(r) && HasRow(messages, b, k)
    ensures RowOf(r, k).None?
    ensures AddressOf(r) in messages ==> RowOf(messages[AddressOf(r)], k).None?
  {
    var at, after := AddressOf(r), messages[AddressOf(r) := r];
    KeepsOneHolder(messages, r);
    assert HasRow(after, b, k);
    if HasRow(after, at, k) { RowsDisjoint(after, at, b, k); }
    if HasRow(messages, at, k) { RowsDisjoint(messages, at, b, k); }
  }

  lemma EraseRefines(store: Store, messages: Messages, r: Record)
    requires Represents(store, messages) && Find(messages, AddressOf(r)) == Some(r)
    ensures Represents(ApplyAll(store, DeleteChanges(r)), messages - {AddressOf(r)})
  {
    var at := AddressOf(r);
    var store', after := ApplyAll(store, DeleteChanges(r)), messages - {at};
    forall a, b, x | Holds(after, a, x) && Holds(after, b, x) && a.incarnation == b.incarnation ensures a == b {
      assert Holds(messages, a, x) && Holds(messages, b, x);
    }
    forall b, k | HasRow(after, b, k) ensures Get(store', k) == RowOf(after[b], k) {
      DeleteLookup(store, r, k);
      assert HasRow(messages, b, k);
      if HasRow(messages, at, k) { RowsDisjoint(messages, at, b, k); }
    }
    forall k | k in store' ensures exists b :: HasRow(after, b, k) {
      DeleteLookup(store, r, k);
      assert k in store;
      var b :| HasRow(messages, b, k);
      assert HasRow(after, b, k);
    }
  }

  // ----- Batches -----

  datatype Update = Update(record: Record, previous: Option<Record>)

  function Stored(previous: Option<Record>): Option<Value> {
    if previous.Some? then Some(Message(previous.value)) else None
  }

  predicate DistinctTargets(batch: seq<Update>) {
    forall i, j :: 0 <= i < j < |batch| ==> OwnKey(batch[i].record) != OwnKey(batch[j].record)
  }

  /** Every targeted row still is what the writer read. */
  predicate Current(store: Store, batch: seq<Update>) {
    forall i :: 0 <= i < |batch| ==> Get(store, OwnKey(batch[i].record)) == Stored(batch[i].previous)
  }

  function BatchChanges(batch: seq<Update>): seq<RowChange> {
    if batch == [] then []
    else
      var last := batch[|batch| - 1];
      BatchChanges(batch[..|batch| - 1]) + WriteChanges(last.record, last.previous)
  }

  method TargetsDistinct(batch: seq<Update>) returns (ok: bool)
    ensures ok <==> DistinctTargets(batch)
  {
    for i := 0 to |batch|
      invariant forall j, k :: 0 <= j < k < i ==> OwnKey(batch[j].record) != OwnKey(batch[k].record)
    {
      for j := 0 to i
        invariant forall k :: 0 <= k < j ==> OwnKey(batch[k].record) != OwnKey(batch[i].record)
      {
        if OwnKey(batch[j].record) == OwnKey(batch[i].record) {
          return false;
        }
      }
    }
    return true;
  }

  lemma BatchChangesNext(batch: seq<Update>, i: nat)
    requires i < |batch|
    ensures BatchChanges(batch[..i + 1]) == BatchChanges(batch[..i]) + WriteChanges(batch[i].record, batch[i].previous)
  {
    assert batch[..i + 1][..i] == batch[..i];
  }

  lemma CurrentNext(store: Store, batch: seq<Update>, i: nat)
    requires i < |batch| && Current(store, batch[..i])
    ensures Current(store, batch[..i + 1]) <==> Get(store, OwnKey(batch[i].record)) == Stored(batch[i].previous)
  {
    assert batch[..i + 1] == batch[..i] + [batch[i]];
  }

  /** Compare-and-set for a batch: stages the row changes exactly when the targets are distinct
      and unchanged. */
  method WriteMessageRecords(store: Store, batch: seq<Update>) returns (r: Result<seq<RowChange>>)
    ensures r.Ok? <==> DistinctTargets(batch) && Current(store, batch)
    ensures r.Ok? ==> r.value == BatchChanges(batch)
  {
    var distinct := TargetsDistinct(batch);
    if !distinct {
      return Err(Conflict);
    }
    var changes: seq<RowChange> := [];
    for i := 0 to |batch|
      invariant Current(store, batch[..i]) && changes == BatchChanges(batch[..i])
    {
      if Get(store, OwnKey(batch[i].record)) != Stored(batch[i].previous) {
        return Err(Conflict);
      }
      BatchChangesNext(batch, i);
      CurrentNext(store, batch, i);
      changes := changes + WriteChanges(batch[i].record, batch[i].previous);
    }
    assert batch[..|batch|] == batch;
    r := Ok(changes);
  }

  function EraseChanges(records: seq<Record>): seq<RowChange> {
    if records == [] then [] else EraseChanges(records[..|records| - 1]) + DeleteChanges(records[|records| - 1])
  }

  predicate Present(store: Store, records: seq<Record>) {
    forall i :: 0 <= i < |records| ==> Get(store, OwnKey(records[i])) == Some(Message(records[i]))
  }

  method DeleteMessageRecords(store: Store, records: seq<Record>) returns (r: Result<seq<RowChange>>)
    ensures r.Ok? <==> Present(store, records)
    ensures r.Ok? ==> r.value == EraseChanges(records)
  {
    var changes: seq<RowChange> := [];
    for i := 0 to |records|
      invariant Present(store, records[..i]) && changes == EraseChanges(records[..i])
    {
      if Get(store, OwnKey(records[i])) != Some(Message(records[i])) {
        return Err(Conflict);
      }
      changes := changes + DeleteChanges(records[i]);
      assert records[..i + 1][..i] == records[..i];
    }
    assert records[..|records|] == records;
    r := Ok(changes);
  }

  // ----- Receipts -----

  datatype Handle = Handle(incarnation: Incarnation, receipt: Key)

  function HandleOf(r: Record): Handle
    requires r.receipt.Some?
  {
    Handle(r.incarnation, r.receipt.value)
  }

  /** Every held receipt has been used. */
  ghost predicate HeldAreUsed(messages: Messages, used: set<Handle>) {
    forall a, r :: Holds(messages, a, r) ==> Handle(a.incarnation, r) in used
  }

  /** A written receipt is the one the row had, or one never used in its queue. */
  predicate FreshUpdate(u: Update, used: set<Handle>) {
    u.record.receipt.Some? ==>
      (u.previous.Some? && u.previous.value.receipt == u.record.receipt) || HandleOf(u.record) !in used
  }

  function Use(u: Update, used: set<Handle>): set<Handle> {
    if u.record.receipt.Some? then used + {HandleOf(u.record)} else used
  }

  function UseAll(batch: seq<Update>, used: set<Handle>): set<Handle> {
    if batch == [] then used else Use(batch[|batch| - 1], UseAll(batch[..|batch| - 1], used))
  }

  predicate FreshBatch(batch: seq<Update>, used: set<Handle>) {
    batch == [] || (FreshBatch(batch[..|batch| - 1], used)
      && FreshUpdate(batch[|batch| - 1], UseAll(batch[..|batch| - 1], used)))
  }

  function WriteAll(messages: Messages, batch: seq<Update>): Messages {
    if batch == [] then messages
    else
      var r := batch[|batch| - 1].record;
      WriteAll(messages, batch[..|batch| - 1])[AddressOf(r) := r]
  }

  function EraseAll(messages: Messages, records: seq<Record>): Messages {
    if records == [] then messages
      else EraseAll(messages, records[..|records| - 1]) - {AddressOf(records[|records| - 1])}
  }

  lemma RowIsMessage(store: Store, messages: Messages, r: Record)
    requires Represents(store, messages)
    ensures Get(store, OwnKey(r)) == Stored(Find(messages, AddressOf(r)))
  {
    if AddressOf(r) in messages {
      assert AddressOf(messages[AddressOf(r)]) == AddressOf(r);
      assert HasRow(messages, AddressOf(r), OwnKey(r));
    } else if OwnKey(r) in store {
      var a :| HasRow(messages, a, OwnKey(r));
      var x := messages[a];
      var rx := if x.receipt.Some? then x.receipt.value else [];
      KeysInjective(r.incarnation, r.id, VisibleAt(r), [], x.incarnation, x.id, VisibleAt(x), rx);
      assert AddressOf(x) == a;
    }
  }

  lemma {:induction false} OthersKept(messages: Messages, batch: seq<Update>, a: Address)
    requires forall i :: 0 <= i < |batch| ==> AddressOf(batch[i].record) != a
    ensures Find(WriteAll(messages, batch), a) == Find(messages, a)
  {
    if batch != [] {
      OthersKept(messages, batch[..|batch| - 1], a);
    }
  }

  lemma DistinctAddresses(a: Record, b: Record)
    ensures OwnKey(a) == OwnKey(b) <==> AddressOf(a) == AddressOf(b)
  {
    KeysInjective(a.incarnation, a.id, VisibleAt(a), [], b.incarnation, b.id, VisibleAt(b), []);
  }

  lemma UpdateRefines(store: Store, messages: Messages, u: Update, used: set<Handle>)
    requires Represents(store, messages) && HeldAreUsed(messages, used) && FreshUpdate(u, used)
    requires u.previous == Find(messages, AddressOf(u.record))
    ensures Represents(ApplyAll(store, WriteChanges(u.record, u.previous)), messages[AddressOf(u.record) := u.record])
    ensures HeldAreUsed(messages[AddressOf(u.record) := u.record], Use(u, used))
  {
    var r, after := u.record, messages[AddressOf(u.record) := u.record];
    if r.receipt.Some? {
      forall b | Holds(messages, b, r.receipt.value) && b.incarnation == r.incarnation ensures b == AddressOf(r) {
        assert Handle(b.incarnation, r.receipt.value) in used;
        assert Holds(messages, AddressOf(r), r.receipt.value);
      }
    }
    WriteRefines(store, messages, r);
    forall a, x | Holds(after, a, x) ensures Handle(a.incarnation, x) in Use(u, used) {
      if a != AddressOf(r) { assert Holds(messages, a, x); }
    }
  }

  /** A whole batch acts on the messages as its updates do, one after another. */
  lemma {:induction false} BatchRefines(store: Store, messages: Messages, batch: seq<Update>, used: set<Handle>)
    requires Represents(store, messages) && HeldAreUsed(messages, used)
    requires DistinctTargets(batch) && Current(store, batch) && FreshBatch(batch, used)
    ensures Represents(ApplyAll(store, BatchChanges(batch)), WriteAll(messages, batch))
    ensures HeldAreUsed(WriteAll(messages, batch), UseAll(batch, used))
    decreases |batch|
  {
    if batch != [] {
      var init, u := batch[..|batch| - 1], batch[|batch| - 1];
      BatchRefines(store, messages, init, used);
      RowIsMessage(store, messages, u.record);
      forall i | 0 <= i < |init| ensures AddressOf(init[i].record) != AddressOf(u.record) {
        DistinctAddresses(init[i].record, u.record);
        assert batch[i] == init[i];
      }
      OthersKept(messages, init, AddressOf(u.record));
      assert u.previous == Find(messages, AddressOf(u.record));
      UpdateRefines(ApplyAll(store, BatchChanges(init)), WriteAll(messages, init), u, UseAll(init, used));
      ApplyAllConcat(store, BatchChanges(init), WriteChanges(u.record, u.previous));
    }
  }

  /** Deleting a message again changes nothing, so repeated records do no harm. */
  lemma {:induction false} EraseAllRefines(store: Store, messages: Messages, records: seq<Record>, used: set<Handle>)
    requires Represents(store, messages) && HeldAreUsed(messages, used) && Present(store, records)
    ensures Represents(ApplyAll(store, EraseChanges(records)), EraseAll(messages, records))
    ensures HeldAreUsed(EraseAll(messages, records), used)
    ensures forall a :: a in EraseAll(messages, records) ==>
            a in messages && EraseAll(messages, records)[a] == messages[a]
    decreases |records|
  {
    if records != [] {
      var init, r := records[..|records| - 1], records[|records| - 1];
      EraseAllRefines(store, messages, init, used);
      RowIsMessage(store, messages, r);
      var between, after := EraseAll(messages, init), EraseAll(messages, records);
      var rows := ApplyAll(store, EraseChanges(init));
      ApplyAllConcat(store, EraseChanges(init), DeleteChanges(r));
      if AddressOf(r) in between {
        EraseRefines(rows, between, r);
      } else {
        EraseAbsent(rows, between, messages, r);
      }
      forall a, x | Holds(after, a, x) ensures Handle(a.incarnation, x) in used { assert Holds(between, a, x); }
    }
  }

  lemma EraseAbsent(store: Store, messages: Messages, whole: Messages, r: Record)
    requires Represents(store, messages) && Keyed(whole) && OneHolder(whole)
    requires forall a :: a in messages ==> a in whole && whole[a] == messages[a]
    requires AddressOf(r) !in messages && Find(whole, AddressOf(r)) == Some(r)
    ensures Represents(ApplyAll(store, DeleteChanges(r)), messages - {AddressOf(r)})
  {
    var store' := ApplyAll(store, DeleteChanges(r));
    assert messages - {AddressOf(r)} == messages;
    forall k ensures Get(store', k) == Get(store, k) {
      DeleteLookup(store, r, k);
      if k in store && RowOf(r, k).Some? {
        var a :| HasRow(messages, a, k);
        assert HasRow(whole, a, k) && HasRow(whole, AddressOf(r), k);
        RowsDisjoint(whole, a, AddressOf(r), k);
      }
    }
    forall k | k in store' ensures k in store { assert Get(store', k) == Get(store, k); }
  }

  // ----- Runs -----

  datatype Step = Write(batch: seq<Update>) | Erase(records: seq<Record>)

  /** A queue store with, as bookkeeping, its messages and the receipts used so far. */
  datatype State = State(store: Store, messages: Messages, used: set<Handle>)

  const EMPTY := State(map[], map[], {})

  predicate Allowed(s: State, step: Step) {
    match step
    case Write(batch) => DistinctTargets(batch) && Current(s.store, batch) && FreshBatch(batch, s.used)
    case Erase(records) => Present(s.store, records)
  }

  function Next(s: State, step: Step): State {
    match step
    case Write(batch) => State(ApplyAll(s.store, BatchChanges(batch)), WriteAll(s.messages, batch),
      UseAll(batch, s.used))
    case Erase(records) => State(ApplyAll(s.store, EraseChanges(records)), EraseAll(s.messages, records), s.used)
  }

  function After(steps: seq<Step>): State {
    if steps == [] then EMPTY else Next(After(steps[..|steps| - 1]), steps[|steps| - 1])
  }

  /** Runs of committed operations; a refused operation changes nothing and does not appear. */
  predicate Run(steps: seq<Step>) {
    steps == [] || (Run(steps[..|steps| - 1]) && Allowed(After(steps[..|steps| - 1]), steps[|steps| - 1]))
  }

  ghost predicate Agrees(s: State) {
    Represents(s.store, s.messages) && HeldAreUsed(s.messages, s.used)
  }

  lemma StepAgrees(s: State, step: Step)
    requires Agrees(s) && Allowed(s, step)
    ensures Agrees(Next(s, step))
  {
    match step {
      case Write(batch) => BatchRefines(s.store, s.messages, batch, s.used);
      case Erase(records) => EraseAllRefines(s.store, s.messages, records, s.used);
    }
  }

  /** After every run the due and receipt rows agree with the message rows. */
  lemma {:induction false} RunAgrees(steps: seq<Step>)
    requires Run(steps)
    ensures Agrees(After(steps))
    decreases |steps|
  {
    if steps != [] {
      RunAgrees(steps[..|steps| - 1]);
      StepAgrees(After(steps[..|steps| - 1]), steps[|steps| - 1]);
    }
  }

  // ----- Receipts over runs -----

  ghost predicate Unheld(messages: Messages, h: Handle) {
    forall a: Address :: a.incarnation == h.incarnation ==> !Holds(messages, a, h.receipt)
  }

  /** No message but possibly the one at `holder` holds the receipt. */
  ghost predicate HeldOnlyAt(messages: Messages, h: Handle, holder: Option<Address>) {
    forall a: Address :: a.incarnation == h.incarnation && holder != Some(a) ==> !Holds(messages, a, h.receipt)
  }

  /** A used receipt never moves to another message: a write repeats the receipt its own row had,
      or takes one that was never used. */
  lemma {:induction false} BatchMovesNoReceipt(store: Store, messages: Messages, batch: seq<Update>,
      used: set<Handle>, h: Handle, holder: Option<Address>)
    requires Represents(store, messages) && Current(store, batch) && FreshBatch(batch, used)
    requires h in used && HeldOnlyAt(messages, h, holder)
    ensures h in UseAll(batch, used) && HeldOnlyAt(WriteAll(messages, batch), h, holder)
    decreases |batch|
  {
    if batch != [] {
      var init, u := batch[..|batch| - 1], batch[|batch| - 1];
      BatchMovesNoReceipt(store, messages, init, used, h, holder);
      RowIsMessage(store, messages, u.record);
      var after := WriteAll(messages, batch);
      forall a: Address | a.incarnation == h.incarnation && holder != Some(a) ensures !Holds(after, a, h.receipt) {
        if a == AddressOf(u.record) {
          assert !Holds(messages, a, h.receipt);
        } else {
          assert !Holds(WriteAll(messages, init), a, h.receipt);
        }
      }
    }
  }

  /** A batch with distinct targets leaves each of its records at its address. */
  lemma {:induction false} WrittenStays(messages: Messages, batch: seq<Update>, i: nat)
    requires DistinctTargets(batch) && i < |batch|
    ensures Find(WriteAll(messages, batch), AddressOf(batch[i].record)) == Some(batch[i].record)
    decreases |batch|
  {
    var last := |batch| - 1;
    if i < last {
      WrittenStays(messages, batch[..last], i);
      DistinctAddresses(batch[i].record, batch[last].record);
    }
  }

  lemma {:induction false} ErasedIsGone(messages: Messages, records: seq<Record>, a: Address)
    ensures a in EraseAll(messages, records) <==>
            a in messages && forall i :: 0 <= i < |records| ==> AddressOf(records[i]) != a
    ensures a in EraseAll(messages, records) ==> EraseAll(messages, records)[a] == messages[a]
    decreases |records|
  {
    if records != [] {
      ErasedIsGone(messages, records[..|records| - 1], a);
    }
  }

  lemma {:induction false} EraseLeavesUnheld(messages: Messages, records: seq<Record>, h: Handle)
    requires Unheld(messages, h)
    ensures Unheld(EraseAll(messages, records), h)
    decreases |records|
  {
    if records != [] {
      EraseLeavesUnheld(messages, records[..|records| - 1], h);
      var before, after := EraseAll(messages, records[..|records| - 1]), EraseAll(messages, records);
      forall a: Address | a.incarnation == h.incarnation
        ensures !Holds(after, a, h.receipt) { assert !Holds(before, a, h.receipt); }
    }
  }

  predicate Carries(r: Record, h: Handle) {
    r.incarnation == h.incarnation && r.receipt == Some(h.receipt)
  }

  /** The step replaces the receipt in the row that has it, or deletes that row. */
  predicate Retires(step: Step, h: Handle) {
    match step
    case Write(batch) =>
      exists i :: 0 <= i < |batch| && batch[i].previous.Some? && Carries(batch[i].previous.value, h)
                  && !Carries(batch[i].record, h)
    case Erase(records) => exists i :: 0 <= i < |records| && Carries(records[i], h)
  }

  /** A held receipt has been used, and only its holder has it. */
  lemma HolderIsOnly(s: State, a: Address, h: Handle)
    requires Agrees(s) && a.incarnation == h.incarnation && Holds(s.messages, a, h.receipt)
    ensures h in s.used && HeldOnlyAt(s.messages, h, Some(a))
  {
    assert Handle(a.incarnation, h.receipt) in s.used;
  }

  /** The row an update read is the message at its address. */
  lemma PreviousIsMessage(s: State, batch: seq<Update>, i: nat)
    requires Agrees(s) && Current(s.store, batch) && i < |batch|
    ensures batch[i].previous == Find(s.messages, AddressOf(batch[i].record))
    ensures batch[i].previous.Some? ==> AddressOf(batch[i].previous.value) == AddressOf(batch[i].record)
  {
    RowIsMessage(s.store, s.messages, batch[i].record);
  }

  lemma WriteRetires(s: State, batch: seq<Update>, i: nat, h: Handle)
    requires Agrees(s) && Allowed(s, Write(batch)) && i < |batch|
    requires batch[i].previous.Some? && Carries(batch[i].previous.value, h) && !Carries(batch[i].record, h)
    ensures h in Next(s, Write(batch)).used && Unheld(Next(s, Write(batch)).messages, h)
  {
    var holder, after := AddressOf(batch[i].record), WriteAll(s.messages, batch);
    PreviousIsMessage(s, batch, i);
    HolderIsOnly(s, holder, h);
    BatchMovesNoReceipt(s.store, s.messages, batch, s.used, h, Some(holder));
    WrittenStays(s.messages, batch, i);
    forall a: Address | a.incarnation == h.incarnation ensures !Holds(after, a, h.receipt) {
      if a == holder { assert after[a] == batch[i].record; }
    }
  }

  lemma EraseRetires(s: State, records: seq<Record>, i: nat, h: Handle)
    requires Agrees(s) && Allowed(s, Erase(records)) && i < |records| && Carries(records[i], h)
    ensures h in Next(s, Erase(records)).used && Unheld(Next(s, Erase(records)).messages, h)
  {
    var holder, after := AddressOf(records[i]), EraseAll(s.messages, records);
    RowIsMessage(s.store, s.messages, records[i]);
    HolderIsOnly(s, holder, h);
    forall a: Address | a.incarnation == h.incarnation ensures !Holds(after, a, h.receipt) {
      ErasedIsGone(s.messages, records, a);
      if a != holder { assert !Holds(s.messages, a, h.receipt); }
    }
  }

  /** A step that replaces or deletes a receipt leaves it with no message. */
  lemma StepRetires(s: State, step: Step, h: Handle)
    requires Agrees(s) && Allowed(s, step) && Retires(step, h)
    ensures h in Next(s, step).used && Unheld(Next(s, step).messages, h)
  {
    match step {
      case Write(batch) =>
        var i :| 0 <= i < |batch| && batch[i].previous.Some? && Carries(batch[i].previous.value, h)
                 && !Carries(batch[i].record, h);
        WriteRetires(s, batch, i, h);
      case Erase(records) =>
        var i :| 0 <= i < |records| && Carries(records[i], h);
        EraseRetires(s, records, i, h);
    }
  }

  lemma WriteKeepsReceipt(s: State, batch: seq<Update>, a: Address, h: Handle)
    requires Agrees(s) && Allowed(s, Write(batch)) && !Retires(Write(batch), h)
    requires a.incarnation == h.incarnation && Holds(s.messages, a, h.receipt)
    ensures Holds(Next(s, Write(batch)).messages, a, h.receipt)
  {
    if i :| 0 <= i < |batch| && AddressOf(batch[i].record) == a {
      PreviousIsMessage(s, batch, i);
      assert Carries(batch[i].previous.value, h);
      WrittenStays(s.messages, batch, i);
    } else {
      OthersKept(s.messages, batch, a);
    }
  }

  lemma EraseKeepsReceipt(s: State, records: seq<Record>, a: Address, h: Handle)
    requires Agrees(s) && Allowed(s, Erase(records)) && !Retires(Erase(records), h)
    requires a.incarnation == h.incarnation && Holds(s.messages, a, h.receipt)
    ensures Holds(Next(s, Erase(records)).messages, a, h.receipt)
  {
    ErasedIsGone(s.messages, records, a);
    forall i | 0 <= i < |records| ensures AddressOf(records[i]) != a {
      RowIsMessage(s.store, s.messages, records[i]);
      assert !Carries(records[i], h);
    }
  }

  /** Nothing else takes a receipt away: a step ends it exactly if it replaces or deletes it. */
  lemma RetiresExactly(s: State, step: Step, h: Handle)
    requires Agrees(s) && Allowed(s, step) && !Unheld(s.messages, h)
    ensures Unheld(Next(s, step).messages, h) <==> Retires(step, h)
  {
    if Retires(step, h) {
      StepRetires(s, step, h);
    } else {
      var a: Address :| a.incarnation == h.incarnation && Holds(s.messages, a, h.receipt);
      match step {
        case Write(batch) => WriteKeepsReceipt(s, batch, a, h);
        case Erase(records) => EraseKeepsReceipt(s, records, a, h);
      }
    }
  }

  /** Once a used receipt is held by no message it is never held again. */
  lemma {:induction false} ReceiptStaysGone(steps: seq<Step>, i: nat, j: nat, h: Handle)
    requires Run(steps) && i <= j <= |steps|
    requires h in After(steps[..i]).used && Unheld(After(steps[..i]).messages, h)
    ensures h in After(steps[..j]).used && Unheld(After(steps[..j]).messages, h)
    decreases j
  {
    if i < j {
      ReceiptStaysGone(steps, i, j - 1, h);
      RunPrefix(steps, j);
      RunAgrees(steps[..j - 1]);
      assert steps[..j][..j - 1] == steps[..j - 1];
      var s := After(steps[..j - 1]);
      match steps[j - 1] {
        case Write(batch) => BatchMovesNoReceipt(s.store, s.messages, batch, s.used, h, None);
        case Erase(records) => EraseLeavesUnheld(s.messages, records, h);
      }
    }
  }

  lemma AfterNext(steps: seq<Step>, i: nat)
    requires i < |steps|
    ensures After(steps[..i + 1]) == Next(After(steps[..i]), steps[i])
  {
    assert steps[..i + 1][..i] == steps[..i];
  }

  /** In a run, the state after a step that retires a receipt has no holder of it. */
  lemma RunRetires(steps: seq<Step>, i: nat, h: Handle)
    requires Run(steps) && i < |steps| && Retires(steps[i], h)
    ensures h in After(steps[..i + 1]).used && Unheld(After(steps[..i + 1]).messages, h)
  {
    RunPrefix(steps, i + 1);
    RunAgrees(steps[..i]);
    StepRetires(After(steps[..i]), steps[i], h);
    AfterNext(steps, i);
  }

  lemma {:induction false} UseAllGrows(batch: seq<Update>, used: set<Handle>)
    ensures used <= UseAll(batch, used)
  {
    if batch != [] { UseAllGrows(batch[..|batch| - 1], used); }
  }

  lemma {:induction false} UsedGrows(steps: seq<Step>, i: nat, j: nat, h: Handle)
    requires i <= j <= |steps| && h in After(steps[..i]).used
    ensures h in After(steps[..j]).used
    decreases j
  {
    if i < j {
      UsedGrows(steps, i, j - 1, h);
      assert steps[..j][..j - 1] == steps[..j - 1];
      if steps[j - 1].Write? { UseAllGrows(steps[j - 1].batch, After(steps[..j - 1]).used); }
    }
  }

  lemma {:induction false} RunPrefix(steps: seq<Step>, j: nat)
    requires Run(steps) && j <= |steps|
    ensures Run(steps[..j])
    ensures j > 0 ==> Run(steps[..j - 1]) && Allowed(After(steps[..j - 1]), steps[j - 1])
    decreases |steps|
  {
    if j == |steps| {
      assert steps[..j] == steps;
    } else {
      RunPrefix(steps[..|steps| - 1], j);
      assert steps[..|steps| - 1][..j] == steps[..j];
      if j > 0 {
        assert steps[..|steps| - 1][..j - 1] == steps[..j - 1];
      }
    }
  }
}
