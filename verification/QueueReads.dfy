/** Reads of the queue indexes: due pages, receipts and the paged count. */
module QueueReads {
  import opened Outcomes
  import opened Bytes
  import opened KeyedRows
  import opened TimedKeys
  import opened Scans
  import opened QueueKeys
  import opened QueueMessages

  // ----- Due reads -----

  /** One due row with the message it points to, if the two agree. */
  function DueEntry(store: Store, i: Incarnation, key: Key): Result<Record> {
    var due :- DecodeDueKey(DueScope(i), key);
    var state :- (match Get<Value>(store, key)
                  case Some(Raw(bytes)) => DecodeDueValue(bytes)
                  case _ => Err(Internal));
    match Get<Value>(store, MessageKey(i, due.id))
    case Some(Message(record)) =>
      if record.incarnation != i || record.id != due.id || VisibleAt(record) != due.at
        || record.expires != state.expires
         || record.receipt.Some? != state.claimed then Err(Internal)
      else Ok(record)
    case _ => Err(Internal)
  }

  /** The row is the due row of the stored message. */
  predicate PointsTo(store: Store, key: Key, r: Record) {
    && key == OwnDue(r) && Get<Value>(store, key) == Some(Raw(DueValue(r.receipt.Some?, r.expires)))
    && Get<Value>(store, OwnKey(r)) == Some(Message(r))
  }

  /** A due row is accepted exactly when it is the due row of a message of the queue. */
  lemma DueEntryExact(store: Store, i: Incarnation, key: Key, r: Record)
    ensures DueEntry(store, i, key) == Ok(r) <==> r.incarnation == i && PointsTo(store, key, r)
  {
    DueKeyRoundTrip(i, VisibleAt(r), r.id, key);
    DueValueRoundTrip(r.receipt.Some?, r.expires);
    match Get<Value>(store, key) {
      case Some(Raw(bytes)) => DueValueDecodes(bytes);
      case _ =>
    }
  }

  method ReadDueMessages(store: Store, i: Incarnation, now: I64, limit: nat)
    returns (r: Result<seq<Record>>, page: seq<Key>, more: bool)
    requires limit > 0
    ensures DueEnd(i, now).Some? && IsPage(store.Keys, DueScope(i), DueEnd(i, now).value, page, more) && |page| <= limit
    ensures r.Ok? <==> forall j :: 0 <= j < |page| ==> DueEntry(store, i, page[j]).Ok?
    ensures r.Ok? ==> |r.value| == |page| && forall j :: 0 <= j < |page| ==>
            DueEntry(store, i, page[j]) == Ok(r.value[j])
    ensures r.Ok? ==> forall j :: 0 <= j < |page| ==>
            r.value[j].incarnation == i && PointsTo(store, page[j], r.value[j])
    ensures r.Err? ==> exists j :: 0 <= j < |page| && forall x: Record :: PointsTo(store, page[j], x) ==>
            x.incarnation != i
  {
    DueRangeExact(i, now, [], Due(0, seq(12, _ => 0)));
    var end := DueEnd(i, now).value;
    page, more := Scan(store.Keys, DueScope(i), end, limit);
    var result: seq<Record> := [];
    for j := 0 to |page|
      invariant |result| == j && forall k :: 0 <= k < j ==> DueEntry(store, i, page[k]) == Ok(result[k])
      invariant forall k :: 0 <= k < j ==> result[k].incarnation == i && PointsTo(store, page[k], result[k])
    {
      var record := DueEntry(store, i, page[j]);
      if record.Err? {
        forall x: Record | PointsTo(store, page[j], x) ensures x.incarnation != i {
          DueEntryExact(store, i, page[j], x);
        }
        return Err(record.error), page, more;
      }
      DueEntryExact(store, i, page[j], record.value);
      result := result + [record.value];
    }
    r := Ok(result);
  }

  predicate DueBefore(a: Record, b: Record) {
    VisibleAt(a) < VisibleAt(b) || (VisibleAt(a) == VisibleAt(b) && Less(a.id, b.id))
  }

  /** A due row belongs to exactly one message and agrees with it. */
  lemma DueRowAgrees(store: Store, messages: Messages, i: Incarnation, key: Key) returns (id: MessageId)
    requires Represents(store, messages) && key in store && DueScope(i) <= key
    ensures Address(i, id) in messages && key == OwnDue(messages[Address(i, id)])
    ensures DueEntry(store, i, key) == Ok(messages[Address(i, id)])
  {
    var a :| HasRow(messages, a, key);
    var x := messages[a];
    assert AddressOf(x) == a;
    id := a.id;
    DueScopeKeys(x, i, key);
    DueKeyRoundTrip(i, VisibleAt(x), x.id, key);
    DueValueRoundTrip(x.receipt.Some?, x.expires);
    KeysInjective(i, x.id, VisibleAt(x), [], i, x.id, VisibleAt(x), []);
    assert RowOf(x, key) == Some(Raw(DueValue(x.receipt.Some?, x.expires)));
    assert HasRow(messages, a, OwnKey(x));
  }

  /** Under a queue's due scope only due keys of that queue are found. */
  lemma DueScopeKeys(x: Record, i: Incarnation, key: Key)
    requires RowOf(x, key).Some? && DueScope(i) <= key
    ensures x.incarnation == i && key == OwnDue(x)
  {
    assert key[3] == 100 && key[5..21] == i by { assert key[..21] == DueScope(i); }
    DueKeyParts(x.incarnation, VisibleAt(x), x.id);
    if x.receipt.Some? {
      assert ReceiptKey(x.incarnation, x.receipt.value)[3] == 114;
    }
    assert OwnKey(x)[3] == 109;
  }

  /** Due reads never report a mismatch. They return, in order of due time and id, messages that
      are visible by now, and leave out only later ones. */
  lemma DueReadsExact(store: Store, messages: Messages, i: Incarnation, now: I64, page: seq<Key>, more: bool)
    requires Represents(store, messages)
    requires DueEnd(i, now).Some? && IsPage(store.Keys, DueScope(i), DueEnd(i, now).value, page, more)
    ensures forall j :: 0 <= j < |page| ==> DueEntry(store, i, page[j]).Ok?
    ensures forall j :: 0 <= j < |page| ==> VisibleIn(messages, i, now, DueEntry(store, i, page[j]).value)
    ensures forall j, k :: 0 <= j < k < |page| ==>
            DueBefore(DueEntry(store, i, page[j]).value, DueEntry(store, i, page[k]).value)
    ensures forall r :: VisibleIn(messages, i, now, r) ==>
              (exists j :: 0 <= j < |page| && DueEntry(store, i, page[j]) == Ok(r))
              || (more && forall j :: 0 <= j < |page| ==> DueBefore(DueEntry(store, i, page[j]).value, r))
  {
    forall j | 0 <= j < |page|
      ensures DueEntry(store, i, page[j]).Ok? && VisibleIn(messages, i, now, DueEntry(store, i, page[j]).value)
                                       && OwnDue(DueEntry(store, i, page[j]).value) == page[j] {
      PageEntry(store, messages, i, now, page[j]);
    }
    forall j, k | 0 <= j < k < |page|
      ensures DueBefore(DueEntry(store, i, page[j]).value, DueEntry(store, i, page[k]).value) {
      var a, b := DueEntry(store, i, page[j]).value, DueEntry(store, i, page[k]).value;
      DueKeyOrder(i, Due(VisibleAt(a), a.id), Due(VisibleAt(b), b.id));
      assert Less(page[j], page[k]);
    }
    forall r | VisibleIn(messages, i, now, r)
      ensures (exists j :: 0 <= j < |page| && DueEntry(store, i, page[j]) == Ok(r))
              || (more && forall j :: 0 <= j < |page| ==> DueBefore(DueEntry(store, i, page[j]).value, r))
    {
      VisibleIsInRange(store, messages, i, now, r);
      if OwnDue(r) in page {
        var j :| 0 <= j < |page| && page[j] == OwnDue(r);
        assert DueEntry(store, i, page[j]) == Ok(r);
      } else {
        forall j | 0 <= j < |page| ensures DueBefore(DueEntry(store, i, page[j]).value, r) {
          var a := DueEntry(store, i, page[j]).value;
          DueKeyOrder(i, Due(VisibleAt(a), a.id), Due(VisibleAt(r), r.id));
          assert Less(page[j], OwnDue(r));
        }
      }
    }
  }

  ghost predicate VisibleIn(messages: Messages, i: Incarnation, now: I64, r: Record) {
    r.incarnation == i && Find(messages, AddressOf(r)) == Some(r) && VisibleBy(r, now)
  }

  lemma PageEntry(store: Store, messages: Messages, i: Incarnation, now: I64, key: Key)
    requires Represents(store, messages) && DueEnd(i, now).Some?
             && key in KeysIn(store.Keys, DueScope(i), DueEnd(i, now).value)
    ensures DueEntry(store, i, key).Ok? && OwnDue(DueEntry(store, i, key).value) == key
    ensures VisibleIn(messages, i, now, DueEntry(store, i, key).value)
  {
    DueRangeExact(i, now, key, Due(now, seq(12, _ => 0)));
    var id := DueRowAgrees(store, messages, i, key);
    var r := messages[Address(i, id)];
    assert AddressOf(r) == Address(i, id);
    DueRangeExact(i, now, key, Due(VisibleAt(r), r.id));
  }

  lemma VisibleIsInRange(store: Store, messages: Messages, i: Incarnation, now: I64, r: Record)
    requires Represents(store, messages) && VisibleIn(messages, i, now, r) && DueEnd(i, now).Some?
    ensures OwnDue(r) in KeysIn(store.Keys, DueScope(i), DueEnd(i, now).value)
    ensures DueEntry(store, i, OwnDue(r)) == Ok(r)
  {
    DueRangeExact(i, now, OwnDue(r), Due(VisibleAt(r), r.id));
    assert HasRow(messages, AddressOf(r), OwnDue(r));
    assert OwnDue(r)[..21] == DueScope(i) by { DueKeyParts(i, VisibleAt(r), r.id); }
    var id := DueRowAgrees(store, messages, i, OwnDue(r));
    var x := messages[Address(i, id)];
    KeysInjective(i, r.id, VisibleAt(r), [], i, x.id, VisibleAt(x), []);
    assert AddressOf(x) == Address(i, id);
  }

  // ----- Receipts -----

  function ResolveReceipt(store: Store, i: Incarnation, receipt: Key): Result<Option<Record>> {
    match Get<Value>(store, ReceiptKey(i, receipt))
    case None => Ok(None)
    case Some(Message(_)) => Err(Internal)
    case Some(Raw(id)) =>
      if |id| != 12 then Err(Internal)
      else match Get<Value>(store, MessageKey(i, id))
        case Some(Message(record)) =>
          if record.incarnation != i || record.id != id || record.receipt != Some(receipt) then Err(Internal)
          else Ok(Some(record))
        case _ => Err(Internal)
  }

  /** The receipt has no row, or the row of the stored message that holds it. */
  predicate Resolves(store: Store, i: Incarnation, receipt: Key, found: Option<Record>) {
    match found
    case None => ReceiptKey(i, receipt) !in store
    case Some(r) =>
      && r.incarnation == i && r.receipt == Some(receipt)
      && Get<Value>(store, ReceiptKey(i, receipt)) == Some(Raw(r.id))
      && Get<Value>(store, OwnKey(r)) == Some(Message(r))
  }

  lemma ResolveExact(store: Store, i: Incarnation, receipt: Key, found: Option<Record>)
    ensures ResolveReceipt(store, i, receipt) == Ok(found) <==> Resolves(store, i, receipt, found)
  {
  }

  method ReadMessagesByReceipt(store: Store, i: Incarnation, receipts: seq<Key>)
    returns (r: Result<seq<Option<Record>>>)
    ensures r.Ok? <==> forall j :: 0 <= j < |receipts| ==> ResolveReceipt(store, i, receipts[j]).Ok?
    ensures r.Ok? ==> |r.value| == |receipts| && forall j :: 0 <= j < |receipts| ==>
            ResolveReceipt(store, i, receipts[j]) == Ok(r.value[j])
    ensures r.Ok? ==> forall j :: 0 <= j < |receipts| ==> Resolves(store, i, receipts[j], r.value[j])
    ensures r.Err? ==> exists j :: 0 <= j < |receipts| && forall x: Option<Record> ::
            !Resolves(store, i, receipts[j], x)
  {
    var records: seq<Option<Record>> := [];
    for j := 0 to |receipts|
      invariant |records| == j && forall k :: 0 <= k < j ==> ResolveReceipt(store, i, receipts[k]) == Ok(records[k])
      invariant forall k :: 0 <= k < j ==> Resolves(store, i, receipts[k], records[k])
    {
      var record := ResolveReceipt(store, i, receipts[j]);
      if record.Err? {
        forall x: Option<Record> ensures !Resolves(store, i, receipts[j], x) {
          ResolveExact(store, i, receipts[j], x);
        }
        return Err(record.error);
      }
      ResolveExact(store, i, receipts[j], record.value);
      records := records + [record.value];
    }
    r := Ok(records);
  }

  /** A receipt resolves to the message that holds it, and to nothing if none does. */
  lemma ReceiptExact(store: Store, messages: Messages, i: Incarnation, receipt: Key)
    requires Represents(store, messages)
    ensures ResolveReceipt(store, i, receipt).Ok?
    ensures forall r: Record :: ResolveReceipt(store, i, receipt) == Ok(Some(r)) <==>
              r.incarnation == i && r.receipt == Some(receipt) && Find(messages, AddressOf(r)) == Some(r)
    ensures ResolveReceipt(store, i, receipt) == Ok(None) <==> Unheld(messages, Handle(i, receipt))
  {
    var k := ReceiptKey(i, receipt);
    if k in store {
      var a :| HasRow(messages, a, k);
      var x := messages[a];
      assert AddressOf(x) == a;
      var rx := if x.receipt.Some? then x.receipt.value else [];
      KeysInjective(x.incarnation, x.id, VisibleAt(x), rx, i, x.id, VisibleAt(x), receipt);
      assert Holds(messages, a, receipt);
      assert HasRow(messages, a, OwnKey(x));
      assert ResolveReceipt(store, i, receipt) == Ok(Some(x));
      forall r: Record | r.incarnation == i && r.receipt == Some(receipt) && Find(messages, AddressOf(r)) == Some(r)
        ensures r == x {
        assert Holds(messages, AddressOf(r), receipt);
      }
    } else {
      forall b: Address | b.incarnation == i ensures !Holds(messages, b, receipt) {
        if Holds(messages, b, receipt) {
          assert AddressOf(messages[b]) == b;
          assert HasRow(messages, b, k);
        }
      }
    }
  }

  lemma UnheldNeverResolves(steps: seq<Step>, i: nat, j: nat, h: Handle)
    requires Run(steps) && i <= j <= |steps|
    requires h in After(steps[..i]).used && Unheld(After(steps[..i]).messages, h)
    ensures ResolveReceipt(After(steps[..j]).store, h.incarnation, h.receipt) == Ok(None)
  {
    ReceiptStaysGone(steps, i, j, h);
    RunPrefix(steps, j);
    RunAgrees(steps[..j]);
    ReceiptExact(After(steps[..j]).store, After(steps[..j]).messages, h.incarnation, h.receipt);
  }

  /** From the step that replaces a receipt, or deletes the message that has it, the receipt
      resolves to nothing for ever. */
  lemma OldReceiptNeverResolves(steps: seq<Step>, i: nat, j: nat, h: Handle)
    requires Run(steps) && i < j <= |steps| && Retires(steps[i], h)
    ensures ResolveReceipt(After(steps[..j]).store, h.incarnation, h.receipt) == Ok(None)
  {
    RunRetires(steps, i, h);
    UnheldNeverResolves(steps, i + 1, j, h);
  }

  /** What a consumer sees of this: a receipt that resolved once and later did not never
      resolves again. */
  lemma ReceiptNeverComesBack(steps: seq<Step>, i: nat, j: nat, k: nat, h: Handle, r: Record)
    requires Run(steps) && i <= j <= k <= |steps|
    requires ResolveReceipt(After(steps[..i]).store, h.incarnation, h.receipt) == Ok(Some(r))
    requires ResolveReceipt(After(steps[..j]).store, h.incarnation, h.receipt) == Ok(None)
    ensures ResolveReceipt(After(steps[..k]).store, h.incarnation, h.receipt) == Ok(None)
  {
    RunPrefix(steps, i);
    RunAgrees(steps[..i]);
    ReceiptExact(After(steps[..i]).store, After(steps[..i]).messages, h.incarnation, h.receipt);
    HolderIsOnly(After(steps[..i]), AddressOf(r), h);
    UsedGrows(steps, i, j, h);
    RunPrefix(steps, j);
    RunAgrees(steps[..j]);
    ReceiptExact(After(steps[..j]).store, After(steps[..j]).messages, h.incarnation, h.receipt);
    UnheldNeverResolves(steps, j, k, h);
  }
}
