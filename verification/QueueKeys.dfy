/** Native keys and index values of queue messages. */
module QueueKeys {
  import opened Outcomes
  import opened Bytes
  import opened TimedKeys

  type Incarnation = k: Key | |k| == 16 witness seq(16, _ => 0)
  type MessageId = k: Key | |k| == 12 witness seq(12, _ => 0)

  const MESSAGE_PREFIX: Key := [0x7F, 113, 47, 109, 47]
  const DUE_PREFIX: Key := [0x7F, 113, 47, 100, 47]
  const RECEIPT_PREFIX: Key := [0x7F, 113, 47, 114, 47]

  // ----- Keys -----

  function MessageKey(i: Incarnation, id: MessageId): Key {
    MESSAGE_PREFIX + i + id
  }

  function DueScope(i: Incarnation): Key {
    DUE_PREFIX + i
  }

  function DueKey(i: Incarnation, at: I64, id: MessageId): Key {
    TimedKey(DueScope(i), at, id)
  }

  function ReceiptKey(i: Incarnation, receipt: Key): Key {
    RECEIPT_PREFIX + i + receipt
  }

  /** Keys of the three families never meet, and each determines its parts. */
  lemma KeysInjective(i: Incarnation, id: MessageId, at: I64, r: Key, i': Incarnation, id': MessageId, at': I64,
      r': Key)
    ensures MessageKey(i, id) != DueKey(i', at', id') && MessageKey(i, id) != ReceiptKey(i', r')
            && DueKey(i, at, id) != ReceiptKey(i', r')
    ensures MessageKey(i, id) == MessageKey(i', id') ==> i == i' && id == id'
    ensures DueKey(i, at, id) == DueKey(i', at', id') ==> i == i' && at == at' && id == id'
    ensures ReceiptKey(i, r) == ReceiptKey(i', r') ==> i == i' && r == r'
  {
    assert MessageKey(i, id)[3] == 109 && DueKey(i', at', id')[3] == 100 && ReceiptKey(i', r')[3] == 114
      && DueKey(i, at, id)[3] == 100;
    assert MessageKey(i, id)[5..21] == i && MessageKey(i, id)[21..] == id;
    assert MessageKey(i', id')[5..21] == i' && MessageKey(i', id')[21..] == id';
    assert ReceiptKey(i, r)[5..21] == i && ReceiptKey(i, r)[21..] == r;
    assert ReceiptKey(i', r')[5..21] == i' && ReceiptKey(i', r')[21..] == r';
    DueKeyParts(i, at, id);
    DueKeyParts(i', at', id');
    OrderedTimestampOrder(at, at');
  }

  lemma DueKeyParts(i: Incarnation, at: I64, id: MessageId)
    ensures |DueKey(i, at, id)| == 41
    ensures DueKey(i, at, id)[..21] == DueScope(i) && DueKey(i, at, id)[5..21] == i
    ensures DueKey(i, at, id)[21..29] == OrderedTimestamp(at) && DueKey(i, at, id)[29..] == id
  {
  }

  // ----- Due rows -----

  datatype Due = Due(at: I64, id: MessageId)

  function DecodeDueKey(scope: Key, key: Key): Result<Due> {
    if !(scope <= key) then Err(Internal)
    else
      var suffix := key[|scope|..];
      if |suffix| < 8 then Err(Internal)
      else if |suffix[8..]| != 12 then Err(Internal)
      else Ok(Due(FromOrdered(suffix[..8]), suffix[8..]))
  }

  /** Decoding undoes encoding, and only encoded keys decode. */
  lemma DueKeyRoundTrip(i: Incarnation, at: I64, id: MessageId, key: Key)
    ensures DecodeDueKey(DueScope(i), DueKey(i, at, id)) == Ok(Due(at, id))
    ensures DecodeDueKey(DueScope(i), key).Ok? ==>
              key == DueKey(i, DecodeDueKey(DueScope(i), key).value.at, DecodeDueKey(DueScope(i), key).value.id)
  {
    var k := DueKey(i, at, id);
    DueKeyParts(i, at, id);
    assert k[|DueScope(i)|..][..8] == k[21..29] && k[|DueScope(i)|..][8..] == k[29..];
    OrderedRoundTrip(at, []);
    if DecodeDueKey(DueScope(i), key).Ok? {
      var suffix := key[|DueScope(i)|..];
      OrderedRoundTrip(0, suffix[..8]);
      assert key == DueScope(i) + suffix[..8] + suffix[8..];
    }
  }

  function DueValue(claimed: bool, expires: I64): Key {
    [if claimed then 1 else 0] + Be(Unsigned(expires), 8)
  }

  datatype DueState = DueState(claimed: bool, expires: I64)

  function DecodeDueValue(value: Key): Result<DueState> {
    if value == [] || value[0] > 1 || |value| != 9 then Err(Internal)
    else
      BeOfFromBe(value[1..]);
      Widths();
      Ok(DueState(value[0] == 1, Signed(FromBe(value[1..]))))
  }

  lemma DueValueRoundTrip(claimed: bool, expires: I64)
    ensures DecodeDueValue(DueValue(claimed, expires)) == Ok(DueState(claimed, expires))
  {
    var value := DueValue(claimed, expires);
    Widths();
    assert value[1..] == Be(Unsigned(expires), 8);
    FromBeOfBe(Unsigned(expires), 8);
    BeOfFromBe(value[1..]);
  }

  /** Only encoded values decode. */
  lemma DueValueDecodes(value: Key)
    ensures DecodeDueValue(value).Ok? ==>
            value == DueValue(DecodeDueValue(value).value.claimed, DecodeDueValue(value).value.expires)
  {
    if DecodeDueValue(value).Ok? {
      Widths();
      BeOfFromBe(value[1..]);
      assert value == [value[0]] + value[1..];
    }
  }

  // ----- Order and ranges -----

  /** Due keys of one queue order by due time, then by message id. */
  lemma DueKeyOrder(i: Incarnation, a: Due, b: Due)
    ensures Less(DueKey(i, a.at, a.id), DueKey(i, b.at, b.id)) <==> a.at < b.at || (a.at == b.at && Less(a.id, b.id))
  {
    TimedKeyOrder(DueScope(i), a.at, a.id, b.at, b.id);
  }

  function DueEnd(i: Incarnation, now: I64): Option<Key> {
    TimedEnd(DueScope(i), now)
  }

  /** The scanned range exists, holds only keys of the queue's due index, and of those exactly
      the ones due by `now`. */
  lemma DueRangeExact(i: Incarnation, now: I64, key: Key, due: Due)
    ensures DueEnd(i, now).Some?
    ensures InRange(key, DueScope(i), DueEnd(i, now).value) ==> DueScope(i) <= key
    ensures InRange(DueKey(i, due.at, due.id), DueScope(i), DueEnd(i, now).value) <==> due.at <= now
  {
    TimedRangeExact(DueScope(i), now, key, due.at, due.id);
  }
}
