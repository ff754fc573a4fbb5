/** The paged count of a queue's messages. */
module QueueCounts {
  import opened Outcomes
  import opened Bytes
  import opened KeyedRows
  import opened TimedKeys
  import opened Scans
  import opened QueueKeys
  import opened QueueMessages
  import opened QueueReads

  const COUNT_PAGE: nat := 512
  const U64_MAX: nat := 0xFFFF_FFFF_FFFF_FFFF

  datatype Kind = Expired | Visible | NotVisible | Delayed

  datatype Counts = Counts(visible: nat, notVisible: nat, delayed: nat)

  function Classify(at: I64, claimed: bool, expires: I64, now: I64): Kind {
    if expires <= now then Expired
    else if at <= now then Visible
    else if claimed then NotVisible
    else Delayed
  }

  /** What one due row counts as. */
  function KindAt(store: Store, i: Incarnation, key: Key, now: I64): Result<Kind> {
    var due :- DecodeDueKey(DueScope(i), key);
    var state :- (match Get<Value>(store, key)
                  case Some(Raw(bytes)) => DecodeDueValue(bytes)
                  case _ => Err(Internal));
    Ok(Classify(due.at, state.claimed, state.expires, now))
  }

  /** The row is the due row of some message with this time, claim and expiry. */
  ghost predicate DueRow(store: Store, i: Incarnation, key: Key, at: I64, claimed: bool, expires: I64) {
    && (exists id: MessageId :: key == DueKey(i, at, id))
    && Get<Value>(store, key) == Some(Raw(DueValue(claimed, expires)))
  }

  /** A row is counted exactly when it is a due row, by what it says. */
  lemma KindExact(store: Store, i: Incarnation, key: Key, now: I64)
    ensures forall at: I64, claimed: bool, expires: I64 :: DueRow(store, i, key, at, claimed, expires) ==>
              KindAt(store, i, key, now) == Ok(Classify(at, claimed, expires, now))
    ensures KindAt(store, i, key, now).Ok? ==>
              exists at: I64, claimed: bool, expires: I64 :: DueRow(store, i, key, at, claimed, expires)
  {
    forall at: I64, claimed: bool, expires: I64 | DueRow(store, i, key, at, claimed, expires)
      ensures KindAt(store, i, key, now) == Ok(Classify(at, claimed, expires, now))
    {
      var id: MessageId :| key == DueKey(i, at, id);
      DueKeyRoundTrip(i, at, id, key);
      DueValueRoundTrip(claimed, expires);
    }
    if KindAt(store, i, key, now).Ok? {
      var due, state := DecodeDueKey(DueScope(i), key).value, DecodeDueValue(store[key].bytes).value;
      DueKeyRoundTrip(i, due.at, due.id, key);
      DueValueDecodes(store[key].bytes);
      assert DueRow(store, i, key, due.at, state.claimed, state.expires);
    }
  }

  function Saturated(n: nat): nat {
    if n > U64_MAX then U64_MAX else n
  }

  function Add(c: Counts, kind: Kind): Counts {
    match kind
    case Expired => c
    case Visible => c.(visible := Saturated(c.visible + 1))
    case NotVisible => c.(notVisible := Saturated(c.notVisible + 1))
    case Delayed => c.(delayed := Saturated(c.delayed + 1))
  }

  function OfKind(store: Store, i: Incarnation, now: I64, keys: set<Key>, kind: Kind): set<Key> {
    set k | k in keys && KindAt(store, i, k, now) == Ok(kind)
  }

  /** The counters are the sizes of the three classes, saturated at the counter's width. */
  predicate Tally(c: Counts, store: Store, i: Incarnation, now: I64, keys: set<Key>) {
    && c.visible == Saturated(|OfKind(store, i, now, keys, Visible)|)
    && c.notVisible == Saturated(|OfKind(store, i, now, keys, NotVisible)|)
    && c.delayed == Saturated(|OfKind(store, i, now, keys, Delayed)|)
  }

  lemma OfKindGrows(store: Store, i: Incarnation, now: I64, keys: set<Key>, k: Key, kind: Kind)
    requires k !in keys
    ensures |OfKind(store, i, now, keys + {k}, kind)| ==
            |OfKind(store, i, now, keys, kind)| + (if KindAt(store, i, k, now) == Ok(kind) then 1 else 0)
  {
    if KindAt(store, i, k, now) == Ok(kind) {
      assert OfKind(store, i, now, keys + {k}, kind) == OfKind(store, i, now, keys, kind) + {k};
    } else {
      assert OfKind(store, i, now, keys + {k}, kind) == OfKind(store, i, now, keys, kind);
    }
  }

  lemma TallyGrows(c: Counts, store: Store, i: Incarnation, now: I64, keys: set<Key>, k: Key)
    requires Tally(c, store, i, now, keys) && k !in keys && KindAt(store, i, k, now).Ok?
    ensures Tally(Add(c, KindAt(store, i, k, now).value), store, i, now, keys + {k})
  {
    OfKindGrows(store, i, now, keys, k, Visible);
    OfKindGrows(store, i, now, keys, k, NotVisible);
    OfKindGrows(store, i, now, keys, k, Delayed);
  }

  function KeySet(page: seq<Key>): set<Key> {
    set k | k in page
  }

  method CountRow(store: Store, i: Incarnation, now: I64, key: Key, counts: Counts, ghost seen: set<Key>)
    returns (r: Result<Counts>)
    requires Tally(counts, store, i, now, seen) && key !in seen
    ensures r.Ok? <==> KindAt(store, i, key, now).Ok?
    ensures r.Ok? ==> Tally(r.value, store, i, now, seen + {key})
  {
    var kind := KindAt(store, i, key, now);
    if kind.Err? {
      return Err(kind.error);
    }
    TallyGrows(counts, store, i, now, seen, key);
    r := Ok(Add(counts, kind.value));
  }

  /** The first `j` rows of a page are counted. */
  ghost predicate CountedTo(store: Store, i: Incarnation, now: I64, page: seq<Key>, j: nat, c: Counts, seen: set<Key>) {
    && j <= |page| && Tally(c, store, i, now, seen + KeySet(page[..j]))
    && forall k :: 0 <= k < j ==> KindAt(store, i, page[k], now).Ok?
  }

  method CountPage(store: Store, i: Incarnation, now: I64, page: seq<Key>, counts: Counts, ghost seen: set<Key>)
    returns (r: Result<Counts>)
    requires Tally(counts, store, i, now, seen) && Ascending(page) && KeySet(page) !! seen
    ensures r.Ok? <==> forall j :: 0 <= j < |page| ==> KindAt(store, i, page[j], now).Ok?
    ensures r.Ok? ==> Tally(r.value, store, i, now, seen + KeySet(page))
  {
    var c := counts;
    assert seen + KeySet(page[..0]) == seen;
    for j := 0 to |page|
      invariant CountedTo(store, i, now, page, j, c, seen)
    {
      NewOnPage(page, j, seen);
      r := CountRow(store, i, now, page[j], c, seen + KeySet(page[..j]));
      if r.Err? {
        return;
      }
      c := r.value;
    }
    assert page[..|page|] == page;
    r := Ok(c);
  }

  lemma NewOnPage(page: seq<Key>, j: nat, seen: set<Key>)
    requires Ascending(page) && j < |page| && KeySet(page) !! seen
    ensures page[j] !in seen + KeySet(page[..j]) && seen + KeySet(page[..j + 1]) == seen + KeySet(page[..j]) + {page[j]}
  {
    assert page[j] in KeySet(page);
    forall k | 0 <= k < j ensures page[k] != page[j] {
      assert Less(page[k], page[j]);
      LessTotal(page[k], page[j]);
    }
    assert page[..j + 1] == page[..j] + [page[j]];
  }

  function DueKeys(store: Store, i: Incarnation): set<Key> {
    set k | k in store && DueScope(i) <= k
  }

  predicate Below(a: Key, b: Key) {
    a == b || Less(a, b)
  }

  /** From a later start the range holds the due keys not seen yet. */
  lemma RestOfRange(store: Store, i: Incarnation, begin: Key, seen: set<Key>)
    requires Below(DueScope(i), begin) && PrefixEnd(DueScope(i)).Some?
    requires seen == set k | k in DueKeys(store, i) && Less(k, begin)
    ensures KeysIn(store.Keys, begin, PrefixEnd(DueScope(i)).value) == DueKeys(store, i) - seen
  {
    var p, end := DueScope(i), PrefixEnd(DueScope(i)).value;
    forall k | k in store ensures InRange(k, begin, end) <==> k in DueKeys(store, i) && k !in seen {
      PrefixRangeExact(p, k);
      if Less(k, p) && p != begin { LessTransitive(k, p, begin); }
    }
  }

  /** Counting resumes right after the last key of a page. */
  lemma NextStart(store: Store, i: Incarnation, begin: Key, seen: set<Key>, page: seq<Key>, more: bool)
    requires Below(DueScope(i), begin) && PrefixEnd(DueScope(i)).Some?
    requires seen == set k | k in DueKeys(store, i) && Less(k, begin)
    requires page != [] && IsPage(store.Keys, begin, PrefixEnd(DueScope(i)).value, page, more)
    ensures var next := page[|page| - 1] + [0];
            && Below(DueScope(i), next)
            && seen + KeySet(page) == set k | k in DueKeys(store, i) && Less(k, next)
  {
    var last := page[|page| - 1];
    var next := last + [0];
    RestOfRange(store, i, begin, seen);
    assert last in KeysIn(store.Keys, begin, PrefixEnd(DueScope(i)).value);
    SuccessorKey(last, DueScope(i));
    BelowTransitive(DueScope(i), begin, last);
    forall k | k in DueKeys(store, i) ensures k in seen + KeySet(page) <==> Less(k, next) {
      SuccessorKey(last, k);
      LessTotal(k, last);
      if k in seen {
        if begin != last { LessTotal(begin, last); LessTransitive(k, begin, last); }
      } else if k in page {
        var j :| 0 <= j < |page| && page[j] == k;
        if j < |page| - 1 { assert Less(page[j], last); }
      } else {
        assert Less(last, k);
      }
    }
    assert forall k :: k in KeySet(page) ==> k in DueKeys(store, i);
  }

  lemma BelowTransitive(a: Key, b: Key, c: Key)
    requires Below(a, b) && !Less(c, b)
    ensures Below(a, c)
  {
    LessTotal(b, c);
    if a != b && b != c { LessTransitive(a, b, c); }
  }

  /** Pages through the due index. The result is the one-pass count of all its rows, and an
      error exactly when some row does not decode. */
  method CountQueueMessages(store: Store, i: Incarnation, now: I64) returns (r: Result<Counts>)
    ensures r.Ok? <==> forall k :: k in DueKeys(store, i) ==> KindAt(store, i, k, now).Ok?
    ensures r.Ok? ==> Tally(r.value, store, i, now, DueKeys(store, i))
    ensures forall messages: Messages :: Represents(store, messages) ==> r == Ok(CountsOf(messages, i, now))
  {
    forall messages: Messages | Represents(store, messages)
      ensures CountsAre(store, messages, i, now)
    {
      CountedByMeaning(store, messages, i, now);
    }
    assert DueScope(i)[0] == 0x7F;
    PrefixEndExists(DueScope(i));
    var end := PrefixEnd(DueScope(i)).value;
    var begin := DueScope(i);
    var counts := Counts(0, 0, 0);
    ghost var seen: set<Key> := {};
    NothingBelowScope(store, i);
    assert OfKind(store, i, now, {}, Visible) == {} && OfKind(store, i, now, {}, NotVisible) == {}
      && OfKind(store, i, now, {}, Delayed) == {};
    var more := true;
    while more
      invariant Counting(store, i, now, begin, more, seen, counts)
      decreases more, DueKeys(store, i) - seen
    {
      ghost var before := seen;
      r, begin, more, seen := CountNext(store, i, now, end, begin, seen, counts);
      if r.Err? {
        return;
      }
      counts := r.value;
    }
    r := Ok(counts);
  }

  /** The counted keys are those before the next start, or all. */
  ghost predicate Counting(store: Store, i: Incarnation, now: I64, begin: Key, more: bool, seen: set<Key>,
      counts: Counts) {
    && Below(DueScope(i), begin) && Tally(counts, store, i, now, seen)
    && seen == (if more then set k | k in DueKeys(store, i) && Less(k, begin) else DueKeys(store, i))
    && forall k :: k in seen ==> KindAt(store, i, k, now).Ok?
  }

  /** Counts one page and finds where the next one starts. */
  method CountNext(store: Store, i: Incarnation, now: I64, end: Key, begin: Key, ghost seen: set<Key>, counts: Counts)
    returns (r: Result<Counts>, next: Key, more: bool, ghost seen': set<Key>)
    requires PrefixEnd(DueScope(i)) == Some(end) && Counting(store, i, now, begin, true, seen, counts)
    ensures r.Ok? ==>
            Counting(store, i, now, next, more, seen', r.value) && (more ==> seen < seen' && seen' <= DueKeys(store, i))
    ensures r.Err? ==> exists k :: k in DueKeys(store, i) && KindAt(store, i, k, now).Err?
  {
    var page;
    page, more := Scan(store.Keys, begin, end, COUNT_PAGE);
    next, seen' := begin, seen + KeySet(page);
    RestOfRange(store, i, begin, seen);
    assert forall k :: k in KeySet(page) ==> k in KeysIn(store.Keys, begin, end);
    r := CountPage(store, i, now, page, counts, seen);
    if r.Err? {
      ghost var j :| 0 <= j < |page| && KindAt(store, i, page[j], now).Err?;
      assert page[j] in DueKeys(store, i);
      return;
    }
    if more {
      NextStart(store, i, begin, seen, page, more);
      next := page[|page| - 1] + [0];
      assert page[0] in KeySet(page);
    } else {
      assert forall k :: k in KeysIn(store.Keys, begin, end) ==> k in page;
    }
  }

  lemma NothingBelowScope(store: Store, i: Incarnation)
    ensures (set k | k in DueKeys(store, i) && Less(k, DueScope(i))) == {}
  {
    forall k | k in DueKeys(store, i) ensures !Less(k, DueScope(i)) {
      assert k == DueScope(i) + k[|DueScope(i)|..];
      AboveOwnPrefix(DueScope(i), k[|DueScope(i)|..]);
    }
  }

  // ----- The count in terms of messages -----

  function MessagesOfKind(messages: Messages, i: Incarnation, now: I64, kind: Kind): set<Address> {
    set a | a in messages && a.incarnation == i
      && Classify(VisibleAt(messages[a]), messages[a].receipt.Some?, messages[a].expires, now) == kind
  }

  /** The messages of a queue that have not expired. */
  function Alive(messages: Messages, i: Incarnation, now: I64): set<Address> {
    set a | a in messages && a.incarnation == i && now < messages[a].expires
  }

  /** Those a consumer may receive now. */
  function Receivable(messages: Messages, i: Incarnation, now: I64): set<Address> {
    set a | a in Alive(messages, i, now) && VisibleBy(messages[a], now)
  }

  /** Those a consumer has received and not yet lost or deleted. */
  function InFlight(messages: Messages, i: Incarnation, now: I64): set<Address> {
    set a | a in Alive(messages, i, now) && !VisibleBy(messages[a], now) && messages[a].receipt.Some?
  }

  /** Those that nobody has received and that are not visible yet. */
  function Postponed(messages: Messages, i: Incarnation, now: I64): set<Address> {
    set a | a in Alive(messages, i, now) && !VisibleBy(messages[a], now) && messages[a].receipt.None?
  }

  function CountsOf(messages: Messages, i: Incarnation, now: I64): Counts {
    Counts(Saturated(|Receivable(messages, i, now)|), Saturated(|InFlight(messages, i, now)|),
           Saturated(|Postponed(messages, i, now)|))
  }

  /** Every message of the queue that has not expired is counted once. */
  lemma CountsPartition(messages: Messages, i: Incarnation, now: I64)
    ensures var a, b, c := Receivable(messages, i, now), InFlight(messages, i, now), Postponed(messages, i, now);
            && a + b + c == Alive(messages, i, now) && a !! b && a !! c && b !! c
            && |a| + |b| + |c| == |Alive(messages, i, now)|
  {
    var a, b, c := Receivable(messages, i, now), InFlight(messages, i, now), Postponed(messages, i, now);
    assert a + b + c == Alive(messages, i, now);
    assert |a + b| == |a| + |b| && |a + b + c| == |a + b| + |c|;
  }

  /** On agreeing rows the one-pass count is the count of the messages. */
  ghost predicate CountsAre(store: Store, messages: Messages, i: Incarnation, now: I64) {
    && (forall k :: k in DueKeys(store, i) ==> KindAt(store, i, k, now).Ok?)
    && forall c :: Tally(c, store, i, now, DueKeys(store, i)) <==> c == CountsOf(messages, i, now)
  }

  lemma CountedByMeaning(store: Store, messages: Messages, i: Incarnation, now: I64)
    requires Represents(store, messages)
    ensures CountsAre(store, messages, i, now)
  {
    CountExact(store, messages, i, now, Visible);
    CountExact(store, messages, i, now, NotVisible);
    CountExact(store, messages, i, now, Delayed);
    KindsByMeaning(messages, i, now);
  }

  lemma KindsByMeaning(messages: Messages, i: Incarnation, now: I64)
    ensures MessagesOfKind(messages, i, now, Visible) == Receivable(messages, i, now)
    ensures MessagesOfKind(messages, i, now, NotVisible) == InFlight(messages, i, now)
    ensures MessagesOfKind(messages, i, now, Delayed) == Postponed(messages, i, now)
  {
  }

  lemma {:induction false} ImageSize(messages: Messages, addresses: set<Address>, keys: set<Key>)
    requires Keyed(messages) && addresses <= messages.Keys
    requires forall a :: a in addresses ==> OwnDue(messages[a]) in keys
    requires forall k :: k in keys ==> exists a :: a in addresses && OwnDue(messages[a]) == k
    ensures |keys| == |addresses|
    decreases addresses
  {
    if addresses == {} {
      assert keys == {};
    } else {
      var a :| a in addresses;
      var k := OwnDue(messages[a]);
      forall b | b in addresses && b != a ensures OwnDue(messages[b]) != k {
        DistinctDue(messages, a, b);
      }
      ImageSize(messages, addresses - {a}, keys - {k});
    }
  }

  lemma DistinctDue(messages: Messages, a: Address, b: Address)
    requires Keyed(messages) && a in messages && b in messages && a != b
    ensures OwnDue(messages[a]) != OwnDue(messages[b])
  {
    var x, y := messages[a], messages[b];
    assert AddressOf(x) == a && AddressOf(y) == b;
    KeysInjective(x.incarnation, x.id, VisibleAt(x), [], y.incarnation, y.id, VisibleAt(y), []);
  }

  lemma KindOfRow(store: Store, messages: Messages, i: Incarnation, now: I64, a: Address)
    requires Represents(store, messages) && a in messages && a.incarnation == i
    ensures OwnDue(messages[a]) in DueKeys(store, i)
    ensures KindAt(store, i, OwnDue(messages[a]), now) ==
            Ok(Classify(VisibleAt(messages[a]), messages[a].receipt.Some?, messages[a].expires, now))
  {
    var x := messages[a];
    assert AddressOf(x) == a;
    DueKeyParts(i, VisibleAt(x), x.id);
    DueKeyRoundTrip(i, VisibleAt(x), x.id, []);
    DueValueRoundTrip(x.receipt.Some?, x.expires);
    KeysInjective(i, x.id, VisibleAt(x), [], i, x.id, VisibleAt(x), []);
    assert HasRow(messages, a, OwnDue(x));
  }

  /** While rows and indexes agree the count never fails, and it counts each message once: as
      visible, in flight or delayed. */
  lemma CountExact(store: Store, messages: Messages, i: Incarnation, now: I64, kind: Kind)
    requires Represents(store, messages)
    ensures forall k :: k in DueKeys(store, i) ==> KindAt(store, i, k, now).Ok?
    ensures |OfKind(store, i, now, DueKeys(store, i), kind)| == |MessagesOfKind(messages, i, now, kind)|
  {
    forall k | k in DueKeys(store, i)
      ensures KindAt(store, i, k, now).Ok?
      ensures exists a :: a in messages && a.incarnation == i && OwnDue(messages[a]) == k
    {
      var id := DueRowAgrees(store, messages, i, k);
      KindOfRow(store, messages, i, now, Address(i, id));
    }
    forall a | a in messages && a.incarnation == i
      ensures OwnDue(messages[a]) in DueKeys(store, i)
      ensures KindAt(store, i, OwnDue(messages[a]), now)
              == Ok(Classify(VisibleAt(messages[a]), messages[a].receipt.Some?, messages[a].expires, now))
    {
      KindOfRow(store, messages, i, now, a);
    }
    ImageSize(messages, MessagesOfKind(messages, i, now, kind), OfKind(store, i, now, DueKeys(store, i), kind));
  }
}
