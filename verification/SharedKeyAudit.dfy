/** The shared-key audit of a chaos run: a cheap screen of final reads, then the search. */
module SharedKeyAudit {
  import opened Outcomes
  import opened Serializability

  const MAX_SERIALIZABLE_EVENTS_PER_SHARED_KEY: nat := 24

  datatype OperationKind = PutKind | PutIfAbsentKind | ReadKind | UpdateKind | DeleteKind | TransactWriteKind

  datatype OperationOutcome = Committed | ConditionRefused | Failed | Unknown

  datatype HistoryEvent = HistoryEvent(
    sequence: nat, clientId: int, startedAt: nat, completedAt: nat,
    kind: OperationKind, key: string, value: Option<string>, outcome: OperationOutcome)

  datatype SharedKeyRead = SharedKeyRead(key: string, actual: Option<string>)

  datatype Expectation = Expectation(possible: set<string>, absentPossible: bool, hasUnknown: bool)

  datatype AnomalyKind = FinalStateUnexplained | HistoryNotSerializable

  datatype Anomaly = Anomaly(kind: AnomalyKind, key: string)

  datatype Report = Report(anomalies: seq<Anomaly>, unclassified: set<string>, orderConstraints: nat)

  predicate Shared(key: string) {
    "shared/" <= key
  }

  predicate IsWrite(kind: OperationKind) {
    kind.PutKind? || kind.PutIfAbsentKind? || kind.UpdateKind? || kind.TransactWriteKind?
  }

  // ----- What the histories say about one key -----

  function OperationOf(e: HistoryEvent): Option<Op> {
    match (e.kind, e.outcome)
    case (PutIfAbsentKind, Committed) => if e.value.Some? then Some(PutIfAbsent(e.value.value)) else None
    case (PutIfAbsentKind, ConditionRefused) => Some(ConditionFailed)
    case (DeleteKind, Committed) => Some(Delete)
    case (ReadKind, Committed) => Some(Read(e.value))
    case (_, Committed) => if e.value.Some? then Some(Write(e.value.value)) else None
    case (_, _) => None
  }

  function EntryOf(e: HistoryEvent, op: Op): OpEntry {
    OpEntry(e.clientId, e.sequence, e.startedAt, e.completedAt, op)
  }

  predicate Concerns(e: HistoryEvent, key: string) {
    e.key == key && "shared/" <= key
  }

  function Expect(x: Expectation, e: HistoryEvent): Expectation {
    match e.outcome
    case Committed =>
      if IsWrite(e.kind) then (if e.value.Some? then x.(possible := x.possible + {e.value.value}) else x)
      else if e.kind.DeleteKind? then x.(absentPossible := true)
      else x
    case Unknown => x.(hasUnknown := true)
    case _ => x
  }

  function OpsOf(events: seq<HistoryEvent>, key: string): seq<OpEntry> {
    if events == [] then []
    else
      var before, last := OpsOf(events[..|events| - 1], key), events[|events| - 1];
      if Concerns(last, key) && OperationOf(last).Some? then before + [EntryOf(last, OperationOf(last).value)]
        else before
  }

  const NO_EXPECTATION := Expectation({}, false, false)

  /** Nothing until the key is first mentioned. */
  function ExpectationOf(events: seq<HistoryEvent>, key: string): Option<Expectation> {
    if events == [] then None
    else
      var before, last := ExpectationOf(events[..|events| - 1], key), events[|events| - 1];
      if Concerns(last, key) then Some(Expect(if before.Some? then before.value else NO_EXPECTATION, last)) else before
  }

  predicate HasUnknown(events: seq<HistoryEvent>, key: string) {
    ExpectationOf(events, key).Some? && ExpectationOf(events, key).value.hasUnknown
  }

  /** An outcome is unknown exactly when some event of the key left it unknown. */
  lemma {:induction false} UnknownExact(events: seq<HistoryEvent>, key: string)
    ensures HasUnknown(events, key) <==>
            exists i :: 0 <= i < |events| && Concerns(events[i], key) && events[i].outcome.Unknown?
    ensures ExpectationOf(events, key).Some? <==> exists i :: 0 <= i < |events| && Concerns(events[i], key)
    decreases |events|
  {
    if events != [] {
      var before := events[..|events| - 1];
      UnknownExact(before, key);
      assert forall i :: 0 <= i < |before| ==> before[i] == events[i];
      if Concerns(events[|events| - 1], key) {
        if HasUnknown(before, key) {
          var i :| 0 <= i < |before| && Concerns(before[i], key) && before[i].outcome.Unknown?;
          assert Concerns(events[i], key);
        }
      }
    }
  }

  function FinalReads(observed: seq<SharedKeyRead>, key: string): seq<Option<string>> {
    if observed == [] then []
    else
      var before, last := FinalReads(observed[..|observed| - 1], key), observed[|observed| - 1];
      if last.key == key then before + [last.actual] else before
  }

  // ----- The screen -----

  /** The screen refuses a final read that no committed event of the key explains. */
  predicate Refused(expectation: Option<Expectation>, actual: Option<string>) {
    if expectation.None? then actual.Some?
    else if expectation.value.hasUnknown then false
    else match actual
      case Some(value) => value !in expectation.value.possible
      case None => !expectation.value.absentPossible && expectation.value.possible != {}
  }

  lemma WrittenAppend(ops: seq<OpEntry>, e: OpEntry)
    ensures WrittenValues(ops + [e]) == WrittenValues(ops) + WrittenValue(e.op)
    ensures HasDelete(ops + [e]) <==> HasDelete(ops) || e.op.Delete?
  {
    var more := ops + [e];
    assert more[..|ops|] == ops && more[|ops|] == e;
    if HasDelete(ops) {
      var i :| 0 <= i < |ops| && ops[i].op.Delete?;
      assert more[i].op.Delete?;
    }
    if e.op.Delete? {
      assert more[|ops|].op.Delete?;
    }
  }

  /** One event changes the expectation as its operation changes what was written. */
  lemma ExpectStep(x: Expectation, e: HistoryEvent)
    ensures var op, next := OperationOf(e), Expect(x, e);
      && (op.None? ==> next.possible == x.possible && next.absentPossible == x.absentPossible)
      && (op.Some? ==>
           next.possible == x.possible + WrittenValue(op.value)
           && next.absentPossible == (x.absentPossible || op.value.Delete?))
  {
  }

  /** What the operations of a key have to do with its expectation. */
  lemma {:induction false} ExpectationMatchesOps(events: seq<HistoryEvent>, key: string)
    ensures var x, ops := ExpectationOf(events, key), OpsOf(events, key);
      && (x.None? ==> ops == [])
      && (x.Some? ==> x.value.possible == WrittenValues(ops) && x.value.absentPossible == HasDelete(ops))
    decreases |events|
  {
    if events != [] {
      var init, last := events[..|events| - 1], events[|events| - 1];
      ExpectationMatchesOps(init, key);
      var before := ExpectationOf(init, key);
      ExpectStep(if before.Some? then before.value else NO_EXPECTATION, last);
      if OperationOf(last).Some? {
        WrittenAppend(OpsOf(init, key), EntryOf(last, OperationOf(last).value));
      }
    }
  }

  function WrittenValue(op: Op): set<string> {
    match op
    case Write(v) => {v}
    case PutIfAbsent(v) => {v}
    case _ => {}
  }

  function WrittenValues(ops: seq<OpEntry>): set<string> {
    if ops == [] then {} else WrittenValues(ops[..|ops| - 1]) + WrittenValue(ops[|ops| - 1].op)
  }

  predicate HasDelete(ops: seq<OpEntry>) {
    exists i :: 0 <= i < |ops| && ops[i].op.Delete?
  }

  lemma {:induction false} WrittenByMember(ops: seq<OpEntry>, v: string)
    ensures v in WrittenValues(ops) <==> exists i :: 0 <= i < |ops| && v in WrittenValue(ops[i].op)
    decreases |ops|
  {
    if ops != [] {
      var before := ops[..|ops| - 1];
      WrittenByMember(before, v);
      assert forall i :: 0 <= i < |before| ==> before[i] == ops[i];
      if v in WrittenValues(before) {
        var i :| 0 <= i < |before| && v in WrittenValue(before[i].op);
        assert v in WrittenValue(ops[i].op);
      }
    }
  }

  /** A run ends in its first value or in one that some operation wrote. */
  lemma {:induction false} RunEndsInWritten(start: Option<string>, order: seq<OpEntry>)
    requires Run(start, order).Some?
    ensures var v := Run(start, order).value;
      v.Some? ==> v == start || exists i :: 0 <= i < |order| && v.value in WrittenValue(order[i].op)
    decreases |order|
  {
    if order != [] {
      var next := ApplySerial(start, order[0].op).value;
      RunEndsInWritten(next, order[1..]);
      var v := Run(start, order).value;
      if v.Some? && v != start {
        if v == next {
          assert v.value in WrittenValue(order[0].op);
        } else {
          var i :| 0 <= i < |order[1..]| && v.value in WrittenValue(order[1..][i].op);
          assert v.value in WrittenValue(order[i + 1].op);
        }
      }
    }
  }

  /** Without deletes a key never becomes absent once it has a value. */
  lemma {:induction false} RunStaysPresent(start: Option<string>, order: seq<OpEntry>)
    requires Run(start, order).Some? && !HasDelete(order)
    requires start.Some? || exists i :: 0 <= i < |order| && WrittenValue(order[i].op) != {}
    ensures Run(start, order).value.Some?
    decreases |order|
  {
    if order != [] {
      var next := ApplySerial(start, order[0].op).value;
      assert !order[0].op.Delete?;
      assert !HasDelete(order[1..]);
      if start.None? && WrittenValue(order[0].op) == {} {
        var i :| 0 <= i < |order| && WrittenValue(order[i].op) != {};
        assert WrittenValue(order[1..][i - 1].op) != {};
      }
      RunStaysPresent(next, order[1..]);
    }
  }

  lemma SameMembers(a: seq<OpEntry>, b: seq<OpEntry>, i: nat)
    requires multiset(a) == multiset(b) && i < |a|
    ensures exists j :: 0 <= j < |b| && b[j] == a[i]
  {
    assert a[i] in multiset(a);
    assert a[i] in multiset(b);
  }

  /** The screen never contradicts the search: a key with a refused read has no legal serial
      order at all. */
  lemma ScreenIsSound(events: seq<HistoryEvent>, key: string, finals: seq<Option<string>>, r: nat)
    requires r < |finals| && Refused(ExpectationOf(events, key), finals[r])
    ensures !Serializable(OpsOf(events, key), finals)
  {
    var ops, x := OpsOf(events, key), ExpectationOf(events, key);
    ExpectationMatchesOps(events, key);
    forall order: seq<OpEntry> | multiset(order) == multiset(ops) && Run(None, order).Some?
      ensures Run(None, order).value != finals[r]
    {
      var v := Run(None, order).value;
      if v.Some? {
        RunEndsInWritten(None, order);
        var i :| 0 <= i < |order| && v.value in WrittenValue(order[i].op);
        SameMembers(order, ops, i);
        WrittenByMember(ops, v.value);
      } else if finals[r].None? {
        PresentWithoutDelete(ops, order);
      }
    }
  }

  lemma PresentWithoutDelete(ops: seq<OpEntry>, order: seq<OpEntry>)
    requires multiset(order) == multiset(ops) && Run(None, order).Some? && WrittenValues(ops) != {} && !HasDelete(ops)
    ensures Run(None, order).value.Some?
  {
    var w :| w in WrittenValues(ops);
    WrittenByMember(ops, w);
    var i :| 0 <= i < |ops| && w in WrittenValue(ops[i].op);
    SameMembers(ops, order, i);
    var j :| 0 <= j < |order| && order[j] == ops[i];
    assert WrittenValue(order[j].op) != {};
    forall k | 0 <= k < |order| ensures !order[k].op.Delete? { SameMembers(order, ops, k); }
    RunStaysPresent(None, order);
  }

  // ----- What the events themselves demand -----

  /** What an event says about the key's value before and after it. An event that failed, that
      ended unknown or that wrote nothing says nothing. */
  predicate Witnesses(before: Option<string>, e: HistoryEvent, after: Option<string>) {
    if e.outcome.Committed? then
      match e.kind
      case ReadKind => before == e.value && after == before
      case DeleteKind => after == None
      case PutIfAbsentKind => if e.value.Some? then before == None && after == e.value else after == before
      case _ => after == if e.value.Some? then e.value else before
    else if e.outcome.ConditionRefused? && e.kind.PutIfAbsentKind? then before != None && after == before
    else after == before
  }

  /** An operation is what its event demands: applied to a value it gives exactly the value the
      event witnesses, and it cannot happen where the event could not. */
  lemma OperationMeans(e: HistoryEvent, before: Option<string>, after: Option<string>)
    ensures OperationOf(e).None? ==> (Witnesses(before, e, after) <==> after == before)
    ensures OperationOf(e).Some? ==>
            (Witnesses(before, e, after) <==> ApplySerial(before, OperationOf(e).value) == Some(after))
  {
  }

  function EntriesOf(e: HistoryEvent): seq<OpEntry> {
    if OperationOf(e).Some? then [EntryOf(e, OperationOf(e).value)] else []
  }

  /** Where the operation of event `i` is among those of its key. */
  function Position(events: seq<HistoryEvent>, key: string, i: nat): nat
    requires i <= |events|
  {
    |OpsOf(events[..i], key)|
  }

  lemma OpsNext(events: seq<HistoryEvent>, key: string, i: nat)
    requires i < |events|
    ensures OpsOf(events[..i + 1], key)
            == OpsOf(events[..i], key) + (if Concerns(events[i], key) then EntriesOf(events[i]) else [])
  {
    assert events[..i + 1][..i] == events[..i];
  }

  lemma {:induction false} OpsPrefix(events: seq<HistoryEvent>, key: string, i: nat)
    requires i <= |events|
    ensures OpsOf(events[..i], key) <= OpsOf(events, key)
    decreases |events| - i
  {
    if i == |events| {
      assert events[..i] == events;
    } else {
      OpsNext(events, key, i);
      OpsPrefix(events, key, i + 1);
    }
  }

  /** Every event of the key that demands something has its operation, in the order of the events. */
  lemma OpOfEvent(events: seq<HistoryEvent>, key: string, i: nat, j: nat)
    requires i < j <= |events| && Concerns(events[i], key) && OperationOf(events[i]).Some?
    ensures Position(events, key, i) < Position(events, key, j) <= |OpsOf(events, key)|
    ensures OpsOf(events, key)[Position(events, key, i)] == EntryOf(events[i], OperationOf(events[i]).value)
  {
    OpsNext(events, key, i);
    OpsPrefix(events, key, j);
    OpsPrefix(events[..j], key, i + 1);
    assert events[..j][..i + 1] == events[..i + 1];
  }

  /** And every operation is that of an event of the key. */
  lemma {:induction false} EventOfOp(events: seq<HistoryEvent>, key: string, n: nat) returns (i: nat)
    requires n < |OpsOf(events, key)|
    ensures i < |events| && Concerns(events[i], key) && OperationOf(events[i]).Some?
    ensures OpsOf(events, key)[n] == EntryOf(events[i], OperationOf(events[i]).value)
    decreases |events|
  {
    var last := |events| - 1;
    if n < |OpsOf(events[..last], key)| {
      i := EventOfOp(events[..last], key, n);
    } else {
      i := last;
    }
  }

  // ----- Histories that cannot have happened -----

  ghost predicate KnownOutcomes(events: seq<HistoryEvent>, key: string) {
    forall i :: 0 <= i < |events| && Concerns(events[i], key) ==> !events[i].outcome.Unknown?
  }

  predicate CommittedWrite(e: HistoryEvent) {
    e.outcome.Committed? && IsWrite(e.kind) && e.value.Some?
  }

  predicate WroteValue(e: HistoryEvent, key: string, v: Option<string>) {
    Concerns(e, key) && CommittedWrite(e) && e.value == v
  }

  predicate CommittedPutIfAbsent(e: HistoryEvent) {
    e.outcome.Committed? && e.kind.PutIfAbsentKind? && e.value.Some?
  }

  ghost predicate NeverDeleted(events: seq<HistoryEvent>, key: string) {
    forall i :: 0 <= i < |events| && Concerns(events[i], key) && events[i].outcome.Committed? ==>
      !events[i].kind.DeleteKind?
  }

  /** The first event was over when the second began, for its client or on the clock. */
  predicate HappenedBefore(a: HistoryEvent, b: HistoryEvent) {
    || (a.clientId == b.clientId && a.sequence < b.sequence)
    || (0 < a.completedAt <= b.startedAt)
  }

  /** The key was created twice. */
  ghost predicate CreatedTwice(events: seq<HistoryEvent>, key: string) {
    && NeverDeleted(events, key)
    && exists i, j :: 0 <= i < j < |events| && Concerns(events[i], key) && Concerns(events[j], key)
                      && CommittedPutIfAbsent(events[i]) && CommittedPutIfAbsent(events[j])
  }

  /** A condition failed on a key that nobody wrote. */
  ghost predicate RefusedUnwritten(events: seq<HistoryEvent>, key: string) {
    && (forall i :: 0 <= i < |events| && Concerns(events[i], key) ==> !CommittedWrite(events[i]))
    && exists i :: 0 <= i < |events| && Concerns(events[i], key) && events[i].kind.PutIfAbsentKind?
                   && events[i].outcome.ConditionRefused?
  }

  predicate ReadAbsent(e: HistoryEvent) {
    e.outcome.Committed? && e.kind.ReadKind? && e.value.None?
  }

  /** A read found nothing although a write had happened before it. */
  ghost predicate LostWrite(events: seq<HistoryEvent>, key: string) {
    && NeverDeleted(events, key)
    && exists i, j :: 0 <= i < |events| && 0 <= j < |events| && Concerns(events[i], key) && Concerns(events[j], key)
                      && CommittedWrite(events[i]) && ReadAbsent(events[j]) && HappenedBefore(events[i], events[j])
  }

  /** A read saw a value that nobody wrote. */
  ghost predicate ReadUnwritten(events: seq<HistoryEvent>, key: string) {
    exists j :: 0 <= j < |events| && Concerns(events[j], key) && ReadValue(events[j])
                && forall i :: 0 <= i < |events| ==> !WroteValue(events[i], key, events[j].value)
  }

  predicate ReadValue(e: HistoryEvent) {
    e.outcome.Committed? && e.kind.ReadKind? && e.value.Some?
  }

  /** A read saw a value after a delete that came after every write of that value. */
  ghost predicate ReadDeleted(events: seq<HistoryEvent>, key: string) {
    exists d, j :: 0 <= d < |events| && 0 <= j < |events| && DeletedBeforeRead(events, key, d, j)
  }

  ghost predicate DeletedBeforeRead(events: seq<HistoryEvent>, key: string, d: nat, j: nat)
    requires d < |events| && j < |events|
  {
    && Concerns(events[d], key) && events[d].outcome.Committed? && events[d].kind.DeleteKind?
    && Concerns(events[j], key) && ReadValue(events[j]) && HappenedBefore(events[d], events[j])
    && forall i :: 0 <= i < |events| && WroteValue(events[i], key, events[j].value) ==>
         HappenedBefore(events[i], events[d])
  }

  ghost predicate Impossible(events: seq<HistoryEvent>, key: string) {
    || CreatedTwice(events, key) || RefusedUnwritten(events, key) || LostWrite(events, key)
    || ReadUnwritten(events, key) || ReadDeleted(events, key)
  }

  lemma NoDeleteOps(events: seq<HistoryEvent>, key: string)
    requires NeverDeleted(events, key)
    ensures !HasDelete(OpsOf(events, key))
  {
    forall n | 0 <= n < |OpsOf(events, key)| ensures !OpsOf(events, key)[n].op.Delete? {
      var i := EventOfOp(events, key, n);
    }
  }

  /** What the operations write is what committed writes of the key wrote. */
  lemma WrittenByEvents(events: seq<HistoryEvent>, key: string, v: string)
    ensures v in WrittenValues(OpsOf(events, key)) <==>
            exists i :: 0 <= i < |events| && WroteValue(events[i], key, Some(v))
  {
    var ops := OpsOf(events, key);
    WrittenByMember(ops, v);
    if n :| 0 <= n < |ops| && v in WrittenValue(ops[n].op) {
      var i := EventOfOp(events, key, n);
      assert WroteValue(events[i], key, Some(v));
    }
    if i :| 0 <= i < |events| && WroteValue(events[i], key, Some(v)) {
      OpOfEvent(events, key, i, |events|);
      assert v in WrittenValue(ops[Position(events, key, i)].op);
    }
  }

  lemma DeletedByEvents(events: seq<HistoryEvent>, key: string)
    ensures HasDelete(OpsOf(events, key)) <==> !NeverDeleted(events, key)
  {
    if NeverDeleted(events, key) {
      NoDeleteOps(events, key);
    } else {
      var i :| 0 <= i < |events| && Concerns(events[i], key) && events[i].outcome.Committed?
               && events[i].kind.DeleteKind?;
      OpOfEvent(events, key, i, |events|);
      assert OpsOf(events, key)[Position(events, key, i)].op.Delete?;
    }
  }

  /** The screen refuses a read exactly when every outcome of the key is known and either nobody
      wrote the value it saw, or it saw nothing although somebody wrote and nobody deleted. */
  lemma RefusedExact(events: seq<HistoryEvent>, key: string, actual: Option<string>)
    ensures Refused(ExpectationOf(events, key), actual) <==>
            && KnownOutcomes(events, key)
            && (actual.Some? ==> forall i :: 0 <= i < |events| ==> !WroteValue(events[i], key, actual))
            && (actual.None? ==>
                  && NeverDeleted(events, key)
                  && exists i :: 0 <= i < |events| && Concerns(events[i], key) && CommittedWrite(events[i]))
  {
    UnknownExact(events, key);
    ExpectationMatchesOps(events, key);
    DeletedByEvents(events, key);
    if actual.Some? {
      WrittenByEvents(events, key, actual.value);
    } else {
      SomeWritten(events, key);
    }
  }

  lemma SomeWritten(events: seq<HistoryEvent>, key: string)
    ensures WrittenValues(OpsOf(events, key)) != {} <==>
            exists i :: 0 <= i < |events| && Concerns(events[i], key) && CommittedWrite(events[i])
  {
    if v :| v in WrittenValues(OpsOf(events, key)) {
      WrittenByEvents(events, key, v);
    }
    if i :| 0 <= i < |events| && Concerns(events[i], key) && CommittedWrite(events[i]) {
      WrittenByEvents(events, key, events[i].value.value);
      assert WroteValue(events[i], key, Some(events[i].value.value));
    }
  }

  /** A run stops where an operation cannot happen. */
  lemma {:induction false} RunReaches(start: Option<string>, order: seq<OpEntry>, n: nat)
    requires Run(start, order).Some? && n < |order|
    ensures Run(start, order[..n]).Some? && ApplySerial(Run(start, order[..n]).value, order[n].op).Some?
    decreases n
  {
    if n > 0 {
      var next := ApplySerial(start, order[0].op).value;
      RunReaches(next, order[1..], n - 1);
      assert order[..n][1..] == order[1..][..n - 1];
    }
  }

  /** Without deletes a key that was written before a position has a value there. */
  lemma PresentAt(order: seq<OpEntry>, w: nat, n: nat)
    requires Run(None, order).Some? && !HasDelete(order) && w < n < |order| && WrittenValue(order[w].op) != {}
    ensures Run(None, order[..n]).Some? && Run(None, order[..n]).value.Some?
    ensures ApplySerial(Run(None, order[..n]).value, order[n].op).Some?
  {
    RunReaches(None, order, n);
    assert order[..n][w] == order[w];
    RunStaysPresent(None, order[..n]);
  }

  lemma NoDeleteInOrder(ops: seq<OpEntry>, order: seq<OpEntry>)
    requires multiset(order) == multiset(ops) && !HasDelete(ops)
    ensures !HasDelete(order)
  {
    forall k | 0 <= k < |order| ensures !order[k].op.Delete? { SameMembers(order, ops, k); }
  }

  lemma Without<T>(s: seq<T>, i: nat)
    requires i < |s|
    ensures multiset(s[..i] + s[i + 1..]) == multiset(s) - multiset{s[i]}
  {
    assert s == s[..i] + [s[i]] + s[i + 1..];
  }

  lemma WithoutAt(s: seq<OpEntry>, i: nat, m: nat)
    requires i < |s| && m < |s| - 1
    ensures (s[..i] + s[i + 1..])[m] == s[if m < i then m else m + 1]
  {
  }

  /** Two members of a list are two members of every rearrangement of it. */
  lemma TwoMembers(a: seq<OpEntry>, b: seq<OpEntry>, i: nat, j: nat) returns (k: nat, l: nat)
    requires multiset(a) == multiset(b) && i < j < |a|
    ensures k < |b| && l < |b| && k != l && b[k] == a[i] && b[l] == a[j]
  {
    SameMembers(a, b, i);
    k :| 0 <= k < |b| && b[k] == a[i];
    var restA, restB := a[..i] + a[i + 1..], b[..k] + b[k + 1..];
    Without(a, i);
    Without(b, k);
    WithoutAt(a, i, j - 1);
    SameMembers(restA, restB, j - 1);
    var m :| 0 <= m < |restB| && restB[m] == a[j];
    WithoutAt(b, k, m);
    l := if m < k then m else m + 1;
  }

  lemma TwoCreationsClash(events: seq<HistoryEvent>, key: string, finals: seq<Option<string>>)
    requires CreatedTwice(events, key)
    ensures !Serializable(OpsOf(events, key), finals)
  {
    var i, j :| 0 <= i < j < |events| && Concerns(events[i], key) && Concerns(events[j], key)
                && CommittedPutIfAbsent(events[i]) && CommittedPutIfAbsent(events[j]);
    var ops, p, q := OpsOf(events, key), Position(events, key, i), Position(events, key, j);
    OpOfEvent(events, key, i, j);
    OpOfEvent(events, key, j, |events|);
    NoDeleteOps(events, key);
    forall order: seq<OpEntry> | multiset(order) == multiset(ops) ensures !Explains(order, None, finals) {
      if Explains(order, None, finals) {
        NoDeleteInOrder(ops, order);
        var k, l := TwoMembers(ops, order, p, q);
        CreatedOnce(order, finals, if k < l then k else l, if k < l then l else k);
      }
    }
  }

  lemma CreatedOnce(order: seq<OpEntry>, finals: seq<Option<string>>, k: nat, l: nat)
    requires !HasDelete(order) && k < l < |order| && order[k].op.PutIfAbsent? && order[l].op.PutIfAbsent?
    ensures !Explains(order, None, finals)
  {
    if Run(None, order).Some? {
      PresentAt(order, k, l);
    }
  }

  lemma RefusalNeedsWrite(events: seq<HistoryEvent>, key: string, finals: seq<Option<string>>)
    requires RefusedUnwritten(events, key)
    ensures !Serializable(OpsOf(events, key), finals)
  {
    var i :| 0 <= i < |events| && Concerns(events[i], key) && events[i].kind.PutIfAbsentKind?
             && events[i].outcome.ConditionRefused?;
    var ops, p := OpsOf(events, key), Position(events, key, i);
    OpOfEvent(events, key, i, |events|);
    forall order: seq<OpEntry> | multiset(order) == multiset(ops) ensures !Explains(order, None, finals) {
      if Explains(order, None, finals) {
        SameMembers(ops, order, p);
        var k :| 0 <= k < |order| && order[k] == ops[p];
        ValueWasWritten(events, key, order, k);
      }
    }
  }

  /** A value found at some position of a legal order was written by a committed write. */
  lemma ValueWasWritten(events: seq<HistoryEvent>, key: string, order: seq<OpEntry>, k: nat)
    requires multiset(order) == multiset(OpsOf(events, key)) && Run(None, order).Some? && k < |order|
    ensures Run(None, order[..k]).Some? && ApplySerial(Run(None, order[..k]).value, order[k].op).Some?
    ensures var v := Run(None, order[..k]).value;
            v.Some? ==> exists i :: 0 <= i < |events| && WroteValue(events[i], key, v)
  {
    RunReaches(None, order, k);
    RunEndsInWritten(None, order[..k]);
    var v := Run(None, order[..k]).value;
    if v.Some? {
      var m :| 0 <= m < k && v.value in WrittenValue(order[..k][m].op);
      SameMembers(order, OpsOf(events, key), m);
      WrittenByMember(OpsOf(events, key), v.value);
      WrittenByEvents(events, key, v.value);
    }
  }

  lemma ReadNeedsItsWrite(events: seq<HistoryEvent>, key: string, finals: seq<Option<string>>)
    requires ReadUnwritten(events, key)
    ensures !Serializable(OpsOf(events, key), finals)
  {
    var j :| 0 <= j < |events| && Concerns(events[j], key) && ReadValue(events[j])
             && forall i :: 0 <= i < |events| ==> !WroteValue(events[i], key, events[j].value);
    var ops, p := OpsOf(events, key), Position(events, key, j);
    OpOfEvent(events, key, j, |events|);
    forall order: seq<OpEntry> | multiset(order) == multiset(ops) ensures !Explains(order, None, finals) {
      if Explains(order, None, finals) {
        SameMembers(ops, order, p);
        var k :| 0 <= k < |order| && order[k] == ops[p];
        ValueWasWritten(events, key, order, k);
      }
    }
  }

  lemma AbsenceContradictsWrite(events: seq<HistoryEvent>, key: string, finals: seq<Option<string>>)
    requires LostWrite(events, key)
    ensures !Serializable(OpsOf(events, key), finals)
  {
    var i, j :| 0 <= i < |events| && 0 <= j < |events| && Concerns(events[i], key) && Concerns(events[j], key)
                && CommittedWrite(events[i]) && ReadAbsent(events[j]) && HappenedBefore(events[i], events[j]);
    var ops, p, q := OpsOf(events, key), Position(events, key, i), Position(events, key, j);
    OpOfEvent(events, key, i, |events|);
    OpOfEvent(events, key, j, |events|);
    NoDeleteOps(events, key);
    forall order: seq<OpEntry> | multiset(order) == multiset(ops) ensures !Explains(order, None, finals) {
      if Explains(order, None, finals) {
        NoDeleteInOrder(ops, order);
        SameMembers(ops, order, p);
        SameMembers(ops, order, q);
        var k :| 0 <= k < |order| && order[k] == ops[p];
        var l :| 0 <= l < |order| && order[l] == ops[q];
        EntryPrecedes(events[i], events[j], order[k].op, order[l].op);
        AbsenceComesFirst(order, finals, k, l);
      }
    }
  }

  lemma AbsenceComesFirst(order: seq<OpEntry>, finals: seq<Option<string>>, k: nat, l: nat)
    requires !HasDelete(order) && k < |order| && l < |order| && MustPrecede(order[k], order[l])
    requires WrittenValue(order[k].op) != {} && order[l].op == Read(None)
    ensures !Explains(order, None, finals)
  {
    if k < l && Run(None, order).Some? {
      PresentAt(order, k, l);
    }
  }

  /** A value found after a delete was written after it. */
  lemma {:induction false} WrittenSince(start: Option<string>, order: seq<OpEntry>, d: nat, n: nat) returns (m: nat)
    requires Run(start, order).Some? && d < n < |order| && order[d].op.Delete?
    requires Run(start, order[..n]).Some? && Run(start, order[..n]).value.Some?
    ensures d < m < n && Run(start, order[..n]).value.value in WrittenValue(order[m].op)
    decreases d
  {
    var next := ApplySerial(start, order[0].op).value;
    assert order[..n][1..] == order[1..][..n - 1];
    if d == 0 {
      RunEndsInWritten(None, order[1..][..n - 1]);
      var v := Run(start, order[..n]).value;
      m :| 0 <= m < n - 1 && v.value in WrittenValue(order[1..][..n - 1][m].op);
      m := m + 1;
    } else {
      m := WrittenSince(next, order[1..], d - 1, n - 1);
      m := m + 1;
    }
  }

  lemma EntryPrecedes(a: HistoryEvent, b: HistoryEvent, op: Op, op': Op)
    requires HappenedBefore(a, b)
    ensures MustPrecede(EntryOf(a, op), EntryOf(b, op'))
  {
  }

  /** Where the value that a read found came from, when the key had been deleted before. */
  lemma SourceOfRead(events: seq<HistoryEvent>, key: string, order: seq<OpEntry>, d: nat, n: nat, v: string)
    returns (m: nat, i: nat)
    requires multiset(order) == multiset(OpsOf(events, key)) && Run(None, order).Some? && d < n < |order|
    requires order[d].op.Delete? && order[n].op == Read(Some(v))
    ensures d < m < n && i < |events| && WroteValue(events[i], key, Some(v))
    ensures OperationOf(events[i]).Some? && order[m] == EntryOf(events[i], OperationOf(events[i]).value)
  {
    RunReaches(None, order, n);
    m := WrittenSince(None, order, d, n);
    SameMembers(order, OpsOf(events, key), m);
    var q :| 0 <= q < |OpsOf(events, key)| && OpsOf(events, key)[q] == order[m];
    i := EventOfOp(events, key, q);
  }

  lemma DeleteHidesWrites(events: seq<HistoryEvent>, key: string, finals: seq<Option<string>>)
    requires ReadDeleted(events, key)
    ensures !Serializable(OpsOf(events, key), finals)
  {
    var d, j :| 0 <= d < |events| && 0 <= j < |events| && DeletedBeforeRead(events, key, d, j);
    var ops, p, q := OpsOf(events, key), Position(events, key, d), Position(events, key, j);
    OpOfEvent(events, key, d, |events|);
    OpOfEvent(events, key, j, |events|);
    forall order: seq<OpEntry> | multiset(order) == multiset(ops) ensures !Explains(order, None, finals) {
      if Explains(order, None, finals) {
        SameMembers(ops, order, p);
        SameMembers(ops, order, q);
        var k :| 0 <= k < |order| && order[k] == ops[p];
        var l :| 0 <= l < |order| && order[l] == ops[q];
        EntryPrecedes(events[d], events[j], order[k].op, order[l].op);
        assert k < l;
        var m, i := SourceOfRead(events, key, order, k, l, events[j].value.value);
        assert WroteValue(events[i], key, events[j].value);
        EntryPrecedes(events[i], events[d], order[m].op, order[k].op);
      }
    }
  }

  /** Such a history has no legal serial order, whatever was read at the end. */
  lemma ImpossibleHasNoOrder(events: seq<HistoryEvent>, key: string, finals: seq<Option<string>>)
    requires Impossible(events, key)
    ensures !Serializable(OpsOf(events, key), finals)
  {
    if CreatedTwice(events, key) {
      TwoCreationsClash(events, key, finals);
    } else if RefusedUnwritten(events, key) {
      RefusalNeedsWrite(events, key, finals);
    } else if LostWrite(events, key) {
      AbsenceContradictsWrite(events, key, finals);
    } else if ReadUnwritten(events, key) {
      ReadNeedsItsWrite(events, key, finals);
    } else {
      DeleteHidesWrites(events, key, finals);
    }
  }

  // ----- Histories that happened -----

  /** The event says something about the value of its key. */
  predicate Speaks(e: HistoryEvent) {
    || CommittedWrite(e)
    || (e.outcome.Committed? && (e.kind.ReadKind? || e.kind.DeleteKind?))
    || (e.outcome.ConditionRefused? && e.kind.PutIfAbsentKind?)
  }

  lemma SpeaksExactly(e: HistoryEvent)
    ensures Speaks(e) <==> OperationOf(e).Some?
  {
  }

  /** The events of a key that say something. */
  function KeyEvents(events: seq<HistoryEvent>, key: string): (r: seq<HistoryEvent>)
    ensures forall e :: e in r ==> e in events && Concerns(e, key) && Speaks(e)
  {
    if events == [] then []
    else
      var last := events[|events| - 1];
      KeyEvents(events[..|events| - 1], key) + (if Concerns(last, key) && Speaks(last) then [last] else [])
  }

  /** The events of a key took place in this order, with these values of the key in between. */
  ghost predicate TookPlace(taken: seq<HistoryEvent>, values: seq<Option<string>>) {
    && |values| == |taken| + 1 && values[0] == None
    && (forall i :: 0 <= i < |taken| ==> Witnesses(values[i], taken[i], values[i + 1]))
    && (forall i, j :: 0 <= i < j < |taken| ==> !HappenedBefore(taken[j], taken[i]))
  }

  /** Some order of the key's events took place and left the value that every final read saw. */
  ghost predicate Happened(events: seq<HistoryEvent>, key: string, finals: seq<Option<string>>) {
    exists taken, values ::
      && multiset(taken) == multiset(KeyEvents(events, key)) && TookPlace(taken, values)
      && EndsIn(finals, values[|taken|])
  }

  lemma {:induction false} OpsConcat(a: seq<HistoryEvent>, b: seq<HistoryEvent>, key: string)
    ensures OpsOf(a + b, key) == OpsOf(a, key) + OpsOf(b, key)
    decreases |b|
  {
    if b == [] {
      assert a + b == a;
    } else {
      assert (a + b)[..|a + b| - 1] == a + b[..|b| - 1];
      OpsConcat(a, b[..|b| - 1], key);
    }
  }

  lemma {:induction false} OpsOfKeyEvents(events: seq<HistoryEvent>, key: string)
    ensures OpsOf(KeyEvents(events, key), key) == OpsOf(events, key)
    decreases |events|
  {
    if events != [] {
      var init, last := events[..|events| - 1], events[|events| - 1];
      OpsOfKeyEvents(init, key);
      var before := KeyEvents(init, key);
      SpeaksExactly(last);
      if Concerns(last, key) && Speaks(last) {
        OpsConcat(before, [last], key);
        OpsOfOne(last, key);
      } else {
        assert before + [] == before;
      }
    }
  }

  lemma OpsOfOne(e: HistoryEvent, key: string)
    requires Concerns(e, key)
    ensures OpsOf([e], key) == EntriesOf(e)
  {
    assert [e][..0] == [];
  }

  lemma OpsWithout(events: seq<HistoryEvent>, key: string, k: nat)
    requires k < |events| && Concerns(events[k], key)
    ensures multiset(OpsOf(events, key))
            == multiset(OpsOf(events[..k] + events[k + 1..], key)) + multiset(EntriesOf(events[k]))
  {
    var a, b := events[..k], events[k + 1..];
    assert events == a + ([events[k]] + b);
    OpsConcat(a, [events[k]] + b, key);
    OpsConcat([events[k]], b, key);
    OpsConcat(a, b, key);
    OpsOfOne(events[k], key);
  }

  /** Rearranging events rearranges their operations. */
  lemma {:induction false} OpsRearranged(a: seq<HistoryEvent>, b: seq<HistoryEvent>, key: string)
    requires multiset(a) == multiset(b) && forall e :: e in a ==> Concerns(e, key)
    ensures multiset(OpsOf(a, key)) == multiset(OpsOf(b, key))
    decreases |a|
  {
    if a == [] {
      assert |multiset(b)| == |b| && b == [];
    } else {
      var last := |a| - 1;
      assert a[last] in multiset(a);
      assert a[last] in multiset(b);
      var k :| 0 <= k < |b| && b[k] == a[last];
      var rest := b[..k] + b[k + 1..];
      Without(a, last);
      Without(b, k);
      assert a[..last] + a[last + 1..] == a[..last];
      OpsRearranged(a[..last], rest, key);
      OpsWithout(b, key, k);
      OpsWithout(a, key, last);
    }
  }

  lemma RunAppend(start: Option<string>, order: seq<OpEntry>, e: OpEntry)
    requires Run(start, order).Some?
    ensures Run(start, order + [e]) == ApplySerial(Run(start, order).value, e.op)
    decreases |order|
  {
    if order == [] {
      assert [] + [e] == [e] && [e][1..] == [];
    } else {
      assert (order + [e])[1..] == order[1..] + [e];
      RunAppend(ApplySerial(start, order[0].op).value, order[1..], e);
    }
  }

  lemma EventRuns(ops: seq<OpEntry>, e: HistoryEvent, before: Option<string>, after: Option<string>)
    requires Run(None, ops) == Some(before) && Witnesses(before, e, after)
    ensures Run(None, ops + EntriesOf(e)) == Some(after)
  {
    OperationMeans(e, before, after);
    if OperationOf(e).Some? {
      RunAppend(None, ops, EntryOf(e, OperationOf(e).value));
    } else {
      assert ops + EntriesOf(e) == ops;
    }
  }

  /** What took place is a run of the operations. */
  lemma {:induction false} TakenOrderRuns(taken: seq<HistoryEvent>, values: seq<Option<string>>, key: string, n: nat)
    requires n <= |taken| && TookPlace(taken, values) && forall e :: e in taken ==> Concerns(e, key)
    ensures Run(None, OpsOf(taken[..n], key)) == Some(values[n])
    decreases n
  {
    if n > 0 {
      TakenOrderRuns(taken, values, key, n - 1);
      OpsNext(taken, key, n - 1);
      EventRuns(OpsOf(taken[..n - 1], key), taken[n - 1], values[n - 1], values[n]);
    }
  }

  lemma {:induction false} TakenOrderRespects(taken: seq<HistoryEvent>, key: string)
    requires forall i, j :: 0 <= i < j < |taken| ==> !HappenedBefore(taken[j], taken[i])
    ensures Respects(OpsOf(taken, key))
    decreases |taken|
  {
    if taken != [] {
      var last := |taken| - 1;
      TakenOrderRespects(taken[..last], key);
      forall n | 0 <= n < |OpsOf(taken[..last], key)| && OperationOf(taken[last]).Some?
        ensures !MustPrecede(EntryOf(taken[last], OperationOf(taken[last]).value), OpsOf(taken[..last], key)[n]) {
        var i := EventOfOp(taken[..last], key, n);
      }
    }
  }

  /** A history that happened has a legal serial order. */
  lemma HappenedIsSerializable(events: seq<HistoryEvent>, key: string, finals: seq<Option<string>>)
    requires Happened(events, key, finals)
    ensures Serializable(OpsOf(events, key), finals)
  {
    var taken, values :| multiset(taken) == multiset(KeyEvents(events, key)) && TookPlace(taken, values)
                        && EndsIn(finals, values[|taken|]);
    OpsOfKeyEvents(events, key);
    StillConcern(taken, KeyEvents(events, key), key);
    OpsRearranged(taken, KeyEvents(events, key), key);
    TookPlaceExplains(taken, values, key, finals);
  }

  predicate AllSpeak(events: seq<HistoryEvent>, key: string) {
    forall e :: e in events ==> Concerns(e, key) && Speaks(e)
  }

  /** The event whose operation comes last. */
  lemma LastEvent(events: seq<HistoryEvent>, order: seq<OpEntry>, key: string) returns (i: nat)
    requires multiset(order) == multiset(OpsOf(events, key)) && order != []
    ensures i < |events| && Concerns(events[i], key) && EntriesOf(events[i]) == [order[|order| - 1]]
  {
    var last := |order| - 1;
    SameMembers(order, OpsOf(events, key), last);
    var n :| 0 <= n < |OpsOf(events, key)| && OpsOf(events, key)[n] == order[last];
    i := EventOfOp(events, key, n);
  }

  lemma RestOfOrder(events: seq<HistoryEvent>, order: seq<OpEntry>, key: string, i: nat)
    requires multiset(order) == multiset(OpsOf(events, key)) && order != []
    requires i < |events| && Concerns(events[i], key) && EntriesOf(events[i]) == [order[|order| - 1]]
    ensures multiset(order[..|order| - 1]) == multiset(OpsOf(events[..i] + events[i + 1..], key))
  {
    var last := |order| - 1;
    assert order == order[..last] + [order[last]];
    OpsWithout(events, key, i);
    SumCancels(multiset(order[..last]), multiset(OpsOf(events[..i] + events[i + 1..], key)), multiset([order[last]]));
  }

  lemma EventPutBack(events: seq<HistoryEvent>, i: nat, init: seq<HistoryEvent>)
    requires i < |events| && multiset(init) == multiset(events[..i] + events[i + 1..])
    ensures multiset(init + [events[i]]) == multiset(events)
  {
    assert events == events[..i] + [events[i]] + events[i + 1..];
  }

  /** An order of the operations is that of some order of the events. */
  lemma {:induction false} OrderOfEvents(events: seq<HistoryEvent>, order: seq<OpEntry>, key: string)
    returns (taken: seq<HistoryEvent>)
    requires multiset(order) == multiset(OpsOf(events, key)) && AllSpeak(events, key)
    ensures multiset(taken) == multiset(events) && OpsOf(taken, key) == order
    decreases |order|
  {
    if order == [] {
      NoOpsNoEvents(events, key);
      taken := [];
    } else {
      var i := LastEvent(events, order, key);
      RestOfOrder(events, order, key, i);
      var init := OrderOfEvents(events[..i] + events[i + 1..], order[..|order| - 1], key);
      taken := init + [events[i]];
      EventPutBack(events, i, init);
      LastTaken(init, events[i], order, key);
    }
  }

  lemma LastTaken(init: seq<HistoryEvent>, e: HistoryEvent, order: seq<OpEntry>, key: string)
    requires order != [] && OpsOf(init, key) == order[..|order| - 1]
    requires Concerns(e, key) && EntriesOf(e) == [order[|order| - 1]]
    ensures OpsOf(init + [e], key) == order
  {
    OpsConcat(init, [e], key);
    OpsOfOne(e, key);
  }

  lemma NoOpsNoEvents(events: seq<HistoryEvent>, key: string)
    requires multiset(OpsOf(events, key)) == multiset([]) && AllSpeak(events, key)
    ensures events == []
  {
    assert |multiset(OpsOf(events, key))| == |OpsOf(events, key)|;
    if events != [] {
      assert events[0] in events;
      SpeaksExactly(events[0]);
      OpOfEvent(events, key, 0, |events|);
    }
  }

  /** The values between the events of an order whose operations run. */
  lemma ValuesBetween(taken: seq<HistoryEvent>, key: string) returns (values: seq<Option<string>>)
    requires Run(None, OpsOf(taken, key)).Some? && AllSpeak(taken, key)
    ensures |values| == |taken| + 1 && values[0] == None && values[|taken|] == Run(None, OpsOf(taken, key)).value
    ensures forall i :: 0 <= i < |taken| ==> Witnesses(values[i], taken[i], values[i + 1])
    decreases |taken|
  {
    if taken == [] {
      values := [None];
    } else {
      var last := |taken| - 1;
      var init, e := taken[..last], taken[last];
      SpeaksExactly(e);
      var entry := EntryOf(e, OperationOf(e).value);
      assert OpsOf(taken, key) == OpsOf(init, key) + [entry];
      RunReaches(None, OpsOf(taken, key), |OpsOf(init, key)|);
      assert OpsOf(taken, key)[..|OpsOf(init, key)|] == OpsOf(init, key);
      var before := ValuesBetween(init, key);
      RunAppend(None, OpsOf(init, key), entry);
      values := before + [Run(None, OpsOf(taken, key)).value];
      OperationMeans(e, values[last], values[last + 1]);
    }
  }

  lemma EventsRespect(taken: seq<HistoryEvent>, key: string)
    requires Respects(OpsOf(taken, key)) && AllSpeak(taken, key)
    ensures forall i, j :: 0 <= i < j < |taken| ==> !HappenedBefore(taken[j], taken[i])
  {
    forall i, j | 0 <= i < j < |taken| ensures !HappenedBefore(taken[j], taken[i]) {
      SpeaksExactly(taken[i]);
      SpeaksExactly(taken[j]);
      OpOfEvent(taken, key, i, j);
      OpOfEvent(taken, key, j, |taken|);
    }
  }

  /** A history with a legal serial order can have happened. */
  lemma SerializableHappened(events: seq<HistoryEvent>, key: string, finals: seq<Option<string>>)
    requires Serializable(OpsOf(events, key), finals)
    ensures Happened(events, key, finals)
  {
    var order: seq<OpEntry> :| multiset(order) == multiset(OpsOf(events, key)) && Explains(order, None, finals);
    OpsOfKeyEvents(events, key);
    var taken := OrderOfEvents(KeyEvents(events, key), order, key);
    StillConcern(taken, KeyEvents(events, key), key);
    var values := ValuesBetween(taken, key);
    EventsRespect(taken, key);
    assert TookPlace(taken, values) && EndsIn(finals, values[|taken|]);
  }

  lemma StillConcern(a: seq<HistoryEvent>, b: seq<HistoryEvent>, key: string)
    requires multiset(a) == multiset(b) && AllSpeak(b, key)
    ensures AllSpeak(a, key)
  {
    forall e | e in a ensures Concerns(e, key) && Speaks(e) {
      assert e in multiset(a);
      assert e in multiset(b);
    }
  }

  lemma TookPlaceExplains(taken: seq<HistoryEvent>, values: seq<Option<string>>, key: string,
      finals: seq<Option<string>>)
    requires TookPlace(taken, values) && EndsIn(finals, values[|taken|]) && forall e :: e in taken ==> Concerns(e, key)
    ensures Explains(OpsOf(taken, key), None, finals)
  {
    TakenOrderRuns(taken, values, key, |taken|);
    assert taken[..|taken|] == taken;
    TakenOrderRespects(taken, key);
  }

  /** Every outcome of the key is known and its history is short enough to search. */
  ghost predicate Decidable(events: seq<HistoryEvent>, key: string) {
    KnownOutcomes(events, key) && |KeyEvents(events, key)| <= MAX_SERIALIZABLE_EVENTS_PER_SHARED_KEY
  }

  lemma {:induction false} OpsCount(events: seq<HistoryEvent>, key: string)
    ensures |OpsOf(events, key)| == |KeyEvents(events, key)|
    decreases |events|
  {
    if events != [] {
      OpsCount(events[..|events| - 1], key);
      SpeaksExactly(events[|events| - 1]);
    }
  }

  /** A history that cannot have happened did not, whatever was read at the end. */
  lemma ImpossibleNeverHappened(events: seq<HistoryEvent>, key: string, finals: seq<Option<string>>)
    requires Impossible(events, key)
    ensures !Happened(events, key, finals)
  {
    ImpossibleHasNoOrder(events, key, finals);
    if Happened(events, key, finals) { HappenedIsSerializable(events, key, finals); }
  }

  // ----- The checker -----

  function Flat<T>(groups: seq<seq<T>>): seq<T> {
    if groups == [] then [] else Flat(groups[..|groups| - 1]) + groups[|groups| - 1]
  }

  ghost predicate Collected(events: seq<HistoryEvent>, expectations: map<string, Expectation>,
      operations: map<string, seq<OpEntry>>) {
    forall k: string ::
      && ExpectationOf(events, k) == (if k in expectations then Some(expectations[k]) else None)
      && (k in operations <==> OpsOf(events, k) != []) && (k in operations ==> operations[k] == OpsOf(events, k))
  }

  /** Records one event, creating the entries of its key when it is first seen. */
  method Collect(e: HistoryEvent, expectations: map<string, Expectation>, operations: map<string, seq<OpEntry>>,
      ghost events: seq<HistoryEvent>)
    returns (expectations': map<string, Expectation>, operations': map<string, seq<OpEntry>>)
    requires Collected(events, expectations, operations)
    ensures Collected(events + [e], expectations', operations')
  {
    assert (events + [e])[..|events|] == events;
    expectations', operations' := expectations, operations;
    if Shared(e.key) {
      var expectation := if e.key in expectations then expectations[e.key] else NO_EXPECTATION;
      expectations' := expectations[e.key := Expect(expectation, e)];
      var operation := OperationOf(e);
      if operation.Some? {
        var entries := if e.key in operations then operations[e.key] else [];
        operations' := operations[e.key := entries + [EntryOf(e, operation.value)]];
      }
    }
  }

  method CollectAll(histories: seq<seq<HistoryEvent>>)
    returns (expectations: map<string, Expectation>, operations: map<string, seq<OpEntry>>)
    ensures Collected(Flat(histories), expectations, operations)
  {
    expectations, operations := map[], map[];
    for h := 0 to |histories|
      invariant Collected(Flat(histories[..h]), expectations, operations)
    {
      ghost var before := Flat(histories[..h]);
      assert before + histories[h][..0] == before;
      for i := 0 to |histories[h]|
        invariant Collected(before + histories[h][..i], expectations, operations)
      {
        expectations, operations := Collect(histories[h][i], expectations, operations, before + histories[h][..i]);
        assert before + histories[h][..i] + [histories[h][i]] == before + histories[h][..i + 1];
      }
      assert histories[..h + 1][..h] == histories[..h];
      assert histories[h][..|histories[h]|] == histories[h];
    }
    assert histories[..|histories|] == histories;
  }

  predicate Named(observed: seq<SharedKeyRead>, key: string) {
    FinalReads(observed, key) != []
  }

  ghost predicate Screened(events: seq<HistoryEvent>, observed: seq<SharedKeyRead>, key: string) {
    exists i :: 0 <= i < |FinalReads(observed, key)|
      && Refused(ExpectationOf(events, key), FinalReads(observed, key)[i])
  }

  ghost predicate Flagged(anomalies: seq<Anomaly>, key: string) {
    exists i :: 0 <= i < |anomalies| && anomalies[i].key == key
  }

  ghost predicate ScreenState(events: seq<HistoryEvent>, observed: seq<SharedKeyRead>, anomalies: seq<Anomaly>,
      anomalous: set<string>, unclassified: set<string>) {
    && (forall k: string :: k in anomalous <==> Screened(events, observed, k))
    && (forall k: string :: k in unclassified <==> HasUnknown(events, k) && Named(observed, k))
    && (forall k: string :: k in anomalous <==> Flagged(anomalies, k))
  }

  lemma ScreenedGrows(events: seq<HistoryEvent>, observed: seq<SharedKeyRead>, r: SharedKeyRead, key: string)
    ensures Screened(events, observed + [r], key) <==>
            Screened(events, observed, key) || (r.key == key && Refused(ExpectationOf(events, key), r.actual))
    ensures Named(observed + [r], key) <==> Named(observed, key) || r.key == key
  {
    assert (observed + [r])[..|observed|] == observed;
    var before, after := FinalReads(observed, key), FinalReads(observed + [r], key);
    assert r.key != key ==> after == before;
    if r.key == key {
      assert after == before + [r.actual];
      if Screened(events, observed, key) {
        var i :| 0 <= i < |before| && Refused(ExpectationOf(events, key), before[i]);
        assert after[i] == before[i];
      }
      if Refused(ExpectationOf(events, key), r.actual) { assert after[|before|] == r.actual; }
    }
  }

  lemma AnomaliesGrow(anomalies: seq<Anomaly>, a: Anomaly, key: string)
    ensures Flagged(anomalies + [a], key) <==> Flagged(anomalies, key) || a.key == key
  {
    if Flagged(anomalies, key) {
      var i :| 0 <= i < |anomalies| && anomalies[i].key == key;
      assert (anomalies + [a])[i].key == key;
    }
    if a.key == key { assert (anomalies + [a])[|anomalies|].key == key; }
  }

  /** Screens every audit read against the expectations of its key. */
  method Screen(observed: seq<SharedKeyRead>, expectations: map<string, Expectation>,
      operations: map<string, seq<OpEntry>>, ghost events: seq<HistoryEvent>)
    returns (anomalies: seq<Anomaly>, anomalous: set<string>, unclassified: set<string>)
    requires Collected(events, expectations, operations)
    ensures ScreenState(events, observed, anomalies, anomalous, unclassified)
  {
    anomalies, anomalous, unclassified := [], {}, {};
    for i := 0 to |observed|
      invariant ScreenState(events, observed[..i], anomalies, anomalous, unclassified)
    {
      var read := observed[i];
      assert observed[..i + 1] == observed[..i] + [read];
      forall k: string
        ensures Screened(events, observed[..i + 1], k) <==>
                Screened(events, observed[..i], k) || (read.key == k && Refused(ExpectationOf(events, k), read.actual))
        ensures Named(observed[..i + 1], k) <==> Named(observed[..i], k) || read.key == k
      {
        ScreenedGrows(events, observed[..i], read, k);
      }
      assert ExpectationOf(events, read.key) == if read.key in expectations then Some(expectations[read.key]) else None;
      var refused := false;
      if read.key !in expectations {
        refused := read.actual.Some?;
      } else if expectations[read.key].hasUnknown {
        unclassified := unclassified + {read.key};
      } else {
        var x := expectations[read.key];
        refused := if read.actual.Some? then read.actual.value !in x.possible
          else !x.absentPossible && x.possible != {};
      }
      if refused {
        ghost var was := anomalies;
        anomalies := anomalies + [Anomaly(FinalStateUnexplained, read.key)];
        anomalous := anomalous + {read.key};
        forall k: string ensures Flagged(anomalies, k) <==> Flagged(was, k) || read.key == k {
          AnomaliesGrow(was, Anomaly(FinalStateUnexplained, read.key), k);
        }
      }
    }
    assert observed[..|observed|] == observed;
  }

  /** The keys the search still has to decide. */
  ghost predicate Searchable(events: seq<HistoryEvent>, observed: seq<SharedKeyRead>, key: string) {
    OpsOf(events, key) != [] && !Screened(events, observed, key) && !(HasUnknown(events, key) && Named(observed, key))
  }

  ghost predicate Searched(events: seq<HistoryEvent>, observed: seq<SharedKeyRead>, pending: set<string>,
      anomalies: seq<Anomaly>, unclassified: set<string>) {
    && (forall k: string :: Flagged(anomalies, k) <==>
          || Screened(events, observed, k)
          || (k !in pending && Searchable(events, observed, k)
            && |OpsOf(events, k)| <= MAX_SERIALIZABLE_EVENTS_PER_SHARED_KEY
              && !Serializable(OpsOf(events, k), FinalReads(observed, k))))
    && (forall k: string :: k in unclassified <==>
          || (HasUnknown(events, k) && Named(observed, k))
          || (k !in pending && Searchable(events, observed, k)
            && |OpsOf(events, k)| > MAX_SERIALIZABLE_EVENTS_PER_SHARED_KEY))
  }

  method CollectReads(observed: seq<SharedKeyRead>, key: string) returns (finals: seq<Option<string>>)
    ensures finals == FinalReads(observed, key)
  {
    finals := [];
    for i := 0 to |observed|
      invariant finals == FinalReads(observed[..i], key)
    {
      assert observed[..i + 1][..i] == observed[..i];
      if observed[i].key == key {
        finals := finals + [observed[i].actual];
      }
    }
    assert observed[..|observed|] == observed;
  }

  /** Runs the search for every key the screen left open. */
  method SearchKeys(observed: seq<SharedKeyRead>, operations: map<string, seq<OpEntry>>,
      less: (OpEntry, OpEntry) -> bool,
                    screened: seq<Anomaly>, anomalous: set<string>, skipped: set<string>,
                    ghost events: seq<HistoryEvent>, ghost expectations: map<string, Expectation>)
    returns (anomalies: seq<Anomaly>, unclassified: set<string>, constraints: nat)
    requires Collected(events, expectations, operations) && ScreenState(events, observed, screened, anomalous, skipped)
    ensures Searched(events, observed, {}, anomalies, unclassified)
  {
    anomalies, unclassified, constraints := screened, skipped, 0;
    var pending := operations.Keys;
    while pending != {}
      invariant pending <= operations.Keys
      invariant Searched(events, observed, pending, anomalies, unclassified)
      decreases |pending|
    {
      var key :| key in pending;
      assert Searchable(events, observed, key) <==> key !in anomalous && key !in skipped;
      SearchedNext(events, observed, pending, key, anomalies, unclassified);
      pending := pending - {key};
      if key in anomalous || key in skipped {
        continue;
      }
      if |operations[key]| > MAX_SERIALIZABLE_EVENTS_PER_SHARED_KEY {
        unclassified := unclassified + {key};
        continue;
      }
      var finals := CollectReads(observed, key);
      var serializable, count := CheckSerializable(operations[key], finals, less);
      constraints := constraints + count;
      if !serializable {
        anomalies := anomalies + [Anomaly(HistoryNotSerializable, key)];
      }
    }
  }

  /** What deciding one more key does to the report. */
  lemma SearchedNext(events: seq<HistoryEvent>, observed: seq<SharedKeyRead>, pending: set<string>, key: string,
      anomalies: seq<Anomaly>, unclassified: set<string>)
    requires Searched(events, observed, pending, anomalies, unclassified) && key in pending
    ensures var long := |OpsOf(events, key)| > MAX_SERIALIZABLE_EVENTS_PER_SHARED_KEY;
            var bad := !Serializable(OpsOf(events, key), FinalReads(observed, key));
            Searched(events, observed, pending - {key},
                     if Searchable(events, observed, key) && !long && bad
                     then anomalies + [Anomaly(HistoryNotSerializable, key)] else anomalies,
                     if Searchable(events, observed, key) && long then unclassified + {key} else unclassified)
  {
    forall k: string
      ensures Flagged(anomalies + [Anomaly(HistoryNotSerializable, key)], k) <==> Flagged(anomalies, k) || k == key {
      AnomaliesGrow(anomalies, Anomaly(HistoryNotSerializable, key), k);
    }
  }

  lemma EmptySerializable(finals: seq<Option<string>>)
    ensures Serializable([], finals) <==> EndsIn(finals, None)
  {
    if EndsIn(finals, None) {
      var order: seq<OpEntry> := [];
      assert multiset(order) == multiset([]) && Explains(order, None, finals);
    }
    forall order: seq<OpEntry> | multiset(order) == multiset([]) && Explains(order, None, finals)
      ensures EndsIn(finals, None) {
      assert |multiset(order)| == |order|;
    }
  }

  /** A key without operations is screened exactly when some final read saw a value. */
  lemma NoOpsScreen(events: seq<HistoryEvent>, observed: seq<SharedKeyRead>, key: string)
    requires OpsOf(events, key) == [] && !HasUnknown(events, key)
    ensures Screened(events, observed, key) <==> !Serializable([], FinalReads(observed, key))
  {
    ExpectationMatchesOps(events, key);
    EmptySerializable(FinalReads(observed, key));
    var finals := FinalReads(observed, key);
    forall i | 0 <= i < |finals| ensures Refused(ExpectationOf(events, key), finals[i]) <==> finals[i] != None {}
  }

  lemma TwoEvents(a: HistoryEvent, b: HistoryEvent, key: string)
    requires Concerns(a, key) && Concerns(b, key)
    ensures OpsOf([a, b], key) == EntriesOf(a) + EntriesOf(b)
    ensures ExpectationOf([a, b], key) == Some(Expect(Expect(NO_EXPECTATION, a), b))
  {
    assert [a, b][..1] == [a] && [a][..0] == [];
    assert OpsOf([], key) == [] && OpsOf([a], key) == EntriesOf(a);
    assert ExpectationOf([a], key) == Some(Expect(NO_EXPECTATION, a));
  }

  /** A lone read of a value has no legal order; after a write of that value it has one. */
  lemma ReadNeedsWrite(write: OpEntry, read: OpEntry, v: string)
    requires write.op == Write(v) && read.op == Read(Some(v)) && !MustPrecede(read, write)
    ensures !Serializable([read], []) && Serializable([write, read], [])
  {
    forall order: seq<OpEntry> | multiset(order) == multiset([read]) ensures !Explains(order, None, []) {
      assert |multiset(order)| == |order| && order[0] in multiset(order);
      assert order[0] == read;
    }
    var order := [write, read];
    assert order[1..] == [read] && [read][1..] == [];
    assert Run(Some(v), [read]) == Some(Some(v));
    assert Explains(order, None, []);
  }

  /** A put of a value that may have happened, and a committed read that saw the value. */
  predicate SawUnknownPut(put: HistoryEvent, read: HistoryEvent, key: string, v: string) {
    && Concerns(put, key) && put.kind.PutKind? && put.value == Some(v) && put.outcome.Unknown?
    && Concerns(read, key) && read.kind.ReadKind? && read.value == Some(v) && read.outcome.Committed?
    && !MustPrecede(EntryOf(read, Read(Some(v))), EntryOf(put, Write(v)))
  }

  lemma SawUnknownPutOps(put: HistoryEvent, read: HistoryEvent, key: string, v: string)
    requires SawUnknownPut(put, read, key, v)
    ensures OpsOf([put, read], key) == [EntryOf(read, Read(Some(v)))]
    ensures HasUnknown([put, read], key)
    ensures OpsOf([put.(outcome := Committed), read], key) == [EntryOf(put, Write(v)), EntryOf(read, Read(Some(v)))]
  {
    TwoEvents(put, read, key);
    TwoEvents(put.(outcome := Committed), read, key);
  }

  /** A key that no audit read names is judged by its known outcomes alone: a read that saw a put
      of unknown outcome is searched for and has no legal order, so it is reported, although the
      put may have happened and then explains the read. */
  lemma UnknownPutMisjudged(put: HistoryEvent, read: HistoryEvent, key: string, v: string)
    requires SawUnknownPut(put, read, key, v)
    ensures HasUnknown([put, read], key) && Searchable([put, read], [], key) && |OpsOf([put, read], key)| == 1
    ensures !Serializable(OpsOf([put, read], key), FinalReads([], key))
    ensures Serializable(OpsOf([put.(outcome := Committed), read], key), FinalReads([], key))
  {
    SawUnknownPutOps(put, read, key, v);
    ReadNeedsWrite(EntryOf(put, Write(v)), EntryOf(read, Read(Some(v))), v);
    assert FinalReads([], key) == [];
  }

  lemma UnknownPutExists() returns (put: HistoryEvent, read: HistoryEvent, key: string, v: string)
    ensures SawUnknownPut(put, read, key, v)
  {
    key, v := "shared/k", "v";
    assert Shared(key);
    put := HistoryEvent(1, 1, 0, 0, PutKind, key, Some(v), Unknown);
    read := HistoryEvent(1, 2, 0, 0, ReadKind, key, Some(v), Committed);
  }

  /** Over all histories and audits: which keys are reported and which are left unclassified. In
      particular a key whose outcomes are all known and whose history is within the search limit
      is reported exactly when no legal serial order explains it. */
  method CheckSharedKeyAudits(histories: seq<seq<HistoryEvent>>, audits: seq<seq<SharedKeyRead>>,
      less: (OpEntry, OpEntry) -> bool) returns (report: Report)
    ensures forall k: string :: Flagged(report.anomalies, k) <==>
      || Screened(Flat(histories), Flat(audits), k)
      || (Searchable(Flat(histories), Flat(audits), k)
        && |OpsOf(Flat(histories), k)| <= MAX_SERIALIZABLE_EVENTS_PER_SHARED_KEY
        && !Serializable(OpsOf(Flat(histories), k), FinalReads(Flat(audits), k)))
    ensures forall k: string ::
            !HasUnknown(Flat(histories), k) && |OpsOf(Flat(histories), k)| <= MAX_SERIALIZABLE_EVENTS_PER_SHARED_KEY ==>
      (Flagged(report.anomalies, k) <==> !Serializable(OpsOf(Flat(histories), k), FinalReads(Flat(audits), k)))
    ensures forall k: string :: Decidable(Flat(histories), k) ==>
            (Flagged(report.anomalies, k) <==> !Happened(Flat(histories), k, FinalReads(Flat(audits), k)))
    ensures forall k: string :: Happened(Flat(histories), k, FinalReads(Flat(audits), k)) ==>
            !Flagged(report.anomalies, k)
    ensures forall k: string :: k in report.unclassified <==>
      || (HasUnknown(Flat(histories), k) && Named(Flat(audits), k))
      || (Searchable(Flat(histories), Flat(audits), k)
        && |OpsOf(Flat(histories), k)| > MAX_SERIALIZABLE_EVENTS_PER_SHARED_KEY)
  {
    ghost var events := Flat(histories);
    var observed := Flat(audits);
    var expectations, operations := CollectAll(histories);
    var screened, anomalous, skipped := Screen(observed, expectations, operations, events);
    var anomalies, unclassified, constraints :=
      SearchKeys(observed, operations, less, screened, anomalous, skipped, events, expectations);
    report := Report(anomalies, unclassified, constraints);
    forall k: string | !HasUnknown(events, k) && |OpsOf(events, k)| <= MAX_SERIALIZABLE_EVENTS_PER_SHARED_KEY
      ensures Flagged(anomalies, k) <==> !Serializable(OpsOf(events, k), FinalReads(observed, k))
    {
      if OpsOf(events, k) == [] {
        NoOpsScreen(events, observed, k);
      } else if Screened(events, observed, k) {
        var i :| 0 <= i < |FinalReads(observed, k)| && Refused(ExpectationOf(events, k), FinalReads(observed, k)[i]);
        ScreenIsSound(events, k, FinalReads(observed, k), i);
      }
    }
    forall k: string | Happened(events, k, FinalReads(observed, k)) ensures !Flagged(anomalies, k) {
      HappenedIsSerializable(events, k, FinalReads(observed, k));
      if Screened(events, observed, k) {
        var i :| 0 <= i < |FinalReads(observed, k)| && Refused(ExpectationOf(events, k), FinalReads(observed, k)[i]);
        ScreenIsSound(events, k, FinalReads(observed, k), i);
      }
    }
    forall k: string | Decidable(events, k)
      ensures Flagged(anomalies, k) <==> !Happened(events, k, FinalReads(observed, k))
    {
      UnknownExact(events, k);
      OpsCount(events, k);
      if !Flagged(anomalies, k) { SerializableHappened(events, k, FinalReads(observed, k)); }
    }
  }
}
