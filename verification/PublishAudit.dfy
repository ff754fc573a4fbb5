/** The publish audit: a durable snapshot against the retained publish attempts. */
module PublishAudit {
  import opened Outcomes

  datatype PublishOutcome = Acknowledged | Rejected | Unknown

  datatype PublishAttempt = PublishAttempt(messageId: string, outcome: PublishOutcome, body: string, arns: seq<string>)

  datatype Intent = Intent(messageId: string, body: string, arns: seq<string>)

  datatype Delivery = Delivery(recordId: string, messageId: string, arn: string, body: Option<string>, terminal: bool)

  datatype Phase = Accepted | Materialized | Terminal

  // ----- What an acceptable snapshot is -----

  ghost predicate Distinct(s: seq<string>) {
    forall i, j :: 0 <= i < j < |s| ==> s[i] != s[j]
  }

  ghost predicate UniqueAttempts(attempts: seq<PublishAttempt>) {
    forall i, j :: 0 <= i < j < |attempts| ==> attempts[i].messageId != attempts[j].messageId
  }

  ghost predicate UniqueRecords(deliveries: seq<Delivery>) {
    forall i, j :: 0 <= i < j < |deliveries| ==> deliveries[i].recordId != deliveries[j].recordId
  }

  ghost predicate Attempted(attempts: seq<PublishAttempt>, id: string) {
    exists i :: 0 <= i < |attempts| && attempts[i].messageId == id
  }

  ghost predicate NoIntent(a: PublishAttempt, intents: seq<Intent>) {
    forall x :: x in intents ==> x.messageId != a.messageId
  }

  ghost predicate NoDelivery(a: PublishAttempt, deliveries: seq<Delivery>) {
    forall d :: d in deliveries ==> d.messageId != a.messageId
  }

  /** Exactly one intent, for the same body and the same subscriptions. */
  ghost predicate OneIntent(a: PublishAttempt, intents: seq<Intent>) {
    exists k :: 0 <= k < |intents| && OnlyIntent(a, intents, k)
  }

  ghost predicate OnlyIntent(a: PublishAttempt, intents: seq<Intent>, k: nat)
    requires k < |intents|
  {
    && intents[k].messageId == a.messageId && intents[k].body == a.body
    && Distinct(intents[k].arns) && (forall x :: x in intents[k].arns <==> x in a.arns)
    && forall j :: 0 <= j < |intents| && j != k ==> intents[j].messageId != a.messageId
  }

  predicate Faithful(a: PublishAttempt, d: Delivery, phase: Phase) {
    d.recordId == d.arn + ":" + a.messageId && d.body == Some(a.body) && (phase.Terminal? ==> d.terminal)
  }

  ghost predicate DeliveredTo(a: PublishAttempt, deliveries: seq<Delivery>, k: nat, arn: string) {
    k < |deliveries| && deliveries[k].messageId == a.messageId && deliveries[k].arn == arn
  }

  /** The attempt's deliveries are faithful and in bijection with its subscriptions. */
  ghost predicate FannedOut(a: PublishAttempt, deliveries: seq<Delivery>, phase: Phase) {
    && (forall d :: d in deliveries && d.messageId == a.messageId ==> Faithful(a, d, phase) && d.arn in a.arns)
    && (forall arn :: arn in a.arns ==> exists k: nat :: DeliveredTo(a, deliveries, k, arn))
    && (forall j: nat, k: nat, arn: string ::
         DeliveredTo(a, deliveries, j, arn) && DeliveredTo(a, deliveries, k, arn) ==> j == k)
  }

  /** What an attempt's outcome allows in a phase. */
  ghost predicate AttemptAcceptable(a: PublishAttempt, intents: seq<Intent>, deliveries: seq<Delivery>, phase: Phase) {
    var nothing := NoIntent(a, intents) && NoDelivery(a, deliveries);
    var pending := OneIntent(a, intents) && NoDelivery(a, deliveries);
    var fannedOut := NoIntent(a, intents) && FannedOut(a, deliveries, phase);
    && Distinct(a.arns)
    && match a.outcome
       case Rejected => nothing
       case Acknowledged => (pending && phase.Accepted?) || fannedOut
       case Unknown => nothing || pending || fannedOut
  }

  ghost predicate Acceptable(attempts: seq<PublishAttempt>, intents: seq<Intent>, deliveries: seq<Delivery>,
      phase: Phase) {
    && UniqueAttempts(attempts) && UniqueRecords(deliveries)
    && (forall x :: x in intents ==> Attempted(attempts, x.messageId))
    && (forall d :: d in deliveries ==> Attempted(attempts, d.messageId))
    && (forall a :: a in attempts ==> AttemptAcceptable(a, intents, deliveries, phase))
  }

  // ----- Selections -----

  function IntentsFor(id: string, intents: seq<Intent>): (r: seq<Intent>)
    ensures forall x :: x in r <==> x in intents && x.messageId == id
  {
    if intents == [] then []
    else
      var last := intents[|intents| - 1];
      IntentsFor(id, intents[..|intents| - 1]) + (if last.messageId == id then [last] else [])
  }

  function DeliveriesFor(id: string, deliveries: seq<Delivery>): (r: seq<Delivery>)
    ensures forall d :: d in r <==> d in deliveries && d.messageId == id
  {
    if deliveries == [] then []
    else
      var last := deliveries[|deliveries| - 1];
      DeliveriesFor(id, deliveries[..|deliveries| - 1]) + (if last.messageId == id then [last] else [])
  }

  lemma {:induction false} SelectedRecordsUnique(id: string, deliveries: seq<Delivery>)
    requires UniqueRecords(deliveries)
    ensures UniqueRecords(DeliveriesFor(id, deliveries))
  {
    if deliveries != [] {
      var init := deliveries[..|deliveries| - 1];
      SelectedRecordsUnique(id, init);
      var r := DeliveriesFor(id, init);
      forall i | 0 <= i < |r| ensures r[i].recordId != deliveries[|deliveries| - 1].recordId {
        assert r[i] in init;
        var k :| 0 <= k < |init| && init[k] == r[i];
        assert deliveries[k] == r[i];
      }
    }
  }

  lemma {:induction false} OneSelected(a: PublishAttempt, intents: seq<Intent>, k: nat)
    requires k < |intents| && intents[k].messageId == a.messageId
    requires forall j :: 0 <= j < |intents| && j != k ==> intents[j].messageId != a.messageId
    ensures IntentsFor(a.messageId, intents) == [intents[k]]
    decreases |intents|
  {
    var init := intents[..|intents| - 1];
    if k < |init| {
      OneSelected(a, init, k);
    } else {
      assert forall j :: 0 <= j < |init| ==> init[j].messageId != a.messageId;
      NothingSelected(a, init, []);
    }
  }

  lemma {:induction false} SelectedIsOnly(a: PublishAttempt, intents: seq<Intent>) returns (k: nat)
    requires |IntentsFor(a.messageId, intents)| == 1
    ensures k < |intents| && intents[k] == IntentsFor(a.messageId, intents)[0] && intents[k].messageId == a.messageId
    ensures forall j :: 0 <= j < |intents| && j != k ==> intents[j].messageId != a.messageId
    decreases |intents|
  {
    var init := intents[..|intents| - 1];
    var last := intents[|init|];
    if last.messageId == a.messageId {
      k := |init|;
      assert IntentsFor(a.messageId, init) == [];
      NothingSelected(a, init, []);
      forall j | 0 <= j < |init| ensures intents[j].messageId != a.messageId {
        assert init[j] in init;
      }
    } else {
      k := SelectedIsOnly(a, init);
      assert forall j :: 0 <= j < |init| ==> intents[j] == init[j];
    }
  }

  // ----- Subscription sets -----

  function ToSet(s: seq<string>): set<string> {
    set x | x in s
  }

  /** A list and the set of its elements have the same size exactly when nothing repeats. */
  lemma {:induction false} SetSize(s: seq<string>)
    ensures |ToSet(s)| <= |s|
    ensures |ToSet(s)| == |s| <==> Distinct(s)
  {
    if s != [] {
      SetSize(s[..|s| - 1]);
      SetSizeStep(s);
      DistinctStep(s);
    }
  }

  lemma SetSizeStep(s: seq<string>)
    requires s != []
    ensures var init, last := s[..|s| - 1], s[|s| - 1];
            |ToSet(s)| == |ToSet(init)| + (if last in init then 0 else 1)
  {
    var init, last := s[..|s| - 1], s[|s| - 1];
    assert s == init + [last];
    assert ToSet(s) == ToSet(init) + {last};
    if last in init {
      assert ToSet(s) == ToSet(init);
    }
  }

  lemma DistinctStep(s: seq<string>)
    requires s != []
    ensures var init, last := s[..|s| - 1], s[|s| - 1];
            Distinct(s) <==> Distinct(init) && last !in init
  {
    var init, last := s[..|s| - 1], s[|s| - 1];
    if last in init {
      var k :| 0 <= k < |init| && init[k] == last;
      assert s[k] == s[|s| - 1];
    } else if Distinct(init) {
      forall i, j | 0 <= i < j < |s| ensures s[i] != s[j] {
        assert s[i] == init[i];
        if j < |init| { assert s[j] == init[j]; }
      }
    } else {
      var i, j :| 0 <= i < j < |init| && init[i] == init[j];
      assert s[i] == s[j];
    }
  }

  method CollectUniqueSubscriptions(arns: seq<string>) returns (ok: bool, unique: set<string>)
    ensures ok <==> Distinct(arns)
    ensures unique == ToSet(arns)
  {
    unique := ToSet(arns);
    SetSize(arns);
    ok := |unique| == |arns|;
  }

  // ----- The checks -----

  method CheckDeliveryFanout(a: PublishAttempt, deliveries: seq<Delivery>, phase: Phase) returns (ok: bool)
    ensures ok <==> (forall d :: d in deliveries ==> Faithful(a, d, phase))
                    && (deliveries == [] || ToSet(Arns(deliveries)) == ToSet(a.arns))
  {
    var subscriptions: set<string> := {};
    for k := 0 to |deliveries|
      invariant subscriptions == ToSet(Arns(deliveries[..k]))
      invariant forall d :: d in deliveries[..k] ==> Faithful(a, d, phase)
    {
      var d := deliveries[k];
      assert d in deliveries;
      assert deliveries[..k + 1] == deliveries[..k] + [d];
      if d.recordId != d.arn + ":" + a.messageId {
        return false;
      }
      if d.body != Some(a.body) {
        return false;
      }
      subscriptions := subscriptions + {d.arn};
      ArnsAppend(deliveries[..k], d);
      if phase.Terminal? && !d.terminal {
        return false;
      }
    }
    assert deliveries[..|deliveries|] == deliveries;
    return deliveries == [] || subscriptions == ToSet(a.arns);
  }

  function Arns(deliveries: seq<Delivery>): (r: seq<string>)
    ensures |r| == |deliveries|
  {
    seq(|deliveries|, i requires 0 <= i < |deliveries| => deliveries[i].arn)
  }

  lemma ArnsAppend(s: seq<Delivery>, d: Delivery)
    ensures ToSet(Arns(s + [d])) == ToSet(Arns(s)) + {d.arn}
  {
    assert Arns(s + [d]) == Arns(s) + [d.arn];
  }

  predicate AcceptanceAllows(a: PublishAttempt, hasIntent: bool, deliveryCount: nat, phase: Phase) {
    match a.outcome
    case Rejected => !hasIntent && deliveryCount == 0
    case Acknowledged => if hasIntent then phase.Accepted? else deliveryCount == |a.arns|
    case Unknown => true
  }

  /** Deliveries with unique records fill distinct subscriptions, so filling all of them
      means one delivery for each. */
  lemma FanoutIsBijection(a: PublishAttempt, deliveries: seq<Delivery>, phase: Phase)
    requires UniqueRecords(deliveries) && Distinct(a.arns)
    requires forall d :: d in DeliveriesFor(a.messageId, deliveries) ==> Faithful(a, d, phase)
    requires ToSet(Arns(DeliveriesFor(a.messageId, deliveries))) == ToSet(a.arns)
    ensures FannedOut(a, deliveries, phase)
    ensures |DeliveriesFor(a.messageId, deliveries)| == |a.arns|
  {
    var ds := DeliveriesFor(a.messageId, deliveries);
    forall d | d in ds ensures d.arn in a.arns {
      var i :| 0 <= i < |ds| && ds[i] == d;
      assert Arns(ds)[i] == d.arn;
      assert d.arn in ToSet(Arns(ds));
    }
    forall arn | arn in a.arns ensures exists k: nat :: DeliveredTo(a, deliveries, k, arn) {
      assert arn in ToSet(Arns(ds));
      var i :| 0 <= i < |ds| && Arns(ds)[i] == arn;
      assert ds[i] in deliveries;
      var k :| 0 <= k < |deliveries| && deliveries[k] == ds[i];
      assert DeliveredTo(a, deliveries, k, arn);
    }
    SelectedArnsDistinct(a, deliveries, phase);
    SetSize(Arns(ds));
    SetSize(a.arns);
  }

  lemma SelectedArnsDistinct(a: PublishAttempt, deliveries: seq<Delivery>, phase: Phase)
    requires UniqueRecords(deliveries)
    requires forall d :: d in DeliveriesFor(a.messageId, deliveries) ==> Faithful(a, d, phase)
    ensures Distinct(Arns(DeliveriesFor(a.messageId, deliveries)))
    ensures forall j: nat, k: nat, arn: string ::
            DeliveredTo(a, deliveries, j, arn) && DeliveredTo(a, deliveries, k, arn) ==> j == k
  {
    var ds := DeliveriesFor(a.messageId, deliveries);
    SelectedRecordsUnique(a.messageId, deliveries);
    forall i, j | 0 <= i < j < |ds| ensures Arns(ds)[i] != Arns(ds)[j] {
      assert ds[i] in ds && ds[j] in ds;
      assert Faithful(a, ds[i], phase) && Faithful(a, ds[j], phase);
    }
    forall j: nat, k: nat, arn: string | DeliveredTo(a, deliveries, j, arn) && DeliveredTo(a, deliveries, k, arn)
      ensures j == k {
      assert deliveries[j] in ds && deliveries[k] in ds;
      assert deliveries[j].recordId == deliveries[k].recordId;
    }
  }

  /** Conversely a bijection fills every subscription. */
  lemma BijectionIsFanout(a: PublishAttempt, deliveries: seq<Delivery>, phase: Phase)
    requires FannedOut(a, deliveries, phase)
    ensures forall d :: d in DeliveriesFor(a.messageId, deliveries) ==> Faithful(a, d, phase)
    ensures ToSet(Arns(DeliveriesFor(a.messageId, deliveries))) == ToSet(a.arns)
  {
    var ds := DeliveriesFor(a.messageId, deliveries);
    forall arn ensures arn in ToSet(Arns(ds)) <==> arn in ToSet(a.arns) {
      if arn in ToSet(Arns(ds)) {
        var i :| 0 <= i < |ds| && Arns(ds)[i] == arn;
        assert ds[i] in deliveries;
      }
      if arn in a.arns {
        var k: nat :| DeliveredTo(a, deliveries, k, arn);
        assert deliveries[k] in ds;
        var i :| 0 <= i < |ds| && ds[i] == deliveries[k];
        assert Arns(ds)[i] == arn;
      }
    }
  }

  /** What the checks of one attempt decide, in terms of the selected effects. */
  ghost predicate EffectsPass(a: PublishAttempt, intents: seq<Intent>, deliveries: seq<Delivery>, phase: Phase) {
    && Distinct(a.arns)
    && |intents| <= 1 && (intents == [] || deliveries == [])
    && (intents == []
         || (intents[0].body == a.body && Distinct(intents[0].arns) && ToSet(intents[0].arns) == ToSet(a.arns)))
    && (forall d :: d in deliveries ==> Faithful(a, d, phase))
    && (deliveries == [] || ToSet(Arns(deliveries)) == ToSet(a.arns))
    && AcceptanceAllows(a, intents != [], |deliveries|, phase)
  }

  lemma IntentMatches(a: PublishAttempt, intents: seq<Intent>)
    ensures OneIntent(a, intents) <==>
            var r := IntentsFor(a.messageId, intents);
            |r| == 1 && r[0].body == a.body && Distinct(r[0].arns) && ToSet(r[0].arns) == ToSet(a.arns)
  {
    var r := IntentsFor(a.messageId, intents);
    if OneIntent(a, intents) {
      var k :| 0 <= k < |intents| && OnlyIntent(a, intents, k);
      OneSelected(a, intents, k);
    } else if |r| == 1 {
      var k := SelectedIsOnly(a, intents);
      assert !OnlyIntent(a, intents, k);
      if ToSet(r[0].arns) == ToSet(a.arns) {
        assert forall x :: x in r[0].arns <==> x in ToSet(a.arns);
      }
    }
  }

  lemma NothingSelected(a: PublishAttempt, intents: seq<Intent>, deliveries: seq<Delivery>)
    ensures NoIntent(a, intents) <==> IntentsFor(a.messageId, intents) == []
    ensures NoDelivery(a, deliveries) <==> DeliveriesFor(a.messageId, deliveries) == []
  {
    var its, ds := IntentsFor(a.messageId, intents), DeliveriesFor(a.messageId, deliveries);
    if its != [] { assert its[0] in intents; }
    if ds != [] { assert ds[0] in deliveries; }
  }

  lemma FanoutExact(a: PublishAttempt, deliveries: seq<Delivery>, phase: Phase)
    requires UniqueRecords(deliveries) && Distinct(a.arns)
    ensures FannedOut(a, deliveries, phase) <==>
            var ds := DeliveriesFor(a.messageId, deliveries);
            (forall d :: d in ds ==> Faithful(a, d, phase)) && ToSet(Arns(ds)) == ToSet(a.arns) && |ds| == |a.arns|
  {
    var ds := DeliveriesFor(a.messageId, deliveries);
    if FannedOut(a, deliveries, phase) {
      BijectionIsFanout(a, deliveries, phase);
      FanoutIsBijection(a, deliveries, phase);
    } else if (forall d :: d in ds ==> Faithful(a, d, phase)) && ToSet(Arns(ds)) == ToSet(a.arns) {
      FanoutIsBijection(a, deliveries, phase);
      assert false;
    }
  }

  lemma PendingExact(a: PublishAttempt, intents: seq<Intent>, deliveries: seq<Delivery>, phase: Phase)
    requires Distinct(a.arns) && IntentsFor(a.messageId, intents) != []
    ensures EffectsPass(a, IntentsFor(a.messageId, intents), DeliveriesFor(a.messageId, deliveries), phase)
            <==> AttemptAcceptable(a, intents, deliveries, phase)
  {
    IntentMatches(a, intents);
    NothingSelected(a, intents, deliveries);
  }

  lemma AbsentExact(a: PublishAttempt, intents: seq<Intent>, deliveries: seq<Delivery>, phase: Phase)
    requires Distinct(a.arns) && UniqueRecords(deliveries)
    requires IntentsFor(a.messageId, intents) == [] && DeliveriesFor(a.messageId, deliveries) == []
    ensures EffectsPass(a, IntentsFor(a.messageId, intents), DeliveriesFor(a.messageId, deliveries), phase)
            <==> AttemptAcceptable(a, intents, deliveries, phase)
  {
    IntentMatches(a, intents);
    NothingSelected(a, intents, deliveries);
    FanoutExact(a, deliveries, phase);
    assert ToSet(Arns([])) == {};
    if |a.arns| == 0 {
      assert ToSet(a.arns) == {};
    }
  }

  lemma FannedOutExact(a: PublishAttempt, intents: seq<Intent>, deliveries: seq<Delivery>, phase: Phase)
    requires Distinct(a.arns) && UniqueRecords(deliveries)
    requires IntentsFor(a.messageId, intents) == [] && DeliveriesFor(a.messageId, deliveries) != []
    ensures EffectsPass(a, IntentsFor(a.messageId, intents), DeliveriesFor(a.messageId, deliveries), phase)
            <==> AttemptAcceptable(a, intents, deliveries, phase)
  {
    var ds := DeliveriesFor(a.messageId, deliveries);
    IntentMatches(a, intents);
    NothingSelected(a, intents, deliveries);
    FanoutExact(a, deliveries, phase);
    if (forall d :: d in ds ==> Faithful(a, d, phase)) && ToSet(Arns(ds)) == ToSet(a.arns) {
      FanoutIsBijection(a, deliveries, phase);
    }
  }

  lemma EffectsExact(a: PublishAttempt, intents: seq<Intent>, deliveries: seq<Delivery>, phase: Phase)
    requires UniqueRecords(deliveries)
    ensures EffectsPass(a, IntentsFor(a.messageId, intents), DeliveriesFor(a.messageId, deliveries), phase)
            <==> AttemptAcceptable(a, intents, deliveries, phase)
  {
    if Distinct(a.arns) {
      if IntentsFor(a.messageId, intents) != [] {
        PendingExact(a, intents, deliveries, phase);
      } else if DeliveriesFor(a.messageId, deliveries) == [] {
        AbsentExact(a, intents, deliveries, phase);
      } else {
        FannedOutExact(a, intents, deliveries, phase);
      }
    }
  }

  method CheckAttemptEffects(a: PublishAttempt, intents: seq<Intent>, deliveries: seq<Delivery>, phase: Phase)
    returns (ok: bool)
    requires UniqueRecords(deliveries)
    ensures ok <==> AttemptAcceptable(a, intents, deliveries, phase)
  {
    EffectsExact(a, intents, deliveries, phase);
    var unique, expected := CollectUniqueSubscriptions(a.arns);
    if !unique {
      return false;
    }
    var its, ds := IntentsFor(a.messageId, intents), DeliveriesFor(a.messageId, deliveries);
    if |its| > 1 {
      return false;
    }
    if its != [] && ds != [] {
      return false;
    }
    if its != [] {
      if its[0].body != a.body {
        return false;
      }
      var intentUnique, intentArns := CollectUniqueSubscriptions(its[0].arns);
      if !intentUnique || intentArns != expected {
        return false;
      }
    }
    var fanout := CheckDeliveryFanout(a, ds, phase);
    if !fanout {
      return false;
    }
    return AcceptanceAllows(a, its != [], |ds|, phase);
  }

  method CollectAttempts(attempts: seq<PublishAttempt>) returns (ok: bool, ids: set<string>)
    ensures ok <==> UniqueAttempts(attempts)
    ensures ok ==> forall id: string :: id in ids <==> Attempted(attempts, id)
  {
    ids := {};
    for i := 0 to |attempts|
      invariant forall id: string :: id in ids <==> Attempted(attempts[..i], id)
      invariant UniqueAttempts(attempts[..i])
    {
      var id := attempts[i].messageId;
      if id in ids {
        ghost var k :| 0 <= k < |attempts[..i]| && attempts[..i][k].messageId == id;
        assert attempts[k].messageId == attempts[i].messageId;
        return false, ids;
      }
      ids := ids + {id};
      AttemptedAppend(attempts, i);
    }
    assert attempts[..|attempts|] == attempts;
    ok := true;
  }

  lemma AttemptedAppend(attempts: seq<PublishAttempt>, i: nat)
    requires i < |attempts|
    ensures forall id: string :: Attempted(attempts[..i + 1], id) <==>
            Attempted(attempts[..i], id) || id == attempts[i].messageId
    ensures UniqueAttempts(attempts[..i]) && !Attempted(attempts[..i], attempts[i].messageId) ==>
            UniqueAttempts(attempts[..i + 1])
  {
    var a, b := attempts[..i], attempts[..i + 1];
    assert b == a + [attempts[i]];
    forall id: string ensures Attempted(b, id) <==> Attempted(a, id) || id == attempts[i].messageId {
      if Attempted(a, id) {
        var k :| 0 <= k < |a| && a[k].messageId == id;
        assert b[k].messageId == id;
      }
      assert b[i].messageId == attempts[i].messageId;
    }
  }

  method EffectsAttempted(ids: set<string>, intents: seq<Intent>, deliveries: seq<Delivery>) returns (ok: bool)
    ensures ok <==>
            (forall x :: x in intents ==> x.messageId in ids) && (forall d :: d in deliveries ==> d.messageId in ids)
  {
    for i := 0 to |intents|
      invariant forall j :: 0 <= j < i ==> intents[j].messageId in ids
    {
      if intents[i].messageId !in ids {
        return false;
      }
    }
    for i := 0 to |deliveries|
      invariant forall j :: 0 <= j < i ==> deliveries[j].messageId in ids
    {
      if deliveries[i].messageId !in ids {
        return false;
      }
    }
    return true;
  }

  method RecordsUnique(deliveries: seq<Delivery>) returns (ok: bool)
    ensures ok <==> UniqueRecords(deliveries)
  {
    var ids: set<string> := {};
    for i := 0 to |deliveries|
      invariant forall j :: 0 <= j < i ==> deliveries[j].recordId in ids
      invariant forall id :: id in ids ==> exists j :: 0 <= j < i && deliveries[j].recordId == id
      invariant forall j, k :: 0 <= j < k < i ==> deliveries[j].recordId != deliveries[k].recordId
    {
      if deliveries[i].recordId in ids {
        return false;
      }
      ids := ids + {deliveries[i].recordId};
    }
    return true;
  }

  /** The audit accepts exactly the acceptable snapshots. */
  method CheckPublishAttempts(attempts: seq<PublishAttempt>, intents: seq<Intent>, deliveries: seq<Delivery>,
      phase: Phase) returns (ok: bool)
    ensures ok <==> Acceptable(attempts, intents, deliveries, phase)
  {
    var distinct, ids := CollectAttempts(attempts);
    if !distinct {
      return false;
    }
    var expected := EffectsAttempted(ids, intents, deliveries);
    if !expected {
      return false;
    }
    var records := RecordsUnique(deliveries);
    if !records {
      return false;
    }
    for i := 0 to |attempts|
      invariant forall j :: 0 <= j < i ==> AttemptAcceptable(attempts[j], intents, deliveries, phase)
    {
      var effects := CheckAttemptEffects(attempts[i], intents, deliveries, phase);
      if !effects {
        assert attempts[i] in attempts;
        return false;
      }
    }
    return true;
  }
}
