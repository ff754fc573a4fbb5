/** Prefix minimisation of failing histories, for any checker. */
module PrefixMinimizer {
  function Min(a: nat, b: nat): nat {
    if a < b then a else b
  }

  /** The first events of every group. */
  function Prefixes<E>(groups: seq<seq<E>>, lengths: seq<nat>): seq<seq<E>>
    requires |groups| == |lengths|
  {
    seq(|groups|, i requires 0 <= i < |groups| => groups[i][..Min(lengths[i], |groups[i]|)])
  }

  /** The shortened histories still show every required anomaly signature. */
  predicate Keeps<E, S>(groups: seq<seq<E>>, check: seq<seq<E>> -> set<S>, required: set<S>, lengths: seq<nat>)
    requires |groups| == |lengths|
  {
    required <= check(Prefixes(groups, lengths))
  }

  /** The signatures survive cutting group `i` down to `c` events. */
  predicate SurvivesCut<E, S>(groups: seq<seq<E>>, check: seq<seq<E>> -> set<S>, required: set<S>, lengths: seq<nat>,
      i: nat, c: nat)
    requires |groups| == |lengths| && i < |lengths|
  {
    Keeps(groups, check, required, lengths[i := c])
  }

  /** No shorter prefix of group `i` alone keeps the signatures. */
  ghost predicate Tight<E, S>(groups: seq<seq<E>>, check: seq<seq<E>> -> set<S>, required: set<S>, lengths: seq<nat>,
      i: nat)
    requires |groups| == |lengths| && i < |lengths|
  {
    forall c: nat :: c < lengths[i] ==> !SurvivesCut(groups, check, required, lengths, i, c)
  }

  function Sum(lengths: seq<nat>): nat {
    if lengths == [] then 0 else Sum(lengths[..|lengths| - 1]) + lengths[|lengths| - 1]
  }

  lemma {:induction false} SumDrops(a: seq<nat>, i: nat, c: nat)
    requires i < |a| && c < a[i]
    ensures Sum(a[i := c]) < Sum(a)
    decreases |a|
  {
    var last := |a| - 1;
    if i == last {
      assert a[i := c][..last] == a[..last];
    } else {
      assert a[i := c][..last] == a[..last][i := c];
      SumDrops(a[..last], i, c);
    }
  }

  /** Cuts group `i` to its first candidate length that keeps the signatures. */
  method ShortenGroup<E, S(==)>(groups: seq<seq<E>>, check: seq<seq<E>> -> set<S>, required: set<S>,
      lengths: array<nat>, i: nat) returns (changed: bool)
    requires |groups| == lengths.Length && i < lengths.Length
    modifies lengths
    ensures !changed ==> lengths[..] == old(lengths[..]) && Tight(groups, check, required, lengths[..], i)
    ensures changed ==> lengths[i] < old(lengths[i]) && lengths[..] == old(lengths[..])[i := lengths[i]]
                        && Keeps(groups, check, required, lengths[..])
  {
    var currentLength := lengths[i];
    for candidate := 0 to currentLength
      invariant lengths[..] == old(lengths[..])
      invariant forall c: nat :: c < candidate ==> !SurvivesCut(groups, check, required, lengths[..], i, c)
    {
      if SurvivesCut(groups, check, required, lengths[..], i, candidate) {
        lengths[i] := candidate;
        assert lengths[..] == old(lengths[..])[i := candidate];
        return true;
      }
    }
    return false;
  }

  /** One pass over all groups. */
  method Sweep<E, S(==)>(groups: seq<seq<E>>, check: seq<seq<E>> -> set<S>, required: set<S>, lengths: array<nat>)
    returns (changed: bool)
    requires |groups| == lengths.Length
    modifies lengths
    ensures forall i :: 0 <= i < lengths.Length ==> lengths[i] <= old(lengths[i])
    ensures Keeps(groups, check, required, old(lengths[..])) ==> Keeps(groups, check, required, lengths[..])
    ensures changed ==> Sum(lengths[..]) < Sum(old(lengths[..]))
    ensures !changed ==> lengths[..] == old(lengths[..]) && forall i :: 0 <= i < lengths.Length ==>
            Tight(groups, check, required, lengths[..], i)
  {
    changed := false;
    for i := 0 to lengths.Length
      invariant forall j :: 0 <= j < lengths.Length ==> lengths[j] <= old(lengths[j])
      invariant Keeps(groups, check, required, old(lengths[..])) ==> Keeps(groups, check, required, lengths[..])
      invariant changed ==> Sum(lengths[..]) < Sum(old(lengths[..]))
      invariant !changed ==> lengths[..] == old(lengths[..]) && forall j :: 0 <= j < i ==>
                Tight(groups, check, required, lengths[..], j)
    {
      ghost var before := lengths[..];
      var cut := ShortenGroup(groups, check, required, lengths, i);
      if cut {
        SumDrops(before, i, lengths[i]);
        assert forall j :: 0 <= j < lengths.Length ==> lengths[j] == before[i := lengths[i]][j];
        changed := true;
      }
    }
  }

  /** Sweeps until nothing changes: no prefix grows, required signatures are kept, and no
      single group can be cut further without losing one. */
  method MinimizePrefixes<E, S(==)>(groups: seq<seq<E>>, check: seq<seq<E>> -> set<S>, required: set<S>,
      lengths: array<nat>)
    requires |groups| == lengths.Length
    modifies lengths
    ensures forall i :: 0 <= i < lengths.Length ==> lengths[i] <= old(lengths[i])
    ensures Keeps(groups, check, required, old(lengths[..])) ==> Keeps(groups, check, required, lengths[..])
    ensures forall i :: 0 <= i < lengths.Length ==> Tight(groups, check, required, lengths[..], i)
  {
    var changed := true;
    while changed
      invariant forall i :: 0 <= i < lengths.Length ==> lengths[i] <= old(lengths[i])
      invariant Keeps(groups, check, required, old(lengths[..])) ==> Keeps(groups, check, required, lengths[..])
      invariant !changed ==> forall i :: 0 <= i < lengths.Length ==> Tight(groups, check, required, lengths[..], i)
      decreases Sum(lengths[..]), changed
    {
      changed := Sweep(groups, check, required, lengths);
    }
  }

  /** The minimised artifact: with the original anomalies as the required ones, the shortened
      histories show them all and are locally minimal. */
  method MinimizeArtifact<E, S(==)>(groups: seq<seq<E>>, check: seq<seq<E>> -> set<S>) returns (lengths: seq<nat>)
    ensures |lengths| == |groups| && forall i :: 0 <= i < |groups| ==> lengths[i] <= |groups[i]|
    ensures check(groups) <= check(Prefixes(groups, lengths))
    ensures check(groups) != {} ==> forall i :: 0 <= i < |groups| ==> Tight(groups, check, check(groups), lengths, i)
  {
    var buffer := new nat[|groups|](i requires 0 <= i < |groups| => |groups[i]|);
    var signatures := check(groups);
    assert forall i :: 0 <= i < |groups| ==> Prefixes(groups, buffer[..])[i] == groups[i];
    assert Prefixes(groups, buffer[..]) == groups;
    if signatures != {} {
      MinimizePrefixes(groups, check, signatures, buffer);
    }
    lengths := buffer[..];
  }
}

/** The background-lease audit: commits need an unexpired lease, and leases exclude each other. */
module BackgroundLease {
  import opened Outcomes

  datatype EventKind = Acquire(until: int) | Renew(until: int) | Commit(effect: string)

  datatype LeaseEvent = LeaseEvent(leaseKey: string, workerId: string, at: int, kind: EventKind)

  datatype Lease = Lease(workerId: string, until: int)

  // ----- Time order -----

  datatype Numbered = Numbered(index: nat, event: LeaseEvent)

  predicate Before(a: Numbered, b: Numbered) {
    a.event.at < b.event.at || (a.event.at == b.event.at && a.index < b.index)
  }

  predicate TimeOrdered(s: seq<Numbered>) {
    forall i, j :: 0 <= i < j < |s| ==> Before(s[i], s[j])
  }

  function Enumerated(events: seq<LeaseEvent>): (r: seq<Numbered>)
    ensures |r| == |events|
  {
    seq(|events|, i requires 0 <= i < |events| => Numbered(i, events[i]))
  }

  /** Puts `x`, the latest position so far, where its time belongs. */
  method InsertByTime(s: seq<Numbered>, x: Numbered) returns (r: seq<Numbered>)
    requires TimeOrdered(s) && forall k :: 0 <= k < |s| ==> s[k].index < x.index
    ensures TimeOrdered(r) && multiset(r) == multiset(s) + multiset{x}
  {
    var at := |s|;
    while at > 0 && Before(x, s[at - 1])
      invariant 0 <= at <= |s|
      invariant forall k :: at <= k < |s| ==> Before(x, s[k])
    {
      at := at - 1;
    }
    InsertKeepsOrder(s, at, x);
    InsertKeepsContents(s, at, x);
    r := s[..at] + [x] + s[at..];
  }

  lemma InsertKeepsContents(s: seq<Numbered>, at: nat, x: Numbered)
    requires at <= |s|
    ensures multiset(s[..at] + [x] + s[at..]) == multiset(s) + multiset{x}
  {
    assert s == s[..at] + s[at..];
  }

  /** Sorts by time, earlier positions first among equals. */
  method SortByTime(events: seq<LeaseEvent>) returns (sorted: seq<Numbered>)
    ensures multiset(sorted) == multiset(Enumerated(events)) && TimeOrdered(sorted)
  {
    var numbered := Enumerated(events);
    sorted := [];
    for i := 0 to |events|
      invariant multiset(sorted) == multiset(numbered[..i]) && TimeOrdered(sorted)
    {
      assert numbered[..i + 1] == numbered[..i] + [numbered[i]];
      IndicesBelow(sorted, numbered, i);
      sorted := InsertByTime(sorted, numbered[i]);
    }
    assert numbered[..|events|] == numbered;
  }

  lemma IndicesBelow(s: seq<Numbered>, numbered: seq<Numbered>, i: nat)
    requires i <= |numbered| && multiset(s) == multiset(numbered[..i])
    requires forall k :: 0 <= k < |numbered| ==> numbered[k].index == k
    ensures forall k :: 0 <= k < |s| ==> s[k].index < i
  {
    forall k | 0 <= k < |s| ensures s[k].index < i {
      assert s[k] in multiset(s);
      assert s[k] in numbered[..i];
    }
  }

  lemma InsertKeepsOrder(s: seq<Numbered>, at: nat, x: Numbered)
    requires TimeOrdered(s) && at <= |s| && (forall k :: 0 <= k < |s| ==> s[k].index < x.index)
    requires forall k :: at <= k < |s| ==> Before(x, s[k])
    requires at > 0 ==> !Before(x, s[at - 1])
    ensures TimeOrdered(s[..at] + [x] + s[at..])
  {
    forall k | 0 <= k < at ensures Before(s[k], x) {
      if k < at - 1 { assert Before(s[k], s[at - 1]); }
    }
  }

  // ----- What a clean history is -----

  predicate Grants(e: LeaseEvent, key: string) {
    e.leaseKey == key && (e.kind.Acquire? || e.kind.Renew?)
  }

  /** The lease that the last acquisition or renewal before position `n` gave. */
  function LastGrant(s: seq<Numbered>, n: nat, key: string): Option<Lease>
    requires n <= |s|
  {
    if n == 0 then None
    else if Grants(s[n - 1].event, key) then Some(Lease(s[n - 1].event.workerId, s[n - 1].event.kind.until))
    else LastGrant(s, n - 1, key)
  }

  predicate HeldBy(lease: Option<Lease>, worker: string, at: int) {
    lease.Some? && lease.value.workerId == worker && lease.value.until >= at
  }

  /** The rules, stated on the events alone: grants end in the future, an acquisition never
      interrupts another worker's lease, and renewals and commits need the current lease. */
  predicate Legal(s: seq<Numbered>, n: nat)
    requires n < |s|
  {
    var e := s[n].event;
    var last := LastGrant(s, n, e.leaseKey);
    match e.kind
    case Acquire(until) => e.at < until && (last.None? || last.value.workerId == e.workerId || last.value.until < e.at)
    case Renew(until) => e.at < until && HeldBy(last, e.workerId, e.at)
    case Commit(_) => HeldBy(last, e.workerId, e.at)
  }

  // ----- The checker -----

  function Held(leases: map<string, Lease>, key: string): Option<Lease> {
    if key in leases then Some(leases[key]) else None
  }

  method ApplyAcquire(leases: map<string, Lease>, e: LeaseEvent, until: int)
    returns (after: map<string, Lease>, anomaly: bool)
    ensures anomaly <==>
            || until <= e.at
            || (e.leaseKey in leases && leases[e.leaseKey].workerId != e.workerId && leases[e.leaseKey].until >= e.at)
    ensures after == if anomaly then leases else leases[e.leaseKey := Lease(e.workerId, until)]
  {
    if until <= e.at {
      return leases, true;
    }
    if e.leaseKey in leases {
      var current := leases[e.leaseKey];
      if current.workerId != e.workerId && current.until >= e.at {
        return leases, true;
      }
    }
    return leases[e.leaseKey := Lease(e.workerId, until)], false;
  }

  method ApplyRenew(leases: map<string, Lease>, e: LeaseEvent, until: int)
    returns (after: map<string, Lease>, anomaly: bool)
    ensures anomaly <==> until <= e.at || !HeldBy(Held(leases, e.leaseKey), e.workerId, e.at)
    ensures after == if anomaly then leases else leases[e.leaseKey := Lease(e.workerId, until)]
  {
    if until <= e.at || e.leaseKey !in leases {
      return leases, true;
    }
    var current := leases[e.leaseKey];
    if current.workerId == e.workerId && current.until >= e.at {
      return leases[e.leaseKey := current.(until := until)], false;
    }
    return leases, true;
  }

  method CheckCommit(leases: map<string, Lease>, e: LeaseEvent) returns (anomaly: bool)
    ensures anomaly <==> !HeldBy(Held(leases, e.leaseKey), e.workerId, e.at)
  {
    if e.leaseKey !in leases {
      return true;
    }
    var current := leases[e.leaseKey];
    return !(current.workerId == e.workerId && current.until >= e.at);
  }

  /** What the checker's lease table says while there has been no anomaly. */
  ghost predicate Tracks(leases: map<string, Lease>, s: seq<Numbered>, n: nat)
    requires n <= |s|
  {
    forall key: string :: Held(leases, key) == LastGrant(s, n, key)
  }

  method Step(leases: map<string, Lease>, s: seq<Numbered>, n: nat) returns (after: map<string, Lease>, anomaly: bool)
    requires n < |s|
    ensures Tracks(leases, s, n) ==> (anomaly <==> !Legal(s, n))
    ensures Tracks(leases, s, n) && !anomaly ==> Tracks(after, s, n + 1)
  {
    var e := s[n].event;
    after := leases;
    ghost var last := Held(leases, e.leaseKey);
    assert Tracks(leases, s, n) ==> last == LastGrant(s, n, e.leaseKey);
    match e.kind {
      case Acquire(until) => after, anomaly := ApplyAcquire(leases, e, until);
      case Renew(until) => after, anomaly := ApplyRenew(leases, e, until);
      case Commit(_) => anomaly := CheckCommit(leases, e);
    }
    if Tracks(leases, s, n) && !anomaly {
      TracksStep(leases, s, n);
    }
  }

  lemma TracksStep(leases: map<string, Lease>, s: seq<Numbered>, n: nat)
    requires n < |s| && Tracks(leases, s, n)
    ensures s[n].event.kind.Commit? ==> Tracks(leases, s, n + 1)
    ensures !s[n].event.kind.Commit? ==>
            Tracks(leases[s[n].event.leaseKey := Lease(s[n].event.workerId, s[n].event.kind.until)], s, n + 1)
  {
    var e := s[n].event;
    if !e.kind.Commit? {
      var after := leases[e.leaseKey := Lease(e.workerId, e.kind.until)];
      forall key: string ensures Held(after, key) == LastGrant(s, n + 1, key) {
        assert Held(leases, key) == LastGrant(s, n, key);
        assert Grants(e, key) <==> key == e.leaseKey;
      }
    }
  }

  ghost predicate LegalUpTo(s: seq<Numbered>, n: nat)
    requires n <= |s|
  {
    forall m :: 0 <= m < n ==> Legal(s, m)
  }

  ghost predicate FirstIllegal(s: seq<Numbered>, n: nat)
    requires n < |s|
  {
    LegalUpTo(s, n) && !Legal(s, n)
  }

  /** The anomalies collected from the first `n` events: none if all were legal, else the first
      one is the first illegal event. */
  ghost predicate Reported(s: seq<Numbered>, n: nat, anomalies: seq<LeaseEvent>)
    requires n <= |s|
  {
    if anomalies == [] then LegalUpTo(s, n)
    else exists m :: 0 <= m < n && FirstIllegal(s, m) && anomalies[0] == s[m].event
  }

  lemma ReportedStep(s: seq<Numbered>, n: nat, anomalies: seq<LeaseEvent>, anomaly: bool)
    requires n < |s| && Reported(s, n, anomalies) && (anomalies == [] ==> (anomaly <==> !Legal(s, n)))
    ensures Reported(s, n + 1, if anomaly then anomalies + [s[n].event] else anomalies)
  {
    if anomalies == [] {
      if anomaly {
        assert FirstIllegal(s, n);
      }
    } else {
      var m :| 0 <= m < n && FirstIllegal(s, m) && anomalies[0] == s[m].event;
      assert (anomalies + [s[n].event])[0] == s[m].event;
    }
  }

  /** Replays the events in time order, collecting the offending ones; there are none exactly
      when every event is legal, and the first illegal event is always reported. */
  method CheckEvents(events: seq<LeaseEvent>) returns (sorted: seq<Numbered>, anomalies: seq<LeaseEvent>)
    ensures multiset(sorted) == multiset(Enumerated(events)) && TimeOrdered(sorted)
    ensures Reported(sorted, |sorted|, anomalies)
  {
    sorted := SortByTime(events);
    var leases: map<string, Lease> := map[];
    anomalies := [];
    for n := 0 to |sorted|
      invariant anomalies == [] ==> Tracks(leases, sorted, n)
      invariant Reported(sorted, n, anomalies)
    {
      var anomaly;
      leases, anomaly := Step(leases, sorted, n);
      ReportedStep(sorted, n, anomalies, anomaly);
      if anomaly {
        anomalies := anomalies + [sorted[n].event];
      }
    }
  }

  /** The report is empty exactly for histories in which every event is legal. */
  lemma CleanExactlyWhenLegal(s: seq<Numbered>, anomalies: seq<LeaseEvent>)
    requires Reported(s, |s|, anomalies)
    ensures anomalies == [] <==> forall n :: 0 <= n < |s| ==> Legal(s, n)
  {
    if anomalies != [] {
      var m :| 0 <= m < |s| && FirstIllegal(s, m);
      assert !Legal(s, m);
    }
  }

  // ----- Exclusion -----

  /** The position of the last grant, if there is one. */
  lemma {:induction false} LastGrantPosition(s: seq<Numbered>, n: nat, key: string) returns (g: nat)
    requires n <= |s| && LastGrant(s, n, key).Some?
    ensures g < n && Grants(s[g].event, key)
    ensures LastGrant(s, n, key) == Some(Lease(s[g].event.workerId, s[g].event.kind.until))
    ensures forall m :: g < m < n ==> !Grants(s[m].event, key)
    decreases n
  {
    if Grants(s[n - 1].event, key) {
      g := n - 1;
    } else {
      g := LastGrantPosition(s, n - 1, key);
    }
  }

  lemma {:induction false} LastGrantStable(s: seq<Numbered>, m: nat, n: nat, key: string)
    requires m <= n <= |s| && forall k :: m <= k < n ==> !Grants(s[k].event, key)
    ensures LastGrant(s, n, key) == LastGrant(s, m, key)
    decreases n
  {
    if m < n { LastGrantStable(s, m, n - 1, key); }
  }

  /** Between two positions held by different workers some acquisition takes the lease over,
      strictly after the deadline that then stood. */
  lemma {:induction false} TakeoverBetween(s: seq<Numbered>, i: nat, j: nat, key: string) returns (k: nat)
    requires i <= j <= |s| && (forall n :: 0 <= n < |s| ==> Legal(s, n))
    requires LastGrant(s, i, key).Some? && LastGrant(s, j, key).Some?
    requires LastGrant(s, i, key).value.workerId != LastGrant(s, j, key).value.workerId
    ensures i <= k < j && s[k].event.leaseKey == key && s[k].event.kind.Acquire?
    ensures s[k].event.workerId == LastGrant(s, j, key).value.workerId
    ensures LastGrant(s, k, key).Some? && LastGrant(s, k, key).value.workerId != s[k].event.workerId
    ensures LastGrant(s, k, key).value.until < s[k].event.at
    decreases j
  {
    var g := LastGrantPosition(s, j, key);
    if g < i {
      LastGrantStable(s, i, j, key);
    }
    assert Legal(s, g);
    if i < g {
      LastGrantExists(s, i, g, key);
    }
    if LastGrant(s, g, key).value.workerId == s[g].event.workerId {
      k := TakeoverBetween(s, i, g, key);
    } else {
      k := g;
    }
  }

  lemma {:induction false} LastGrantExists(s: seq<Numbered>, m: nat, n: nat, key: string)
    requires m <= n <= |s| && LastGrant(s, m, key).Some?
    ensures LastGrant(s, n, key).Some?
    decreases n
  {
    if m < n { LastGrantExists(s, m, n - 1, key); }
  }

  predicate Holds(s: seq<Numbered>, n: nat, key: string, worker: string)
    requires n <= |s|
  {
    LastGrant(s, n, key).Some? && LastGrant(s, n, key).value.workerId == worker
  }

  /** The event at `k` acquires a lease that `worker` still holds, after that worker's deadline. */
  predicate TakesOver(s: seq<Numbered>, k: nat, key: string, worker: string)
    requires k < |s|
  {
    && s[k].event.kind.Acquire? && s[k].event.leaseKey == key && s[k].event.workerId != worker
    && Holds(s, k, key, worker) && LastGrant(s, k, key).value.until < s[k].event.at
  }

  /** A worker holds a lease without interruption until it is taken over from that very worker,
      strictly after that worker's own deadline. */
  lemma {:induction false} FirstTakeover(s: seq<Numbered>, i: nat, j: nat, key: string, worker: string) returns (k: nat)
    requires i <= j <= |s| && (forall n :: 0 <= n < |s| ==> Legal(s, n))
    requires Holds(s, i, key, worker) && !Holds(s, j, key, worker)
    ensures i <= k < j && TakesOver(s, k, key, worker)
    ensures forall m :: i <= m <= k ==> Holds(s, m, key, worker)
    decreases j - i
  {
    if Holds(s, i + 1, key, worker) {
      k := FirstTakeover(s, i + 1, j, key, worker);
    } else {
      assert Legal(s, i);
      k := i;
    }
  }

  /** A deadline after a commit is not before the commit. */
  lemma DeadlineFollows(s: seq<Numbered>, i: nat, k: nat, key: string)
    requires TimeOrdered(s) && (forall n :: 0 <= n < |s| ==> Legal(s, n))
    requires i < k < |s| && s[i].event.kind.Commit? && s[i].event.leaseKey == key && LastGrant(s, k, key).Some?
    ensures s[i].event.at <= LastGrant(s, k, key).value.until
  {
    assert Legal(s, i);
    var g := LastGrantPosition(s, k, key);
    if g < i {
      LastGrantStable(s, i, k, key);
    } else {
      assert Legal(s, g);
      if i < g { assert Before(s[i], s[g]); }
    }
  }

  /** The holder at `j` got the lease at or after a takeover at `first`. */
  lemma LastTakeover(s: seq<Numbered>, first: nat, j: nat, key: string) returns (k: nat)
    requires first < j <= |s| && (forall n :: 0 <= n < |s| ==> Legal(s, n)) && LastGrant(s, j, key).Some?
    requires exists worker :: TakesOver(s, first, key, worker)
    ensures first <= k < j && s[k].event.workerId == LastGrant(s, j, key).value.workerId
    ensures exists worker :: TakesOver(s, k, key, worker)
  {
    if LastGrant(s, j, key).value.workerId == s[first].event.workerId {
      k := first;
    } else {
      k := TakeoverBetween(s, first + 1, j, key);
      assert TakesOver(s, k, key, LastGrant(s, k, key).value.workerId);
    }
  }

  /** Exclusion over the whole history: without anomalies every commit is made by the holder of
      an unexpired lease. Between commits on one key by different workers the earlier worker keeps
      the lease until `first` takes it over after that worker's deadline, and the later worker
      gets it at `last` by taking it over from another worker after the deadline that stood; so
      the times of the commits differ strictly. */
  lemma Exclusion(s: seq<Numbered>, i: nat, j: nat) returns (first: nat, last: nat)
    requires TimeOrdered(s) && (forall n :: 0 <= n < |s| ==> Legal(s, n))
    requires i < j < |s| && s[i].event.kind.Commit? && s[j].event.kind.Commit?
    requires s[i].event.leaseKey == s[j].event.leaseKey && s[i].event.workerId != s[j].event.workerId
    ensures HeldBy(LastGrant(s, i, s[i].event.leaseKey), s[i].event.workerId, s[i].event.at)
    ensures HeldBy(LastGrant(s, j, s[j].event.leaseKey), s[j].event.workerId, s[j].event.at)
    ensures i < first <= last < j
    ensures TakesOver(s, first, s[i].event.leaseKey, s[i].event.workerId)
    ensures forall m :: i <= m <= first ==> Holds(s, m, s[i].event.leaseKey, s[i].event.workerId)
    ensures s[last].event.workerId == s[j].event.workerId
    ensures exists worker :: TakesOver(s, last, s[i].event.leaseKey, worker)
    ensures s[i].event.at < s[first].event.at <= s[last].event.at <= s[j].event.at
  {
    var key, worker := s[i].event.leaseKey, s[i].event.workerId;
    assert Legal(s, i) && Legal(s, j);
    first := FirstTakeover(s, i, j, key, worker);
    last := LastTakeover(s, first, j, key);
    DeadlineFollows(s, i, first, key);
    assert Before(s[last], s[j]);
    if first < last { assert Before(s[first], s[last]); }
  }
}
