/** Safety of the system stream over every run. */
module StreamSafety {
  import opened Outcomes
  import opened Bytes
  import opened StreamCatalog
  import opened SystemStream
  import opened StreamRuns

  lemma InitialSound(s: Store)
    requires Initial(s)
    ensures Sound(s)
  {
    assert s.lineages.Keys == {DEFAULT_LINEAGE} && s.sequences.Keys == {DEFAULT_SHARD};
    assert s.lineages[DEFAULT_LINEAGE].shard == DEFAULT_SHARD;
    assert !s.lineages[DEFAULT_LINEAGE].sealed;
  }

  /** What a commit did, without how its snapshot decoded. */
  ghost predicate Committed(states: seq<Store>, commits: seq<Commit>, i: nat)
    requires |states| == |commits| + 1 && i < |commits|
  {
    && commits[i].begin <= i && |states[i].lineages| <= MAX_ENTRIES
    && match commits[i]
       case WriteCommit(begin, routes) => Wrote(states[begin], states[i], routes, states[i + 1])
       case SplitCommit(_, req) => Splittable(states[i], req) && states[i + 1] == SplitEffect(states[i], req)
  }

  ghost predicate Wrote(s: Store, d: Store, routes: seq<Route>, after: Store) {
    && AllWritable(s, routes) && AllWritable(d, routes) && Advanced(d, routes) == Advanced(s, routes)
    && (forall q :: q in Advanced(s, routes) ==> q in d.sequences && d.sequences[q] == s.sequences[q])
    && after == d.(sequences := d.sequences + Advanced(d, routes))
  }

  lemma StepCommits(states: seq<Store>, commits: seq<Commit>, i: nat)
    requires |states| == |commits| + 1 && i < |commits| && StepAt(states, commits, i)
    requires Later(states[commits[i].begin], states[i])
    ensures Committed(states, commits, i)
  {
    match commits[i] {
      case WriteCommit(begin, routes) => WriteRowsAgree(states[begin], states[i], routes);
      case SplitCommit(_, req) => assert Splittable(states[i], req);
    }
  }

  ghost predicate Trace(states: seq<Store>, commits: seq<Commit>) {
    && |states| == |commits| + 1 && Initial(states[0]) && Chain(states)
    && forall i :: 0 <= i < |commits| ==> Committed(states, commits, i)
  }

  lemma RunTraces(states: seq<Store>, commits: seq<Commit>)
    requires Run(states, commits)
    ensures Trace(states, commits)
  {
    RunIsChain(states, commits);
    forall i | 0 <= i < |commits| ensures Committed(states, commits, i) {
      assert StepAt(states, commits, i);
      ChainIsLater(states, commits[i].begin, i);
      StepCommits(states, commits, i);
    }
  }

  lemma {:induction false} TraceSound(states: seq<Store>, commits: seq<Commit>, i: nat)
    requires Trace(states, commits) && i < |states|
    ensures Sound(states[i])
    decreases i
  {
    if i == 0 {
      InitialSound(states[0]);
    } else {
      TraceSound(states, commits, i - 1);
      assert Committed(states, commits, i - 1);
      match commits[i - 1] {
        case WriteCommit(_, routes) => WriteKeepsSound(states[i - 1], routes, states[i]);
        case SplitCommit(_, req) => SplitKeepsSound(states[i - 1], req);
      }
    }
  }

  /** Every committed state is sound. */
  lemma RunSound(states: seq<Store>, commits: seq<Commit>, i: nat)
    requires Run(states, commits) && i < |states|
    ensures Sound(states[i])
  {
    RunTraces(states, commits);
    TraceSound(states, commits, i);
  }

  /** In every state a lineage's shard has a sequence row, and a seal is that row's value. */
  lemma BoundsHold(states: seq<Store>, commits: seq<Commit>, i: nat, a: Key)
    requires Trace(states, commits) && i < |states| && a in states[i].lineages
    ensures states[i].lineages[a].shard in states[i].sequences
    ensures states[i].lineages[a].sealed ==>
              states[i].lineages[a].sealedAfter == Some(states[i].sequences[states[i].lineages[a].shard].next)
  {
    TraceSound(states, commits, i);
    assert LineageSound(states[i], a);
  }

  // ----- Offsets -----

  /** Write `t` of commit `k` was given position `p`. */
  ghost predicate Issued(states: seq<Store>, commits: seq<Commit>, k: nat, t: nat, p: Position) {
    && |states| == |commits| + 1 && k < |commits| && commits[k].WriteCommit? && commits[k].begin <= k
    && t < |commits[k].routes| && commits[k].routes[t].shard in states[commits[k].begin].sequences
    && p == PositionOf(states[commits[k].begin], commits[k].routes, t)
  }

  /** Issued offsets lie between the sequence row before the commit and the one after it. */
  lemma IssuedBetween(states: seq<Store>, commits: seq<Commit>, k: nat, t: nat, p: Position)
    requires Trace(states, commits) && Issued(states, commits, k, t, p)
    ensures p.shard in states[k].sequences && p.shard in states[k + 1].sequences
    ensures states[k].sequences[p.shard].next <= p.offset < states[k + 1].sequences[p.shard].next
    ensures p.lineage in states[k].lineages && !states[k].lineages[p.lineage].sealed
            && states[k].lineages[p.lineage].shard == p.shard
  {
    assert Committed(states, commits, k);
    BetweenStep(states[commits[k].begin], states[k], commits[k].routes, t, states[k + 1]);
  }

  lemma BetweenStep(s: Store, d: Store, routes: seq<Route>, t: nat, after: Store)
    requires Wrote(s, d, routes, after) && t < |routes|
    ensures Writable(s, routes[t]) && Writable(d, routes[t]) && routes[t].shard in after.sequences
    ensures d.sequences[routes[t].shard].next <= PositionOf(s, routes, t).offset < after.sequences[routes[t].shard].next
  {
    var q := routes[t].shard;
    HitsNext(routes, t, q);
    HitsMonotone(routes, t + 1, |routes|, q);
    assert routes[..|routes|] == routes;
    assert Writable(s, routes[t]) && Writable(d, routes[t]);
    assert q in Advanced(s, routes);
  }

  lemma EarlierIsBelow(states: seq<Store>, commits: seq<Commit>, k: nat, t: nat, p: Position, m: nat, u: nat,
      p': Position)
    requires Trace(states, commits) && Issued(states, commits, k, t, p) && Issued(states, commits, m, u, p')
    requires p.shard == p'.shard && (k < m || (k == m && t < u))
    ensures p.offset < p'.offset
  {
    if k < m {
      IssuedBetween(states, commits, k, t, p);
      IssuedBetween(states, commits, m, u, p');
      ChainIsLater(states, k + 1, m);
    } else {
      WithinCommit(states[commits[k].begin], commits[k].routes, t, u);
    }
  }

  /** No shard offset is handed out twice in a run. */
  lemma NoOffsetTwice(states: seq<Store>, commits: seq<Commit>, k: nat, t: nat, p: Position, m: nat, u: nat,
      p': Position)
    requires Run(states, commits) && Issued(states, commits, k, t, p) && Issued(states, commits, m, u, p')
    requires p.shard == p'.shard && p.offset == p'.offset
    ensures k == m && t == u
  {
    RunTraces(states, commits);
    if k < m || (k == m && t < u) {
      EarlierIsBelow(states, commits, k, t, p, m, u, p');
    } else if m < k || u < t {
      EarlierIsBelow(states, commits, m, u, p', k, t, p);
    }
  }

  lemma WithinCommit(s: Store, routes: seq<Route>, t: nat, u: nat)
    requires t < u < |routes| && routes[t].shard in s.sequences && routes[u].shard == routes[t].shard
    ensures PositionOf(s, routes, t).offset < PositionOf(s, routes, u).offset
  {
    HitsNext(routes, t, routes[t].shard);
    HitsMonotone(routes, t + 1, u, routes[t].shard);
  }

  /** Sequence rows never go back and never disappear. */
  lemma SequencesNeverGoBack(states: seq<Store>, commits: seq<Commit>, i: nat, j: nat, shard: Key)
    requires Run(states, commits) && i <= j < |states| && shard in states[i].sequences
    ensures shard in states[j].sequences && states[i].sequences[shard].next <= states[j].sequences[shard].next
  {
    RunIsChain(states, commits);
    ChainIsLater(states, i, j);
  }

  /** A lineage sealed in some state got all its offsets before, and below the seal. */
  lemma SealRespected(states: seq<Store>, commits: seq<Commit>, k: nat, t: nat, p: Position, j: nat)
    requires Run(states, commits) && Issued(states, commits, k, t, p) && j < |states|
    requires p.lineage in states[j].lineages && states[j].lineages[p.lineage].sealed
    ensures k < j && states[j].lineages[p.lineage].sealedAfter.Some?
    ensures p.offset < states[j].lineages[p.lineage].sealedAfter.value
  {
    RunTraces(states, commits);
    IssuedBetween(states, commits, k, t, p);
    if j <= k {
      ChainIsLater(states, j, k);
    } else {
      ChainIsLater(states, k, j);
      ChainIsLater(states, k + 1, j);
      BoundsHold(states, commits, j, p.lineage);
    }
  }

  /** An offset below a shard's next one was handed out by an earlier commit. */
  ghost predicate Accounted(states: seq<Store>, commits: seq<Commit>, j: nat, shard: Key, offset: nat) {
    exists k, t, p :: 0 <= k < j && Issued(states, commits, k, t, p) && p.shard == shard && p.offset == offset
  }

  lemma {:induction false} TraceNoGaps(states: seq<Store>, commits: seq<Commit>, j: nat, a: Key, offset: nat)
    requires Trace(states, commits) && j < |states| && a in states[j].lineages
    requires states[j].lineages[a].shard in states[j].sequences
    requires states[j].lineages[a].initial <= offset < states[j].sequences[states[j].lineages[a].shard].next
    ensures Accounted(states, commits, j, states[j].lineages[a].shard, offset)
    decreases j
  {
    if j > 0 {
      var i, shard := j - 1, states[j].lineages[a].shard;
      assert Committed(states, commits, i);
      if commits[i].SplitCommit? {
        SplitLookup(states[i], commits[i].request);
      }
      if a in states[i].lineages {
        BoundsHold(states, commits, i, a);
        if offset < states[i].sequences[shard].next {
          TraceNoGaps(states, commits, i, a, offset);
          AccountedGrows(states, commits, i, j, shard, offset);
        } else {
          IssuedNow(states, commits, i, shard, offset);
        }
      }
    }
  }

  /** There are no gaps: in every state each offset from a lineage's first to its shard's next
      was handed out. */
  lemma NoGaps(states: seq<Store>, commits: seq<Commit>, j: nat, a: Key, offset: nat)
    requires Run(states, commits) && j < |states| && a in states[j].lineages
    requires states[j].lineages[a].shard in states[j].sequences
    requires states[j].lineages[a].initial <= offset < states[j].sequences[states[j].lineages[a].shard].next
    ensures Accounted(states, commits, j, states[j].lineages[a].shard, offset)
  {
    RunTraces(states, commits);
    TraceNoGaps(states, commits, j, a, offset);
  }

  lemma AccountedGrows(states: seq<Store>, commits: seq<Commit>, i: nat, j: nat, shard: Key, offset: nat)
    requires i <= j && Accounted(states, commits, i, shard, offset)
    ensures Accounted(states, commits, j, shard, offset)
  {
  }

  lemma IssuedNow(states: seq<Store>, commits: seq<Commit>, i: nat, shard: Key, offset: nat)
    requires |states| == |commits| + 1 && i < |commits| && Committed(states, commits, i)
    requires shard in states[i].sequences && shard in states[i + 1].sequences
    requires states[i].sequences[shard].next <= offset < states[i + 1].sequences[shard].next
    ensures Accounted(states, commits, i + 1, shard, offset)
  {
    var s, routes := states[commits[i].begin], commits[i].routes;
    assert shard in Advanced(s, routes);
    var t := HitsSurjective(routes, shard, offset - s.sequences[shard].next);
    assert Writable(s, routes[t]);
    assert Issued(states, commits, i, t, PositionOf(s, routes, t));
  }

  // ----- Decoding -----

  function Splits(commits: seq<Commit>): nat {
    if commits == [] then 0
    else Splits(commits[..|commits| - 1]) + (if commits[|commits| - 1].SplitCommit? then 1 else 0)
  }

  lemma {:induction false} LineageCount(states: seq<Store>, commits: seq<Commit>, j: nat)
    requires Trace(states, commits) && j < |states|
    ensures |states[j].lineages| == 1 + 2 * Splits(commits[..j])
    decreases j
  {
    if j == 0 {
      assert states[0].lineages.Keys == {DEFAULT_LINEAGE};
    } else {
      LineageCount(states, commits, j - 1);
      assert commits[..j][..j - 1] == commits[..j - 1];
      assert Committed(states, commits, j - 1);
      if commits[j - 1].SplitCommit? {
        SplitCounts(states[j - 1], commits[j - 1].request);
      }
    }
  }

  /** A committed state decodes exactly while at most 63 splits have happened: the 64th leaves
      129 lineages, and nothing can commit after it. */
  lemma DecodesExactly(states: seq<Store>, commits: seq<Commit>, j: nat)
    requires Run(states, commits) && j < |states|
    ensures Decodes(states[j]) <==> Splits(commits[..j]) <= 63
    ensures !Decodes(states[j]) ==> j == |commits|
  {
    RunTraces(states, commits);
    TraceSound(states, commits, j);
    SoundDecodes(states[j]);
    LineageCount(states, commits, j);
    if j < |commits| {
      assert Committed(states, commits, j);
    }
  }

  /** The test a split could make on the state it commits on: what it leaves decodes exactly if
      there were at most 126 lineages before it. */
  lemma SplitDecodesExactly(states: seq<Store>, commits: seq<Commit>, k: nat)
    requires Run(states, commits) && k < |commits| && commits[k].SplitCommit?
    ensures Decodes(states[k + 1]) <==> |states[k].lineages| <= 126
  {
    RunTraces(states, commits);
    DecodesExactly(states, commits, k + 1);
    LineageCount(states, commits, k);
    assert commits[..k + 1][..k] == commits[..k];
  }

  /** A committed split stays replayable in every later state. */
  lemma SplitsReplay(states: seq<Store>, commits: seq<Commit>, i: nat, j: nat)
    requires Run(states, commits) && i < j < |states| && commits[i].SplitCommit?
    ensures commits[i].request.operation in states[j].receipts
    ensures states[j].receipts[commits[i].request.operation].request == commits[i].request
    ensures Replayable(states[j], states[j].receipts[commits[i].request.operation])
    ensures commits[i].request.parent.shard in states[j].sequences
    ensures states[j].sequences[commits[i].request.parent.shard].next
            == states[j].receipts[commits[i].request.operation].sealedAfter
  {
    RunTraces(states, commits);
    assert Committed(states, commits, i);
    ChainIsLater(states, i + 1, j);
    ReceiptReplays(states, commits, j, commits[i].request.operation);
    BoundsHold(states, commits, j, commits[i].request.parent.lineage);
  }

  lemma ReceiptReplays(states: seq<Store>, commits: seq<Commit>, j: nat, o: Key)
    requires Trace(states, commits) && j < |states| && o in states[j].receipts
    ensures Replayable(states[j], states[j].receipts[o])
  {
    TraceSound(states, commits, j);
  }

  // ----- The 64th split -----

  const ID_MAX_BYTES: nat := 128

  /** An identifier the constructors accept: not empty, not too long, and visible characters. */
  predicate WellFormedId(id: Key) {
    0 < |id| <= ID_MAX_BYTES && forall i :: 0 <= i < |id| ==> 0x21 <= id[i] <= 0x7E
  }

  predicate WellFormedLineage(l: Lineage) {
    WellFormedId(l.lineage) && WellFormedId(l.shard) && (l.parent.Some? ==> WellFormedId(l.parent.value))
  }

  /** Every identifier of a split request is well formed. */
  predicate WellFormedSplit(req: SplitRequest) {
    && WellFormedId(req.scope.id) && WellFormedId(req.operation) && WellFormedLineage(req.parent)
    && WellFormedLineage(req.left.lineage) && WellFormedLineage(req.right.lineage)
  }

  function Name(n: nat): (r: Key)
    ensures |r| == n
    ensures 0 < n <= ID_MAX_BYTES ==> WellFormedId(r)
    ensures r != DEFAULT_LINEAGE && r != DEFAULT_SHARD
  {
    var r: Key := seq(n, _ => 120);
    assert n > 0 ==> r[0] == 120;
    r
  }

  /** Names used so far are the default ones, or shorter than those the next split takes. */
  ghost predicate ShortNames(s: Store, n: nat) {
    && (forall a :: a in s.lineages ==> a == DEFAULT_LINEAGE || |a| <= 2 * n)
    && (forall q :: q in s.sequences ==> q == DEFAULT_SHARD || |q| <= 2 * n)
    && (forall o :: o in s.receipts ==> |o| <= n)
  }

  ghost predicate Tip(s: Store, tip: Lineage) {
    tip.lineage in s.lineages && LineageOf(s.lineages[tip.lineage]) == tip && !tip.sealed && tip.shard in s.sequences
  }

  function NthChild(n: nat, tip: Lineage): Child {
    Child(Lineage(Name(n), Name(n), Some(tip.lineage), false), 1)
  }

  function NthSplit(scope: Scope, n: nat, tip: Lineage): SplitRequest {
    SplitRequest(scope, tip, NthChild(1 + 2 * n, tip), NthChild(2 + 2 * n, tip), Name(n + 1))
  }

  lemma NthSplitWellFormed(scope: Scope, n: nat, tip: Lineage)
    requires n < 64 && WellFormedId(scope.id) && WellFormedLineage(tip)
    ensures WellFormedSplit(NthSplit(scope, n, tip)) && WellFormedLineage(NthSplit(scope, n, tip).left.lineage)
  {
  }

  lemma NthSplitFits(s: Store, n: nat, tip: Lineage)
    requires ShortNames(s, n) && Tip(s, tip) && s.epoch < U64_MAX
    ensures var req := NthSplit(s.scope, n, tip);
            Splittable(s, req) && ShortNames(SplitEffect(s, req), n + 1) && Tip(SplitEffect(s, req), req.left.lineage)
  {
    assert Name(1 + 2 * n) !in s.lineages && Name(2 + 2 * n) !in s.lineages;
    assert Name(1 + 2 * n) !in s.sequences && Name(2 + 2 * n) !in s.sequences;
    var req := NthSplit(s.scope, n, tip);
    SplitLookup(s, req);
  }

  lemma ExtendRun(states: seq<Store>, commits: seq<Commit>, state: Store, commit: Commit)
    requires Run(states, commits) && StepAt(states + [state], commits + [commit], |commits|)
    ensures Run(states + [state], commits + [commit])
  {
    assert (states + [state])[0] == states[0];
    forall i | 0 <= i < |commits + [commit]| ensures StepAt(states + [state], commits + [commit], i) {
      StepOfExtended(states, commits, state, commit, i);
    }
  }

  lemma StepOfExtended(states: seq<Store>, commits: seq<Commit>, state: Store, commit: Commit, i: nat)
    requires |states| == |commits| + 1 && i <= |commits|
    requires if i < |commits| then StepAt(states, commits, i) else StepAt(states + [state], commits + [commit], i)
    ensures StepAt(states + [state], commits + [commit], i)
  {
    if i < |commits| {
      StepExtends(states, commits, state, commit, i);
    }
  }

  lemma LastStep(states: seq<Store>, commits: seq<Commit>, req: SplitRequest)
    requires |states| == |commits| + 1 && Decodes(states[|commits|]) && Splittable(states[|commits|], req)
    ensures StepAt(states + [SplitEffect(states[|commits|], req)], commits + [SplitCommit(|commits|, req)], |commits|)
  {
    var n := |commits|;
    var states', commits' := states + [SplitEffect(states[n], req)], commits + [SplitCommit(n, req)];
    assert states'[n] == states[n] && states'[n + 1] == SplitEffect(states[n], req)
      && commits'[n] == SplitCommit(n, req);
  }

  lemma StepExtends(states: seq<Store>, commits: seq<Commit>, state: Store, commit: Commit, i: nat)
    requires |states| == |commits| + 1 && i < |commits| && StepAt(states, commits, i)
    ensures StepAt(states + [state], commits + [commit], i)
  {
    var states', commits' := states + [state], commits + [commit];
    var begin := commits[i].begin;
    assert commits'[i] == commits[i] && states'[begin] == states[begin] && states'[i] == states[i]
      && states'[i + 1] == states[i + 1];
  }

  /** A run of nothing but splits, all of them well formed. */
  ghost predicate SplitsOnly(commits: seq<Commit>) {
    forall i :: 0 <= i < |commits| ==> commits[i].SplitCommit? && WellFormedSplit(commits[i].request)
  }

  /** Where a run of `n` splits has arrived: another one can be asked for at its tip. */
  ghost predicate SplitSoFar(states: seq<Store>, commits: seq<Commit>, n: nat, tip: Lineage) {
    && |commits| == n && |states| == n + 1 && SplitsOnly(commits) && Splits(commits) == n
    && states[n].epoch == n + 1 && ShortNames(states[n], n) && Tip(states[n], tip)
    && WellFormedId(states[n].scope.id) && WellFormedLineage(tip)
  }

  lemma FirstState() returns (state: Store, tip: Lineage)
    ensures Run([state], []) && SplitSoFar([state], [], 0, tip)
  {
    var scope := Scope([120], 1);
    var row := LineageRow(scope, DEFAULT_SHARD, DEFAULT_LINEAGE, None, false, 1, None);
    state := Store(1, scope, map[DEFAULT_LINEAGE := row],
                   map[DEFAULT_SHARD := SequenceRow(scope, DEFAULT_SHARD, 1)], map[]);
    tip := LineageOf(row);
    assert WellFormedId(DEFAULT_LINEAGE) && WellFormedId(DEFAULT_SHARD) && WellFormedId(scope.id);
  }

  /** The next split commits. */
  lemma NextSplitCommits(states: seq<Store>, commits: seq<Commit>, req: SplitRequest)
    requires Run(states, commits) && Splits(commits) <= 63 && Splittable(states[|commits|], req)
    ensures Run(states + [SplitEffect(states[|commits|], req)], commits + [SplitCommit(|commits|, req)])
  {
    var n := |commits|;
    assert commits[..n] == commits;
    DecodesExactly(states, commits, n);
    LastStep(states, commits, req);
    ExtendRun(states, commits, SplitEffect(states[n], req), SplitCommit(n, req));
  }

  lemma NextSoFar(states: seq<Store>, commits: seq<Commit>, n: nat, tip: Lineage)
    requires n < 64 && SplitSoFar(states, commits, n, tip)
    ensures var req := NthSplit(states[n].scope, n, tip);
            && Splittable(states[n], req)
            && SplitSoFar(states + [SplitEffect(states[n], req)], commits + [SplitCommit(n, req)], n + 1,
                          req.left.lineage)
  {
    var req := NthSplit(states[n].scope, n, tip);
    NthSplitFits(states[n], n, tip);
    NthSplitWellFormed(states[n].scope, n, tip);
    assert (commits + [SplitCommit(n, req)])[..n] == commits;
  }

  lemma {:induction false} SplitRun(n: nat) returns (states: seq<Store>, commits: seq<Commit>, tip: Lineage)
    requires n <= 64
    ensures Run(states, commits) && SplitSoFar(states, commits, n, tip)
    decreases n
  {
    if n == 0 {
      var state;
      state, tip := FirstState();
      states, commits := [state], [];
    } else {
      states, commits, tip := SplitRun(n - 1);
      var req := NthSplit(states[n - 1].scope, n - 1, tip);
      NextSoFar(states, commits, n - 1, tip);
      NextSplitCommits(states, commits, req);
      states, commits := states + [SplitEffect(states[n - 1], req)], commits + [SplitCommit(n - 1, req)];
      tip := req.left.lineage;
    }
  }

  /** Nothing refuses the 64th split, so a store can be split, by well-formed requests, into a
      state that does not decode. */
  lemma UndecodableRunExists() returns (states: seq<Store>, commits: seq<Commit>)
    ensures Run(states, commits) && |commits| == 64 && SplitsOnly(commits) && !Decodes(states[64])
  {
    var tip;
    states, commits, tip := SplitRun(64);
    assert commits[..64] == commits;
    DecodesExactly(states, commits, 64);
  }
}
