/** Every interleaving of write attempts and splits over the system stream. */
module StreamRuns {
  import opened Outcomes
  import opened Bytes
  import opened StreamCatalog
  import opened SystemStream

  // ----- Splits -----

  predicate ChildFits(s: Store, parent: Lineage, c: Child) {
    && c.lineage.parent == Some(parent.lineage) && !c.lineage.sealed && 0 < c.initial < U64_MAX
    && c.lineage.lineage != parent.lineage && c.lineage.shard != parent.shard
    && c.lineage.lineage !in s.lineages && c.lineage.shard !in s.sequences
  }

  predicate Splittable(s: Store, req: SplitRequest) {
    && req.scope == s.scope && req.operation !in s.receipts && s.epoch < U64_MAX
    && req.parent.lineage in s.lineages && LineageOf(s.lineages[req.parent.lineage]) == req.parent && !req.parent.sealed
    && req.parent.shard in s.sequences
    && req.left.lineage.lineage != req.right.lineage.lineage && req.left.lineage.shard != req.right.lineage.shard
    && ChildFits(s, req.parent, req.left) && ChildFits(s, req.parent, req.right)
  }

  function ChildRow(scope: Scope, c: Child): LineageRow {
    LineageRow(scope, c.lineage.shard, c.lineage.lineage, c.lineage.parent, false, c.initial, None)
  }

  function ChildSequence(scope: Scope, c: Child): SequenceRow {
    SequenceRow(scope, c.lineage.shard, c.initial)
  }

  function SealedLineages(s: Store, req: SplitRequest): map<Key, LineageRow>
    requires Splittable(s, req)
  {
    var row := s.lineages[req.parent.lineage].(sealed := true, sealedAfter := Some(s.sequences[req.parent.shard].next));
    s.lineages[req.parent.lineage := row]
      [req.left.lineage.lineage := ChildRow(s.scope, req.left)]
      [req.right.lineage.lineage := ChildRow(s.scope, req.right)]
  }

  /** The store after a split: the parent sealed at its next offset, both children open at their
      initial offsets, the operation's receipt, and a new catalog epoch. */
  function SplitEffect(s: Store, req: SplitRequest): Store
    requires Splittable(s, req)
  {
    Store(s.epoch + 1, s.scope, SealedLineages(s, req),
          s.sequences[req.left.lineage.shard := ChildSequence(s.scope, req.left)]
                     [req.right.lineage.shard := ChildSequence(s.scope, req.right)],
          s.receipts[req.operation := Receipt(req, s.sequences[req.parent.shard].next)])
  }

  method ShapeValid(req: SplitRequest) returns (ok: bool)
    ensures ok <==> && !req.parent.sealed
                    && req.left.lineage.lineage != req.right.lineage.lineage
                    && req.left.lineage.shard != req.right.lineage.shard
                    && (forall c :: c in {req.left, req.right} ==>
                          && c.lineage.parent == Some(req.parent.lineage) && !c.lineage.sealed
                          && 0 < c.initial < U64_MAX
                          && c.lineage.lineage != req.parent.lineage && c.lineage.shard != req.parent.shard)
  {
    if req.parent.sealed {
      return false;
    }
    if req.left.lineage.lineage == req.right.lineage.lineage || req.left.lineage.shard == req.right.lineage.shard {
      return false;
    }
    var children := [req.left, req.right];
    for i := 0 to |children|
      invariant forall j :: 0 <= j < i ==>
                  && children[j].lineage.parent == Some(req.parent.lineage) && !children[j].lineage.sealed
                  && 0 < children[j].initial < U64_MAX
                  && children[j].lineage.lineage != req.parent.lineage && children[j].lineage.shard != req.parent.shard
    {
      var c := children[i];
      if c.lineage.sealed || c.initial == 0 || c.initial >= U64_MAX || c.lineage.lineage == req.parent.lineage
         || c.lineage.parent != Some(req.parent.lineage) || c.lineage.shard == req.parent.shard {
        return false;
      }
    }
    assert children[0] == req.left && children[1] == req.right;
    return true;
  }

  /** Plans a split on one snapshot and builds its row changes. It succeeds exactly on the
      splittable requests, and the changes have the split's effect on that snapshot. */
  method WriteSplit(s: Store, req: SplitRequest) returns (r: Result<seq<RowChange>>)
    requires Allocatable(s)
    ensures r.Ok? <==> Splittable(s, req)
    ensures r.Ok? ==> ApplyRows(s, r.value) == SplitEffect(s, req)
  {
    var shaped := ShapeValid(req);
    if !shaped || req.scope != s.scope || req.parent.lineage !in s.lineages {
      return Err(HistoryUnavailable);
    }
    var row := s.lineages[req.parent.lineage];
    if LineageOf(row) != req.parent || s.epoch + 1 > U64_MAX || req.operation in s.receipts {
      return Err(HistoryUnavailable);
    }
    var children := [req.left, req.right];
    for i := 0 to |children|
      invariant forall j :: 0 <= j < i ==>
                children[j].lineage.lineage !in s.lineages && children[j].lineage.shard !in s.sequences
    {
      if children[i].lineage.lineage in s.lineages || children[i].lineage.shard in s.sequences {
        return Err(HistoryUnavailable);
      }
    }
    assert children[0] == req.left && children[1] == req.right;
    var seal := s.sequences[row.shard].next;
    var changes := [PutLineage(row.(sealed := true, sealedAfter := Some(seal)))];
    ApplyRowsAppend(s, changes, PutReceipt(Receipt(req, seal)));
    changes := changes + [PutReceipt(Receipt(req, seal))];
    ApplyRowsAppend(s, changes, PutEpoch(s.epoch + 1));
    changes := changes + [PutEpoch(s.epoch + 1)];
    changes := PushChild(s, changes, req.left);
    changes := PushChild(s, changes, req.right);
    r := Ok(changes);
  }

  method PushChild(s: Store, changes: seq<RowChange>, c: Child) returns (more: seq<RowChange>)
    ensures var before := ApplyRows(s, changes);
            ApplyRows(s, more) == before.(lineages := before.lineages[c.lineage.lineage := ChildRow(s.scope, c)],
                                          sequences := before.sequences[c.lineage.shard := ChildSequence(s.scope, c)])
  {
    more := changes + [PutLineage(ChildRow(s.scope, c))];
    ApplyRowsAppend(s, changes, PutLineage(ChildRow(s.scope, c)));
    ApplyRowsAppend(s, more, PutSequence(ChildSequence(s.scope, c)));
    more := more + [PutSequence(ChildSequence(s.scope, c))];
  }

  // ----- Runs -----

  datatype Commit = WriteCommit(begin: nat, routes: seq<Route>) | SplitCommit(begin: nat, request: SplitRequest)

  /** A write attempt that read `s` commits on `d`: it protected the epoch, the scope and the
      sequence rows it selected. */
  ghost predicate WriteStep(s: Store, d: Store, routes: seq<Route>, after: Store) {
    && Decodes(s) && AllWritable(s, routes) && OffsetsFit(s, routes)
    && d.epoch == s.epoch && d.scope == s.scope
    && (forall q :: q in Advanced(s, routes) ==> q in d.sequences && d.sequences[q] == s.sequences[q])
    && after == d.(sequences := d.sequences + Advanced(s, routes))
  }

  /** A split that read `s` commits on `d`: it protected the whole history and its receipt. */
  ghost predicate SplitStep(s: Store, d: Store, req: SplitRequest, after: Store) {
    && Decodes(s) && Splittable(s, req)
    && d.epoch == s.epoch && d.scope == s.scope && d.lineages == s.lineages && d.sequences == s.sequences
    && req.operation !in d.receipts
    && after == SplitEffect(d, req)
  }

  ghost predicate StepAt(states: seq<Store>, commits: seq<Commit>, i: nat)
    requires |states| == |commits| + 1 && i < |commits|
  {
    commits[i].begin <= i && CommitStep(states[commits[i].begin], states[i], commits[i], states[i + 1])
  }

  ghost predicate CommitStep(s: Store, d: Store, commit: Commit, after: Store) {
    match commit
    case WriteCommit(_, routes) => WriteStep(s, d, routes, after)
    case SplitCommit(_, req) => SplitStep(s, d, req, after)
  }

  ghost predicate Initial(s: Store) {
    && s.epoch == 1 && s.receipts == map[]
    && s.lineages == map[DEFAULT_LINEAGE := LineageRow(s.scope, DEFAULT_SHARD, DEFAULT_LINEAGE, None, false, 1, None)]
    && s.sequences == map[DEFAULT_SHARD := SequenceRow(s.scope, DEFAULT_SHARD, 1)]
  }

  /** The committed states of a store in order; each commit may have read any earlier one. */
  ghost predicate Run(states: seq<Store>, commits: seq<Commit>) {
    && |states| == |commits| + 1 && Initial(states[0])
    && forall i :: 0 <= i < |commits| ==> StepAt(states, commits, i)
  }

  // ----- Order between states of one run -----

  predicate Evolved(row: LineageRow, later: LineageRow) {
    later == row || (!row.sealed && later == row.(sealed := true, sealedAfter := later.sealedAfter))
  }

  ghost predicate Later(a: Store, b: Store) {
    && a.scope == b.scope && a.epoch <= b.epoch && (a.epoch == b.epoch ==> a.lineages == b.lineages)
    && (forall x :: x in a.lineages ==> x in b.lineages && Evolved(a.lineages[x], b.lineages[x]))
    && (forall q :: q in a.sequences ==> q in b.sequences && a.sequences[q].next <= b.sequences[q].next)
    && (forall o :: o in a.receipts ==> o in b.receipts && b.receipts[o] == a.receipts[o])
  }

  lemma LaterTransitive(a: Store, b: Store, c: Store)
    requires Later(a, b) && Later(b, c)
    ensures Later(a, c)
  {
  }

  lemma WriteIsLater(s: Store, d: Store, routes: seq<Route>, after: Store)
    requires WriteStep(s, d, routes, after)
    ensures Later(d, after)
  {
  }

  lemma SplitIsLater(d: Store, req: SplitRequest)
    requires Splittable(d, req)
    ensures Later(d, SplitEffect(d, req))
  {
  }

  lemma StepIsLater(states: seq<Store>, commits: seq<Commit>, i: nat)
    requires |states| == |commits| + 1 && i < |commits| && StepAt(states, commits, i)
    ensures Later(states[i], states[i + 1])
  {
    match commits[i] {
      case WriteCommit(begin, routes) => WriteIsLater(states[begin], states[i], routes, states[i + 1]);
      case SplitCommit(begin, req) => SplitIsLater(states[i], req);
    }
  }

  ghost predicate Chain(states: seq<Store>) {
    forall i :: 0 <= i < |states| - 1 ==> Later(states[i], states[i + 1])
  }

  lemma RunIsChain(states: seq<Store>, commits: seq<Commit>)
    requires Run(states, commits)
    ensures Chain(states)
  {
    forall i | 0 <= i < |states| - 1 ensures Later(states[i], states[i + 1]) {
      StepIsLater(states, commits, i);
    }
  }

  lemma {:induction false} ChainIsLater(states: seq<Store>, i: nat, j: nat)
    requires Chain(states) && i <= j < |states|
    ensures Later(states[i], states[j])
    decreases j
  {
    if i < j {
      ChainIsLater(states, i, j - 1);
      assert Later(states[j - 1], states[j - 1 + 1]);
      LaterTransitive(states[i], states[j - 1], states[j]);
    }
  }

  // ----- What every reachable state keeps -----

  predicate ParentRule(lineages: map<Key, LineageRow>, a: Key)
    requires a in lineages
  {
    lineages[a].parent.Some? ==>
      var p := lineages[a].parent.value;
      p in lineages && lineages[p].sealed && lineages[p].shard != lineages[a].shard
  }

  ghost predicate LineageSound(s: Store, a: Key)
    requires a in s.lineages
  {
    LineageDecodes(s, a) && BoundsValid(s, a) && ParentRule(s.lineages, a) && WalkEnds(s.lineages, a, {})
  }

  ghost predicate LineagesSound(s: Store) {
    forall a :: a in s.lineages ==> LineageSound(s, a)
  }

  ghost predicate SequencesSound(s: Store) {
    forall q :: q in s.sequences ==> SequenceDecodes(s, q) && Owned(s.lineages, q)
  }

  ghost predicate ShardsDistinct(lineages: map<Key, LineageRow>) {
    forall a, b :: a in lineages && b in lineages && lineages[a].shard == lineages[b].shard ==> a == b
  }

  ghost predicate ForksSound(lineages: map<Key, LineageRow>) {
    && (exists a :: a in lineages && !lineages[a].sealed)
    && (forall a :: a in lineages && lineages[a].sealed ==> ForkedInTwo(lineages, a))
  }

  /** A committed split can be replayed: its parent is still sealed where the receipt says and
      its children still have their identities and initial offsets. */
  ghost predicate Replayable(s: Store, receipt: Receipt) {
    var req := receipt.request;
    && req.scope == s.scope && req.parent.lineage in s.lineages
    && LineageOf(s.lineages[req.parent.lineage]) == req.parent.(sealed := true)
    && s.lineages[req.parent.lineage].sealedAfter == Some(receipt.sealedAfter)
    && ChildPublished(s, req.left) && ChildPublished(s, req.right)
  }

  predicate ChildPublished(s: Store, c: Child) {
    && c.lineage.lineage in s.lineages
    && var row := s.lineages[c.lineage.lineage];
       row.shard == c.lineage.shard && row.parent == c.lineage.parent && row.initial == c.initial
  }

  ghost predicate ReceiptsSound(s: Store) {
    forall o :: o in s.receipts ==> s.receipts[o].request.operation == o && Replayable(s, s.receipts[o])
  }

  ghost predicate Sound(s: Store) {
    && s.epoch >= 1 && |s.lineages| == |s.sequences|
    && LineagesSound(s) && SequencesSound(s) && ShardsDistinct(s.lineages) && ForksSound(s.lineages) && ReceiptsSound(s)
  }

  lemma SoundRowsDecode(s: Store)
    requires LineagesSound(s) && SequencesSound(s)
    ensures RowsDecode(s)
  {
    forall a | a in s.lineages ensures LineageDecodes(s, a) && BoundsValid(s, a) {
      assert LineageSound(s, a);
    }
  }

  lemma SoundCatalogValid(s: Store)
    requires LineagesSound(s) && ShardsDistinct(s.lineages) && ForksSound(s.lineages)
    ensures CatalogValid(s.lineages)
  {
    forall a | a in s.lineages ensures ParentValid(s.lineages, a) {
      assert LineageSound(s, a);
      if s.lineages[a].parent.Some? {
        assert LineageSound(s, s.lineages[a].parent.value);
      }
    }
  }

  /** A sound state decodes exactly when it has at most 128 lineages. */
  lemma SoundDecodes(s: Store)
    requires Sound(s)
    ensures Decodes(s) <==> |s.lineages| <= MAX_ENTRIES
  {
    SoundRowsDecode(s);
    SoundCatalogValid(s);
  }

  // ----- Writes keep it -----

  lemma {:induction false} HitShardIsWritable(s: Store, routes: seq<Route>, shard: Key) returns (i: nat)
    requires AllWritable(s, routes) && Hits(routes, shard) > 0
    ensures i < |routes| && routes[i].shard == shard
    decreases |routes|
  {
    var last := |routes| - 1;
    if routes[last].shard == shard {
      i := last;
    } else {
      i := HitShardIsWritable(s, routes[..last], shard);
    }
  }

  /** A write leaves the rows of sealed lineages alone. */
  lemma WriteKeepsLineages(d: Store, routes: seq<Route>, after: Store)
    requires LineagesSound(d) && ShardsDistinct(d.lineages) && AllWritable(d, routes)
    requires after == d.(sequences := d.sequences + Advanced(d, routes))
    ensures LineagesSound(after)
  {
    forall a | a in after.lineages ensures LineageSound(after, a) {
      assert LineageSound(d, a);
      var shard := d.lineages[a].shard;
      if Hits(routes, shard) > 0 {
        var i := HitShardIsWritable(d, routes, shard);
        assert Writable(d, routes[i]);
        assert routes[i].lineage == a;
      }
    }
  }

  lemma WriteKeepsSequences(d: Store, routes: seq<Route>, after: Store)
    requires SequencesSound(d)
    requires after == d.(sequences := d.sequences + Advanced(d, routes))
    ensures SequencesSound(after) && |after.sequences| == |d.sequences|
  {
    assert after.sequences.Keys == d.sequences.Keys;
    forall q | q in after.sequences ensures SequenceDecodes(after, q) && Owned(after.lineages, q) {
      assert SequenceDecodes(d, q) && Owned(d.lineages, q);
    }
  }

  lemma ReceiptsUnaffected(d: Store, after: Store)
    requires ReceiptsSound(d) && after == d.(sequences := after.sequences)
    ensures ReceiptsSound(after)
  {
    forall o | o in after.receipts ensures Replayable(after, after.receipts[o]) {
      assert Replayable(d, d.receipts[o]);
    }
  }

  lemma WriteKeepsSound(d: Store, routes: seq<Route>, after: Store)
    requires Sound(d) && AllWritable(d, routes)
    requires after == d.(sequences := d.sequences + Advanced(d, routes))
    ensures Sound(after)
  {
    WriteKeepsLineages(d, routes, after);
    WriteKeepsSequences(d, routes, after);
    ReceiptsUnaffected(d, after);
    assert after.lineages == d.lineages;
  }

  /** The rows an attempt advances are the ones it would advance on the state it commits on. */
  lemma WriteRowsAgree(s: Store, d: Store, routes: seq<Route>)
    requires Later(s, d) && AllWritable(s, routes) && d.epoch == s.epoch
    requires forall q :: q in Advanced(s, routes) ==> q in d.sequences && d.sequences[q] == s.sequences[q]
    ensures AllWritable(d, routes) && Advanced(d, routes) == Advanced(s, routes)
  {
    forall i | 0 <= i < |routes| ensures Writable(d, routes[i]) {
      assert Writable(s, routes[i]);
    }
    forall q | q in d.sequences && Hits(routes, q) > 0 ensures q in s.sequences {
      var i := HitShardIsWritable(s, routes, q);
      assert Writable(s, routes[i]);
    }
  }

  // ----- Splits keep it -----

  /** The rows after a split, one by one. */
  lemma SplitLookup(d: Store, req: SplitRequest)
    requires Splittable(d, req)
    ensures var n := SealedLineages(d, req);
            && n.Keys == d.lineages.Keys + {req.left.lineage.lineage, req.right.lineage.lineage}
            && n[req.left.lineage.lineage] == ChildRow(d.scope, req.left)
            && n[req.right.lineage.lineage] == ChildRow(d.scope, req.right)
            && n[req.parent.lineage] == d.lineages[req.parent.lineage].(
                 sealed := true, sealedAfter := Some(d.sequences[req.parent.shard].next))
            && forall a :: a in d.lineages && a != req.parent.lineage ==> n[a] == d.lineages[a]
  {
  }

  lemma SplitCounts(d: Store, req: SplitRequest)
    requires Splittable(d, req)
    ensures |SealedLineages(d, req)| == |d.lineages| + 2
    ensures |SplitEffect(d, req).sequences| == |d.sequences| + 2
  {
    var l, r := req.left.lineage.lineage, req.right.lineage.lineage;
    SplitLookup(d, req);
    assert SealedLineages(d, req).Keys == d.lineages.Keys + {l} + {r};
    assert SplitEffect(d, req).sequences.Keys
      == d.sequences.Keys + {req.left.lineage.shard} + {req.right.lineage.shard};
  }

  /** A walk over old lineages is not disturbed by new ones. */
  lemma {:induction false} WalkGrows(d: Store, req: SplitRequest, id: Key, visited: set<Key>, extra: set<Key>)
    requires Splittable(d, req) && (forall a :: a in d.lineages ==> ParentRule(d.lineages, a))
    requires id in d.lineages && extra !! d.lineages.Keys && WalkEnds(d.lineages, id, visited)
    ensures WalkEnds(SealedLineages(d, req), id, visited + extra)
    decreases d.lineages.Keys - visited
  {
    SplitLookup(d, req);
    assert SealedLineages(d, req)[id].parent == d.lineages[id].parent;
    if d.lineages[id].parent.Some? {
      var p := d.lineages[id].parent.value;
      assert ParentRule(d.lineages, id);
      WalkGrows(d, req, p, visited + {id}, extra);
      assert visited + {id} + extra == visited + extra + {id};
    }
  }

  lemma SplitWalks(d: Store, req: SplitRequest, a: Key)
    requires Splittable(d, req) && LineagesSound(d) && a in SealedLineages(d, req)
    ensures WalkEnds(SealedLineages(d, req), a, {})
  {
    SplitLookup(d, req);
    var p, n := req.parent.lineage, SealedLineages(d, req);
    assert forall x :: x in d.lineages ==> LineageSound(d, x);
    assert forall x :: x in d.lineages ==> ParentRule(d.lineages, x);
    if a in d.lineages {
      var none: set<Key> := {};
      WalkGrows(d, req, a, none, none);
      assert none + none == none;
    } else {
      WalkGrows(d, req, p, {}, {a});
      assert {} + {a} == {a};
      assert n[a].parent == Some(p);
    }
  }

  lemma SplitParents(d: Store, req: SplitRequest, a: Key)
    requires Splittable(d, req) && LineagesSound(d) && a in SealedLineages(d, req)
    ensures ParentRule(SealedLineages(d, req), a)
  {
    SplitLookup(d, req);
    if a in d.lineages {
      assert LineageSound(d, a);
    }
  }

  /** Lineages of a sound state other than the parent are on other shards. */
  lemma SplitLineages(d: Store, req: SplitRequest)
    requires Splittable(d, req) && LineagesSound(d) && ShardsDistinct(d.lineages)
    ensures LineagesSound(SplitEffect(d, req))
  {
    SplitLookup(d, req);
    var after := SplitEffect(d, req);
    forall a | a in after.lineages ensures LineageSound(after, a) {
      SplitWalks(d, req, a);
      SplitParents(d, req, a);
      if a in d.lineages {
        assert LineageSound(d, a);
      }
    }
  }

  lemma SplitSequences(d: Store, req: SplitRequest)
    requires Splittable(d, req) && SequencesSound(d)
    ensures SequencesSound(SplitEffect(d, req))
  {
    SplitLookup(d, req);
    var after := SplitEffect(d, req);
    forall q | q in after.sequences ensures SequenceDecodes(after, q) && Owned(after.lineages, q) {
      if q in d.sequences {
        assert SequenceDecodes(d, q) && Owned(d.lineages, q);
        var a :| a in d.lineages && d.lineages[a].shard == q;
        assert after.lineages[a].shard == q;
      } else if q == req.left.lineage.shard {
        assert after.lineages[req.left.lineage.lineage].shard == q;
      } else {
        assert after.lineages[req.right.lineage.lineage].shard == q;
      }
    }
  }

  lemma SplitShards(d: Store, req: SplitRequest)
    requires Splittable(d, req) && LineagesSound(d) && ShardsDistinct(d.lineages)
    ensures ShardsDistinct(SealedLineages(d, req))
  {
    SplitLookup(d, req);
    forall a | a in d.lineages ensures d.lineages[a].shard in d.sequences {
      assert LineageSound(d, a);
    }
  }

  /** The parent had no children before, and no other lineage gets any. */
  lemma SplitChildren(d: Store, req: SplitRequest, a: Key)
    requires Splittable(d, req) && LineagesSound(d)
    ensures Children(SealedLineages(d, req), a) ==
            if a == req.parent.lineage then {req.left.lineage.lineage, req.right.lineage.lineage}
              else Children(d.lineages, a)
  {
    SplitLookup(d, req);
    var n := SealedLineages(d, req);
    forall c | c in d.lineages ensures d.lineages[c].parent != Some(req.parent.lineage) {
      assert LineageSound(d, c);
    }
  }

  lemma SplitForks(d: Store, req: SplitRequest)
    requires Splittable(d, req) && LineagesSound(d) && ForksSound(d.lineages)
    ensures ForksSound(SealedLineages(d, req))
  {
    SplitLookup(d, req);
    var n := SealedLineages(d, req);
    assert !n[req.left.lineage.lineage].sealed;
    forall a | a in n && n[a].sealed ensures ForkedInTwo(n, a) {
      SplitChildren(d, req, a);
      if a == req.parent.lineage {
        assert Fork(n, a, req.left.lineage.lineage, req.right.lineage.lineage);
      } else {
        assert ForkedInTwo(d.lineages, a);
        var l, r :| l in d.lineages && r in d.lineages && Fork(d.lineages, a, l, r);
        assert n[l].shard == d.lineages[l].shard && n[r].shard == d.lineages[r].shard;
        assert Fork(n, a, l, r);
      }
    }
  }

  lemma SplitReceipts(d: Store, req: SplitRequest)
    requires Splittable(d, req) && ReceiptsSound(d)
    ensures ReceiptsSound(SplitEffect(d, req))
  {
    SplitLookup(d, req);
    var after := SplitEffect(d, req);
    forall o | o in after.receipts
      ensures after.receipts[o].request.operation == o && Replayable(after, after.receipts[o]) {
      if o != req.operation {
        assert Replayable(d, d.receipts[o]);
      }
    }
  }

  lemma SplitKeepsSound(d: Store, req: SplitRequest)
    requires Sound(d) && Splittable(d, req)
    ensures Sound(SplitEffect(d, req))
  {
    SplitCounts(d, req);
    SplitLineages(d, req);
    SplitSequences(d, req);
    SplitShards(d, req);
    SplitForks(d, req);
    SplitReceipts(d, req);
  }
}
