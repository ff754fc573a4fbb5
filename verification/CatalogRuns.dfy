/** Every run of catalog operations. */
module CatalogRuns {
  import opened Outcomes
  import opened Bytes
  import opened TableCatalog
  import opened CatalogOperations

  datatype IndexGrant = IndexGrant(table: nat, index: nat, name: Key)

  /** The catalog with, as bookkeeping, the table identifiers given out, the index identifiers
      given out, and what was ever published under each stamp. */
  datatype State = State(catalog: Catalog, created: seq<nat>, issued: seq<IndexGrant>, published: map<Stamp, Stored>)

  datatype Step = Create(info: Info) | Update(name: Key, next: Info) | Touch(touched: Key)
                | Barrier(guarded: Key, stamp: Stamp) | Drop(dropped: Key, phase: nat)
                | Phase(table: nat, following: Option<nat>)

  const EMPTY := State(Catalog(map[], map[], None, map[], map[]), [], [], map[])

  /** The indexes of a table above a mark, as grants. */
  function Grants(table: nat, indexes: seq<Index>, mark: nat): seq<IndexGrant> {
    if indexes == [] then []
    else
      var last := indexes[|indexes| - 1];
      Grants(table, indexes[..|indexes| - 1], mark)
        + (if last.id > mark then [IndexGrant(table, last.id, last.name)] else [])
  }

  function Record(s: State, c: Catalog, table: nat, mark: nat): State
    requires table in c.metadata
  {
    var stored := c.metadata[table];
    State(c, s.created, s.issued + Grants(table, stored.identity.indexes, mark),
          s.published[Stamp(table, stored.identity.revision) := stored])
  }

  /** A refused operation changes nothing. */
  function Next(s: State, step: Step): State {
    match step
    case Create(info) =>
      (match CreateTable(s.catalog, info)
       case Ok(c) => if NextId(s.catalog) in c.metadata
         then Record(s, c, NextId(s.catalog), 0).(created := s.created + [NextId(s.catalog)]) else s
       case Err(_) => s)
    case Update(name, info) => Replaced(s, UpdateTable(s.catalog, name, info), name)
    case Touch(name) => Replaced(s, TouchTable(s.catalog, name), name)
    case Barrier(name, stamp) => Replaced(s, StoreBarrier(s.catalog, name, stamp), name)
    case Drop(name, phase) => (match DropTable(s.catalog, name, phase) case Ok(c) => s.(catalog := c) case Err(_) => s)
    case Phase(table, following) =>
      (match StorePhase(s.catalog, table, following) case Ok(c) => s.(catalog := c) case Err(_) => s)
  }

  function Replaced(s: State, done: Result<Catalog>, name: Key): State {
    match done
    case Ok(c) =>
      if name in s.catalog.names && s.catalog.names[name].table in c.metadata
      then Record(s, c, s.catalog.names[name].table, s.catalog.names[name].highWater) else s
    case Err(_) => s
  }

  function After(steps: seq<Step>): State {
    if steps == [] then EMPTY else Next(After(steps[..|steps| - 1]), steps[|steps| - 1])
  }

  // ----- What every run keeps -----

  predicate CreatedFit(s: State) {
    && (forall i :: 0 <= i < |s.created| ==> 1 <= s.created[i] < NextId(s.catalog))
    && (forall i, j :: 0 <= i < j < |s.created| ==> s.created[i] < s.created[j])
    && (forall t :: t in s.catalog.metadata ==> t in s.created)
  }

  predicate UniqueGrants(log: seq<IndexGrant>) {
    forall i, j :: 0 <= i < j < |log| ==> log[i].table != log[j].table || log[i].index != log[j].index
  }

  /** Index identifiers are given out once, and only up to their table's mark. */
  predicate IssuedFit(s: State) {
    && UniqueGrants(s.issued)
    && (forall g :: g in s.issued ==> g.table < NextId(s.catalog))
    && (forall g :: g in s.issued && g.table in s.catalog.metadata ==>
         g.index <= s.catalog.metadata[g.table].identity.highWater)
  }

  /** Every index identifier in use was given out. */
  ghost predicate IndexesIssued(s: State) {
    forall t, x :: t in s.catalog.metadata && x in s.catalog.metadata[t].identity.indexes ==>
      IndexGrant(t, x.id, x.name) in s.issued
  }

  /** Every live table is published under its stamp, and no stamp is ahead of its table. */
  ghost predicate PublishedFit(s: State) {
    && (forall t :: Live(s.catalog, t) ==> PublishedAs(s, t))
    && (forall p :: p in s.published ==>
         p.table < NextId(s.catalog)
         && (p.table in s.catalog.metadata ==> p.revision <= s.catalog.metadata[p.table].identity.revision))
  }

  predicate PublishedAs(s: State, t: nat)
    requires t in s.catalog.metadata
  {
    var stamp := Stamp(t, s.catalog.metadata[t].identity.revision);
    stamp in s.published && s.published[stamp] == s.catalog.metadata[t]
  }

  ghost predicate Kept(s: State) {
    Consistent(s.catalog) && CreatedFit(s) && IssuedFit(s) && IndexesIssued(s) && PublishedFit(s)
  }

  /** Logs only grow and published records never change. */
  predicate Follows(a: State, b: State) {
    && a.created <= b.created && a.issued <= b.issued
    && (forall p :: p in a.published ==> p in b.published && b.published[p] == a.published[p])
  }

  lemma {:induction false} GrantsExact(table: nat, indexes: seq<Index>, mark: nat)
    requires DistinctIds(indexes)
    ensures UniqueGrants(Grants(table, indexes, mark))
    ensures forall g :: g in Grants(table, indexes, mark) <==>
            g.table == table && g.index > mark && exists x :: x in indexes && x.id == g.index && x.name == g.name
    decreases |indexes|
  {
    if indexes != [] {
      var init, last := indexes[..|indexes| - 1], indexes[|indexes| - 1];
      GrantsExact(table, init, mark);
      forall x | x in init ensures x.id != last.id {
        var j :| 0 <= j < |init| && init[j] == x;
        assert indexes[j].id != indexes[|indexes| - 1].id;
      }
      var before, after := Grants(table, init, mark), Grants(table, indexes, mark);
      assert forall x :: x in indexes <==> x in init || x == last;
      forall i | 0 <= i < |before| ensures before[i].index != last.id {
        assert before[i] in before;
      }
    }
  }

  lemma GrantsAppend(s: State, table: nat, identity: Identity, mark: nat)
    requires UniqueGrants(s.issued) && WellIndexed(identity)
    requires forall g :: g in s.issued && g.table == table ==> g.index <= mark
    ensures UniqueGrants(s.issued + Grants(table, identity.indexes, mark))
    ensures forall g :: g in Grants(table, identity.indexes, mark) ==> g.table == table && g.index <= identity.highWater
  {
    GrantsExact(table, identity.indexes, mark);
    var more := Grants(table, identity.indexes, mark);
    forall i, j | 0 <= i < |s.issued| && 0 <= j < |more|
      ensures s.issued[i].table != more[j].table || s.issued[i].index != more[j].index {
      assert s.issued[i] in s.issued && more[j] in more;
    }
  }

  // ----- Publishing -----

  lemma PublishIssued(s: State, identity: Identity, info: Info, wasEnabled: bool, mark: nat)
    requires IssuedFit(s) && WellIndexed(identity) && identity.table < NextId(s.catalog) && mark <= identity.highWater
    requires forall g :: g in s.issued && g.table == identity.table ==> g.index <= mark
    ensures IssuedFit(Record(s, Publish(s.catalog, identity, info, wasEnabled), identity.table, mark))
  {
    GrantsAppend(s, identity.table, identity, mark);
  }

  /** A new revision is published once and changes no earlier record. */
  lemma PublishPublished(s: State, identity: Identity, info: Info, wasEnabled: bool, mark: nat)
    requires PublishedFit(s) && 1 <= identity.table < NextId(s.catalog)
    requires forall p :: p in s.published && p.table == identity.table ==> p.revision < identity.revision
    ensures var after := Record(s, Publish(s.catalog, identity, info, wasEnabled), identity.table, mark);
            PublishedFit(after) && Follows(s, after)
  {
    var after := Record(s, Publish(s.catalog, identity, info, wasEnabled), identity.table, mark);
    forall t | Live(after.catalog, t) ensures PublishedAs(after, t) {
      if t != identity.table {
        assert Live(s.catalog, t) && PublishedAs(s, t);
      }
    }
  }

  /** What the logs say about the live table of a name. */
  lemma LogsBehind(s: State, name: Key)
    requires Consistent(s.catalog) && IssuedFit(s) && PublishedFit(s) && name in s.catalog.names
    ensures forall g :: g in s.issued && g.table == s.catalog.names[name].table ==>
            g.index <= s.catalog.names[name].highWater
    ensures forall p :: p in s.published && p.table == s.catalog.names[name].table ==>
            p.revision <= s.catalog.names[name].revision
  {
    assert Live(s.catalog, s.catalog.names[name].table);
  }

  lemma ContinueConsistent(c: Catalog, name: Key, identity: Identity, info: Info, after: Catalog)
    requires Consistent(c) && PublishedNext(c, name, identity, info, after)
    ensures Consistent(after)
  {
    PublishKeeps(c, identity, info, HasEnabledStream(c.metadata[c.names[name].table].info));
  }

  lemma ContinueCreated(s: State, name: Key, identity: Identity, info: Info, c: Catalog)
    requires CreatedFit(s) && PublishedNext(s.catalog, name, identity, info, c)
    ensures CreatedFit(Record(s, c, s.catalog.names[name].table, s.catalog.names[name].highWater))
  {
    assert c.metadata.Keys == s.catalog.metadata.Keys;
  }

  lemma RecordIndexes(s: State, identity: Identity, info: Info, wasEnabled: bool, mark: nat)
    requires IndexesIssued(s) && DistinctIds(identity.indexes)
    requires forall x :: x in identity.indexes ==> x.id > mark || IndexGrant(identity.table, x.id, x.name) in s.issued
    ensures IndexesIssued(Record(s, Publish(s.catalog, identity, info, wasEnabled), identity.table, mark))
  {
    GrantsExact(identity.table, identity.indexes, mark);
  }

  lemma ContinueIndexes(s: State, name: Key, identity: Identity, info: Info, c: Catalog)
    requires NamesAgree(s.catalog) && IndexesIssued(s) && PublishedNext(s.catalog, name, identity, info, c)
    ensures IndexesIssued(Record(s, c, s.catalog.names[name].table, s.catalog.names[name].highWater))
  {
    var current := s.catalog.names[name];
    RecordIndexes(s, identity, info, HasEnabledStream(s.catalog.metadata[current.table].info), current.highWater);
  }

  lemma ContinueLogs(s: State, name: Key, identity: Identity, info: Info, c: Catalog)
    requires Consistent(s.catalog) && IssuedFit(s) && PublishedFit(s)
             && PublishedNext(s.catalog, name, identity, info, c)
    ensures var after := Record(s, c, s.catalog.names[name].table, s.catalog.names[name].highWater);
            IssuedFit(after) && PublishedFit(after) && Follows(s, after)
  {
    var current := s.catalog.names[name];
    var was := HasEnabledStream(s.catalog.metadata[current.table].info);
    LogsBehind(s, name);
    assert 1 <= current.table < NextId(s.catalog);
    PublishIssued(s, identity, info, was, current.highWater);
    PublishPublished(s, identity, info, was, current.highWater);
  }

  lemma ContinueKeeps(s: State, name: Key, identity: Identity, info: Info, c: Catalog)
    requires Kept(s) && PublishedNext(s.catalog, name, identity, info, c)
    ensures var after := Record(s, c, s.catalog.names[name].table, s.catalog.names[name].highWater);
            Kept(after) && Follows(s, after)
  {
    ContinueConsistent(s.catalog, name, identity, info, c);
    ContinueCreated(s, name, identity, info, c);
    ContinueIndexes(s, name, identity, info, c);
    ContinueLogs(s, name, identity, info, c);
  }

  /** Publishing under a new identifier. */
  lemma NewTableKeeps(s: State, identity: Identity, info: Info)
    requires Consistent(s.catalog) && IssuedFit(s) && IndexesIssued(s) && PublishedFit(s)
    requires Publishable(s.catalog, identity, info, false) && identity.table !in s.catalog.metadata
    requires forall g :: g in s.issued ==> g.table != identity.table
    requires forall p :: p in s.published ==> p.table != identity.table
    ensures var after := Record(s, Publish(s.catalog, identity, info, false), identity.table, 0);
            Consistent(after.catalog) && IssuedFit(after) && IndexesIssued(after) && PublishedFit(after)
              && Follows(s, after)
  {
    PublishKeeps(s.catalog, identity, info, false);
    PublishIssued(s, identity, info, false, 0);
    RecordIndexes(s, identity, info, false, 0);
    PublishPublished(s, identity, info, false, 0);
  }

  function Grown(s: State): State {
    s.(catalog := s.catalog.(allocator := Some(NextId(s.catalog) + 1)))
  }

  lemma CreateReady(s: State, info: Info)
    requires Kept(s) && CreateTable(s.catalog, info).Ok?
    ensures var identity, grown := NewIdentity(NextId(s.catalog), info).value, Grown(s);
            && Consistent(grown.catalog) && IssuedFit(grown) && IndexesIssued(grown) && PublishedFit(grown)
            && Publishable(grown.catalog, identity, info, false) && identity.table !in grown.catalog.metadata
            && (forall g :: g in grown.issued ==> g.table != identity.table)
            && (forall p :: p in grown.published ==> p.table != identity.table)
  {
    AllocatorGrows(s, NextId(s.catalog) + 1);
    assert NextId(s.catalog) !in s.catalog.metadata;
  }

  lemma CreateIs(s: State, info: Info)
    requires CreateTable(s.catalog, info).Ok?
    ensures var identity, grown := NewIdentity(NextId(s.catalog), info).value, Grown(s);
            Next(s, Create(info)) ==
            Record(grown, Publish(grown.catalog, identity, info, false), identity.table,
              0).(created := s.created + [NextId(s.catalog)])
  {
  }

  lemma CreatedAside(s: State, created: seq<nat>)
    requires Consistent(s.catalog) && IssuedFit(s) && IndexesIssued(s) && PublishedFit(s)
             && CreatedFit(s.(created := created))
    ensures Kept(s.(created := created))
  {
    var after := s.(created := created);
    forall t | Live(after.catalog, t) ensures PublishedAs(after, t) { assert PublishedAs(s, t); }
  }

  lemma CreateKeeps(s: State, info: Info)
    requires Kept(s)
    ensures Kept(Next(s, Create(info))) && Follows(s, Next(s, Create(info)))
  {
    if CreateTable(s.catalog, info).Ok? {
      CreateReady(s, info);
      CreatedGrows(s, info);
      CreateStep(s, info);
    }
  }

  lemma CreateStep(s: State, info: Info)
    requires CreateTable(s.catalog, info).Ok? && CreatedFit(Next(s, Create(info)))
    requires var identity, grown := NewIdentity(NextId(s.catalog), info).value, Grown(s);
             && Consistent(grown.catalog) && IssuedFit(grown) && IndexesIssued(grown) && PublishedFit(grown)
             && Publishable(grown.catalog, identity, info, false) && identity.table !in grown.catalog.metadata
             && (forall g :: g in grown.issued ==> g.table != identity.table)
             && (forall p :: p in grown.published ==> p.table != identity.table)
    ensures Kept(Next(s, Create(info))) && Follows(s, Next(s, Create(info)))
  {
    var identity, grown := NewIdentity(NextId(s.catalog), info).value, Grown(s);
    CreateIs(s, info);
    NewTableKeeps(grown, identity, info);
    CreatedAside(Record(grown, Publish(grown.catalog, identity, info, false), identity.table, 0),
      s.created + [NextId(s.catalog)]);
  }

  lemma AllocatorGrows(s: State, next: nat)
    requires Kept(s) && next == NextId(s.catalog) + 1
    ensures var grown := s.(catalog := s.catalog.(allocator := Some(next)));
            Consistent(grown.catalog) && IssuedFit(grown) && PublishedFit(grown)
  {
    var grown := s.(catalog := s.catalog.(allocator := Some(next)));
    forall t | Live(grown.catalog, t) ensures PublishedAs(grown, t) {
      assert Live(s.catalog, t) && PublishedAs(s, t);
    }
    forall n | n in grown.catalog.names ensures Live(grown.catalog, grown.catalog.names[n].table) {
      assert Live(s.catalog, s.catalog.names[n].table);
    }
    forall t | Live(grown.catalog, t) ensures grown.catalog.names[grown.catalog.metadata[t].identity.name].table == t {
      assert Live(s.catalog, t);
    }
  }

  lemma CreatedGrows(s: State, info: Info)
    requires CreatedFit(s) && NextId(s.catalog) >= 1 && CreateTable(s.catalog, info).Ok?
    ensures CreatedFit(Next(s, Create(info)))
  {
    var table, after := NextId(s.catalog), Next(s, Create(info));
    assert after.created == s.created + [table];
    forall t | t in after.catalog.metadata ensures t in after.created {
      if t != table { assert t in s.created; } else { assert after.created[|s.created|] == table; }
    }
  }

  lemma UpdateKeeps(s: State, name: Key, info: Info)
    requires Kept(s)
    ensures Kept(Next(s, Update(name, info))) && Follows(s, Next(s, Update(name, info)))
  {
    if UpdateTable(s.catalog, name, info).Ok? {
      var identity := UpdateShape(s.catalog, name, info);
      ContinueKeeps(s, name, identity, info, UpdateTable(s.catalog, name, info).value);
    }
  }

  lemma TouchKeeps(s: State, name: Key)
    requires Kept(s)
    ensures Kept(Next(s, Touch(name))) && Follows(s, Next(s, Touch(name)))
  {
    if TouchTable(s.catalog, name).Ok? {
      var identity := TouchShape(s.catalog, name);
      ContinueKeeps(s, name, identity, s.catalog.metadata[s.catalog.names[name].table].info,
        TouchTable(s.catalog, name).value);
    }
  }

  lemma BarrierKeeps(s: State, name: Key, stamp: Stamp)
    requires Kept(s)
    ensures Kept(Next(s, Barrier(name, stamp))) && Follows(s, Next(s, Barrier(name, stamp)))
  {
    if StoreBarrier(s.catalog, name, stamp).Ok? {
      var identity := BarrierShape(s.catalog, name, stamp);
      ContinueKeeps(s, name, identity, s.catalog.metadata[s.catalog.names[name].table].info,
        StoreBarrier(s.catalog, name, stamp).value);
    }
  }

  /** Changes that publish nothing and only take tables away. */
  lemma ShrinkKeeps(s: State, c: Catalog)
    requires Kept(s) && Consistent(c) && NextId(c) == NextId(s.catalog)
    requires forall t :: t in c.metadata ==>
               && t in s.catalog.metadata
               && c.metadata[t].identity.revision == s.catalog.metadata[t].identity.revision
               && c.metadata[t].identity.highWater == s.catalog.metadata[t].identity.highWater
               && c.metadata[t].identity.indexes == s.catalog.metadata[t].identity.indexes
    requires forall t :: Live(c, t) ==> c.metadata[t] == s.catalog.metadata[t]
    ensures Kept(s.(catalog := c)) && Follows(s, s.(catalog := c))
  {
    var after := s.(catalog := c);
    forall t | Live(c, t) ensures PublishedAs(after, t) {
      assert Live(s.catalog, t) && PublishedAs(s, t);
    }
  }

  lemma DropKeeps(s: State, name: Key, phase: nat)
    requires Kept(s)
    ensures Kept(Next(s, Drop(name, phase))) && Follows(s, Next(s, Drop(name, phase)))
  {
    BindSucceeds(s.catalog, name);
    if DropTable(s.catalog, name, phase).Ok? {
      TombstoneKeeps(s.catalog, name, phase);
      ShrinkKeeps(s, DropTable(s.catalog, name, phase).value);
    }
  }

  lemma PhaseKeeps(s: State, table: nat, following: Option<nat>)
    requires Kept(s)
    ensures Kept(Next(s, Phase(table, following))) && Follows(s, Next(s, Phase(table, following)))
  {
    if StorePhase(s.catalog, table, following).Ok? {
      FinishKeeps(s.catalog, table, following);
      ShrinkKeeps(s, StorePhase(s.catalog, table, following).value);
    }
  }

  lemma StepKeeps(s: State, step: Step)
    requires Kept(s)
    ensures Kept(Next(s, step)) && Follows(s, Next(s, step))
  {
    match step {
      case Create(info) => CreateKeeps(s, info);
      case Update(name, info) => UpdateKeeps(s, name, info);
      case Touch(name) => TouchKeeps(s, name);
      case Barrier(name, stamp) => BarrierKeeps(s, name, stamp);
      case Drop(name, phase) => DropKeeps(s, name, phase);
      case Phase(table, following) => PhaseKeeps(s, table, following);
    }
  }

  /** The attempt's operations perform the steps: on a catalog of a run, each leaves exactly the
      rows of the next state, which again is one the invariants hold of. */
  method Perform(attempt: KvCatalogAttempt, step: Step, ghost s: State) returns (ok: bool)
    requires Kept(s) && attempt.rows == s.catalog
    modifies attempt
    ensures ok <==> Operation(s.catalog, step).Ok?
    ensures attempt.rows == Next(s, step).catalog && Kept(Next(s, step))
  {
    StepKeeps(s, step);
    StepCatalog(s, step);
    ok := Execute(attempt, step);
  }

  /** Runs the operation of a step on the attempt's rows; a refused one leaves them alone. */
  method Execute(attempt: KvCatalogAttempt, step: Step) returns (ok: bool)
    modifies attempt
    ensures ok <==> Operation(old(attempt.rows), step).Ok?
    ensures attempt.rows == if ok then Operation(old(attempt.rows), step).value else old(attempt.rows)
  {
    match step {
      case Create(info) =>
        var r := attempt.InsertTableLayout(info);
        ok := r.Ok?;
      case Update(name, info) =>
        var r := attempt.UpdateInAttempt(name, info);
        ok := r.Ok?;
      case Touch(name) =>
        var r := attempt.TouchInAttempt(name);
        ok := r.Ok?;
      case Barrier(name, stamp) =>
        var r := attempt.StoreExternalCleanupBarrier(name, stamp);
        ok := r.Ok?;
      case Drop(name, phase) =>
        var r := attempt.DropInAttempt(name, phase);
        ok := r.Ok?;
      case Phase(table, following) =>
        var r := attempt.StoreReclaimPhase(table, following);
        ok := r.Ok?;
    }
  }

  /** The catalog operation a step runs. */
  function Operation(c: Catalog, step: Step): Result<Catalog> {
    match step
    case Create(info) => CreateTable(c, info)
    case Update(name, info) => UpdateTable(c, name, info)
    case Touch(name) => TouchTable(c, name)
    case Barrier(name, stamp) => StoreBarrier(c, name, stamp)
    case Drop(name, phase) => DropTable(c, name, phase)
    case Phase(table, following) => StorePhase(c, table, following)
  }

  lemma StepCatalog(s: State, step: Step)
    requires Consistent(s.catalog)
    ensures Next(s, step).catalog == if Operation(s.catalog, step).Ok? then Operation(s.catalog, step).value
            else s.catalog
  {
    match step {
      case Update(name, info) =>
        if Operation(s.catalog, step).Ok? { var identity := UpdateShape(s.catalog, name, info); }
      case Touch(name) =>
        if Operation(s.catalog, step).Ok? { var identity := TouchShape(s.catalog, name); }
      case Barrier(name, stamp) =>
        if Operation(s.catalog, step).Ok? { var identity := BarrierShape(s.catalog, name, stamp); }
      case _ =>
    }
  }

  /** Every reachable catalog is consistent. */
  lemma {:induction false} RunKeeps(steps: seq<Step>)
    ensures Kept(After(steps))
    decreases |steps|
  {
    if steps != [] {
      RunKeeps(steps[..|steps| - 1]);
      StepKeeps(After(steps[..|steps| - 1]), steps[|steps| - 1]);
    }
  }

  lemma {:induction false} RunFollows(steps: seq<Step>, i: nat)
    requires i <= |steps|
    ensures Follows(After(steps[..i]), After(steps))
    decreases |steps|
  {
    if i == |steps| {
      assert steps[..i] == steps;
    } else {
      var init := steps[..|steps| - 1];
      RunFollows(init, i);
      assert init[..i] == steps[..i];
      RunKeeps(init);
      StepKeeps(After(init), steps[|steps| - 1]);
    }
  }

  /** Table identifiers and index identifiers are never reused, whatever is deleted: each is given
      out once, and those in use were given out. */
  lemma IdentifiersNeverReused(steps: seq<Step>)
    ensures forall i, j :: 0 <= i < j < |After(steps).created| ==> After(steps).created[i] < After(steps).created[j]
    ensures forall t :: t in After(steps).catalog.metadata ==> t in After(steps).created
    ensures UniqueGrants(After(steps).issued) && IndexesIssued(After(steps))
  {
    RunKeeps(steps);
  }

  lemma LivePublished(steps: seq<Step>, t: nat)
    requires Live(After(steps).catalog, t)
    ensures PublishedAs(After(steps), t)
  {
    RunKeeps(steps);
  }

  /** A table identifier and revision determine the live metadata forever: whatever is read
      under one stamp, at any two times of a run, is the same record. */
  lemma StampDeterminesTable(steps: seq<Step>, i: nat, j: nat, stamp: Stamp)
    requires i <= j <= |steps|
    requires Live(After(steps[..i]).catalog, stamp.table)
             && After(steps[..i]).catalog.metadata[stamp.table].identity.revision == stamp.revision
    requires Live(After(steps[..j]).catalog, stamp.table)
             && After(steps[..j]).catalog.metadata[stamp.table].identity.revision == stamp.revision
    ensures After(steps[..i]).catalog.metadata[stamp.table] == After(steps[..j]).catalog.metadata[stamp.table]
  {
    LivePublished(steps[..i], stamp.table);
    LivePublished(steps[..j], stamp.table);
    RunFollows(steps[..j], i);
    assert steps[..j][..i] == steps[..i];
  }

  /** In every reachable catalog a bound name reads its live table, without stale or missing
      metadata, and streams and names agree. */
  lemma ReadsNeverStale(steps: seq<Step>, name: Key)
    ensures var c := After(steps).catalog;
            && Bind(c, name).Ok? && (Bind(c, name).value.Some? <==> name in c.names)
            && (name in c.names ==>
                 Live(c, c.names[name].table) && Bind(c, name).value == Some(c.metadata[c.names[name].table]))
            && (name in c.streams <==>
                 name in c.names && c.names[name].table in c.metadata
                 && HasEnabledStream(c.metadata[c.names[name].table].info))
  {
    RunKeeps(steps);
    BindSucceeds(After(steps).catalog, name);
  }
}
