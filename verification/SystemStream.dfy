/** Offset allocation and lineage splits under optimistic concurrency. Attempts read one
    committed snapshot and commit later, if the rows they protected have not changed. */
module SystemStream {
  import opened Outcomes
  import opened Bytes
  import opened StreamCatalog

  // ----- Writes -----

  datatype Position = Position(shard: Key, lineage: Key, offset: nat)

  /** The lineage a write is routed to. */
  datatype Route = Route(shard: Key, lineage: Key)

  predicate Writable(s: Store, route: Route) {
    && route.lineage in s.lineages && !s.lineages[route.lineage].sealed
    && s.lineages[route.lineage].shard == route.shard && route.shard in s.sequences
  }

  predicate AllWritable(s: Store, routes: seq<Route>) {
    forall i :: 0 <= i < |routes| ==> Writable(s, routes[i])
  }

  /** How many of the routes write to a shard. */
  function Hits(routes: seq<Route>, shard: Key): nat {
    if routes == [] then 0
    else Hits(routes[..|routes| - 1], shard) + (if routes[|routes| - 1].shard == shard then 1 else 0)
  }

  lemma HitsNext(routes: seq<Route>, i: nat, shard: Key)
    requires i < |routes|
    ensures Hits(routes[..i + 1], shard) == Hits(routes[..i], shard) + (if routes[i].shard == shard then 1 else 0)
  {
    assert routes[..i + 1][..i] == routes[..i];
  }

  lemma {:induction false} HitsMonotone(routes: seq<Route>, i: nat, j: nat, shard: Key)
    requires i <= j <= |routes|
    ensures Hits(routes[..i], shard) <= Hits(routes[..j], shard)
    decreases j
  {
    if i < j {
      HitsNext(routes, j - 1, shard);
      HitsMonotone(routes, i, j - 1, shard);
    }
  }

  /** Every offset below the final count was somebody's turn. */
  lemma {:induction false} HitsSurjective(routes: seq<Route>, shard: Key, n: nat) returns (t: nat)
    requires n < Hits(routes, shard)
    ensures t < |routes| && routes[t].shard == shard && Hits(routes[..t], shard) == n
    decreases |routes|
  {
    var last := |routes| - 1;
    if n < Hits(routes[..last], shard) {
      t := HitsSurjective(routes[..last], shard, n);
      assert routes[..last][..t] == routes[..t];
    } else {
      t := last;
    }
  }

  /** The next offset of a shard, past an attempt's own writes. */
  function NextOf(s: Store, routes: seq<Route>, shard: Key): nat
    requires shard in s.sequences
  {
    s.sequences[shard].next + Hits(routes, shard)
  }

  /** The position the i-th write of an attempt gets: the snapshot's next offset of its shard,
      past the attempt's own earlier writes to that shard. */
  function PositionOf(s: Store, routes: seq<Route>, i: nat): Position
    requires i < |routes| && routes[i].shard in s.sequences
  {
    Position(routes[i].shard, routes[i].lineage, NextOf(s, routes[..i], routes[i].shard))
  }

  /** The sequence rows an attempt advances, each once, to its final value. */
  function Advanced(s: Store, routes: seq<Route>): map<Key, SequenceRow> {
    map q | q in s.sequences && Hits(routes, q) > 0 :: s.sequences[q].(next := NextOf(s, routes, q))
  }

  predicate OffsetsFit(s: Store, routes: seq<Route>) {
    forall q :: q in s.sequences && Hits(routes, q) > 0 ==> NextOf(s, routes, q) <= U64_MAX
  }

  /** What allocation needs of a decoded history. */
  predicate Allocatable(s: Store) {
    && (forall q :: q in s.sequences ==> SequenceDecodes(s, q))
    && (forall a :: a in s.lineages ==> s.lineages[a].shard in s.sequences)
    && ActiveShardsDistinct(s.lineages)
  }

  lemma DecodedIsAllocatable(s: Store)
    requires Decodes(s)
    ensures Allocatable(s)
  {
    forall a | a in s.lineages ensures s.lineages[a].shard in s.sequences {
      assert LineageDecodes(s, a);
    }
  }

  /** The transaction-local allocator. `next` holds the history's bounds by lineage and
      `sequences` the selected rows by shard; the ghost list records the routes reserved. */
  class KvSystemWriteState {
    const catalog: Store
    var next: map<Key, nat>
    var sequences: map<Key, SequenceRow>
    ghost var routes: seq<Route>

    ghost predicate Valid()
      reads this
    {
      Tracks(catalog, routes, next, sequences)
    }

    constructor (history: Store)
      requires Decodes(history)
      ensures Valid() && catalog == history && routes == []
    {
      DecodedIsAllocatable(history);
      catalog := history;
      next := map a | a in history.lineages :: history.sequences[history.lineages[a].shard].next;
      sequences := map[];
      routes := [];
      TracksStart(history);
    }

    /** Hands out the next offset of the routed lineage's shard. The row comparisons made on the
        way always hold; only an exhausted offset space fails. */
    method Reserve(route: Route) returns (r: Result<Position>)
      requires Valid() && Writable(catalog, route)
      modifies this
      ensures Valid()
      ensures r.Ok? ==> routes == old(routes) + [route] && r.value == PositionOf(catalog, routes, |routes| - 1)
      ensures r.Err? ==> routes == old(routes)
      ensures r.Err? <==> NextOf(catalog, old(routes), route.shard) >= U64_MAX
    {
      var next', sequences';
      r, next', sequences' := Allocate(catalog, routes, next, sequences, route);
      if r.Ok? {
        next, sequences, routes := next', sequences', routes + [route];
      }
    }

    /** The rows to persist: each selected sequence once, at its final value. */
    method DrainMutations() returns (rows: map<Key, SequenceRow>)
      requires Valid()
      modifies this
      ensures rows == Advanced(catalog, routes)
      ensures sequences == map[] && next == old(next) && routes == old(routes)
    {
      rows := sequences;
      sequences := map[];
    }
  }

  /** One reservation, on the allocator's fields. */
  method Allocate(s: Store, ghost routes: seq<Route>, next: map<Key, nat>, rows: map<Key, SequenceRow>, route: Route)
    returns (r: Result<Position>, next': map<Key, nat>, rows': map<Key, SequenceRow>)
    requires Tracks(s, routes, next, rows) && Writable(s, route)
    ensures r.Ok? ==> Tracks(s, routes + [route], next', rows') && r.value == PositionOf(s, routes + [route], |routes|)
    ensures r.Err? <==> NextOf(s, routes, route.shard) >= U64_MAX
  {
    TracksReserve(s, routes, next, rows, route);
    var expected := next[route.lineage];
    if expected + 1 > U64_MAX {
      return Err(Internal), next, rows;
    }
    var row := SelectedRow(s, rows, route);
    assert row.scope == s.scope && row.shard == route.shard && row.next == expected;
    return Ok(Position(route.shard, route.lineage, expected)), AdvancedNext(next, route),
      AdvancedRows(s, next, rows, route);
  }

  /** The sequence row of a route: already selected in this attempt, or read from the snapshot. */
  function SelectedRow(s: Store, rows: map<Key, SequenceRow>, route: Route): SequenceRow
    requires route.shard in s.sequences
  {
    if route.shard in rows then rows[route.shard] else s.sequences[route.shard]
  }

  function AdvancedNext(next: map<Key, nat>, route: Route): map<Key, nat>
    requires route.lineage in next
  {
    next[route.lineage := next[route.lineage] + 1]
  }

  function AdvancedRows(s: Store, next: map<Key, nat>, rows: map<Key, SequenceRow>, route: Route): map<Key, SequenceRow>
    requires route.shard in s.sequences && route.lineage in next
  {
    rows[route.shard := SelectedRow(s, rows, route).(next := next[route.lineage] + 1)]
  }

  /** The allocator's fields after reserving `routes` on snapshot `s`. */
  ghost predicate Tracks(s: Store, routes: seq<Route>, next: map<Key, nat>, rows: map<Key, SequenceRow>) {
    && Allocatable(s) && AllWritable(s, routes) && OffsetsFit(s, routes)
    && next.Keys == s.lineages.Keys
    && (forall a :: a in s.lineages && !s.lineages[a].sealed ==> next[a] == NextOf(s, routes, s.lineages[a].shard))
    && rows == Advanced(s, routes)
  }

  lemma TracksStart(s: Store)
    requires Allocatable(s)
    ensures Tracks(s, [], map a | a in s.lineages :: s.sequences[s.lineages[a].shard].next, map[])
  {
    assert forall q :: Hits([], q) == 0;
  }

  lemma TracksReserve(s: Store, routes: seq<Route>, next: map<Key, nat>, rows: map<Key, SequenceRow>, route: Route)
    requires Tracks(s, routes, next, rows) && Writable(s, route)
    ensures next[route.lineage] == NextOf(s, routes, route.shard)
    ensures SelectedRow(s, rows, route) == SequenceRow(s.scope, route.shard, next[route.lineage])
    ensures next[route.lineage] < U64_MAX ==>
            Tracks(s, routes + [route], AdvancedNext(next, route), AdvancedRows(s, next, rows, route))
    ensures PositionOf(s, routes + [route], |routes|) == Position(route.shard, route.lineage, next[route.lineage])
  {
    assert (routes + [route])[..|routes|] == routes;
    assert SequenceDecodes(s, route.shard);
    if next[route.lineage] < U64_MAX {
      ReserveStep(s, routes, route);
    }
  }

  lemma HitsAppend(routes: seq<Route>, route: Route, shard: Key)
    ensures Hits(routes + [route], shard) == Hits(routes, shard) + (if route.shard == shard then 1 else 0)
  {
    assert (routes + [route])[..|routes|] == routes;
  }

  /** What one more route changes. */
  lemma ReserveStep(s: Store, routes: seq<Route>, route: Route)
    requires Allocatable(s) && OffsetsFit(s, routes) && Writable(s, route)
    requires NextOf(s, routes, route.shard) < U64_MAX
    ensures OffsetsFit(s, routes + [route])
    ensures forall a :: a in s.lineages && !s.lineages[a].sealed ==>
              NextOf(s, routes + [route], s.lineages[a].shard)
                == NextOf(s, routes, s.lineages[a].shard) + (if a == route.lineage then 1 else 0)
    ensures Advanced(s, routes + [route])
            == Advanced(s, routes)[route.shard := s.sequences[route.shard].(next := NextOf(s, routes, route.shard) + 1)]
  {
    forall q ensures Hits(routes + [route], q) == Hits(routes, q) + (if route.shard == q then 1 else 0) {
      HitsAppend(routes, route, q);
    }
  }
}
