/** The operations on the table catalog and what each keeps. */
module CatalogOperations {
  import opened Outcomes
  import opened Bytes
  import opened TableCatalog

  // ----- Operations on rows -----

  /** What an attempt hands its caller for a table: the incarnation and the description. */
  datatype BoundTable = BoundTable(history: nat, info: Info)

  function Handle(stored: Stored): BoundTable {
    BoundTable(stored.identity.table, stored.info)
  }

  function NextId(c: Catalog): nat {
    if c.allocator.Some? then c.allocator.value else 1
  }

  /** Binds a name to an identity and its metadata, and moves the stream entry if the stream
      was switched. */
  function Publish(c: Catalog, identity: Identity, info: Info, wasEnabled: bool): Catalog {
    c.(names := c.names[identity.name := identity],
       metadata := c.metadata[identity.table := Stored(identity, info)],
       streams := if !wasEnabled && HasEnabledStream(info)
         then c.streams[info.name := StreamEntry(identity.table, info.created)]
                  else if wasEnabled && !HasEnabledStream(info) then c.streams - {info.name}
                  else c.streams)
  }

  function CreateTable(c: Catalog, info: Info): Result<Catalog> {
    if info.name in c.names then Err(Conflict)
    else if NextId(c) + 1 > U32_MAX then Err(Internal)
    else
      var identity :- NewIdentity(NextId(c), info);
      Ok(Publish(c.(allocator := Some(NextId(c) + 1)), identity, info, false))
  }

  function ReadStamp(c: Catalog, name: Key): Result<Option<Stamp>> {
    if name !in c.names then Ok(None)
    else if c.names[name].table == 0 || c.names[name].deleted || c.names[name].name != name then Err(Internal)
    else Ok(Some(Stamp(c.names[name].table, c.names[name].revision)))
  }

  /** The identity is that of the live metadata row of a name. */
  predicate Current(c: Catalog, name: Key, identity: Identity) {
    && !identity.deleted && identity.table in c.metadata
    && c.metadata[identity.table].identity == identity && c.metadata[identity.table].info.name == name
  }

  /** The record of a name: absent, or the metadata its lookup row points to. */
  function Bind(c: Catalog, name: Key): Result<Option<Stored>> {
    if name !in c.names then Ok(None)
    else if c.names[name].table != 0 && c.names[name].name == name && Current(c, name, c.names[name])
    then Ok(Some(c.metadata[c.names[name].table]))
    else Err(Internal)
  }

  function ReplaceLayout(c: Catalog, bound: Identity, current: BoundTable, identity: Identity,
      info: Info): Result<Catalog> {
    if bound.table != identity.table || bound.revision != identity.revision || identity.table != current.history
       || identity.name != current.info.name || info.name != current.info.name || identity.deleted then Err(Internal)
    else if identity.revision + 1 > U64_MAX then Err(Internal)
    else Ok(Publish(c, identity.(revision := identity.revision + 1), info, HasEnabledStream(current.info)))
  }

  function UpdateTable(c: Catalog, name: Key, info: Info): Result<Catalog> {
    var bound :- Bind(c, name);
    if bound.None? then Err(Internal)
    else
      var identity :- Reconcile(bound.value.identity, info);
      ReplaceLayout(c, bound.value.identity, Handle(bound.value), identity, info)
  }

  /** Rewrites a table's rows under its next revision, as an expiry policy change does. */
  function TouchTable(c: Catalog, name: Key): Result<Catalog> {
    var bound :- Bind(c, name);
    if bound.None? then Err(Internal)
    else ReplaceLayout(c, bound.value.identity, Handle(bound.value), bound.value.identity, bound.value.info)
  }

  function StoreBarrier(c: Catalog, name: Key, expected: Stamp): Result<Catalog> {
    if expected.table !in c.metadata then Err(Internal)
    else
      var record := c.metadata[expected.table];
      if record.identity.revision != expected.revision || record.identity.name != name || record.identity.deleted
         || record.identity.table != expected.table then Err(Conflict)
      else if expected.revision + 1 > U64_MAX then Err(Internal)
      else Ok(Publish(c, record.identity.(revision := expected.revision + 1, cleanup := true), record.info,
        HasEnabledStream(record.info)))
  }

  function Tombstone(c: Catalog, current: Stored, phase: nat): Catalog {
    var table, name := current.identity.table, current.info.name;
    c.(names := c.names - {name},
       streams := if current.info.streamRequested then c.streams - {name} else c.streams,
       metadata := c.metadata[table := current.(identity := current.identity.(deleted := true))],
       reclaim := c.reclaim[table := Target(table, name, phase)])
  }

  function DropTable(c: Catalog, name: Key, phase: nat): Result<Catalog> {
    var bound :- Bind(c, name);
    if bound.None? then Err(Internal) else Ok(Tombstone(c, bound.value, phase))
  }

  predicate VerifyDeleted(c: Catalog, target: Target) {
    && target.table in c.metadata
    && var record := c.metadata[target.table];
       record.identity.table == target.table && record.identity.deleted && record.identity.name == target.name
         && record.info.name == target.name
  }

  /** Stores the next phase of a reclaim, or ends it and forgets the table. */
  function StorePhase(c: Catalog, table: nat, next: Option<nat>): Result<Catalog> {
    if table !in c.reclaim || c.reclaim[table].table != table || !VerifyDeleted(c, c.reclaim[table]) then Err(Internal)
    else if next.Some? then Ok(c.(reclaim := c.reclaim[table := c.reclaim[table].(phase := next.value)]))
    else Ok(c.(metadata := c.metadata - {table}, reclaim := c.reclaim - {table}))
  }

  // ----- The attempt -----

  /** The rows of a new table, one by one. */
  method StageNewTable(c: Catalog, identity: Identity, info: Info) returns (staged: Catalog)
    requires identity.name == info.name
    ensures staged == Publish(c.(allocator := Some(identity.table + 1)), identity, info, false)
  {
    var table := identity.table;
    staged := c.(allocator := Some(table + 1));
    staged := staged.(names := staged.names[info.name := identity]);
    staged := staged.(metadata := staged.metadata[table := Stored(identity, info)]);
    if HasEnabledStream(info) {
      staged := staged.(streams := staged.streams[info.name := StreamEntry(table, info.created)]);
    }
  }

  /** One catalog view of a native attempt: the rows it sees, staged changes included, and the
      identities it has bound. */
  class KvCatalogAttempt {
    var rows: Catalog
    var identities: map<Key, Identity>

    constructor (c: Catalog)
      ensures rows == c && identities == map[]
    {
      rows := c;
      identities := map[];
    }

    /** Reads a name's stamp and binds its identity for the rest of the attempt. */
    method ReadCatalogStamp(name: Key) returns (r: Result<Option<Stamp>>)
      modifies this`identities
      ensures r == ReadStamp(rows, name)
      ensures identities == if r.Ok? && r.value.Some? then old(identities)[name := rows.names[name]]
              else old(identities)
    {
      if name !in rows.names {
        return Ok(None);
      }
      var identity := rows.names[name];
      if identity.table == 0 || identity.deleted || identity.name != name {
        return Err(Internal);
      }
      identities := identities[name := identity];
      return Ok(Some(Stamp(identity.table, identity.revision)));
    }

    /** The identity a name was bound to earlier in the attempt. */
    function IdentityFor(name: Key): Result<Identity>
      reads this
    {
      if name in identities then Ok(identities[name]) else Err(Internal)
    }

    /** Reads the description for a stamp: only the stamp of the bound identity, and only while
        that identity is the one in the live metadata row of the name. */
    method ReadTableAtStamp(name: Key, stamp: Stamp) returns (r: Result<BoundTable>)
      ensures r.Ok? <==> name in identities && Current(rows, name, identities[name])
                         && stamp == Stamp(identities[name].table, identities[name].revision)
      ensures r.Ok? ==> r.value == BoundTable(stamp.table, rows.metadata[stamp.table].info)
    {
      if stamp.table !in rows.metadata {
        return Err(Internal);
      }
      var record := rows.metadata[stamp.table];
      if record.identity.deleted || record.identity.table != stamp.table || record.identity.revision != stamp.revision {
        return Err(Internal);
      }
      var bound := IdentityFor(name);
      if bound.Err? {
        return Err(bound.error);
      }
      if record.identity != bound.value || record.info.name != name {
        return Err(Internal);
      }
      return Ok(BoundTable(stamp.table, record.info));
    }

    /** Reads a name's stamp, then the table at that stamp, leaving its identity bound. */
    method ObserveTable(name: Key) returns (r: Result<Option<BoundTable>>)
      modifies this`identities
      ensures r.Ok? <==> Bind(rows, name).Ok?
      ensures r.Ok? ==> (r.value.Some? <==> name in rows.names)
      ensures r.Ok? && r.value.Some? ==> r.value == Some(Handle(Bind(rows, name).value.value))
                                         && identities == old(identities)[name := rows.names[name]]
    {
      var stamp := ReadCatalogStamp(name);
      if stamp.Err? {
        return Err(stamp.error);
      }
      if stamp.value.None? {
        return Ok(None);
      }
      var table := ReadTableAtStamp(name, stamp.value.value);
      if table.Err? {
        return Err(table.error);
      }
      return Ok(Some(table.value));
    }

    /** Creates a table under the next identifier. */
    method InsertTableLayout(info: Info) returns (r: Result<Identity>)
      modifies this
      ensures r.Ok? <==> CreateTable(old(rows), info).Ok?
      ensures r.Ok? ==>
              rows == CreateTable(old(rows), info).value && identities == old(identities)[info.name := r.value]
      ensures r.Ok? ==> r.value == rows.names[info.name] && r.value.table == NextId(old(rows))
      ensures r.Ok? && Consistent(old(rows)) ==> Reads(rows, info.name, r.value, info)
      ensures r.Err? ==> rows == old(rows) && identities == old(identities)
    {
      if info.name in rows.names {
        return Err(Conflict);
      }
      var table := if rows.allocator.Some? then rows.allocator.value else 1;
      if table + 1 > U32_MAX {
        return Err(Internal);
      }
      var identity := NewIdentity(table, info);
      if identity.Err? {
        return identity;
      }
      CreatedReads(rows, info);
      rows := StageNewTable(rows, identity.value, info);
      identities := identities[info.name := identity.value];
      r := identity;
    }

    method ReplaceTableLayout(current: BoundTable, identity: Identity, info: Info) returns (r: Result<BoundTable>)
      modifies this
      ensures current.info.name !in old(identities) ==> r.Err?
      ensures current.info.name in old(identities) ==>
                var done := ReplaceLayout(old(rows), old(identities)[current.info.name], current, identity, info);
                (r.Ok? <==> done.Ok?)
                && (r.Ok? ==> rows == done.value)
                && (r.Ok? ==> identities == old(identities)[identity.name := rows.names[identity.name]])
      ensures r.Ok? ==> r.value == BoundTable(current.history, info)
      ensures r.Err? ==> rows == old(rows) && identities == old(identities)
    {
      var found := IdentityFor(current.info.name);
      if found.Err? {
        return Err(found.error);
      }
      var bound := found.value;
      if bound.table != identity.table || bound.revision != identity.revision || identity.table != current.history
         || identity.name != current.info.name || info.name != current.info.name || identity.deleted {
        return Err(Internal);
      }
      if identity.revision + 1 > U64_MAX {
        return Err(Internal);
      }
      var next := identity.(revision := identity.revision + 1);
      var staged := rows.(names := rows.names[next.name := next]);
      staged := staged.(metadata := staged.metadata[next.table := Stored(next, info)]);
      var wasEnabled, isEnabled := HasEnabledStream(current.info), HasEnabledStream(info);
      if !wasEnabled && isEnabled {
        staged := staged.(streams := staged.streams[info.name := StreamEntry(next.table, info.created)]);
      } else if wasEnabled && !isEnabled {
        staged := staged.(streams := staged.streams - {info.name});
      }
      rows := staged;
      identities := identities[next.name := next];
      r := Ok(BoundTable(current.history, info));
    }

    /** Marks a table for external cleanup under its next revision. */
    method StoreExternalCleanupBarrier(name: Key, expected: Stamp) returns (r: Result<Stamp>)
      modifies this
      ensures var done := StoreBarrier(old(rows), name, expected);
              (r.Ok? <==> done.Ok?)
                && (r.Ok? ==> rows == done.value && identities == old(identities)[name := rows.names[name]])
      ensures r.Ok? ==> r.value == Stamp(expected.table, expected.revision + 1)
      ensures r.Err? ==> rows == old(rows) && identities == old(identities)
    {
      if expected.table !in rows.metadata {
        return Err(Internal);
      }
      var record := rows.metadata[expected.table];
      if record.identity.revision != expected.revision || record.identity.name != name || record.identity.deleted
         || record.identity.table != expected.table {
        return Err(Conflict);
      }
      if expected.revision + 1 > U64_MAX {
        return Err(Internal);
      }
      var identity := record.identity.(revision := expected.revision + 1, cleanup := true);
      rows := rows.(names := rows.names[name := identity],
        metadata := rows.metadata[expected.table := record.(identity := identity)]);
      identities := identities[name := identity];
      r := Ok(Stamp(expected.table, expected.revision + 1));
    }

    /** Unbinds a name and leaves its deleted metadata for reclamation. Only the incarnation the
        attempt has bound can be deleted. */
    method TombstoneTable(current: BoundTable, phase: nat) returns (r: Result<()>)
      modifies this`rows
      ensures var name := current.info.name;
              r.Ok? <==> name in identities && identities[name].table == current.history
      ensures r.Ok? ==> rows == Tombstone(old(rows), Stored(identities[current.info.name], current.info), phase)
      ensures r.Err? ==> rows == old(rows)
    {
      var name := current.info.name;
      var identity := IdentityFor(name);
      if identity.Err? {
        return Err(identity.error);
      }
      if identity.value.table != current.history {
        return Err(Internal);
      }
      var deleted := identity.value.(deleted := true);
      var staged := rows.(names := rows.names - {name});
      if current.info.streamRequested {
        staged := staged.(streams := staged.streams - {name});
      }
      staged := staged.(metadata := staged.metadata[deleted.table := Stored(deleted, current.info)]);
      rows := staged.(reclaim := staged.reclaim[deleted.table := Target(current.history, name, phase)]);
      return Ok(());
    }

    /** The reclaim marker of a table, checked against the deleted metadata it belongs to. */
    method LoadReclaimTarget(table: nat) returns (r: Result<Target>)
      ensures r.Ok? <==>
              table in rows.reclaim && rows.reclaim[table].table == table && VerifyDeleted(rows, rows.reclaim[table])
      ensures r.Ok? ==> r.value == rows.reclaim[table]
    {
      if table !in rows.reclaim {
        return Err(Internal);
      }
      var target := rows.reclaim[table];
      if target.table != table || target.table !in rows.metadata {
        return Err(Internal);
      }
      var record := rows.metadata[target.table];
      if record.identity.table != target.table || !record.identity.deleted || record.identity.name != target.name
         || record.info.name != target.name {
        return Err(Internal);
      }
      return Ok(target);
    }

    // ----- Whole operations -----

    /** Observes a table, reconciles the identity bound for it and replaces its layout. */
    method UpdateInAttempt(name: Key, info: Info) returns (r: Result<BoundTable>)
      modifies this
      ensures r.Ok? <==> UpdateTable(old(rows), name, info).Ok?
      ensures r.Ok? ==>
              rows == UpdateTable(old(rows), name, info).value
              && r.value == BoundTable(old(rows).names[name].table, info)
      ensures r.Ok? && Consistent(old(rows)) ==> name in rows.names && Reads(rows, name, rows.names[name], info)
      ensures r.Err? ==> rows == old(rows)
    {
      UpdatedReads(rows, name, info);
      var observed := ObserveTable(name);
      if observed.Err? {
        return Err(observed.error);
      }
      if observed.value.None? {
        return Err(Internal);
      }
      var current := observed.value.value;
      var bound := IdentityFor(current.info.name);
      assert bound.Ok?;
      var next := ReconcileUserIndexes(bound.value, info);
      if next.Err? {
        return Err(next.error);
      }
      r := ReplaceTableLayout(current, next.value, info);
    }

    /** Observes a table and stores it again under its next revision. */
    method TouchInAttempt(name: Key) returns (r: Result<BoundTable>)
      modifies this
      ensures r.Ok? <==> TouchTable(old(rows), name).Ok?
      ensures r.Ok? ==> rows == TouchTable(old(rows), name).value
      ensures r.Err? ==> rows == old(rows)
    {
      var observed := ObserveTable(name);
      if observed.Err? {
        return Err(observed.error);
      }
      if observed.value.None? {
        return Err(Internal);
      }
      var current := observed.value.value;
      var bound := IdentityFor(current.info.name);
      assert bound.Ok?;
      r := ReplaceTableLayout(current, bound.value, current.info);
    }

    /** Observes a table and deletes the incarnation it observed: of its failures only those of
        the observation remain, never a changed identity. */
    method DropInAttempt(name: Key, phase: nat) returns (r: Result<()>)
      modifies this
      ensures r.Ok? <==> DropTable(old(rows), name, phase).Ok?
      ensures r.Ok? <==> Bind(old(rows), name).Ok? && name in old(rows).names
      ensures r.Ok? ==> rows == DropTable(old(rows), name, phase).value
      ensures r.Err? ==> rows == old(rows)
    {
      var observed := ObserveTable(name);
      if observed.Err? {
        return Err(observed.error);
      }
      if observed.value.None? {
        return Err(Internal);
      }
      r := TombstoneTable(observed.value.value, phase);
    }

    /** Stores the next phase of a reclaim, or ends it and forgets the table. */
    method StoreReclaimPhase(table: nat, next: Option<nat>) returns (r: Result<()>)
      modifies this`rows
      ensures r.Ok? <==> StorePhase(old(rows), table, next).Ok?
      ensures r.Ok? ==> rows == StorePhase(old(rows), table, next).value
      ensures r.Err? ==> rows == old(rows)
    {
      var target := LoadReclaimTarget(table);
      if target.Err? {
        return Err(target.error);
      }
      if next.Some? {
        rows := rows.(reclaim := rows.reclaim[table := target.value.(phase := next.value)]);
      } else {
        rows := rows.(metadata := rows.metadata - {table}, reclaim := rows.reclaim - {table});
      }
      return Ok(());
    }
  }

  // ----- Consistency -----

  predicate Live(c: Catalog, table: nat) {
    table in c.metadata && !c.metadata[table].identity.deleted
  }

  ghost predicate Numbered(c: Catalog) {
    NextId(c) >= 1 && forall t :: t in c.metadata ==>
      && 1 <= t < NextId(c) && c.metadata[t].identity.table == t
      && c.metadata[t].identity.name == c.metadata[t].info.name
      && c.metadata[t].identity.revision >= INITIAL_REVISION && WellIndexed(c.metadata[t].identity)
  }

  /** A name is bound exactly to the live table of that name. */
  ghost predicate NamesAgree(c: Catalog) {
    && (forall n :: n in c.names ==>
         c.names[n].name == n && Live(c, c.names[n].table) && c.metadata[c.names[n].table].identity == c.names[n])
    && (forall t :: Live(c, t) ==>
         c.metadata[t].identity.name in c.names && c.names[c.metadata[t].identity.name].table == t)
  }

  /** A stream entry exists exactly while the live table of its name has its stream on. */
  ghost predicate StreamsAgree(c: Catalog) {
    forall n :: (n in c.streams <==>
      n in c.names && c.names[n].table in c.metadata && HasEnabledStream(c.metadata[c.names[n].table].info))
                && (n in c.streams && n in c.names ==> c.streams[n].table == c.names[n].table)
  }

  /** Reclaim markers and deleted tables go together. */
  ghost predicate ReclaimAgrees(c: Catalog) {
    forall t :: (t in c.reclaim <==> t in c.metadata && c.metadata[t].identity.deleted)
                && (t in c.reclaim ==>
                     c.reclaim[t].table == t && t in c.metadata && c.reclaim[t].name == c.metadata[t].info.name)
  }

  ghost predicate Consistent(c: Catalog) {
    Numbered(c) && NamesAgree(c) && StreamsAgree(c) && ReclaimAgrees(c)
  }

  /** Two live tables never share a name. */
  lemma OneLiveTablePerName(c: Catalog, s: nat, t: nat)
    requires Consistent(c) && Live(c, s) && Live(c, t) && c.metadata[s].info.name == c.metadata[t].info.name
    ensures s == t
  {
  }

  /** Stamp-bound reads never meet stale or missing metadata. */
  lemma BindSucceeds(c: Catalog, name: Key)
    requires Consistent(c)
    ensures Bind(c, name).Ok? && (Bind(c, name).value.Some? <==> name in c.names)
    ensures name in c.names ==>
            Bind(c, name).value == Some(c.metadata[c.names[name].table]) && Live(c, c.names[name].table)
            && c.metadata[c.names[name].table].info.name == name
            && c.metadata[c.names[name].table].identity == c.names[name]
  {
    if name in c.names {
      assert Live(c, c.names[name].table);
    }
  }

  /** The identity may be published: it is new, or it continues the live table of its name. */
  ghost predicate Publishable(c: Catalog, identity: Identity, info: Info, wasEnabled: bool) {
    && identity.name == info.name && !identity.deleted && WellIndexed(identity)
    && identity.revision >= INITIAL_REVISION && 1 <= identity.table < NextId(c)
    && if identity.table in c.metadata
       then Live(c, identity.table) && c.metadata[identity.table].info.name == info.name
            && wasEnabled == HasEnabledStream(c.metadata[identity.table].info)
       else info.name !in c.names && !wasEnabled
  }

  lemma PublishNames(c: Catalog, identity: Identity, info: Info, wasEnabled: bool)
    requires Numbered(c) && NamesAgree(c) && Publishable(c, identity, info, wasEnabled)
    ensures Numbered(Publish(c, identity, info, wasEnabled)) && NamesAgree(Publish(c, identity, info, wasEnabled))
  {
    var after := Publish(c, identity, info, wasEnabled);
    forall n | n in after.names
      ensures after.names[n].name == n && Live(after, after.names[n].table)
              && after.metadata[after.names[n].table].identity == after.names[n]
    {
      if n != info.name {
        assert Live(c, c.names[n].table);
      }
    }
    forall t | Live(after, t)
      ensures after.metadata[t].identity.name in after.names
      && after.names[after.metadata[t].identity.name].table == t {
      if t != identity.table {
        assert Live(c, t);
      }
    }
  }

  lemma PublishStreams(c: Catalog, identity: Identity, info: Info, wasEnabled: bool)
    requires Consistent(c) && Publishable(c, identity, info, wasEnabled)
    ensures StreamsAgree(Publish(c, identity, info, wasEnabled))
  {
    var after := Publish(c, identity, info, wasEnabled);
    forall n
      ensures n in after.streams <==>
              n in after.names && after.names[n].table in after.metadata
              && HasEnabledStream(after.metadata[after.names[n].table].info)
      ensures n in after.streams && n in after.names ==> after.streams[n].table == after.names[n].table
    {
      if n in c.names {
        assert Live(c, c.names[n].table);
      }
      if identity.table in c.metadata {
        assert Live(c, identity.table);
      }
    }
  }

  lemma PublishKeeps(c: Catalog, identity: Identity, info: Info, wasEnabled: bool)
    requires Consistent(c) && Publishable(c, identity, info, wasEnabled)
    ensures Consistent(Publish(c, identity, info, wasEnabled))
  {
    PublishNames(c, identity, info, wasEnabled);
    PublishStreams(c, identity, info, wasEnabled);
  }

  lemma TombstoneNames(c: Catalog, name: Key, phase: nat)
    requires Numbered(c) && NamesAgree(c) && name in c.names
    ensures var after := Tombstone(c, c.metadata[c.names[name].table], phase);
            Numbered(after) && NamesAgree(after)
  {
    var after := Tombstone(c, c.metadata[c.names[name].table], phase);
    forall n | n in after.names
      ensures after.names[n].name == n && Live(after, after.names[n].table)
              && after.metadata[after.names[n].table].identity == after.names[n]
    {
      assert Live(c, c.names[n].table);
    }
    forall t | Live(after, t)
      ensures after.metadata[t].identity.name in after.names
      && after.names[after.metadata[t].identity.name].table == t {
      assert Live(c, t);
    }
  }

  lemma TombstoneStreams(c: Catalog, name: Key, phase: nat)
    requires Consistent(c) && name in c.names
    ensures StreamsAgree(Tombstone(c, c.metadata[c.names[name].table], phase))
  {
    var after := Tombstone(c, c.metadata[c.names[name].table], phase);
    forall n
      ensures n in after.streams <==>
              n in after.names && after.names[n].table in after.metadata
              && HasEnabledStream(after.metadata[after.names[n].table].info)
      ensures n in after.streams && n in after.names ==> after.streams[n].table == after.names[n].table
    {
      if n in c.names {
        assert Live(c, c.names[n].table);
      }
    }
  }

  lemma TombstoneKeeps(c: Catalog, name: Key, phase: nat)
    requires Consistent(c) && name in c.names
    ensures Consistent(Tombstone(c, c.metadata[c.names[name].table], phase))
  {
    TombstoneNames(c, name, phase);
    TombstoneStreams(c, name, phase);
  }

  /** What deleting a table means to its users: the name is free, its stream is gone, every other
      name reads as before, and exactly the deleted table waits to be reclaimed. */
  lemma DropExact(c: Catalog, name: Key, phase: nat)
    requires Consistent(c)
    ensures DropTable(c, name, phase).Ok? <==> name in c.names
    ensures name in c.names ==>
              var after, table := DropTable(c, name, phase).value, c.names[name].table;
              && Bind(after, name) == Ok(None) && name !in after.streams && !Live(after, table)
              && (forall n :: n != name ==> Bind(after, n) == Bind(c, n))
              && (forall t :: t != table ==> (Live(after, t) <==> Live(c, t)))
              && after.reclaim == c.reclaim[table := Target(table, name, phase)]
              && VerifyDeleted(after, after.reclaim[table])
              && NextId(after) == NextId(c)
  {
    BindSucceeds(c, name);
    if name in c.names {
      var after, table := DropTable(c, name, phase).value, c.names[name].table;
      assert Live(c, table);
      forall n | n != name ensures Bind(after, n) == Bind(c, n) {
        if n in c.names { assert Live(c, c.names[n].table); }
      }
    }
  }

  /** No description is lost: the deleted table keeps its own until it is reclaimed. */
  lemma DropKeepsRows(c: Catalog, name: Key, phase: nat)
    requires Consistent(c) && name in c.names
    ensures var after, table := DropTable(c, name, phase), c.names[name].table;
            && after.Ok? && after.value.metadata.Keys == c.metadata.Keys
            && (forall t :: t in c.metadata ==> after.value.metadata[t].info == c.metadata[t].info)
            && (forall t :: t in c.metadata && t != table ==> after.value.metadata[t] == c.metadata[t])
  {
    BindSucceeds(c, name);
    assert Live(c, c.names[name].table);
  }

  lemma FinishKeeps(c: Catalog, table: nat, next: Option<nat>)
    requires Consistent(c) && StorePhase(c, table, next).Ok?
    ensures Consistent(StorePhase(c, table, next).value)
  {
    var after := StorePhase(c, table, next).value;
    forall n | n in after.names ensures Live(after, after.names[n].table) {
      assert Live(c, c.names[n].table);
    }
    forall t | Live(after, t) ensures Live(c, t) {
    }
  }

  // ----- Replacing a live table -----

  /** The next identity of the live table of a name. */
  predicate Continues(c: Catalog, name: Key, identity: Identity, info: Info) {
    && name in c.names && info.name == name
    && var current := c.names[name];
       identity.table == current.table && identity.name == name && !identity.deleted
         && identity.revision == current.revision + 1
       && WellIndexed(identity) && current.highWater <= identity.highWater
       && forall x :: x in identity.indexes && x !in current.indexes ==> current.highWater < x.id
  }

  /** The operation published the next identity of a live table. */
  ghost predicate PublishedNext(c: Catalog, name: Key, identity: Identity, info: Info, after: Catalog) {
    && Continues(c, name, identity, info) && Live(c, c.names[name].table)
    && after == Publish(c, identity, info, HasEnabledStream(c.metadata[c.names[name].table].info))
  }

  lemma UpdateShape(c: Catalog, name: Key, info: Info) returns (identity: Identity)
    requires Consistent(c) && UpdateTable(c, name, info).Ok?
    ensures PublishedNext(c, name, identity, info, UpdateTable(c, name, info).value)
  {
    BindSucceeds(c, name);
    var current := c.metadata[c.names[name].table];
    ReconcileExact(current.identity, info);
    var next := Reconcile(current.identity, info).value;
    identity := next.(revision := next.revision + 1);
  }

  lemma TouchShape(c: Catalog, name: Key) returns (identity: Identity)
    requires Consistent(c) && TouchTable(c, name).Ok?
    ensures name in c.names && c.names[name].table in c.metadata
    ensures PublishedNext(c, name, identity, c.metadata[c.names[name].table].info, TouchTable(c, name).value)
  {
    BindSucceeds(c, name);
    var current := c.metadata[c.names[name].table];
    identity := current.identity.(revision := current.identity.revision + 1);
  }

  lemma BarrierShape(c: Catalog, name: Key, stamp: Stamp) returns (identity: Identity)
    requires Consistent(c) && StoreBarrier(c, name, stamp).Ok?
    ensures name in c.names && c.names[name].table in c.metadata
    ensures PublishedNext(c, name, identity, c.metadata[c.names[name].table].info, StoreBarrier(c, name, stamp).value)
  {
    assert Live(c, stamp.table);
    assert c.names[name].table == stamp.table;
    BindSucceeds(c, name);
    identity := c.metadata[stamp.table].identity.(revision := stamp.revision + 1, cleanup := true);
  }

  // ----- What each operation means to readers -----

  /** Everything but one name and one table is as before. */
  ghost predicate OthersSame(c: Catalog, after: Catalog, name: Key, table: nat) {
    && (forall n :: n != name ==> Bind(after, n) == Bind(c, n))
    && (forall n :: n != name ==> (n in after.streams <==> n in c.streams))
    && (forall n :: n != name && n in c.streams ==> n in after.streams && after.streams[n] == c.streams[n])
    && (forall t :: t != table ==> (t in after.metadata <==> t in c.metadata))
    && (forall t :: t != table && t in c.metadata ==> t in after.metadata && after.metadata[t] == c.metadata[t])
    && after.reclaim == c.reclaim
  }

  /** What a reader of the name finds: this description under this identity, and a stream entry
      exactly if the stream is asked for and the table active. */
  ghost predicate Reads(c: Catalog, name: Key, identity: Identity, info: Info) {
    && Bind(c, name) == Ok(Some(Stored(identity, info)))
    && (name in c.streams <==> info.streamRequested && info.active)
    && (name in c.streams ==> c.streams[name].table == identity.table)
  }

  lemma PublishReads(c: Catalog, identity: Identity, info: Info, wasEnabled: bool)
    requires Consistent(c) && Publishable(c, identity, info, wasEnabled)
    ensures Reads(Publish(c, identity, info, wasEnabled), info.name, identity, info)
  {
    var after := Publish(c, identity, info, wasEnabled);
    PublishKeeps(c, identity, info, wasEnabled);
    assert after.names[info.name] == identity && after.metadata[identity.table] == Stored(identity, info);
  }

  lemma PublishBinds(c: Catalog, identity: Identity, info: Info, wasEnabled: bool, n: Key)
    requires Consistent(c) && Publishable(c, identity, info, wasEnabled) && n != info.name
    ensures Bind(Publish(c, identity, info, wasEnabled), n) == Bind(c, n)
  {
    if n in c.names {
      assert Live(c, c.names[n].table);
      assert c.names[n].table != identity.table;
    }
  }

  lemma PublishLeaves(c: Catalog, identity: Identity, info: Info, wasEnabled: bool)
    requires Consistent(c) && Publishable(c, identity, info, wasEnabled)
    ensures OthersSame(c, Publish(c, identity, info, wasEnabled), info.name, identity.table)
  {
    forall n | n != info.name ensures Bind(Publish(c, identity, info, wasEnabled), n) == Bind(c, n) {
      PublishBinds(c, identity, info, wasEnabled, n);
    }
    PublishRows(c, identity, info, wasEnabled);
  }

  /** The rows that publishing does not touch. */
  lemma PublishRows(c: Catalog, identity: Identity, info: Info, wasEnabled: bool)
    ensures var after := Publish(c, identity, info, wasEnabled);
            && (forall n :: n != info.name ==> (n in after.streams <==> n in c.streams))
            && (forall n :: n != info.name && n in c.streams ==> n in after.streams && after.streams[n] == c.streams[n])
            && (forall t :: t != identity.table ==> (t in after.metadata <==> t in c.metadata))
            && (forall t :: t != identity.table && t in c.metadata ==> after.metadata[t] == c.metadata[t])
            && after.reclaim == c.reclaim
  {
  }

  /** The allocator is no part of what readers see. */
  lemma AllocatorAside(c: Catalog, next: nat)
    requires Consistent(c) && NextId(c) <= next
    ensures Consistent(c.(allocator := Some(next))) && forall n :: Bind(c.(allocator := Some(next)), n) == Bind(c, n)
  {
    var grown := c.(allocator := Some(next));
    forall t | Live(grown, t) ensures Live(c, t) {}
    forall n | n in grown.names ensures Live(grown, grown.names[n].table) { assert Live(c, c.names[n].table); }
  }

  /** Creating succeeds exactly for a free name while identifiers last. The description is then
      read back as it was given, under the next table identifier and with its indexes numbered
      from one. */
  lemma CreateExact(c: Catalog, info: Info)
    requires Consistent(c)
    ensures CreateTable(c, info).Ok? <==> info.name !in c.names && NextId(c) < U32_MAX && |info.indexes| <= U16_MAX
    ensures CreateTable(c, info).Ok? ==>
              var after := CreateTable(c, info).value;
              && NextId(after) == NextId(c) + 1 && OthersSame(c, after, info.name, NextId(c))
              && info.name in after.names
              && (info.name in after.streams ==> after.streams[info.name] == StreamEntry(NextId(c), info.created))
              && var identity := after.names[info.name];
                 && Reads(after, info.name, identity, info) && NewlyNumbered(identity, NextId(c), info)
  {
    if CreateTable(c, info).Ok? {
      var grown := c.(allocator := Some(NextId(c) + 1));
      var identity := NewIdentity(NextId(c), info).value;
      AllocatorAside(c, NextId(c) + 1);
      assert NextId(c) !in c.metadata;
      PublishReads(grown, identity, info, false);
      PublishLeaves(grown, identity, info, false);
    }
  }

  lemma CreatedReads(c: Catalog, info: Info)
    ensures Consistent(c) && CreateTable(c, info).Ok? ==>
              var after := CreateTable(c, info).value;
              info.name in after.names && Reads(after, info.name, after.names[info.name], info)
  {
    if Consistent(c) { CreateExact(c, info); }
  }

  lemma UpdatedReads(c: Catalog, name: Key, info: Info)
    ensures Consistent(c) && UpdateTable(c, name, info).Ok? ==>
              var after := UpdateTable(c, name, info).value;
              name in after.names && Reads(after, name, after.names[name], info)
  {
    if Consistent(c) && UpdateTable(c, name, info).Ok? {
      UpdateExact(c, name, info);
      assert Bind(UpdateTable(c, name, info).value, name).value.Some?;
    }
  }

  predicate NewlyNumbered(identity: Identity, table: nat, info: Info) {
    && identity.table == table && identity.revision == INITIAL_REVISION && identity.name == info.name
    && !identity.deleted && !identity.cleanup && identity.highWater == |info.indexes| == |identity.indexes|
    && forall i :: 0 <= i < |identity.indexes| ==>
         && identity.indexes[i].id == i + 1 && identity.indexes[i].name == info.indexes[i]
         && identity.indexes[i].kind.UserGsi?
  }

  /** What replacing the layout of a name does: the given description is read under the next
      revision, and nothing else changes. */
  ghost predicate Replaces(c: Catalog, after: Catalog, name: Key, identity: Identity, info: Info) {
    && name in c.names && identity.revision == c.names[name].revision + 1 && identity.table == c.names[name].table
    && Reads(after, name, identity, info) && OthersSame(c, after, name, identity.table) && NextId(after) == NextId(c)
    && (name in after.streams ==>
          after.streams[name]
          == if name in c.streams then c.streams[name] else StreamEntry(identity.table, info.created))
  }

  lemma ContinuedReads(c: Catalog, name: Key, identity: Identity, info: Info, after: Catalog)
    requires Consistent(c) && PublishedNext(c, name, identity, info, after)
    ensures Replaces(c, after, name, identity, info)
  {
    var was := HasEnabledStream(c.metadata[c.names[name].table].info);
    PublishReads(c, identity, info, was);
    PublishLeaves(c, identity, info, was);
  }

  /** An update succeeds exactly for a bound name that keeps its name, while index identifiers and
      revisions last, and the new description is then read back. */
  lemma UpdateExact(c: Catalog, name: Key, info: Info)
    requires Consistent(c)
    ensures UpdateTable(c, name, info).Ok? <==>
            && name in c.names && info.name == name
            && RoomFor(c.names[name], info.indexes) && c.names[name].revision < U64_MAX
    ensures UpdateTable(c, name, info).Ok? ==>
              var next := Reconcile(c.names[name], info).value;
              Replaces(c, UpdateTable(c, name, info).value, name, next.(revision := c.names[name].revision + 1), info)
  {
    BindSucceeds(c, name);
    if name in c.names {
      ReconcileSucceeds(c.names[name], info);
      if Reconcile(c.names[name], info).Ok? { ReconcileExact(c.names[name], info); }
      if UpdateTable(c, name, info).Ok? {
        var identity := UpdateShape(c, name, info);
        ContinuedReads(c, name, identity, info, UpdateTable(c, name, info).value);
      }
    }
  }

  /** A touch succeeds exactly for a bound name while revisions last, and changes the revision only. */
  lemma TouchExact(c: Catalog, name: Key)
    requires Consistent(c)
    ensures TouchTable(c, name).Ok? <==> name in c.names && c.names[name].revision < U64_MAX
    ensures TouchTable(c, name).Ok? ==>
              var current := c.metadata[c.names[name].table];
              Replaces(c, TouchTable(c, name).value, name,
                       current.identity.(revision := current.identity.revision + 1), current.info)
  {
    BindSucceeds(c, name);
    if TouchTable(c, name).Ok? {
      var identity := TouchShape(c, name);
      ContinuedReads(c, name, identity, c.metadata[c.names[name].table].info, TouchTable(c, name).value);
    }
  }

  /** A barrier succeeds exactly for the current stamp of a bound name while revisions last, and
      marks the table for cleanup under its next revision. */
  lemma BarrierExact(c: Catalog, name: Key, stamp: Stamp)
    requires Consistent(c)
    ensures StoreBarrier(c, name, stamp).Ok? <==>
            && name in c.names && stamp == Stamp(c.names[name].table, c.names[name].revision)
            && stamp.revision < U64_MAX
    ensures StoreBarrier(c, name, stamp).Ok? ==>
              var current := c.metadata[c.names[name].table];
              Replaces(c, StoreBarrier(c, name, stamp).value, name,
                       current.identity.(revision := current.identity.revision + 1, cleanup := true), current.info)
  {
    BindSucceeds(c, name);
    if StoreBarrier(c, name, stamp).Ok? {
      var identity := BarrierShape(c, name, stamp);
      ContinuedReads(c, name, identity, c.metadata[c.names[name].table].info, StoreBarrier(c, name, stamp).value);
    }
  }

  /** A reclaim moves exactly the deleted tables that have a marker: to the given phase, or, with
      no phase left, out of the catalog. No reader notices. */
  lemma PhaseExact(c: Catalog, table: nat, next: Option<nat>)
    requires Consistent(c)
    ensures StorePhase(c, table, next).Ok? <==> table in c.metadata && c.metadata[table].identity.deleted
    ensures StorePhase(c, table, next).Ok? ==>
              var after := StorePhase(c, table, next).value;
              && (forall n :: Bind(after, n) == Bind(c, n)) && after.streams == c.streams && NextId(after) == NextId(c)
              && (forall t :: t != table ==>
                    && (t in after.metadata <==> t in c.metadata) && (t in after.reclaim <==> t in c.reclaim)
                    && (t in c.metadata ==> t in after.metadata && after.metadata[t] == c.metadata[t])
                    && (t in c.reclaim ==> t in after.reclaim && after.reclaim[t] == c.reclaim[t]))
              && (match next
                  case Some(phase) =>
                    && table in after.metadata && after.metadata[table] == c.metadata[table]
                    && table in after.reclaim
                    && after.reclaim[table] == Target(table, c.metadata[table].info.name, phase)
                  case None => table !in after.metadata && table !in after.reclaim)
  {
    if StorePhase(c, table, next).Ok? {
      var after := StorePhase(c, table, next).value;
      forall n ensures Bind(after, n) == Bind(c, n) {
        if n in c.names { assert Live(c, c.names[n].table); }
      }
    }
  }
}
