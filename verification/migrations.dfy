/**
  The migration runner of packages/database/src/migrations.ts.

  A script and its registry row commit together.  The registry itself is made by the first
  script (packages/database/migrations/0000000001_migration_registry.sql), and the evidence columns by
  0000000011_migration_compatibility_evidence.sql, which also fills them in for the rows before it.  An
  advisory lock keeps other runners out.  Version numbers stand for their ten-digit names.
*/
module Migrations {
  import opened Basics

  datatype SemanticVersion = SemanticVersion(major: nat, minor: nat, patch: nat)

  datatype Range = Range(minimum: SemanticVersion, maximum: Option<SemanticVersion>)

  /** What a script's SQL does to the registry. */
  datatype Effect =
    | CreatesRegistry
    | AddsEvidence(known: map<nat, Evidence>)
    | LeavesRegistry

  datatype Evidence = Evidence(checksum: string, minimum: SemanticVersion)

  datatype Migration = Migration(version: nat, name: string, owner: string, checksum: string, range: Range, effect: Effect)

  datatype Row = Row(name: string, owner: string, checksum: string, minimum: Option<SemanticVersion>, maximum: Option<SemanticVersion>)

  /** The registry, if there is one, whether it has the evidence columns, and the scripts that have committed, in order. */
  datatype Database = Database(registry: Option<map<nat, Row>>, evidence: bool, history: seq<nat>)

  const EVIDENCE_VERSION: nat := 11

  const FRESH := Database(None, false, [])

  /** How an attempt at one migration goes, as far as the runner has no say in it. */
  datatype Fate = Completes | ScriptFails | Dies | CommitUnacknowledged

  datatype Outcome = Finished | Modified(version: nat) | Broken(version: nat) | Interrupted(version: nat)

  /** Directories are read, sorted and checked: versions ascend, checksums are digests. */
  predicate Catalog(catalog: seq<Migration>) {
    && (forall i, j :: 0 <= i < j < |catalog| ==> catalog[i].version < catalog[j].version)
    && (forall i :: 0 <= i < |catalog| ==> catalog[i].checksum != "" && EffectFits(catalog[i].effect))
  }

  predicate EffectFits(effect: Effect) {
    effect.AddsEvidence? ==> forall v :: v in effect.known ==> v < EVIDENCE_VERSION
  }

  function Rows(db: Database): map<nat, Row> { if db.registry.Some? then db.registry.value else map[] }

  function Backfilled(rows: map<nat, Row>, known: map<nat, Evidence>): map<nat, Row> {
    map v | v in rows ::
      if v in known && known[v].checksum == rows[v].checksum then rows[v].(minimum := Some(known[v].minimum)) else rows[v]
  }

  /** The registry after the script's SQL, unless the script fails. */
  function Altered(db: Database, effect: Effect): Option<Database> {
    match effect
    case CreatesRegistry => if db.registry.Some? then None else Some(db.(registry := Some(map[])))
    case AddsEvidence(known) =>
      if db.registry.None? || db.evidence then None
      else
        var rows := Backfilled(db.registry.value, known);
        if exists v :: v in rows && v < EVIDENCE_VERSION && rows[v].minimum.None? then None
        else Some(db.(registry := Some(rows), evidence := true))
    case LeavesRegistry => Some(db)
  }

  function RowOf(m: Migration): Row {
    if m.version >= EVIDENCE_VERSION then Row(m.name, m.owner, m.checksum, Some(m.range.minimum), m.range.maximum)
    else Row(m.name, m.owner, m.checksum, None, None)
  }

  /** Script and row together, or nothing: the row needs a registry, its columns and a free key. */
  function Migrated(db: Database, m: Migration): Option<Database> {
    var altered := Altered(db, m.effect);
    if altered.None? then None
    else
      var d := altered.value;
      if d.registry.None? || (m.version >= EVIDENCE_VERSION && !d.evidence) || m.version in d.registry.value then None
      else Some(Database(Some(d.registry.value[m.version := RowOf(m)]), d.evidence, d.history + [m.version]))
  }

  function FateOf(fates: seq<Fate>): Fate { if fates == [] then Completes else fates[0] }

  function RestOf(fates: seq<Fate>): seq<Fate> { if fates == [] then [] else fates[1..] }

  /** The run, looking each version up in the registry as it stands. */
  function RunFrom(db: Database, catalog: seq<Migration>, fates: seq<Fate>): (Database, Outcome)
    decreases |catalog|
  {
    if catalog == [] then (db, Finished)
    else
      var m := catalog[0];
      if Recorded(db, m) then
        if Rows(db)[m.version].checksum != m.checksum then (db, Modified(m.version)) else RunFrom(db, catalog[1..], fates)
      else
        var fate, migrated := FateOf(fates), Migrated(db, m);
        if fate.ScriptFails? || fate.Dies? then (db, Interrupted(m.version))
        else if migrated.None? then (db, Broken(m.version))
        else if fate.CommitUnacknowledged? then (migrated.value, Interrupted(m.version))
        else RunFrom(migrated.value, catalog[1..], RestOf(fates))
  }

  /** There is a row for it, and its checksum is not the empty text. */
  predicate Recorded(db: Database, m: Migration) { m.version in Rows(db) && Rows(db)[m.version].checksum != "" }

  // ---------------------------------------------------------------- what a run keeps

  /** Every row belongs to exactly one committed script. */
  ghost predicate Sound(db: Database) {
    && (db.registry.None? ==> db.history == [] && !db.evidence)
    && (forall i, j :: 0 <= i < j < |db.history| ==> db.history[i] != db.history[j])
    && (forall v :: v in db.history <==> v in Rows(db))
  }

  predicate SameRecord(a: Row, b: Row) { a.name == b.name && a.owner == b.owner && a.checksum == b.checksum }

  /** Rows stay, with their names and checksums; scripts are only added. */
  ghost predicate Grows(before: Database, after: Database) {
    && (forall v :: v in Rows(before) ==> v in Rows(after) && SameRecord(Rows(before)[v], Rows(after)[v]))
    && before.history <= after.history
  }

  /** A script alone leaves every row its record, and the history as it was. */
  lemma AlteredKeeps(db: Database, e: Effect)
    requires Sound(db) && Altered(db, e).Some?
    ensures var d := Altered(db, e).value;
            && d.history == db.history && Rows(d).Keys == Rows(db).Keys
            && forall v :: v in Rows(db) ==> SameRecord(Rows(db)[v], Rows(d)[v])
  {
  }

  lemma MigratedKeeps(db: Database, m: Migration)
    requires Sound(db) && Migrated(db, m).Some?
    ensures Sound(Migrated(db, m).value) && Grows(db, Migrated(db, m).value)
    ensures Recorded(Migrated(db, m).value, m) == (m.checksum != "") && Rows(Migrated(db, m).value)[m.version] == RowOf(m)
    ensures Migrated(db, m).value.history == db.history + [m.version] && m.version !in db.history
  {
    var t := Migrated(db, m).value;
    AlteredKeeps(db, m.effect);
    assert t.history == db.history + [m.version];
    assert Rows(t) == Rows(Altered(db, m.effect).value)[m.version := RowOf(m)];
    hide Altered;
    forall v ensures v in t.history <==> v in Rows(t) {
      assert v in t.history <==> v in db.history || v == m.version;
    }
  }

  lemma {:induction false} RunKeeps(
      db: Database, catalog: seq<Migration>, fates: seq<Fate>)
    requires Sound(db)
    ensures Sound(RunFrom(db, catalog, fates).0) && Grows(db, RunFrom(db, catalog, fates).0)
    decreases |catalog|
  {
    hide Sound, Grows, Migrated;
    if catalog == [] {
      GrowsSelf(db);
    } else {
      var m := catalog[0];
      GrowsSelf(db);
      if Recorded(db, m) {
        RunKeeps(db, catalog[1..], fates);
      } else if Migrated(db, m).Some? {
        var t := Migrated(db, m).value;
        MigratedKeeps(db, m);
        RunKeeps(t, catalog[1..], RestOf(fates));
        GrowsChain(db, t, RunFrom(t, catalog[1..], RestOf(fates)).0);
      }
    }
  }

  lemma GrowsSelf(db: Database)
    ensures Grows(db, db)
  {
  }

  lemma GrowsChain(a: Database, b: Database, c: Database)
    requires Grows(a, b) && Grows(b, c)
    ensures Grows(a, c)
  {
  }

  // ---------------------------------------------------------------- running again

  lemma RecordedStays(before: Database, after: Database, m: Migration)
    requires Grows(before, after) && Recorded(before, m)
    ensures Recorded(after, m) && Rows(after)[m.version].checksum == Rows(before)[m.version].checksum
  {
  }

  lemma CatalogTail(catalog: seq<Migration>)
    requires Catalog(catalog) && catalog != []
    ensures Catalog(catalog[1..]) && catalog[0].checksum != ""
  {
  }

  /** A recorded, unmodified first migration is passed over. */
  lemma PassesOver(db: Database, catalog: seq<Migration>, fates: seq<Fate>)
    requires catalog != [] && Recorded(db, catalog[0]) && Rows(db)[catalog[0].version].checksum == catalog[0].checksum
    ensures RunFrom(db, catalog, fates) == RunFrom(db, catalog[1..], fates)
  {
  }

  /**
    A run that was interrupted, at whatever point and in whatever way, leaves nothing to repair: running again to
    the end gives the database and the outcome an uninterrupted run would have given.
  */
  lemma {:induction false} InterruptedRunResumes(
      db: Database, catalog: seq<Migration>, fates: seq<Fate>)
    requires Sound(db) && Catalog(catalog)
    ensures RunFrom(RunFrom(db, catalog, fates).0, catalog, []) == RunFrom(db, catalog, [])
    decreases |catalog|
  {
    if catalog != [] {
      var m, rest := catalog[0], catalog[1..];
      var after := RunFrom(db, catalog, fates).0;
      CatalogTail(catalog);
      hide Sound, Grows, Migrated, Recorded, Catalog;
      if Recorded(db, m) && Rows(db)[m.version].checksum == m.checksum {
        InterruptedRunResumes(db, rest, fates);
        RunKeeps(db, rest, fates);
        RecordedStays(db, after, m);
        PassesOver(after, catalog, []);
      } else if !Recorded(db, m) && Migrated(db, m).Some? && !FateOf(fates).ScriptFails? && !FateOf(fates).Dies? {
        var t := Migrated(db, m).value;
        MigratedKeeps(db, m);
        var later := if FateOf(fates).Completes? then RunFrom(t, rest, RestOf(fates)).0 else t;
        if FateOf(fates).Completes? {
          InterruptedRunResumes(t, rest, RestOf(fates));
          RunKeeps(t, rest, RestOf(fates));
        } else {
          GrowsSelf(t);
        }
        RecordedStays(t, later, m);
        RecordedChecksum(t, m);
        PassesOver(later, catalog, []);
      }
    }
  }

  lemma RecordedChecksum(t: Database, m: Migration)
    requires m.version in Rows(t) && Rows(t)[m.version] == RowOf(m)
    ensures Rows(t)[m.version].checksum == m.checksum
  {
  }

  /** The registry has the migration's row under its checksum. */
  predicate Applied(db: Database, m: Migration) { Recorded(db, m) && Rows(db)[m.version].checksum == m.checksum }

  /** Success means every migration of the catalog is recorded under its own checksum, and its script committed exactly once. */
  lemma {:induction false} FinishedMeansApplied(
      db: Database, catalog: seq<Migration>, fates: seq<Fate>, k: nat)
    requires Sound(db) && Catalog(catalog) && RunFrom(db, catalog, fates).1 == Finished && k < |catalog|
    ensures Applied(RunFrom(db, catalog, fates).0, catalog[k])
    ensures var history := RunFrom(db, catalog, fates).0.history;
            exists i :: 0 <= i < |history| && history[i] == catalog[k].version && forall j :: 0 <= j < |history| && j != i ==> history[j] != catalog[k].version
    decreases |catalog|
  {
    RunKeeps(db, catalog, fates);
    AppliedAtEnd(db, catalog, fates, k);
    var after := RunFrom(db, catalog, fates).0;
    assert catalog[k].version in after.history;
    var i :| 0 <= i < |after.history| && after.history[i] == catalog[k].version;
  }

  lemma {:induction false} AppliedAtEnd(
      db: Database, catalog: seq<Migration>, fates: seq<Fate>, k: nat)
    requires Sound(db) && Catalog(catalog) && RunFrom(db, catalog, fates).1 == Finished && k < |catalog|
    ensures Applied(RunFrom(db, catalog, fates).0, catalog[k])
    decreases |catalog|
  {
    var m, rest := catalog[0], catalog[1..];
    CatalogTail(catalog);
    var t, left := if Recorded(db, m) then db else Migrated(db, m).value, if Recorded(db, m) then fates else RestOf(fates);
    hide Sound, Grows, Migrated, Recorded, Catalog;
    if !Recorded(db, m) {
      MigratedKeeps(db, m);
    }
    if k == 0 {
      RunKeeps(t, rest, left);
      RecordedStays(t, RunFrom(t, rest, left).0, m);
    } else {
      assert catalog[k] == rest[k - 1];
      AppliedAtEnd(t, rest, left, k - 1);
    }
  }

  /** After success a further run of the same catalog changes nothing, whatever could have happened to it. */
  lemma FinishedRunIsStable(
      db: Database, catalog: seq<Migration>, fates: seq<Fate>, again: seq<Fate>)
    requires Sound(db) && Catalog(catalog) && RunFrom(db, catalog, fates).1 == Finished
    ensures RunFrom(RunFrom(db, catalog, fates).0, catalog, again) == (RunFrom(db, catalog, fates).0, Finished)
  {
    forall k | 0 <= k < |catalog| ensures Applied(RunFrom(db, catalog, fates).0, catalog[k]) {
      AppliedAtEnd(db, catalog, fates, k);
    }
    hide RunFrom;
    AllAppliedIsStable(RunFrom(db, catalog, fates).0, catalog, again);
  }

  lemma {:induction false} AllAppliedIsStable(
      db: Database, catalog: seq<Migration>, fates: seq<Fate>)
    requires forall k :: 0 <= k < |catalog| ==> Applied(db, catalog[k])
    ensures RunFrom(db, catalog, fates) == (db, Finished)
    decreases |catalog|
  {
    if catalog != [] {
      assert Applied(db, catalog[0]);
      assert forall k :: 0 <= k < |catalog[1..]| ==> catalog[1..][k] == catalog[k + 1];
      AllAppliedIsStable(db, catalog[1..], fates);
    }
  }

  /** No run finishes over a recorded migration whose script was changed since. */
  lemma ModifiedIsRefused(db: Database, catalog: seq<Migration>, fates: seq<Fate>, k: nat)
    requires Sound(db) && Catalog(catalog) && k < |catalog| && Recorded(db, catalog[k]) && !Applied(db, catalog[k])
    ensures RunFrom(db, catalog, fates).1 != Finished
  {
    if RunFrom(db, catalog, fates).1 == Finished {
      AppliedAtEnd(db, catalog, fates, k);
      RunKeeps(db, catalog, fates);
      RecordedStays(db, RunFrom(db, catalog, fates).0, catalog[k]);
    }
  }

  /** A row with an empty checksum counts as not applied, so its script is tried again and its key refuses it. */
  lemma EmptyChecksumBlocks(
      db: Database, catalog: seq<Migration>, fates: seq<Fate>, k: nat)
    requires Sound(db) && Catalog(catalog) && k < |catalog| && catalog[k].version in Rows(db) && Rows(db)[catalog[k].version].checksum == ""
    ensures RunFrom(db, catalog, fates).1 != Finished
  {
    if RunFrom(db, catalog, fates).1 == Finished {
      AppliedAtEnd(db, catalog, fates, k);
      RunKeeps(db, catalog, fates);
    }
  }

  // ---------------------------------------------------------------- the runner itself

  class MigrationRunner {
    var database: Database

    constructor (database: Database)
      ensures this.database == database
    {
      this.database := database;
    }

    /** Reads the registry once, then goes through the catalog; a missing registry reads as empty. */
    method RunMigrations(catalog: seq<Migration>, fates: seq<Fate>) returns (outcome: Outcome)
      requires Sound(database) && Catalog(catalog)
      modifies this
      ensures (database, outcome) == RunFrom(old(database), catalog, fates)
      ensures Sound(database)
    {
      hide Sound, Grows, Altered;
      var applied := map v | v in Rows(database) :: Rows(database)[v].checksum;
      var left := fates;
      var i := 0;
      assert catalog[0..] == catalog;
      while i < |catalog|
        invariant 0 <= i <= |catalog|
        invariant Sound(database)
        invariant RunFrom(database, catalog[i..], left) == RunFrom(old(database), catalog, fates)
        invariant forall j :: i <= j < |catalog| ==> Agrees(database, applied, catalog[j].version)
      {
        var m := catalog[i];
        assert catalog[i..][0] == m && catalog[i..][1..] == catalog[i + 1..];
        assert Agrees(database, applied, m.version);
        var checksum := if m.version in applied then applied[m.version] else "";
        i := i + 1;
        if checksum != "" {
          if checksum != m.checksum {
            return Modified(m.version);
          }
          continue;
        }
        var fate := FateOf(left);
        left := RestOf(left);
        if fate.ScriptFails? || fate.Dies? {
          return Interrupted(m.version);
        }
        var migrated := Migrated(database, m);
        if migrated.None? {
          return Broken(m.version);
        }
        MigratedKeeps(database, m);
        MigratedAgrees(database, m, applied, catalog, i);
        database := migrated.value;
        if fate.CommitUnacknowledged? {
          return Interrupted(m.version);
        }
      }
      assert catalog[i..] == [];
      return Finished;
    }
  }

  /** The checksum read at the start is still the one in the registry. */
  predicate Agrees(db: Database, applied: map<nat, string>, version: nat) {
    (version in applied <==> version in Rows(db)) && (version in applied ==> applied[version] == Rows(db)[version].checksum)
  }

  lemma MigratedAgrees(
      db: Database, m: Migration, applied: map<nat, string>, catalog: seq<Migration>, i: nat)
    requires Catalog(catalog) && 0 < i <= |catalog| && catalog[i - 1] == m && Migrated(db, m).Some?
    requires forall j :: i <= j < |catalog| ==> Agrees(db, applied, catalog[j].version)
    ensures forall j :: i <= j < |catalog| ==> Agrees(Migrated(db, m).value, applied, catalog[j].version)
  {
    forall j | i <= j < |catalog| ensures Agrees(Migrated(db, m).value, applied, catalog[j].version) {
      assert m.version < catalog[j].version;
      assert Agrees(db, applied, catalog[j].version);
    }
  }
}
