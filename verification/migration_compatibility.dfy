/**
  The compatibility report of packages/database/src/migration-compatibility.ts over the rows of
  the registry.  A semantic version's text has no leading zeros, so texts stand for the versions
  they denote.
*/
module MigrationCompatibility {
  import opened Basics
  import opened Migrations

  datatype Issue =
    | MissingMigration(version: nat)
    | ChecksumMismatch(version: nat)
    | RecordMismatch(version: nat)
    | EvidenceUnavailable(version: nat)
    | EvidenceMismatch(version: nat)
    | ApplicationVersionUnsupported(version: nat)
    | UnknownAppliedMigration(version: nat)

  datatype AppliedRow = AppliedRow(version: nat, row: Row)

  datatype Report = Report(compatible: bool, current: Option<nat>, issues: seq<Issue>)

  /** Minus one, zero or one. */
  function Compare(a: SemanticVersion, b: SemanticVersion): int {
    if a.major != b.major then (if a.major < b.major then -1 else 1)
    else if a.minor != b.minor then (if a.minor < b.minor then -1 else 1)
    else if a.patch != b.patch then (if a.patch < b.patch then -1 else 1)
    else 0
  }

  /** Versions are totally ordered. */
  lemma CompareOrders(a: SemanticVersion, b: SemanticVersion, c: SemanticVersion)
    ensures Compare(a, b) == 0 <==> a == b
    ensures Compare(a, b) == -Compare(b, a)
    ensures Compare(a, b) < 0 && Compare(b, c) < 0 ==> Compare(a, c) < 0
  {
  }

  /** From the minimum on, up to but without the maximum. */
  predicate Supports(range: Range, app: SemanticVersion) {
    Compare(app, range.minimum) >= 0 && (range.maximum.Some? ==> Compare(app, range.maximum.value) < 0)
  }

  /** At least as high in the first number in which they differ. */
  predicate AtLeast(a: SemanticVersion, b: SemanticVersion) {
    a.major > b.major || (a.major == b.major && (a.minor > b.minor || (a.minor == b.minor && a.patch >= b.patch)))
  }

  /** A range holds its minimum and what is above it; its maximum and what is above that are out; without one there is no end. */
  lemma SupportsExactly(range: Range, app: SemanticVersion)
    ensures Supports(range, app) <==>
              AtLeast(app, range.minimum) && match range.maximum case None => true case Some(maximum) => !AtLeast(app, maximum)
  {
  }

  /** What the loop finds about one migration and its row. */
  function RowIssues(m: Migration, row: Option<Row>, app: SemanticVersion): seq<Issue> {
    if row.None? then [MissingMigration(m.version)]
    else
      var r := row.value;
      (if r.checksum != m.checksum then [ChecksumMismatch(m.version)] else [])
      + (if r.name != m.name || r.owner != m.owner then [RecordMismatch(m.version)] else [])
      + (if r.minimum.None? then [EvidenceUnavailable(m.version)]
         else if Range(r.minimum.value, r.maximum) != m.range then [EvidenceMismatch(m.version)]
         else if !Supports(Range(r.minimum.value, r.maximum), app) then [ApplicationVersionUnsupported(m.version)]
         else [])
  }

  /** The registry's rows as its query returns them: by version, a primary key. */
  predicate InOrder(rows: seq<AppliedRow>) {
    forall i, j :: 0 <= i < j < |rows| ==> rows[i].version < rows[j].version
  }

  function RowFor(rows: seq<AppliedRow>, version: nat): Option<Row> {
    if rows == [] then None
    else if rows[|rows| - 1].version == version then Some(rows[|rows| - 1].row)
    else RowFor(rows[..|rows| - 1], version)
  }

  predicate Expected(catalog: seq<Migration>, version: nat) { exists i :: 0 <= i < |catalog| && catalog[i].version == version }

  function MigrationIssues(catalog: seq<Migration>, rows: seq<AppliedRow>, app: SemanticVersion): seq<Issue> {
    if catalog == [] then []
    else
      var last := catalog[|catalog| - 1];
      MigrationIssues(catalog[..|catalog| - 1], rows, app) + RowIssues(last, RowFor(rows, last.version), app)
  }

  function UnknownIssues(catalog: seq<Migration>, rows: seq<AppliedRow>): seq<Issue> {
    if rows == [] then []
    else
      var last := rows[|rows| - 1].version;
      UnknownIssues(catalog, rows[..|rows| - 1]) + if Expected(catalog, last) then [] else [UnknownAppliedMigration(last)]
  }

  /** The row is the migration's own, its evidence is the declared range, and the application is in it. */
  predicate RowFits(m: Migration, row: Row, app: SemanticVersion) {
    && row.checksum == m.checksum && row.name == m.name && row.owner == m.owner
    && row.minimum == Some(m.range.minimum) && row.maximum == m.range.maximum
    && AtLeast(app, m.range.minimum) && (m.range.maximum.Some? ==> !AtLeast(app, m.range.maximum.value))
  }

  lemma RowIssuesExact(m: Migration, row: Option<Row>, app: SemanticVersion)
    ensures RowIssues(m, row, app) == [] <==> row.Some? && RowFits(m, row.value, app)
  {
    SupportsExactly(m.range, app);
    hide Supports, AtLeast;
  }

  lemma {:induction false} RowForFinds(rows: seq<AppliedRow>, version: nat)
    ensures RowFor(rows, version).Some? <==> exists i :: 0 <= i < |rows| && rows[i].version == version
    ensures InOrder(rows) ==> forall i :: 0 <= i < |rows| && rows[i].version == version ==> RowFor(rows, version) == Some(rows[i].row)
  {
    if rows != [] {
      var init := rows[..|rows| - 1];
      RowForFinds(init, version);
      if rows[|rows| - 1].version == version {
      } else if RowFor(init, version).Some? {
        var i :| 0 <= i < |init| && init[i].version == version;
        assert rows[i].version == version;
      } else {
        forall i | 0 <= i < |rows| ensures rows[i].version != version {
          if i < |rows| - 1 { assert init[i] == rows[i]; }
        }
      }
      if InOrder(rows) {
        forall i | 0 <= i < |rows| && rows[i].version == version ensures RowFor(rows, version) == Some(rows[i].row) {
          if i < |rows| - 1 { assert init[i] == rows[i]; }
        }
      }
    }
  }

  lemma {:induction false} MigrationIssuesExact(
      catalog: seq<Migration>, rows: seq<AppliedRow>, app: SemanticVersion)
    ensures MigrationIssues(catalog, rows, app) == [] <==>
              forall i :: 0 <= i < |catalog| ==> RowFor(rows, catalog[i].version).Some? && RowFits(catalog[i], RowFor(rows, catalog[i].version).value, app)
  {
    hide RowIssues, RowFits, RowFor;
    if catalog != [] {
      var init, last := catalog[..|catalog| - 1], catalog[|catalog| - 1];
      MigrationIssuesExact(init, rows, app);
      RowIssuesExact(last, RowFor(rows, last.version), app);
      assert forall i :: 0 <= i < |init| ==> init[i] == catalog[i];
    }
  }

  lemma {:induction false} UnknownIssuesExact(
      catalog: seq<Migration>, rows: seq<AppliedRow>)
    ensures UnknownIssues(catalog, rows) == [] <==> forall i :: 0 <= i < |rows| ==> Expected(catalog, rows[i].version)
  {
    hide Expected;
    if rows != [] {
      var init := rows[..|rows| - 1];
      UnknownIssuesExact(catalog, init);
      assert forall i :: 0 <= i < |init| ==> init[i] == rows[i];
    }
  }

  /** The catalog and the rows name the same versions, one for one. */
  predicate OneToOne(catalog: seq<Migration>, rows: seq<AppliedRow>) {
    |catalog| == |rows| && forall i :: 0 <= i < |rows| ==> rows[i].version == catalog[i].version
  }

  predicate AllIn(a: seq<nat>, b: seq<nat>) { forall i :: 0 <= i < |a| ==> a[i] in b }

  /** The largest of two ascending lists with the same members is the same, and so are the members below it. */
  lemma SameLast(a: seq<nat>, b: seq<nat>)
    requires Ascending(a) && Ascending(b) && AllIn(a, b) && AllIn(b, a) && a != [] && b != []
    ensures a[|a| - 1] == b[|b| - 1]
  {
    var i :| 0 <= i < |b| && b[i] == a[|a| - 1];
    var j :| 0 <= j < |a| && a[j] == b[|b| - 1];
  }

  lemma BelowLast(a: seq<nat>, b: seq<nat>)
    requires Ascending(a) && AllIn(a, b) && a != [] && b != [] && a[|a| - 1] == b[|b| - 1]
    ensures AllIn(a[..|a| - 1], b[..|b| - 1])
  {
    forall i | 0 <= i < |a| - 1 ensures a[i] in b[..|b| - 1] {
      var j :| 0 <= j < |b| && b[j] == a[i];
      assert b[..|b| - 1][j] == a[i];
    }
  }

  /** Two ascending lists with the same members are the same list. */
  lemma {:induction false} AscendingMatch(a: seq<nat>, b: seq<nat>)
    requires Ascending(a) && Ascending(b) && AllIn(a, b) && AllIn(b, a)
    ensures a == b
  {
    assert |a| > 0 ==> a[0] in b;
    assert |b| > 0 ==> b[0] in a;
    if a != [] {
      SameLast(a, b);
      BelowLast(a, b);
      BelowLast(b, a);
      hide AllIn;
      AscendingMatch(a[..|a| - 1], b[..|b| - 1]);
      assert a == a[..|a| - 1] + [a[|a| - 1]] && b == b[..|b| - 1] + [b[|b| - 1]];
    }
  }

  function CatalogVersions(catalog: seq<Migration>): (r: seq<nat>)
    ensures |r| == |catalog| && forall i :: 0 <= i < |r| ==> r[i] == catalog[i].version
  {
    seq(|catalog|, i requires 0 <= i < |catalog| => catalog[i].version)
  }

  function RowVersions(rows: seq<AppliedRow>): (r: seq<nat>)
    ensures |r| == |rows| && forall i :: 0 <= i < |r| ==> r[i] == rows[i].version
  {
    seq(|rows|, i requires 0 <= i < |rows| => rows[i].version)
  }

  lemma {:induction false} SameVersionsMatch(
      catalog: seq<Migration>, rows: seq<AppliedRow>)
    requires Catalog(catalog) && InOrder(rows)
    requires forall i :: 0 <= i < |catalog| ==> RowFor(rows, catalog[i].version).Some?
    requires forall i :: 0 <= i < |rows| ==> Expected(catalog, rows[i].version)
    ensures OneToOne(catalog, rows)
  {
    var a, b := CatalogVersions(catalog), RowVersions(rows);
    forall i | 0 <= i < |a| ensures a[i] in b {
      RowForFinds(rows, a[i]);
      var j :| 0 <= j < |rows| && rows[j].version == a[i];
      assert b[j] == a[i];
    }
    forall j | 0 <= j < |b| ensures b[j] in a {
      assert Expected(catalog, b[j]);
      var i :| 0 <= i < |catalog| && catalog[i].version == b[j];
      assert a[i] == b[j];
    }
    hide RowFor, Expected;
    AscendingMatch(a, b);
  }

  function ReportOf(catalog: seq<Migration>, rows: seq<AppliedRow>, app: SemanticVersion): Report {
    var issues := MigrationIssues(catalog, rows, app) + UnknownIssues(catalog, rows);
    Report(issues == [], if rows == [] then None else Some(rows[|rows| - 1].version), issues)
  }

  /** The report is compatible exactly when rows and catalog match one to one, row by row, and the application version is in every range. */
  lemma CompatibleExactly(
      catalog: seq<Migration>, rows: seq<AppliedRow>, app: SemanticVersion)
    requires Catalog(catalog) && InOrder(rows)
    ensures ReportOf(catalog, rows, app).compatible <==>
              OneToOne(catalog, rows) && forall i :: 0 <= i < |rows| ==> RowFits(catalog[i], rows[i].row, app)
  {
    hide RowFits, Supports, RowFor, Expected;
    MigrationIssuesExact(catalog, rows, app);
    UnknownIssuesExact(catalog, rows);
    if ReportOf(catalog, rows, app).compatible {
      SameVersionsMatch(catalog, rows);
    }
    if OneToOne(catalog, rows) {
      forall i | 0 <= i < |rows| ensures RowFor(rows, catalog[i].version) == Some(rows[i].row) && Expected(catalog, rows[i].version) {
        RowForFinds(rows, catalog[i].version);
        ExpectedAt(catalog, i);
      }
    }
  }

  lemma ExpectedAt(catalog: seq<Migration>, i: nat)
    requires i < |catalog|
    ensures Expected(catalog, catalog[i].version)
  {
  }

  /** What deserves this issue. */
  ghost predicate Deserved(catalog: seq<Migration>, rows: seq<AppliedRow>, app: SemanticVersion, issue: Issue) {
    match issue
    case MissingMigration(v) => exists i :: 0 <= i < |catalog| && catalog[i].version == v && IsMissing(rows, v)
    case UnknownAppliedMigration(v) => exists j :: 0 <= j < |rows| && rows[j].version == v && forall i :: 0 <= i < |catalog| ==> catalog[i].version != v
    case _ => exists i, j :: Meet(catalog, rows, i, j, issue.version) && Deserves(catalog[i], rows[j].row, app, issue)
  }

  /** What is wrong between a migration and its row. */
  predicate Deserves(m: Migration, row: Row, app: SemanticVersion, issue: Issue) {
    match issue
    case ChecksumMismatch(_) => row.checksum != m.checksum
    case RecordMismatch(_) => row.name != m.name || row.owner != m.owner
    case EvidenceUnavailable(_) => row.minimum == None
    case EvidenceMismatch(_) => row.minimum != None && !SameRange(m, row)
    case ApplicationVersionUnsupported(_) =>
      SameRange(m, row)
      && !(AtLeast(app, m.range.minimum) && match m.range.maximum case None => true case Some(maximum) => !AtLeast(app, maximum))
    case _ => false
  }

  predicate IsMissing(rows: seq<AppliedRow>, v: nat) { forall j :: 0 <= j < |rows| ==> rows[j].version != v }

  /** A migration and its row. */
  predicate Meet(catalog: seq<Migration>, rows: seq<AppliedRow>, i: int, j: int, v: nat) {
    0 <= i < |catalog| && 0 <= j < |rows| && catalog[i].version == v && rows[j].version == v
  }

  predicate SameRange(m: Migration, row: Row) { row.minimum == Some(m.range.minimum) && row.maximum == m.range.maximum }

  lemma {:induction false} UnknownReported(catalog: seq<Migration>, rows: seq<AppliedRow>, issue: Issue)
    ensures issue in UnknownIssues(catalog, rows) <==>
              exists j :: 0 <= j < |rows| && issue == UnknownAppliedMigration(rows[j].version) && !Expected(catalog, rows[j].version)
  {
    hide Expected;
    if rows != [] {
      var init := rows[..|rows| - 1];
      UnknownReported(catalog, init, issue);
      assert forall j :: 0 <= j < |init| ==> init[j] == rows[j];
    }
  }

  lemma {:induction false} MigrationReported(catalog: seq<Migration>, rows: seq<AppliedRow>, app: SemanticVersion, issue: Issue)
    ensures issue in MigrationIssues(catalog, rows, app) <==>
              exists i :: 0 <= i < |catalog| && issue in RowIssues(catalog[i], RowFor(rows, catalog[i].version), app)
  {
    hide RowIssues, RowFor;
    if catalog != [] {
      var init := catalog[..|catalog| - 1];
      MigrationReported(init, rows, app, issue);
      assert forall i :: 0 <= i < |init| ==> init[i] == catalog[i];
    }
  }

  lemma RowReported(m: Migration, rows: seq<AppliedRow>, app: SemanticVersion, issue: Issue)
    requires InOrder(rows)
    ensures issue in RowIssues(m, RowFor(rows, m.version), app) <==> !issue.UnknownAppliedMigration? && Deserved([m], rows, app, issue)
  {
    RowForFinds(rows, m.version);
    SupportsExactly(m.range, app);
    hide RowFor, Supports, AtLeast, InOrder;
    var row := RowFor(rows, m.version);
    if row.Some? {
      var j :| 0 <= j < |rows| && rows[j].version == m.version;
      assert row == Some(rows[j].row) && Meet([m], rows, 0, j, m.version);
      forall i, k, v | Meet([m], rows, i, k, v) ensures i == 0 && v == m.version && rows[k].row == rows[j].row { }
    } else {
      assert IsMissing(rows, m.version);
      assert [m][0].version == m.version;
    }
  }

  lemma DeservedByOne(catalog: seq<Migration>, rows: seq<AppliedRow>, app: SemanticVersion, issue: Issue)
    requires !issue.UnknownAppliedMigration?
    ensures Deserved(catalog, rows, app, issue) <==> exists i :: 0 <= i < |catalog| && Deserved([catalog[i]], rows, app, issue)
  {
    hide AtLeast;
    if Deserved(catalog, rows, app, issue) {
      if issue.MissingMigration? {
        var i :| 0 <= i < |catalog| && catalog[i].version == issue.version && IsMissing(rows, issue.version);
        assert [catalog[i]][0].version == issue.version;
      } else {
        var i, j :| Meet(catalog, rows, i, j, issue.version) && Deserves(catalog[i], rows[j].row, app, issue);
        assert Meet([catalog[i]], rows, 0, j, issue.version);
        assert Deserved([catalog[i]], rows, app, issue);
      }
    }
    if i :| 0 <= i < |catalog| && Deserved([catalog[i]], rows, app, issue) {
      if !issue.MissingMigration? {
        var k, j :| Meet([catalog[i]], rows, k, j, issue.version) && Deserves([catalog[i]][k], rows[j].row, app, issue);
        assert Meet(catalog, rows, i, j, issue.version);
      }
    }
  }

  /** The report lists exactly the issues that are deserved, and names the highest version applied. */
  lemma ReportedExactly(catalog: seq<Migration>, rows: seq<AppliedRow>, app: SemanticVersion, issue: Issue)
    requires Catalog(catalog) && InOrder(rows)
    ensures issue in ReportOf(catalog, rows, app).issues <==> Deserved(catalog, rows, app, issue)
    ensures ReportOf(catalog, rows, app).current.None? <==> rows == []
    ensures forall i :: 0 <= i < |rows| ==> rows[i].version <= ReportOf(catalog, rows, app).current.value
    ensures rows != [] ==> exists i :: 0 <= i < |rows| && rows[i].version == ReportOf(catalog, rows, app).current.value
  {
    MigrationReported(catalog, rows, app, issue);
    UnknownReported(catalog, rows, issue);
    forall i | 0 <= i < |catalog|
      ensures issue in RowIssues(catalog[i], RowFor(rows, catalog[i].version), app) <==>
                !issue.UnknownAppliedMigration? && Deserved([catalog[i]], rows, app, issue)
    {
      RowReported(catalog[i], rows, app, issue);
    }
    hide RowIssues, RowFor, MigrationIssues, UnknownIssues, Catalog;
    if !issue.UnknownAppliedMigration? { DeservedByOne(catalog, rows, app, issue); }
  }

  method ExpectedVersions(catalog: seq<Migration>) returns (expected: set<nat>)
    ensures forall v :: v in expected <==> Expected(catalog, v)
  {
    expected := {};
    var i := 0;
    while i < |catalog|
      invariant 0 <= i <= |catalog|
      invariant forall v :: v in expected <==> exists k :: 0 <= k < i && catalog[k].version == v
    {
      expected := expected + {catalog[i].version};
      i := i + 1;
    }
  }

  method AppliedByVersion(rows: seq<AppliedRow>) returns (applied: map<nat, Row>)
    ensures forall v :: RowFor(rows, v) == if v in applied then Some(applied[v]) else None
  {
    applied := map[];
    var i := 0;
    while i < |rows|
      invariant 0 <= i <= |rows|
      invariant forall v :: RowFor(rows[..i], v) == if v in applied then Some(applied[v]) else None
    {
      assert rows[..i + 1][..i] == rows[..i] && rows[..i + 1][i] == rows[i];
      applied := applied[rows[i].version := rows[i].row];
      i := i + 1;
    }
    assert rows[..|rows|] == rows;
  }

  /** The two loops of the report. */
  method CheckMigrationCompatibility(catalog: seq<Migration>, rows: seq<AppliedRow>, app: SemanticVersion) returns (report: Report)
    ensures report == ReportOf(catalog, rows, app)
  {
    hide RowIssues, Expected, RowFor;
    var expected := ExpectedVersions(catalog);
    var applied := AppliedByVersion(rows);
    var issues: seq<Issue> := [];
    var i := 0;
    while i < |catalog|
      invariant 0 <= i <= |catalog|
      invariant issues == MigrationIssues(catalog[..i], rows, app)
    {
      assert catalog[..i + 1][..i] == catalog[..i] && catalog[..i + 1][i] == catalog[i];
      var m := catalog[i];
      var found := OneRow(m, if m.version in applied then Some(applied[m.version]) else None, app);
      issues := issues + found;
      i := i + 1;
    }
    assert catalog[..|catalog|] == catalog;
    ghost var known := issues;
    i := 0;
    while i < |rows|
      invariant 0 <= i <= |rows|
      invariant issues == known + UnknownIssues(catalog, rows[..i])
    {
      assert rows[..i + 1][..i] == rows[..i] && rows[..i + 1][i] == rows[i];
      if rows[i].version !in expected {
        issues := issues + [UnknownAppliedMigration(rows[i].version)];
      }
      i := i + 1;
    }
    assert rows[..|rows|] == rows;
    report := Report(|issues| == 0, if |rows| == 0 then None else Some(rows[|rows| - 1].version), issues);
  }

  /** The checks on one migration, in the order they are reported. */
  method OneRow(m: Migration, row: Option<Row>, app: SemanticVersion) returns (issues: seq<Issue>)
    ensures issues == RowIssues(m, row, app)
  {
    issues := [];
    if row.None? {
      return [MissingMigration(m.version)];
    }
    var r := row.value;
    if r.checksum != m.checksum {
      issues := issues + [ChecksumMismatch(m.version)];
    }
    if r.name != m.name || r.owner != m.owner {
      issues := issues + [RecordMismatch(m.version)];
    }
    if r.minimum.None? {
      issues := issues + [EvidenceUnavailable(m.version)];
    } else {
      var evidence := Range(r.minimum.value, r.maximum);
      if evidence.minimum != m.range.minimum || evidence.maximum != m.range.maximum {
        issues := issues + [EvidenceMismatch(m.version)];
      } else if !Supports(evidence, app) {
        issues := issues + [ApplicationVersionUnsupported(m.version)];
      }
    }
  }

  // ---------------------------------------------------------------- the report after a run

  /** The registry, listed. */
  ghost predicate Lists(rows: seq<AppliedRow>, table: map<nat, Row>) {
    && InOrder(rows)
    && (forall i :: 0 <= i < |rows| ==> rows[i].version in table && table[rows[i].version] == rows[i].row)
    && (forall v :: v in table ==> exists i :: 0 <= i < |rows| && rows[i].version == v)
  }

  /** Rows from the evidence version on are final, earlier ones never get a maximum. */
  ghost predicate KeepsEvidence(before: Database, after: Database) {
    forall v :: v in Rows(before) ==> v in Rows(after) && RowKept(v, Rows(before)[v], Rows(after)[v])
  }

  predicate RowKept(version: nat, before: Row, after: Row) {
    && SameRecord(before, after) && after.maximum == before.maximum
    && (version >= EVIDENCE_VERSION ==> after == before)
  }

  lemma MigratedKeepsEvidence(db: Database, m: Migration)
    requires Migrated(db, m).Some? && EffectFits(m.effect)
    ensures KeepsEvidence(db, Migrated(db, m).value)
    ensures Rows(Migrated(db, m).value).Keys == Rows(db).Keys + {m.version} && Rows(Migrated(db, m).value)[m.version] == RowOf(m)
  {
  }

  lemma KeepsEvidenceChain(a: Database, b: Database, c: Database)
    requires KeepsEvidence(a, b) && KeepsEvidence(b, c)
    ensures KeepsEvidence(a, c)
  {
  }

  lemma {:induction false} RunKeepsEvidence(
      db: Database, catalog: seq<Migration>, fates: seq<Fate>)
    requires Catalog(catalog)
    ensures KeepsEvidence(db, RunFrom(db, catalog, fates).0)
    ensures forall v :: v in Rows(RunFrom(db, catalog, fates).0) ==> v in Rows(db) || Expected(catalog, v)
    decreases |catalog|
  {
    if catalog != [] {
      var m, rest := catalog[0], catalog[1..];
      CatalogTail(catalog);
      assert EffectFits(m.effect);
      hide Migrated, Catalog, EffectFits;
      forall v ensures Expected(catalog, v) <==> v == m.version || Expected(rest, v) {
        ExpectedTail(catalog, v);
      }
      hide Expected;
      if Recorded(db, m) {
        RunKeepsEvidence(db, rest, fates);
      } else if Migrated(db, m).Some? {
        var t := Migrated(db, m).value;
        MigratedKeepsEvidence(db, m);
        RunKeepsEvidence(t, rest, RestOf(fates));
        KeepsEvidenceChain(db, t, RunFrom(t, rest, RestOf(fates)).0);
      }
    }
  }

  lemma ExpectedTail(catalog: seq<Migration>, v: nat)
    requires catalog != []
    ensures Expected(catalog, v) <==> v == catalog[0].version || Expected(catalog[1..], v)
  {
    assert forall i :: 0 < i < |catalog| ==> catalog[i] == catalog[1..][i - 1];
    if v == catalog[0].version {
      assert Expected(catalog, v);
    } else if Expected(catalog, v) {
      var i :| 0 <= i < |catalog| && catalog[i].version == v;
      assert catalog[1..][i - 1].version == v;
    }
  }

  /** What a finished run from an empty database leaves in the row of a migration. */
  lemma {:induction false} RowAfterRun(
      db: Database, catalog: seq<Migration>, fates: seq<Fate>, k: nat)
    requires Catalog(catalog) && RunFrom(db, catalog, fates).1 == Finished && k < |catalog|
    requires forall i :: 0 <= i < |catalog| ==> catalog[i].version !in Rows(db)
    ensures var m, rows := catalog[k], Rows(RunFrom(db, catalog, fates).0);
            m.version in rows && RowKept(m.version, RowOf(m), rows[m.version])
    decreases |catalog|
  {
    var m, rest := catalog[0], catalog[1..];
    CatalogTail(catalog);
    assert EffectFits(m.effect) && !Recorded(db, m);
    var t := Migrated(db, m).value;
    MigratedKeepsEvidence(db, m);
    forall i | 0 <= i < |rest| ensures rest[i].version !in Rows(t) {
      assert catalog[i + 1].version !in Rows(db) && m.version < catalog[i + 1].version;
    }
    hide Migrated, Catalog, EffectFits;
    if k == 0 {
      RunKeepsEvidence(t, rest, RestOf(fates));
    } else {
      RowAfterRun(t, rest, RestOf(fates), k - 1);
    }
  }

  /** The evidence script filled in the declared minimum of an early migration, which must declare no maximum. */
  predicate EarlyEvidenceFits(m: Migration, row: Row) {
    m.version < EVIDENCE_VERSION ==> row.minimum == Some(m.range.minimum) && m.range.maximum.None?
  }

  lemma KeptRowFits(m: Migration, row: Row, app: SemanticVersion)
    requires RowKept(m.version, RowOf(m), row)
    ensures RowFits(m, row, app) <==> Supports(m.range, app) && EarlyEvidenceFits(m, row)
  {
    SupportsExactly(m.range, app);
    hide Supports, AtLeast;
  }

  /**
    After a run from an empty database has finished, the report is compatible exactly when the application
    version is in every declared range and the evidence filled in for the early migrations is their declared one.
  */
  lemma ReportAfterFreshRun(
      catalog: seq<Migration>, fates: seq<Fate>, rows: seq<AppliedRow>, app: SemanticVersion)
    requires Catalog(catalog) && RunFrom(FRESH, catalog, fates).1 == Finished && Lists(rows, Rows(RunFrom(FRESH, catalog, fates).0))
    ensures OneToOne(catalog, rows)
    ensures ReportOf(catalog, rows, app).compatible <==>
              forall i :: 0 <= i < |rows| ==> Supports(catalog[i].range, app) && EarlyEvidenceFits(catalog[i], rows[i].row)
  {
    var table := Rows(RunFrom(FRESH, catalog, fates).0);
    RunKeepsEvidence(FRESH, catalog, fates);
    forall i | 0 <= i < |catalog|
      ensures catalog[i].version in table && RowKept(catalog[i].version, RowOf(catalog[i]), table[catalog[i].version])
      ensures RowFor(rows, catalog[i].version).Some?
    {
      RowAfterRun(FRESH, catalog, fates, i);
      RowForFinds(rows, catalog[i].version);
    }
    hide RunFrom, RowFor, Expected, Supports, Catalog;
    SameVersionsMatch(catalog, rows);
    CompatibleExactly(catalog, rows, app);
    hide ReportOf;
    forall i | 0 <= i < |rows|
      ensures RowFits(catalog[i], rows[i].row, app) <==> Supports(catalog[i].range, app) && EarlyEvidenceFits(catalog[i], rows[i].row)
    {
      hide *;
      assert rows[i].row == table[catalog[i].version];
      KeptRowFits(catalog[i], rows[i].row, app);
    }
    hide RowFits, EarlyEvidenceFits;
  }
}
