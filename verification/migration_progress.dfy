/**
  When the migration runner of packages/database/src/migrations.ts gets through: which catalogs a fresh database takes.
*/
module MigrationProgress {
  import opened Basics
  import opened Migrations

  /** Some migration so far adds the evidence columns. */
  predicate HasEvidence(done: seq<Migration>) { exists i :: 0 <= i < |done| && done[i].effect.AddsEvidence? }

  /**
    The migration can follow those done: it does not make the registry again; it adds the evidence columns at most once,
    knowing every earlier migration with a version below eleven by its checksum; from version eleven on it needs the columns.
  */
  predicate CanFollow(done: seq<Migration>, m: Migration) {
    && !m.effect.CreatesRegistry?
    && (m.effect.AddsEvidence? ==> !HasEvidence(done) && forall i :: 0 <= i < |done| && done[i].version < 11 ==> Knows(m.effect.known, done[i]))
    && (m.version >= 11 ==> m.effect.AddsEvidence? || HasEvidence(done))
  }

  predicate Knows(known: map<nat, Evidence>, m: Migration) { m.version in known && known[m.version].checksum == m.checksum }

  /** The first makes the registry, and each of the others can follow those before it. */
  predicate Runnable(catalog: seq<Migration>) {
    catalog != [] ==>
      && catalog[0].effect.CreatesRegistry? && catalog[0].version < 11
      && FollowFrom(catalog, 1)
  }

  predicate FollowsAt(catalog: seq<Migration>, k: nat)
    requires k < |catalog|
  {
    CanFollow(catalog[..k], catalog[k])
  }

  /** The registry holds the rows of those done. */
  ghost predicate Holds(db: Database, done: seq<Migration>) {
    && db.registry.Some? && (db.evidence <==> HasEvidence(done))
    && (forall i :: 0 <= i < |done| ==> HoldsRow(db, done[i]))
    && (forall v :: v in Rows(db) ==> exists i :: 0 <= i < |done| && done[i].version == v)
  }

  predicate HoldsRow(db: Database, m: Migration) {
    m.version in Rows(db) &&
    var row := Rows(db)[m.version];
    && row.name == m.name && row.owner == m.owner && row.checksum == m.checksum
    && row.maximum == (if m.version >= 11 then m.range.maximum else None)
    && (m.version >= 11 ==> row.minimum == Some(m.range.minimum))
    && (m.version < 11 && !db.evidence ==> row.minimum.None?)
  }

  /** What the evidence script filled in for the migrations before it. */
  ghost predicate FilledIn(db: Database, done: seq<Migration>) {
    forall i, e :: Fills(done, i, e) ==>
      && done[i].version in Rows(db) && done[i].version in done[e].effect.known
      && Rows(db)[done[i].version].minimum == Some(done[e].effect.known[done[i].version].minimum)
  }

  predicate Fills(done: seq<Migration>, i: int, e: int) {
    0 <= i < e < |done| && done[e].effect.AddsEvidence? && done[i].version < 11
  }

  predicate Below(done: seq<Migration>, m: Migration) { forall i :: 0 <= i < |done| ==> done[i].version < m.version }

  /** The evidence script goes through if it knows the early rows. */
  lemma EvidenceExactly(db: Database, done: seq<Migration>, known: map<nat, Evidence>)
    requires Holds(db, done) && !db.evidence
    ensures Altered(db, AddsEvidence(known)).Some? <==> forall i :: 0 <= i < |done| && done[i].version < 11 ==> Knows(known, done[i])
  {
    var rows := Backfilled(db.registry.value, known);
    forall i | 0 <= i < |done| && done[i].version < 11 ensures Knows(known, done[i]) <==> rows[done[i].version].minimum.Some? {
      assert HoldsRow(db, done[i]);
    }
    if Altered(db, AddsEvidence(known)).None? {
      var v :| v in rows && v < EVIDENCE_VERSION && rows[v].minimum.None?;
      assert v in Rows(db);
      var i :| 0 <= i < |done| && done[i].version == v;
      assert !Knows(known, done[i]);
    } else {
      forall i | 0 <= i < |done| && done[i].version < 11 ensures Knows(known, done[i]) { assert HoldsRow(db, done[i]) && done[i].version in rows; }
    }
  }

  lemma NextExactly(db: Database, done: seq<Migration>, m: Migration)
    requires Holds(db, done) && Below(done, m) && EffectFits(m.effect)
    ensures m.version !in Rows(db)
    ensures Migrated(db, m).Some? <==> CanFollow(done, m)
  {
    if m.effect.AddsEvidence? && !db.evidence {
      EvidenceExactly(db, done, m.effect.known);
      hide HoldsRow, Knows;
      if Altered(db, m.effect).Some? { assert Rows(Altered(db, m.effect).value).Keys == Rows(db).Keys; }
    }
    hide HoldsRow, Knows, Backfilled;
  }

  lemma NextHolds(db: Database, done: seq<Migration>, m: Migration)
    requires Holds(db, done) && Below(done, m) && EffectFits(m.effect) && Migrated(db, m).Some?
    ensures Holds(Migrated(db, m).value, done + [m])
  {
    var t, more := Migrated(db, m).value, done + [m];
    assert more[|done|] == m;
    forall i | 0 <= i < |more| ensures HoldsRow(t, more[i]) {
      if i < |done| { assert HoldsRow(db, done[i]); }
    }
    assert HasEvidence(more) <==> HasEvidence(done) || m.effect.AddsEvidence? by {
      if HasEvidence(done) {
        var i :| 0 <= i < |done| && done[i].effect.AddsEvidence?;
        assert more[i].effect.AddsEvidence?;
      }
    }
    forall v | v in Rows(t) ensures exists i :: 0 <= i < |more| && more[i].version == v {
      if v != m.version {
        assert v in Rows(db);
        var i :| 0 <= i < |done| && done[i].version == v;
        assert more[i].version == v;
      }
    }
  }

  lemma NextFills(db: Database, done: seq<Migration>, m: Migration)
    requires Holds(db, done) && FilledIn(db, done) && Below(done, m) && EffectFits(m.effect) && Migrated(db, m).Some?
    ensures FilledIn(Migrated(db, m).value, done + [m])
  {
    var t, more := Migrated(db, m).value, done + [m];
    NextExactly(db, done, m);
    hide CanFollow;
    forall i, e | Fills(more, i, e)
      ensures more[i].version in Rows(t) && more[i].version in more[e].effect.known
      ensures Rows(t)[more[i].version].minimum == Some(more[e].effect.known[more[i].version].minimum)
    {
      assert HoldsRow(db, done[i]);
      if e < |done| {
        assert Fills(done, i, e);
        assert HasEvidence(done);
      } else {
        FillsNow(db, done, m, i);
      }
    }
  }

  lemma FillsNow(db: Database, done: seq<Migration>, m: Migration, i: nat)
    requires Holds(db, done) && Below(done, m) && EffectFits(m.effect) && Migrated(db, m).Some?
    requires i < |done| && m.effect.AddsEvidence? && done[i].version < 11
    ensures done[i].version in Rows(Migrated(db, m).value) && done[i].version in m.effect.known
    ensures Rows(Migrated(db, m).value)[done[i].version].minimum == Some(m.effect.known[done[i].version].minimum)
  {
    NextExactly(db, done, m);
    assert HoldsRow(db, done[i]) && Knows(m.effect.known, done[i]);
  }

  lemma CatalogAt(catalog: seq<Migration>, k: nat)
    requires Catalog(catalog) && k < |catalog|
    ensures Below(catalog[..k], catalog[k]) && EffectFits(catalog[k].effect) && catalog[k].checksum != ""
  {
  }

  predicate FollowFrom(catalog: seq<Migration>, k: nat) { forall j :: k <= j < |catalog| ==> FollowsAt(catalog, j) }

  lemma FollowNext(catalog: seq<Migration>, k: nat)
    requires k < |catalog|
    ensures FollowFrom(catalog, k) <==> CanFollow(catalog[..k], catalog[k]) && FollowFrom(catalog, k + 1)
  {
    hide CanFollow;
    assert FollowsAt(catalog, k) <==> CanFollow(catalog[..k], catalog[k]);
  }

  lemma Slices(catalog: seq<Migration>, k: nat)
    requires k < |catalog|
    ensures catalog[k..] != [] && catalog[k..][0] == catalog[k] && catalog[k..][1..] == catalog[k + 1..] && catalog[..k + 1] == catalog[..k] + [catalog[k]]
  {
  }

  lemma NothingLeft(db: Database, catalog: seq<Migration>)
    ensures RunFrom(db, catalog[|catalog|..], []) == (db, Finished) && catalog[..|catalog|] == catalog && FollowFrom(catalog, |catalog|)
  {
  }

  /** From the k-th migration on. */
  lemma {:induction false} RunsThrough(db: Database, catalog: seq<Migration>, k: nat)
    requires Catalog(catalog) && 1 <= k <= |catalog| && Holds(db, catalog[..k]) && FilledIn(db, catalog[..k])
    ensures RunFrom(db, catalog[k..], []).1 == Finished <==> FollowFrom(catalog, k)
    ensures RunFrom(db, catalog[k..], []).1 == Finished ==>
              Holds(RunFrom(db, catalog[k..], []).0, catalog) && FilledIn(RunFrom(db, catalog[k..], []).0, catalog)
    decreases |catalog| - k
  {
    hide *;
    if k == |catalog| {
      NothingLeft(db, catalog);
    } else {
      var m, done := catalog[k], catalog[..k];
      Slices(catalog, k);
      CatalogAt(catalog, k);
      FollowNext(catalog, k);
      NextExactly(db, done, m);
      RunsNext(db, catalog[k..]);
      if CanFollow(done, m) {
        NextHolds(db, done, m);
        NextFills(db, done, m);
        RunsThrough(Migrated(db, m).value, catalog, k + 1);
      }
    }
  }

  lemma RunsNext(db: Database, catalog: seq<Migration>)
    requires catalog != [] && catalog[0].version !in Rows(db)
    ensures var next := Migrated(db, catalog[0]);
            && (next.None? ==> RunFrom(db, catalog, []).1 != Finished)
            && (next.Some? ==> RunFrom(db, catalog, []) == RunFrom(next.value, catalog[1..], []))
  {
    hide Migrated;
  }

  lemma FirstExactly(m: Migration)
    requires EffectFits(m.effect)
    ensures Migrated(FRESH, m).Some? <==> m.effect.CreatesRegistry? && m.version < 11
    ensures Migrated(FRESH, m).Some? ==> Holds(Migrated(FRESH, m).value, [m]) && FilledIn(Migrated(FRESH, m).value, [m])
  {
    if Migrated(FRESH, m).Some? { assert [m][0] == m; }
  }

  /**
    An undisturbed run on an empty database finishes if and only if each migration can follow those before it, and then
    leaves the row of each, with what the evidence script filled in.
  */
  lemma FreshRunFinishesExactly(catalog: seq<Migration>)
    requires Catalog(catalog)
    ensures RunFrom(FRESH, catalog, []).1 == Finished <==> Runnable(catalog)
    ensures Runnable(catalog) && catalog != [] ==>
              Holds(RunFrom(FRESH, catalog, []).0, catalog) && FilledIn(RunFrom(FRESH, catalog, []).0, catalog)
  {
    if catalog != [] {
      var m := catalog[0];
      CatalogAt(catalog, 0);
      FirstExactly(m);
      assert catalog[..1] == [m];
      RunsNext(FRESH, catalog);
      hide Catalog, Holds, FilledIn, Migrated, CanFollow, Below, EffectFits, RunFrom;
      if Migrated(FRESH, m).Some? {
        RunsThrough(Migrated(FRESH, m).value, catalog, 1);
      }
    }
  }
}
