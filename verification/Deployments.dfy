/**
  Successive deployments of a migrations tree to a database whose migrator keeps
  one stored version and only walks forward from it, which is why a gap that is
  filled later is not harmless.
*/
module Deployments {
  import opened MigrationChecks

  /** The migrator's one row, and which migrations have really been run. */
  datatype Database = Database(stored: Stored, applied: set<int>)

  datatype Stored = Nothing | At(version: int)

  const EMPTY := Database(Nothing, {})

  /** The versions of a tree that lie ahead of the stored one. */
  function Ahead(db: Database, tree: set<int>): set<int> {
    set v | v in tree && (db.stored.At? ==> v > db.stored.version)
  }

  /** `Up`: refuses a tree without the stored version; otherwise runs what lies ahead and stores the highest of it. */
  ghost predicate MigratesUp(db: Database, tree: set<int>, after: Database) {
    if (db.stored.At? && db.stored.version !in tree) || Ahead(db, tree) == {} then after == db
    else
      && after.applied == db.applied + Ahead(db, tree)
      && after.stored.At? && after.stored.version in Ahead(db, tree)
      && forall v | v in Ahead(db, tree) :: v <= after.stored.version
  }

  /** `dbs` are the successive states of a database to which `trees` are deployed. */
  ghost predicate History(trees: seq<set<int>>, dbs: seq<Database>) {
    && |dbs| == |trees| + 1 && dbs[0] == EMPTY
    && forall i | 0 <= i < |trees| :: MigratesUp(dbs[i], trees[i], dbs[i + 1])
  }

  /** Each tree contains the one before it. */
  predicate Growing(trees: seq<set<int>>) {
    forall i | 0 < i < |trees| :: trees[i - 1] <= trees[i]
  }

  /** Each tree adds versions above everything the one before it held, and none below. */
  ghost predicate AddsOnlyAbove(trees: seq<set<int>>) {
    forall i | 0 < i < |trees| :: AllAbove(trees[i] - trees[i - 1], trees[i - 1])
  }

  ghost predicate AllAbove(added: set<int>, tree: set<int>) {
    forall v, w | v in added && w in tree :: w < v
  }

  /** After every deployment, exactly the tree's migrations have been run. */
  ghost predicate AlwaysUpToDate(trees: seq<set<int>>, dbs: seq<Database>)
    requires |dbs| == |trees| + 1
  {
    forall i | 0 <= i < |trees| :: dbs[i + 1].applied == trees[i]
  }

  /** The stored version is the highest that has been run. */
  ghost predicate StoredIsHighest(db: Database) {
    && (db.stored.Nothing? ==> db.applied == {})
    && (db.stored.At? ==> db.stored.version in db.applied && forall v | v in db.applied :: v <= db.stored.version)
  }

  lemma {:induction false} StoredThroughout(trees: seq<set<int>>, dbs: seq<Database>, i: nat)
    requires History(trees, dbs) && i < |dbs|
    ensures StoredIsHighest(dbs[i])
  {
    if i > 0 {
      StoredThroughout(trees, dbs, i - 1);
      assert MigratesUp(dbs[i - 1], trees[i - 1], dbs[i]);
    }
  }

  /** One deployment of a larger tree brings the database up to date exactly when it adds only above. */
  lemma StepUpToDateIff(db: Database, before: set<int>, tree: set<int>, after: Database)
    requires StoredIsHighest(db) && db.applied == before && before <= tree && MigratesUp(db, tree, after)
    ensures after.applied == tree <==> AllAbove(tree - before, before)
  {
    if AllAbove(tree - before, before) {
      assert Ahead(db, tree) == tree - before;
    } else {
      var v, w :| v in tree - before && w in before && v <= w;
      assert v !in Ahead(db, tree);
    }
  }

  /** The first `n` deployments kept the database up to date exactly when each added only above the last. */
  lemma {:induction false} UpToDateUpTo(trees: seq<set<int>>, dbs: seq<Database>, n: nat)
    requires History(trees, dbs) && Growing(trees) && n <= |trees|
    ensures (forall i | 0 <= i < n :: dbs[i + 1].applied == trees[i])
            <==> (forall i | 0 < i < n :: AllAbove(trees[i] - trees[i - 1], trees[i - 1]))
  {
    if n == 1 {
      StepUpToDateIff(dbs[0], {}, trees[0], dbs[1]);
    } else if n > 1 {
      UpToDateUpTo(trees, dbs, n - 1);
      if dbs[n - 1].applied == trees[n - 2] {
        StoredThroughout(trees, dbs, n - 1);
        assert MigratesUp(dbs[n - 1], trees[n - 1], dbs[n]);
        assert trees[n - 2] <= trees[n - 1];
        StepUpToDateIff(dbs[n - 1], trees[n - 2], trees[n - 1], dbs[n]);
      } else {
        assert dbs[n - 2 + 1].applied != trees[n - 2];
      }
    }
  }

  /** A sequence of growing trees is fully applied throughout exactly when each adds versions only above the last. */
  lemma UpToDateIff(trees: seq<set<int>>, dbs: seq<Database>)
    requires History(trees, dbs) && Growing(trees)
    ensures AlwaysUpToDate(trees, dbs) <==> AddsOnlyAbove(trees)
  {
    UpToDateUpTo(trees, dbs, |trees|);
  }

  /** The tree passes the gap check and begins at `low`. */
  ghost predicate SoundFrom(tree: set<int>, low: int) {
    GapFree(tree) && low in tree && forall v | v in tree :: low <= v
  }

  lemma SoundTreesAddAbove(before: set<int>, tree: set<int>, low: int)
    requires SoundFrom(before, low) && SoundFrom(tree, low)
    ensures AllAbove(tree - before, before)
  {
    forall v, w | v in tree - before && w in before
      ensures w < v
    {
      assert low <= v;
    }
  }

  /** Growing trees without gaps that keep their lowest version are applied completely, deployment by deployment. */
  lemma GapFreeTreesAreApplied(trees: seq<set<int>>, dbs: seq<Database>, low: int)
    requires History(trees, dbs) && Growing(trees)
    requires forall i | 0 <= i < |trees| :: SoundFrom(trees[i], low)
    ensures AlwaysUpToDate(trees, dbs)
  {
    forall i | 0 < i < |trees|
      ensures AllAbove(trees[i] - trees[i - 1], trees[i - 1])
    {
      SoundTreesAddAbove(trees[i - 1], trees[i], low);
    }
    UpToDateIff(trees, dbs);
  }

  /** The database has been migrated past `v` without running it. */
  predicate PassedOver(db: Database, v: int) {
    db.stored.At? && v < db.stored.version && v !in db.applied
  }

  /** A version passed over is never run, whatever is deployed afterwards, with or without it. */
  lemma {:induction false} PassedOverForever(trees: seq<set<int>>, dbs: seq<Database>, v: int, i: nat, j: nat)
    requires History(trees, dbs) && i <= j < |dbs|
    requires PassedOver(dbs[i], v)
    ensures PassedOver(dbs[j], v)
  {
    if i < j {
      PassedOverForever(trees, dbs, v, i, j - 1);
      assert MigratesUp(dbs[j - 1], trees[j - 1], dbs[j]);
    }
  }

  /** The hazard in its smallest form: 1 and 3 are deployed, then 2 is filled in; 2 is never run. */
  lemma BackfilledGapIsLost(trees: seq<set<int>>, dbs: seq<Database>)
    requires History(trees, dbs) && |trees| >= 2 && trees[0] == {1, 3} && trees[1] == {1, 2, 3}
    ensures 2 !in dbs[|dbs| - 1].applied
  {
    assert MigratesUp(dbs[0], trees[0], dbs[1]);
    assert Ahead(EMPTY, {1, 3}) == {1, 3};
    assert 3 in {1, 3};
    assert PassedOver(dbs[1], 2);
    PassedOverForever(trees, dbs, 2, 1, |dbs| - 1);
  }

  /** A tree that lacks the stored version is refused, and one with nothing ahead changes nothing. */
  lemma RefusedOrNothingAhead(db: Database, tree: set<int>, after: Database)
    requires MigratesUp(db, tree, after)
    ensures db.stored.At? && db.stored.version !in tree ==> after == db
    ensures Ahead(db, tree) == {} ==> after == db
    ensures db.applied <= after.applied
  {
  }
}
