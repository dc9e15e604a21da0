/** Resuming after failures: when it is the same as never having failed. */
module MigrationTheorems {
  import opened Options
  import opened Migrations

  predicate Increasing(ms: seq<SqlMigration>) {
    forall i, j :: 0 <= i < j < |ms| ==> ms[i].version < ms[j].version
  }

  lemma {:induction false} PendingMembers(ms: seq<SqlMigration>, v: nat)
    ensures forall m :: m in Pending(ms, v) <==> m in ms && m.version > v
    ensures Increasing(ms) ==> Increasing(Pending(ms, v))
  {
    if ms != [] {
      PendingMembers(ms[1..], v);
      assert ms == [ms[0]] + ms[1..];
    }
  }

  /** Exactly the newer migrations are pending, each as often as it is listed. */
  lemma {:induction false} PendingIsExact(ms: seq<SqlMigration>, v: nat, m: SqlMigration)
    ensures multiset(Pending(ms, v))[m] == if m.version > v then multiset(ms)[m] else 0
  {
    if ms != [] {
      PendingIsExact(ms[1..], v, m);
      assert ms == [ms[0]] + ms[1..];
    }
  }

  /**
   A run appends the pending migrations up to the failing one, none if the version could not be
   read, and leaves the version of the last that it appended.
   */
  lemma MigratedExactly(db: Database, ms: seq<SqlMigration>, failure: Option<Failure>)
    ensures var pending, end := Pending(ms, db.version), Migrated(db, ms, failure);
      && |end.applied| == |db.applied| + (match failure
                                          case None => |pending|
                                          case Some(ReadVersion) => 0
                                          case Some(Failure(at, _)) => if at < |pending| then at else |pending|)
      && end.applied <= db.applied + pending && db.applied <= end.applied
      && (end.applied == db.applied ==> end.version == db.version)
      && (end.applied != db.applied ==> end.version == end.applied[|end.applied| - 1].version)
  {
    hide Pending;
  }

  /** A run succeeds if and only if it read the version and leaves the database of an undisturbed run. */
  lemma SucceedsExactly(db: Database, ms: seq<SqlMigration>, failure: Option<Failure>)
    ensures Succeeds(|Pending(ms, db.version)|, failure) <==>
            failure != Some(ReadVersion) && Migrated(db, ms, failure) == Migrated(db, ms, None)
  {
    hide Pending;
    var pending := Pending(ms, db.version);
    assert |Migrated(db, ms, failure).applied| == |db.applied| + Reach(|pending|, failure);
  }

  /** Asking for what is newer than `w` among what is newer than `v <= w` asks for what is newer than `w`. */
  lemma {:induction false} PendingTwice(ms: seq<SqlMigration>, v: nat, w: nat)
    requires v <= w
    ensures Pending(Pending(ms, v), w) == Pending(ms, w)
  {
    if ms != [] {
      PendingTwice(ms[1..], v, w);
    }
  }

  lemma {:induction false} PendingOfIncreasing(ms: seq<SqlMigration>, k: nat)
    requires Increasing(ms) && 0 < k <= |ms|
    ensures Pending(ms, ms[k - 1].version) == ms[k..]
  {
    if k == 1 {
      AllPending(ms[1..], ms[0].version);
    } else {
      PendingOfIncreasing(ms[1..], k - 1);
      assert ms[1..][k - 1..] == ms[k..];
    }
  }

  lemma {:induction false} AllPending(ms: seq<SqlMigration>, v: nat)
    requires forall m :: m in ms ==> m.version > v
    ensures Pending(ms, v) == ms
  {
    if ms != [] {
      AllPending(ms[1..], v);
    }
  }

  lemma {:induction false} NonePending(ms: seq<SqlMigration>, v: nat)
    requires forall m :: m in ms ==> m.version <= v
    ensures Pending(ms, v) == []
  {
    if ms != [] {
      NonePending(ms[1..], v);
    }
  }

  /** What is still pending after `k` of the pending migrations have been committed. */
  lemma PendingAfter(db: Database, ms: seq<SqlMigration>, k: nat)
    requires k <= |Pending(ms, db.version)|
    ensures var pending := Pending(ms, db.version);
      Pending(ms, Committed(db, pending[..k]).version) ==
        if k == 0 then pending else Pending(pending, pending[k - 1].version)
  {
    var pending := Pending(ms, db.version);
    if k > 0 {
      assert pending[..k][k - 1] == pending[k - 1];
      PendingMembers(ms, db.version);
      assert pending[k - 1] in pending;
      PendingTwice(ms, db.version, pending[k - 1].version);
    }
  }

  lemma CommittedTwice(db: Database, a: seq<SqlMigration>, b: seq<SqlMigration>)
    ensures Committed(Committed(db, a), b) == Committed(db, a + b)
  {
  }

  /**
   Failing after `k` committed migrations and running again to the end gives the same database
   as one uninterrupted run, for every `k`, exactly when the pending versions strictly increase.
   */
  lemma ResumeIsExact(db: Database, ms: seq<SqlMigration>)
    ensures Increasing(Pending(ms, db.version)) <==>
            forall k: nat, stage: Stage ::
              k < |Pending(ms, db.version)| ==>
              Migrated(Migrated(db, ms, Some(Failure(k, stage))), ms, None) == Migrated(db, ms, None)
  {
    var pending := Pending(ms, db.version);
    assert pending[..|pending|] == pending;
    if Increasing(pending) {
      forall k: nat, stage: Stage | k < |pending|
        ensures Migrated(Migrated(db, ms, Some(Failure(k, stage))), ms, None) == Migrated(db, ms, None)
      {
        ResumeAt(db, ms, k, stage);
      }
    } else {
      var j :| 0 < j < |pending| && pending[j].version <= pending[j - 1].version by {
        NotAdjacent(pending);
      }
      SkippedOnResume(db, ms, j);
    }
  }

  lemma ResumeAt(db: Database, ms: seq<SqlMigration>, k: nat, stage: Stage)
    requires k < |Pending(ms, db.version)| && Increasing(Pending(ms, db.version))
    ensures Migrated(Migrated(db, ms, Some(Failure(k, stage))), ms, None) == Migrated(db, ms, None)
  {
    hide Pending;
    var pending := Pending(ms, db.version);
    var half := Committed(db, pending[..k]);
    assert half == Migrated(db, ms, Some(Failure(k, stage)));
    PendingAfter(db, ms, k);
    if k > 0 {
      PendingOfIncreasing(pending, k);
    }
    var rest := pending[k..];
    assert rest[..|rest|] == rest && pending[..k] + rest == pending && pending[..|pending|] == pending;
    CommittedTwice(db, pending[..k], rest);
  }

  lemma NotAdjacent(ms: seq<SqlMigration>)
    requires !Increasing(ms)
    ensures exists j :: 0 < j < |ms| && ms[j].version <= ms[j - 1].version
  {
    if forall j :: 0 < j < |ms| ==> ms[j - 1].version < ms[j].version {
      AdjacentIncreasing(ms);
    }
  }

  lemma {:induction false} AdjacentIncreasing(ms: seq<SqlMigration>)
    requires forall j :: 0 < j < |ms| ==> ms[j - 1].version < ms[j].version
    ensures Increasing(ms)
  {
    if |ms| > 1 {
      var front := ms[..|ms| - 1];
      assert forall j :: 0 <= j < |front| ==> front[j] == ms[j];
      AdjacentIncreasing(front);
      forall i, j | 0 <= i < j < |ms|
        ensures ms[i].version < ms[j].version
      {
        if j < |front| {
          assert front[i].version < front[j].version;
        } else if i < |front| - 1 {
          assert front[i].version < front[|front| - 1].version;
        }
      }
    }
  }

  /** A migration whose version does not exceed the one before it is lost when the run is cut between them. */
  lemma SkippedOnResume(db: Database, ms: seq<SqlMigration>, j: nat)
    requires var pending := Pending(ms, db.version);
      0 < j < |pending| && pending[j].version <= pending[j - 1].version
    ensures Migrated(Migrated(db, ms, Some(Failure(j, Commit))), ms, None) != Migrated(db, ms, None)
  {
    hide Pending;
    var pending := Pending(ms, db.version);
    var v := pending[j - 1].version;
    var half := Committed(db, pending[..j]);
    assert half == Migrated(db, ms, Some(Failure(j, Commit)));
    PendingAfter(db, ms, j);
    var rest := Pending(pending, v);
    PendingMembers(pending, v);
    assert rest[..|rest|] == rest && pending[..|pending|] == pending;
    CommittedTwice(db, pending[..j], rest);
    var resumed, whole := db.applied + (pending[..j] + rest), db.applied + pending;
    assert whole[|db.applied| + j] == pending[j];
    if |rest| > 0 {
      assert resumed[|db.applied| + j] == rest[0] && rest[0] in rest;
    }
  }

  /** Running again after success changes nothing, whatever cuts the second run short. */
  lemma RerunIsNoOp(db: Database, ms: seq<SqlMigration>, failure: Option<Failure>)
    requires Increasing(ms)
    ensures var done := Migrated(db, ms, None); Migrated(done, ms, failure) == done
  {
    hide Pending;
    var pending := Pending(ms, db.version);
    PendingMembers(ms, db.version);
    PendingAfter(db, ms, |pending|);
    assert pending[..|pending|] == pending;
    if pending != [] {
      PendingOfIncreasing(pending, |pending|);
      assert pending[|pending|..] == [];
    }
  }

  /** Migrating with a prefix of the list and later with the whole list is migrating with the whole list. */
  lemma PrefixThenAll(db: Database, ms: seq<SqlMigration>, k: nat)
    requires Increasing(ms) && k <= |ms|
    ensures Migrated(Migrated(db, ms[..k], None), ms, None) == Migrated(db, ms, None)
  {
    hide Pending;
    var pending := Pending(ms, db.version);
    var first, later := Pending(ms[..k], db.version), Pending(ms[k..], db.version);
    assert ms == ms[..k] + ms[k..];
    PendingConcat(ms[..k], ms[k..], db.version);
    PendingMembers(ms, db.version);
    var n := |first|;
    assert pending[..n] == first && first[..n] == first && pending[..|pending|] == pending;
    PendingAfter(db, ms, n);
    if n > 0 {
      PendingOfIncreasing(pending, n);
    }
    var rest := pending[n..];
    assert rest[..|rest|] == rest && first + rest == pending;
    CommittedTwice(db, first, rest);
  }

  lemma {:induction false} PendingConcat(a: seq<SqlMigration>, b: seq<SqlMigration>, v: nat)
    ensures Pending(a + b, v) == Pending(a, v) + Pending(b, v)
  {
    if a == [] {
      assert a + b == b;
    } else {
      assert (a + b)[1..] == a[1..] + b;
      PendingConcat(a[1..], b, v);
    }
  }

  // ----- Any number of interrupted runs ------------------------------------------------------

  function RunAll(db: Database, ms: seq<SqlMigration>, runs: seq<Failure>): Database
    decreases |runs|
  {
    if runs == [] then db else RunAll(Migrated(db, ms, Some(runs[0])), ms, runs[1..])
  }

  /** However often the migrator fails, the run that succeeds at last leaves each migration applied once, in order. */
  lemma {:induction false} FailuresLeaveNoTrace(db: Database, ms: seq<SqlMigration>, runs: seq<Failure>)
    requires Increasing(ms)
    ensures Migrated(RunAll(db, ms, runs), ms, None) == Migrated(db, ms, None)
    ensures Migrated(db, ms, None).applied == db.applied + Pending(ms, db.version)
    decreases |runs|
  {
    hide Pending;
    var pending := Pending(ms, db.version);
    assert pending[..|pending|] == pending;
    if runs != [] {
      FailuresLeaveNoTrace(Migrated(db, ms, Some(runs[0])), ms, runs[1..]);
      PendingMembers(ms, db.version);
      if runs[0].Failure? && runs[0].at < |pending| {
        ResumeAt(db, ms, runs[0].at, runs[0].stage);
      } else {
        RerunIsNoOp(db, ms, None);
      }
    }
  }
}
