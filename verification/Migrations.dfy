/**
 The resumable schema migrator. The database is its version and the batches committed to it;
 a transaction commits a batch together with the new version, or neither. Whether each
 transaction goes through is an oracle.
 */
module Migrations {
  import opened Options

  datatype SqlMigration = SqlMigration(version: nat, sql: string)

  datatype Database = Database(version: nat, applied: seq<SqlMigration>)

  /** The stage at which the transaction of a migration fails. */
  datatype Stage = Begin | Apply | SetVersion | Commit

  /** A run is cut short while reading the version, or by one pending migration, counted from zero. */
  datatype Failure = ReadVersion | Failure(at: nat, stage: Stage)

  /** The migrations newer than `current`, in list order. */
  function Pending(migrations: seq<SqlMigration>, current: nat): seq<SqlMigration> {
    if migrations == [] then []
    else if migrations[0].version > current then [migrations[0]] + Pending(migrations[1..], current)
    else Pending(migrations[1..], current)
  }

  /** The database with these migrations committed one after another. */
  function Committed(db: Database, done: seq<SqlMigration>): Database {
    if done == [] then db else Database(done[|done| - 1].version, db.applied + done)
  }

  /** How many of `count` pending migrations a run commits. */
  function Reach(count: nat, failure: Option<Failure>): (n: nat)
    ensures n <= count
  {
    match failure
    case None => count
    case Some(ReadVersion) => 0
    case Some(Failure(at, _)) => if at < count then at else count
  }

  /** A run with `count` pending migrations gets through. */
  predicate Succeeds(count: nat, failure: Option<Failure>) {
    failure.Some? ==> failure.value.Failure? && failure.value.at >= count
  }

  /** What a run does to the database. */
  function Migrated(db: Database, migrations: seq<SqlMigration>, failure: Option<Failure>): Database {
    var pending := Pending(migrations, db.version);
    Committed(db, pending[..Reach(|pending|, failure)])
  }

  class Connection {
    var db: Database

    constructor (db: Database)
      ensures this.db == db
    {
      this.db := db;
    }

    /** One transaction: the batch and the version change together, or not at all. */
    method ApplyOne(m: SqlMigration, fails: Option<Stage>) returns (ok: bool)
      modifies this
      ensures ok <==> fails == None
      ensures db == if ok then Committed(old(db), [m]) else old(db)
    {
      var tx := db;
      match fails {
        case Some(Begin) =>
        case Some(Apply) =>
        case Some(SetVersion) =>
          tx := tx.(applied := tx.applied + [m]);
        case Some(Commit) =>
          tx := tx.(applied := tx.applied + [m], version := m.version);
        case None =>
          tx := tx.(applied := tx.applied + [m], version := m.version);
          db := tx;
      }
      ok := fails.None?;
    }

    /**
     Applies every migration newer than the version read at the start, in list order, and
     stops at the first failing transaction. Without that version it does nothing.
     */
    method Migrate(migrations: seq<SqlMigration>, failure: Option<Failure>) returns (ok: bool)
      modifies this
      ensures db == Migrated(old(db), migrations, failure)
      ensures ok <==> Succeeds(|Pending(migrations, old(db.version))|, failure)
    {
      if failure == Some(ReadVersion) {
        return false;
      }
      var current := db.version;
      ghost var pending := Pending(migrations, current);
      var n := 0;
      for i := 0 to |migrations|
        invariant n <= |pending| && pending[n..] == Pending(migrations[i..], current)
        invariant failure.Some? ==> failure.value.Failure? && n <= failure.value.at
        invariant db == Committed(old(db), pending[..n])
      {
        assert migrations[i..][0] == migrations[i] && migrations[i..][1..] == migrations[i + 1..];
        var m := migrations[i];
        if m.version > current {
          assert pending[n] == m && pending[n + 1..] == pending[n..][1..];
          assert pending[..n + 1] == pending[..n] + [m];
          var fails := if failure.Some? && failure.value.at == n then Some(failure.value.stage) else None;
          var committed := ApplyOne(m, fails);
          if !committed {
            return false;
          }
          n := n + 1;
        }
      }
      assert pending[..n] == pending;
      ok := true;
    }
  }
}
