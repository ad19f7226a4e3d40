/**
 * `DbContext`: the one connection every repository shares, with its
 * statement helpers and the `transaction` wrapper. The connection is a
 * class whose state is the database it sees and, while a transaction is
 * open, the state BEGIN saw (what ROLLBACK returns to). A statement is a
 * function from `TaskStore`; an exception is a `Failure`.
 */
module DbContexts {
  import opened Wrappers
  import opened TaskStore

  /** `DB_CONFIG.path`: the file the first context opens when no path is given. */
  const DEFAULT_PATH: string := "src/database/data.db"

  class DbContext {
    /** The file this connection opened. */
    const path: string
    /** The database as this connection sees it, every statement so far applied. */
    var current: Database
    /** While a transaction is open, the tables as BEGIN found them. */
    var snapshot: Option<Database>

    /** `new Database(path, options)`: opening the file, which holds `stored`. */
    constructor(path: string, stored: Database)
      ensures this.path == path && current == stored && snapshot == None
    {
      this.path := path;
      current := stored;
      snapshot := None;
    }

    /** BEGIN TRANSACTION; SQLite refuses it inside an open transaction. */
    method BeginTransaction() returns (r: Outcome<DbError>)
      modifies this
      ensures old(snapshot).Some? ==> r == Fail(TransactionAlreadyActive) && snapshot == old(snapshot)
      ensures old(snapshot).None? ==> r == Pass && snapshot == Some(old(current))
      ensures current == old(current)
    {
      if snapshot.Some? {
        return Fail(TransactionAlreadyActive);
      }
      snapshot := Some(current);
      return Pass;
    }

    /** COMMIT: keeps what the transaction did; refused with no transaction open. */
    method CommitTransaction() returns (r: Outcome<DbError>)
      modifies this
      ensures old(snapshot).None? ==> r == Fail(NoActiveTransaction)
      ensures old(snapshot).Some? ==> r == Pass
      ensures snapshot == None && current == old(current)
    {
      if snapshot.None? {
        return Fail(NoActiveTransaction);
      }
      snapshot := None;
      return Pass;
    }

    /**
     * ROLLBACK: the tables return to what BEGIN found; `last_insert_rowid()`
     * belongs to the connection and keeps its value. Refused with no
     * transaction open.
     */
    method RollbackTransaction() returns (r: Outcome<DbError>)
      modifies this
      ensures old(snapshot).None? ==> r == Fail(NoActiveTransaction) && current == old(current)
      ensures old(snapshot).Some? ==> r == Pass && current == old(snapshot).value.(lastInsertRowid := old(current).lastInsertRowid)
      ensures snapshot == None
    {
      if snapshot.None? {
        return Fail(NoActiveTransaction);
      }
      current := snapshot.value.(lastInsertRowid := current.lastInsertRowid);
      snapshot := None;
      return Pass;
    }

    /** `execute` (and `queryOne` of a writing statement): a statement that throws changes nothing. */
    method Execute(statement: Database -> Result<Database, DbError>) returns (r: Outcome<DbError>)
      modifies this
      ensures statement(old(current)).Success? ==> r == Pass && current == statement(old(current)).value
      ensures statement(old(current)).Failure? ==> r == Fail(statement(old(current)).error) && current == old(current)
      ensures snapshot == old(snapshot)
    {
      var result := statement(current);
      if result.Failure? {
        return Fail(result.error);
      }
      current := result.value;
      return Pass;
    }

    /** `query`: every row the SELECT yields. */
    function Query<T>(select: Database -> Result<seq<T>, DbError>): Result<seq<T>, DbError>
      reads this
    {
      select(current)
    }

    /** `queryOne`: the first row the SELECT yields, or null when it yields none. */
    function QueryOne<T>(select: Database -> Result<seq<T>, DbError>): (r: Result<Option<T>, DbError>)
      reads this
      ensures select(current).Failure? <==> r.Failure?
      ensures r.Success? ==> (r.value.None? <==> select(current).value == [])
      ensures r.Success? && r.value.Some? ==> r.value.value == select(current).value[0]
    {
      var rows :- select(current);
      Success(First(rows))
    }

    /** `getLastInsertedId`. */
    function GetLastInsertedId(): (r: Option<int>)
      reads this
      ensures r == Some(current.lastInsertRowid)
    {
      LastInsertedId(current)
    }

    /**
     * `transaction(callback)`: BEGIN, run the callback, COMMIT and return its
     * result; if any of these throws, ROLLBACK and rethrow. The callback is
     * `work`, which yields its result and the database its statements leave.
     * A transaction begun inside another one fails at BEGIN, so the catch
     * rolls back the OUTER transaction before rethrowing.
     */
    method Transaction<T>(work: Database -> Result<(T, Database), DbError>) returns (r: Result<T, DbError>)
      modifies this
      ensures snapshot == None
      ensures old(snapshot).Some? ==>
        && r == Failure(TransactionAlreadyActive)
        && current == old(snapshot).value.(lastInsertRowid := old(current).lastInsertRowid)
      ensures old(snapshot).None? && work(old(current)).Success? ==>
        r == Success(work(old(current)).value.0) && current == work(old(current)).value.1
      ensures old(snapshot).None? && work(old(current)).Failure? ==>
        r == Failure(work(old(current)).error) && current == old(current)
    {
      var begun := BeginTransaction();
      var failure: Option<DbError> := None;
      var out: Result<(T, Database), DbError> := Failure(NoActiveTransaction);
      if begun.Fail? {
        failure := Some(begun.error);
      } else {
        out := work(current);
        if out.Failure? {
          failure := Some(out.error);
        } else {
          current := out.value.1;
          var committed := CommitTransaction();
          failure := ErrorOf(committed);
        }
      }
      if failure.Some? {
        var rolledBack := RollbackTransaction();
        r := Failure(Rethrown(ErrorOf(rolledBack), failure.value));
      } else {
        r := Success(out.value.0);
      }
    }
  }

  /** The error a step threw, if it threw. */
  function ErrorOf(o: Outcome<DbError>): Option<DbError> {
    match o
    case Pass => None
    case Fail(e) => Some(e)
  }

  /** What the catch rethrows: a ROLLBACK that throws replaces the caught error. */
  function Rethrown(rollbackError: Option<DbError>, caught: DbError): DbError {
    match rollbackError
    case None => caught
    case Some(e) => e
  }

  /** `getLastInsertedId` on a database: the row of `last_insert_rowid()`, or null without one. */
  function LastInsertedId(d: Database): (r: Option<int>)
    ensures r == Some(d.lastInsertRowid)
  {
    var row := First(SelectLastInsertRowid(d));
    if row.Some? then Some(row.value) else None
  }

  /** The static `DbContext.instance`. */
  class DbContextStatics {
    var instance: DbContext?

    constructor()
      ensures instance == null
    {
      instance := null;
    }

    /** Whatever context exists has no transaction open and a well-formed database. */
    predicate Ready()
      reads this, instance
    {
      instance != null ==> instance.snapshot.None? && WellFormed(instance.current)
    }

    /** `getInstance(path)`: the first call opens the file (`path`, else the default); later calls ignore `path`. */
    method GetInstance(path: Option<string>, stored: Database) returns (c: DbContext)
      modifies this
      ensures old(instance) != null ==> c == old(instance) && instance == old(instance)
      ensures old(instance) == null ==>
        && fresh(c) && instance == c
        && c.path == (if path.Some? then path.value else DEFAULT_PATH)
        && c.current == stored && c.snapshot == None
    {
      if instance == null {
        instance := new DbContext(if path.Some? then path.value else DEFAULT_PATH, stored);
      }
      c := instance;
    }
  }

  /** A second `getInstance` returns the first context whatever path it names. */
  method FirstPathWins(statics: DbContextStatics, first: string, second: string, stored: Database)
    returns (a: DbContext, b: DbContext)
    requires statics.instance == null
    modifies statics
    ensures a == b && a.path == first
  {
    a := statics.GetInstance(Some(first), stored);
    b := statics.GetInstance(Some(second), stored);
  }
}
