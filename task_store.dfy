/**
 * The database file as the SQL engine holds it: the `tasks` table with its
 * CHECK constraint on `status` and its AUTOINCREMENT counter, the connection's
 * `last_insert_rowid()`, and the few statements the repositories run, each as
 * a function from the database before to the database after (or the error the
 * engine raises). SQL text, statement preparation and parameter binding are
 * not modelled.
 */
module TaskStore {
  import opened Wrappers
  import opened Js

  /** A row of `tasks` (`TaskEntity`); a NULL description is None. */
  datatype Task = Task(id: int, title: string, description: Option<string>, status: string, dueDate: string)

  /** `Omit<TaskEntity, "id">`: the columns create and update write; an undefined description is None. */
  datatype TaskFields = TaskFields(title: string, description: Option<string>, status: string, dueDate: string)

  /** The `tasks` table: the statuses its CHECK constraint admits, its rows by id, and the AUTOINCREMENT counter. */
  datatype TaskTable = TaskTable(allowedStatuses: set<string>, rows: map<int, Task>, sequence: nat)

  /**
   * The database as one connection sees it: the `tasks` table once created,
   * and the connection's `last_insert_rowid()` (0 until a row is inserted).
   */
  datatype Database = Database(tasks: Option<TaskTable>, lastInsertRowid: int)

  /** What the engine throws: a statement on a missing table, a CHECK violation, and misuse of transactions. */
  datatype DbError = NoSuchTable | CheckConstraintFailed | TransactionAlreadyActive | NoActiveTransaction

  /** What the engine keeps true of the table: ids are positive, at most the counter, match their key, and pass the CHECK. */
  predicate TableInvariant(t: TaskTable) {
    forall id | id in t.rows :: 0 < id <= t.sequence && t.rows[id].id == id && t.rows[id].status in t.allowedStatuses
  }

  predicate WellFormed(d: Database) {
    d.tasks.Some? ==> TableInvariant(d.tasks.value)
  }

  /** `entity.description || null`: an undefined or empty description is stored as NULL. */
  function StoredDescription(description: Option<string>): (r: Option<string>)
    ensures r.None? <==> description.None? || description.value == ""
    ensures r.Some? ==> r == description
  {
    if description.Some? && description.value != "" then description else None
  }

  /** The row the INSERT or UPDATE writes for `id`. */
  function Row(id: int, f: TaskFields): Task {
    Task(id, f.title, StoredDescription(f.description), f.status, f.dueDate)
  }

  /** `statement.get()`: the first row of a result, or null when there is none. */
  function First<T>(rows: seq<T>): (r: Option<T>)
    ensures r.None? <==> rows == []
    ensures r.Some? ==> r.value == rows[0]
  {
    if rows == [] then None else Some(rows[0])
  }

  // ---------------------------------------------------------------------------
  // Statements

  /** CREATE TABLE IF NOT EXISTS tasks (... CHECK (status IN allowed) ...). */
  function CreateTable(d: Database, allowed: set<string>): (r: Database)
    ensures d.tasks.Some? ==> r == d
    ensures d.tasks.None? ==> r == d.(tasks := Some(TaskTable(allowed, map[], 0)))
  {
    if d.tasks.Some? then d else d.(tasks := Some(TaskTable(allowed, map[], 0)))
  }

  /** INSERT INTO tasks: the row gets the next AUTOINCREMENT id, unless the CHECK constraint refuses its status. */
  function Insert(d: Database, f: TaskFields): Result<Database, DbError> {
    if d.tasks.None? then Failure(NoSuchTable)
    else
      var t := d.tasks.value;
      if f.status !in t.allowedStatuses then Failure(CheckConstraintFailed)
      else
        var id := t.sequence + 1;
        Success(Database(Some(t.(rows := t.rows[id := Row(id, f)], sequence := id)), id))
  }

  /** UPDATE tasks SET ... WHERE id = $id: no row matches NaN or an absent id; a matched row must pass the CHECK. */
  function UpdateWhere(d: Database, id: Number, f: TaskFields): Result<Database, DbError> {
    if d.tasks.None? then Failure(NoSuchTable)
    else
      var t := d.tasks.value;
      if id.NaN? || id.value !in t.rows then Success(d)
      else if f.status !in t.allowedStatuses then Failure(CheckConstraintFailed)
      else Success(d.(tasks := Some(t.(rows := t.rows[id.value := Row(id.value, f)]))))
  }

  /** DELETE FROM tasks WHERE id = $id. */
  function DeleteWhere(d: Database, id: Number): Result<Database, DbError> {
    if d.tasks.None? then Failure(NoSuchTable)
    else
      var t := d.tasks.value;
      if id.NaN? then Success(d) else Success(d.(tasks := Some(t.(rows := t.rows - {id.value}))))
  }

  /** SELECT * FROM tasks WHERE id = $id. */
  function SelectById(d: Database, id: Number): (r: Result<seq<Task>, DbError>)
    ensures d.tasks.None? <==> r.Failure?
    ensures r.Success? ==> r.value == (if id.Int? && id.value in d.tasks.value.rows then [d.tasks.value.rows[id.value]] else [])
  {
    if d.tasks.None? then Failure(NoSuchTable)
    else if id.Int? && id.value in d.tasks.value.rows then Success([d.tasks.value.rows[id.value]])
    else Success([])
  }

  /** The ids present in `rows` between 1 and `n`, counting up. */
  function IdsUpTo(rows: map<int, Task>, n: int): seq<int>
    decreases n
  {
    if n <= 0 then [] else IdsUpTo(rows, n - 1) + (if n in rows then [n] else [])
  }

  /** `IdsUpTo` lists every present id between 1 and `n`, only those, in strictly increasing order. */
  lemma {:induction false} IdsUpToSpec(rows: map<int, Task>, n: int)
    ensures forall i | 0 <= i < |IdsUpTo(rows, n)| :: IdsUpTo(rows, n)[i] in rows && 1 <= IdsUpTo(rows, n)[i] <= n
    ensures forall k | k in rows && 1 <= k <= n :: k in IdsUpTo(rows, n)
    ensures forall i, j | 0 <= i < j < |IdsUpTo(rows, n)| :: IdsUpTo(rows, n)[i] < IdsUpTo(rows, n)[j]
    decreases n
  {
    if n > 0 {
      IdsUpToSpec(rows, n - 1);
      var below := IdsUpTo(rows, n - 1);
      var ids := IdsUpTo(rows, n);
      if n in rows {
        assert ids == below + [n];
        assert forall i | 0 <= i < |below| :: ids[i] == below[i];
        assert ids[|below|] == n;
      } else {
        assert ids == below;
      }
    }
  }

  /** SELECT * FROM tasks: every row, in id order (the order SQLite's table scan yields). */
  function SelectAll(d: Database): (r: Result<seq<Task>, DbError>)
    ensures d.tasks.None? <==> r.Failure?
  {
    if d.tasks.None? then Failure(NoSuchTable)
    else
      var t := d.tasks.value;
      var ids := IdsUpTo(t.rows, t.sequence);
      IdsUpToSpec(t.rows, t.sequence);
      Success(seq(|ids|, i requires 0 <= i < |ids| => t.rows[ids[i]]))
  }

  /** SELECT last_insert_rowid(): always exactly one row. */
  function SelectLastInsertRowid(d: Database): (r: seq<int>)
    ensures r == [d.lastInsertRowid]
  {
    [d.lastInsertRowid]
  }

  // ---------------------------------------------------------------------------
  // Properties of the statements

  /** A successful INSERT adds exactly one row, under a positive id never used before, and keeps the table's invariant. */
  lemma InsertSpec(d: Database, f: TaskFields)
    requires WellFormed(d)
    ensures Insert(d, f).Failure? <==> d.tasks.None? || f.status !in d.tasks.value.allowedStatuses
    ensures Insert(d, f).Success? ==>
      var t, d' := d.tasks.value, Insert(d, f).value;
      var id := t.sequence + 1;
      && id > 0 && id !in t.rows
      && d'.tasks == Some(t.(rows := t.rows[id := Row(id, f)], sequence := id))
      && d'.lastInsertRowid == id
      && WellFormed(d')
  {
  }

  /** An UPDATE keeps the table's invariant; a refused one changes nothing. */
  lemma UpdateWherePreserves(d: Database, id: Number, f: TaskFields)
    requires WellFormed(d)
    ensures UpdateWhere(d, id, f).Success? ==> WellFormed(UpdateWhere(d, id, f).value)
  {
  }

  /** A strictly increasing sequence has as many elements as the set of its elements. */
  lemma {:induction false} IncreasingCard(s: seq<int>)
    requires forall i, j | 0 <= i < j < |s| :: s[i] < s[j]
    ensures |set x | x in s| == |s|
  {
    if s != [] {
      var init := s[..|s| - 1];
      IncreasingCard(init);
      assert (set x | x in s) == (set x | x in init) + {s[|s| - 1]};
      assert s[|s| - 1] !in (set x | x in init);
    }
  }

  /**
   * SELECT * FROM tasks returns each row of the table exactly once, in
   * increasing id order, and nothing else.
   */
  lemma SelectAllSpec(d: Database)
    requires d.tasks.Some? && TableInvariant(d.tasks.value)
    ensures var rows, r := d.tasks.value.rows, SelectAll(d).value;
      && |r| == |rows|
      && (forall x :: x in r <==> x in rows.Values)
      && (forall i, j | 0 <= i < j < |r| :: r[i].id < r[j].id)
  {
    var t := d.tasks.value;
    var ids := IdsUpTo(t.rows, t.sequence);
    IdsUpToSpec(t.rows, t.sequence);
    var r := SelectAll(d).value;
    forall k ensures k in (set x | x in ids) <==> k in t.rows {
      if k in t.rows {
        assert 1 <= k <= t.sequence;
      }
    }
    assert (set x | x in ids) == t.rows.Keys;
    IncreasingCard(ids);
    assert |r| == |t.rows|;
    forall x | x in t.rows.Values ensures x in r {
      var k :| k in t.rows && t.rows[k] == x;
      var i :| 0 <= i < |ids| && ids[i] == k;
      assert r[i] == x;
    }
  }
}
