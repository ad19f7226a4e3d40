/**
 * `TaskRepository` (src/database/repositories/task-repository.ts): the task
 * CRUD operations over the shared `DbContext`. Each writing operation runs
 * its callback inside `transaction`; the callback is a function on the
 * database (`CreateWork`, `UpdateWork`, `DeleteWork`), and the class's
 * methods state what the whole call does to the table.
 */
module TaskRepositories {
  import opened Wrappers
  import opened Js
  import opened TaskStore
  import opened DbContexts
  import ValidationModel

  /** The statuses the table's CHECK constraint admits. */
  const TASK_STATUSES: set<string> := {"completed", "in-progress", "overdue"}

  /** `read(id)` on a database: the row with that id, or null (always null for NaN). */
  function ReadRow(d: Database, id: Number): (r: Result<Option<Task>, DbError>)
    ensures d.tasks.None? <==> r.Failure?
    ensures r.Success? ==> (r.value.Some? <==> id.Int? && id.value in d.tasks.value.rows)
    ensures r.Success? && r.value.Some? ==> r.value.value == d.tasks.value.rows[id.value]
  {
    var rows :- SelectById(d, id);
    Success(First(rows))
  }

  /** The callback of `create`: INSERT, look up `last_insert_rowid()`, read that row back (null without an id). */
  function CreateWork(entity: TaskFields, d: Database): Result<(Option<Task>, Database), DbError> {
    var inserted :- Insert(d, entity);
    var lastId := LastInsertedId(inserted);
    if lastId.None? then Success((None, inserted))
    else
      var row :- ReadRow(inserted, Int(lastId.value));
      Success((row, inserted))
  }

  /** The callback of `update`: null when no row has the id, else UPDATE and read the row back. */
  function UpdateWork(id: Number, entity: TaskFields, d: Database): Result<(Option<Task>, Database), DbError> {
    var existing :- ReadRow(d, id);
    if existing.None? then Success((None, d))
    else
      var updated :- UpdateWhere(d, id, entity);
      var row :- ReadRow(updated, id);
      Success((row, updated))
  }

  /** The callback of `delete`: false when no row has the id, else DELETE and report whether the row is gone. */
  function DeleteWork(id: Number, d: Database): Result<(bool, Database), DbError> {
    var existing :- ReadRow(d, id);
    if existing.None? then Success((false, d))
    else
      var deleted :- DeleteWhere(d, id);
      var after :- ReadRow(deleted, id);
      Success((after.None?, deleted))
  }

  /** The validators accept exactly the statuses this table's CHECK constraint admits. */
  lemma ValidStatusesAreStorable(s: string)
    ensures s in ValidationModel.VALID_STATUSES <==> s in TASK_STATUSES
  {
  }

  // ---------------------------------------------------------------------------
  // What the callbacks do to a table that keeps its invariant

  /**
   * `create` inserts the row under the next AUTOINCREMENT id and returns it
   * as stored (never null); a status the CHECK refuses throws.
   */
  lemma CreateWorkSpec(entity: TaskFields, d: Database)
    requires d.tasks.Some? && TableInvariant(d.tasks.value)
    ensures var t := d.tasks.value;
      var id := t.sequence + 1;
      && id > 0 && id !in t.rows
      && (entity.status in t.allowedStatuses ==>
            CreateWork(entity, d) == Success((Some(Row(id, entity)),
              Database(Some(t.(rows := t.rows[id := Row(id, entity)], sequence := id)), id))))
      && (entity.status !in t.allowedStatuses ==> CreateWork(entity, d) == Failure(CheckConstraintFailed))
      && (CreateWork(entity, d).Success? ==> WellFormed(CreateWork(entity, d).value.1))
  {
    InsertSpec(d, entity);
  }

  /**
   * `update` of an absent id (or NaN) returns null and changes nothing;
   * of a present one it rewrites that row only and returns it as stored.
   */
  lemma UpdateWorkSpec(id: Number, entity: TaskFields, d: Database)
    requires d.tasks.Some? && TableInvariant(d.tasks.value)
    ensures var t := d.tasks.value;
      && (!(id.Int? && id.value in t.rows) ==> UpdateWork(id, entity, d) == Success((None, d)))
      && (id.Int? && id.value in t.rows && entity.status in t.allowedStatuses ==>
            UpdateWork(id, entity, d) == Success((Some(Row(id.value, entity)),
              d.(tasks := Some(t.(rows := t.rows[id.value := Row(id.value, entity)]))))))
      && (id.Int? && id.value in t.rows && entity.status !in t.allowedStatuses ==>
            UpdateWork(id, entity, d) == Failure(CheckConstraintFailed))
      && (UpdateWork(id, entity, d).Success? ==> WellFormed(UpdateWork(id, entity, d).value.1))
  {
    UpdateWherePreserves(d, id, entity);
  }

  /** `delete` reports true exactly when a row had the id, and removes that row only. */
  lemma DeleteWorkSpec(id: Number, d: Database)
    requires d.tasks.Some? && TableInvariant(d.tasks.value)
    ensures var t := d.tasks.value;
      var present := id.Int? && id.value in t.rows;
      && DeleteWork(id, d) == Success((present,
           if present then d.(tasks := Some(t.(rows := t.rows - {id.value}))) else d))
      && WellFormed(DeleteWork(id, d).value.1)
  {
  }

  /** A task read back right after `create` is the one `create` returned. */
  lemma CreateThenRead(entity: TaskFields, d: Database)
    requires d.tasks.Some? && TableInvariant(d.tasks.value)
    requires CreateWork(entity, d).Success?
    ensures var (created, d') := CreateWork(entity, d).value;
      created.Some? && ReadRow(d', Int(created.value.id)) == Success(created)
  {
    CreateWorkSpec(entity, d);
  }

  /** Deleting the same id twice: the first call reports true, the second false and changes nothing. */
  lemma DeleteTwice(id: Number, d: Database)
    requires d.tasks.Some? && TableInvariant(d.tasks.value)
    requires id.Int? && id.value in d.tasks.value.rows
    ensures var (first, d') := DeleteWork(id, d).value;
      first && DeleteWork(id, d') == Success((false, d'))
  {
    DeleteWorkSpec(id, d);
    var d' := DeleteWork(id, d).value.1;
    DeleteWorkSpec(id, d');
  }

  /** On a fresh table, one `create` yields id 1, and `readAll` then returns exactly that task. */
  lemma CreateIntoEmptyTable(entity: TaskFields, d: Database)
    requires d.tasks.Some? && d.tasks.value.rows == map[] && d.tasks.value.sequence == 0
    requires entity.status in d.tasks.value.allowedStatuses
    ensures var (created, d') := CreateWork(entity, d).value;
      && created == Some(Row(1, entity))
      && SelectAll(d') == Success([Row(1, entity)])
  {
    CreateWorkSpec(entity, d);
    var d' := CreateWork(entity, d).value.1;
    assert IdsUpTo(d'.tasks.value.rows, 0) == [];
    assert IdsUpTo(d'.tasks.value.rows, 1) == [1];
    assert SelectAll(d').value == [d'.tasks.value.rows[1]];
  }

  // ---------------------------------------------------------------------------

  class TaskRepository {
    /** The context from `DbContext.getInstance(dbPath)`. */
    const dbContext: DbContext

    /** The table exists and keeps its invariant, and no transaction is left open. */
    ghost predicate Valid()
      reads this, dbContext
    {
      && dbContext.snapshot.None?
      && dbContext.current.tasks.Some?
      && TableInvariant(dbContext.current.tasks.value)
    }

    ghost function Rows(): map<int, Task>
      reads this, dbContext
      requires Valid()
    {
      dbContext.current.tasks.value.rows
    }

    ghost function Allowed(): set<string>
      reads this, dbContext
      requires Valid()
    {
      dbContext.current.tasks.value.allowedStatuses
    }

    /** The id the next INSERT receives. */
    ghost function NextId(): int
      reads this, dbContext
      requires Valid()
    {
      dbContext.current.tasks.value.sequence + 1
    }

    /**
     * `new TaskRepository(dbPath)`: take the shared context (the first one
     * opened wins) and create the table if the file lacks it.
     */
    constructor(statics: DbContextStatics, dbPath: Option<string>, stored: Database)
      requires WellFormed(stored)
      requires statics.Ready()
      modifies statics, statics.instance
      ensures Valid()
      ensures statics.instance == dbContext && statics.Ready()
      ensures old(statics.instance) != null ==>
        dbContext == old(statics.instance) && dbContext.current == TaskStore.CreateTable(old(statics.instance.current), TASK_STATUSES)
      ensures old(statics.instance) == null ==>
        && fresh(dbContext)
        && dbContext.path == (if dbPath.Some? then dbPath.value else DEFAULT_PATH)
        && dbContext.current == TaskStore.CreateTable(stored, TASK_STATUSES)
    {
      var context := statics.GetInstance(dbPath, stored);
      dbContext := context;
      new;
      InitDb();
    }

    /** `initDb`. */
    method InitDb()
      modifies dbContext
      ensures dbContext.current == TaskStore.CreateTable(old(dbContext.current), TASK_STATUSES)
      ensures dbContext.snapshot == old(dbContext.snapshot)
    {
      CreateTable();
    }

    /** `createTable`: CREATE TABLE IF NOT EXISTS with this repository's CHECK set. */
    method CreateTable()
      modifies dbContext
      ensures dbContext.current == TaskStore.CreateTable(old(dbContext.current), TASK_STATUSES)
      ensures dbContext.snapshot == old(dbContext.snapshot)
    {
      var _ := dbContext.Execute((d: Database) => Success(TaskStore.CreateTable(d, TASK_STATUSES)));
    }

    /** `create(entity)`. */
    method Create(entity: TaskFields) returns (r: Result<Option<Task>, DbError>)
      requires Valid()
      modifies dbContext
      ensures Valid() && Allowed() == old(Allowed())
      ensures entity.status in Allowed() ==>
        && old(NextId()) !in old(Rows())
        && r == Success(Some(Row(old(NextId()), entity)))
        && Rows() == old(Rows())[old(NextId()) := Row(old(NextId()), entity)]
        && NextId() == old(NextId()) + 1
      ensures entity.status !in Allowed() ==>
        r == Failure(CheckConstraintFailed) && dbContext.current == old(dbContext.current)
    {
      CreateWorkSpec(entity, dbContext.current);
      r := dbContext.Transaction((d: Database) => CreateWork(entity, d));
    }

    /** `read(id)`. */
    function Read(id: Number): (r: Option<Task>)
      reads this, dbContext
      requires Valid()
      ensures r.Some? <==> id.Int? && id.value in Rows()
      ensures r.Some? ==> r.value == Rows()[id.value] && r.value.id == id.value
    {
      dbContext.QueryOne((d: Database) => SelectById(d, id)).value
    }

    /** `readAll()`: every task once, in id order. */
    function ReadAll(): (r: seq<Task>)
      reads this, dbContext
      requires Valid()
      ensures |r| == |Rows()|
      ensures forall t :: t in r <==> t in Rows().Values
      ensures forall i, j | 0 <= i < j < |r| :: r[i].id < r[j].id
    {
      SelectAllSpec(dbContext.current);
      dbContext.Query(SelectAll).value
    }

    /** `update({id, ...entity})`. */
    method Update(id: Number, entity: TaskFields) returns (r: Result<Option<Task>, DbError>)
      requires Valid()
      modifies dbContext
      ensures Valid() && Allowed() == old(Allowed()) && NextId() == old(NextId())
      ensures !(id.Int? && id.value in old(Rows())) ==>
        r == Success(None) && dbContext.current == old(dbContext.current)
      ensures id.Int? && id.value in old(Rows()) && entity.status in Allowed() ==>
        && r == Success(Some(Row(id.value, entity)))
        && Rows() == old(Rows())[id.value := Row(id.value, entity)]
      ensures id.Int? && id.value in old(Rows()) && entity.status !in Allowed() ==>
        r == Failure(CheckConstraintFailed) && dbContext.current == old(dbContext.current)
    {
      UpdateWorkSpec(id, entity, dbContext.current);
      r := dbContext.Transaction((d: Database) => UpdateWork(id, entity, d));
    }

    /** `delete(id)`: true exactly when a task had the id; that task alone is removed. */
    method Delete(id: Number) returns (r: Result<bool, DbError>)
      requires Valid()
      modifies dbContext
      ensures Valid() && Allowed() == old(Allowed()) && NextId() == old(NextId())
      ensures r == Success(id.Int? && id.value in old(Rows()))
      ensures Rows() == if id.Int? then old(Rows()) - {id.value} else old(Rows())
    {
      DeleteWorkSpec(id, dbContext.current);
      r := dbContext.Transaction((d: Database) => DeleteWork(id, d));
    }
  }
}
