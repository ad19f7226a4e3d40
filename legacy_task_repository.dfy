/**
 * The older `TaskRepository` (src/database/repositories/task.repository.ts).
 * It differs from the current one in two places: its CHECK constraint admits
 * "pending" where the current one admits "overdue", and `create` looks up
 * `last_insert_rowid()` with its own `queryOne` instead of
 * `getLastInsertedId`. Update, delete and the reads run the same statements
 * as the current repository's.
 */
module LegacyTaskRepositories {
  import opened Wrappers
  import opened Js
  import opened TaskStore
  import opened DbContexts
  import TaskRepositories
  import ValidationModel

  /** The statuses this table's CHECK constraint admits. */
  const LEGACY_TASK_STATUSES: set<string> := {"completed", "in-progress", "pending"}

  /** The callback of `create`: INSERT, `queryOne` of `last_insert_rowid()`, null without a row, else read it back. */
  function LegacyCreateWork(entity: TaskFields, d: Database): Result<(Option<Task>, Database), DbError> {
    var inserted :- Insert(d, entity);
    var lastId := First(SelectLastInsertRowid(inserted));
    if lastId.None? then Success((None, inserted))
    else
      var row :- TaskRepositories.ReadRow(inserted, Int(lastId.value));
      Success((row, inserted))
  }

  /** The inline lookup behaves exactly like `getLastInsertedId`: both generations create alike. */
  lemma LegacyCreateAgrees(entity: TaskFields, d: Database)
    ensures LegacyCreateWork(entity, d) == TaskRepositories.CreateWork(entity, d)
  {
  }

  /** The two tables differ in one admitted status each way. */
  lemma StatusSetsDiffer()
    ensures LEGACY_TASK_STATUSES - TaskRepositories.TASK_STATUSES == {"pending"}
    ensures TaskRepositories.TASK_STATUSES - LEGACY_TASK_STATUSES == {"overdue"}
  {
    assert "pending" != "overdue" && "pending" != "completed" && "pending" != "in-progress";
    assert "overdue" != "completed" && "overdue" != "in-progress";
  }

  /**
   * The legacy table refuses "overdue", which both validators accept, and
   * admits "pending", which both refuse.
   */
  lemma LegacyStatusesDisagreeWithValidators()
    ensures "overdue" in ValidationModel.VALID_STATUSES && "overdue" !in LEGACY_TASK_STATUSES
    ensures "pending" in LEGACY_TASK_STATUSES && "pending" !in ValidationModel.VALID_STATUSES
  {
    ValidationModel.PendingIsNotValid();
    assert "overdue"[0] != "completed"[0] && "overdue"[0] != "in-progress"[0] && "overdue"[0] != "pending"[0];
  }

  class TaskRepository {
    const dbContext: DbContext

    ghost predicate Valid()
      reads this, dbContext
    {
      && dbContext.snapshot.None?
      && dbContext.current.tasks.Some?
      && TableInvariant(dbContext.current.tasks.value)
    }

    ghost function Rows(): map<int, Task>
      reads this, dbContext
      requires Valid()
    {
      dbContext.current.tasks.value.rows
    }

    ghost function Allowed(): set<string>
      reads this, dbContext
      requires Valid()
    {
      dbContext.current.tasks.value.allowedStatuses
    }

    ghost function NextId(): int
      reads this, dbContext
      requires Valid()
    {
      dbContext.current.tasks.value.sequence + 1
    }

    /** `new TaskRepository(dbPath)`: the shared context, and the table created if absent. */
    constructor(statics: DbContextStatics, dbPath: Option<string>, stored: Database)
      requires WellFormed(stored)
      requires statics.Ready()
      modifies statics, statics.instance
      ensures Valid()
      ensures statics.instance == dbContext && statics.Ready()
      ensures old(statics.instance) != null ==>
        && dbContext == old(statics.instance)
        && dbContext.current == TaskStore.CreateTable(old(statics.instance.current), LEGACY_TASK_STATUSES)
      ensures old(statics.instance) == null ==>
        && fresh(dbContext)
        && dbContext.path == (if dbPath.Some? then dbPath.value else DEFAULT_PATH)
        && dbContext.current == TaskStore.CreateTable(stored, LEGACY_TASK_STATUSES)
    {
      var context := statics.GetInstance(dbPath, stored);
      dbContext := context;
      new;
      InitDb();
    }

    /** `initDb`. */
    method InitDb()
      modifies dbContext
      ensures dbContext.current == TaskStore.CreateTable(old(dbContext.current), LEGACY_TASK_STATUSES)
      ensures dbContext.snapshot == old(dbContext.snapshot)
    {
      CreateTable();
    }

    /** `createTable`: CREATE TABLE IF NOT EXISTS with the "pending" CHECK set. */
    method CreateTable()
      modifies dbContext
      ensures dbContext.current == TaskStore.CreateTable(old(dbContext.current), LEGACY_TASK_STATUSES)
      ensures dbContext.snapshot == old(dbContext.snapshot)
    {
      var _ := dbContext.Execute((d: Database) => Success(TaskStore.CreateTable(d, LEGACY_TASK_STATUSES)));
    }

    /** `create(entity)`. */
    method Create(entity: TaskFields) returns (r: Result<Option<Task>, DbError>)
      requires Valid()
      modifies dbContext
      ensures Valid() && Allowed() == old(Allowed())
      ensures entity.status in Allowed() ==>
        && old(NextId()) !in old(Rows())
        && r == Success(Some(Row(old(NextId()), entity)))
        && Rows() == old(Rows())[old(NextId()) := Row(old(NextId()), entity)]
        && NextId() == old(NextId()) + 1
      ensures entity.status !in Allowed() ==>
        r == Failure(CheckConstraintFailed) && dbContext.current == old(dbContext.current)
    {
      LegacyCreateAgrees(entity, dbContext.current);
      TaskRepositories.CreateWorkSpec(entity, dbContext.current);
      r := dbContext.Transaction((d: Database) => LegacyCreateWork(entity, d));
    }

    /** `read(id)`. */
    function Read(id: Number): (r: Option<Task>)
      reads this, dbContext
      requires Valid()
      ensures r.Some? <==> id.Int? && id.value in Rows()
      ensures r.Some? ==> r.value == Rows()[id.value] && r.value.id == id.value
    {
      dbContext.QueryOne((d: Database) => SelectById(d, id)).value
    }

    /** `readAll()`: every task once, in id order. */
    function ReadAll(): (r: seq<Task>)
      reads this, dbContext
      requires Valid()
      ensures |r| == |Rows()|
      ensures forall t :: t in r <==> t in Rows().Values
      ensures forall i, j | 0 <= i < j < |r| :: r[i].id < r[j].id
    {
      SelectAllSpec(dbContext.current);
      dbContext.Query(SelectAll).value
    }

    /** `update({id, ...entity})`. */
    method Update(id: Number, entity: TaskFields) returns (r: Result<Option<Task>, DbError>)
      requires Valid()
      modifies dbContext
      ensures Valid() && Allowed() == old(Allowed()) && NextId() == old(NextId())
      ensures !(id.Int? && id.value in old(Rows())) ==>
        r == Success(None) && dbContext.current == old(dbContext.current)
      ensures id.Int? && id.value in old(Rows()) && entity.status in Allowed() ==>
        && r == Success(Some(Row(id.value, entity)))
        && Rows() == old(Rows())[id.value := Row(id.value, entity)]
      ensures id.Int? && id.value in old(Rows()) && entity.status !in Allowed() ==>
        r == Failure(CheckConstraintFailed) && dbContext.current == old(dbContext.current)
    {
      TaskRepositories.UpdateWorkSpec(id, entity, dbContext.current);
      r := dbContext.Transaction((d: Database) => TaskRepositories.UpdateWork(id, entity, d));
    }

    /** `delete(id)`. */
    method Delete(id: Number) returns (r: Result<bool, DbError>)
      requires Valid()
      modifies dbContext
      ensures Valid() && Allowed() == old(Allowed()) && NextId() == old(NextId())
      ensures r == Success(id.Int? && id.value in old(Rows()))
      ensures Rows() == if id.Int? then old(Rows()) - {id.value} else old(Rows())
    {
      TaskRepositories.DeleteWorkSpec(id, dbContext.current);
      r := dbContext.Transaction((d: Database) => TaskRepositories.DeleteWork(id, d));
    }
  }
}
