/**
 * The first-generation `TaskRoute` (src/routes/task-route.ts), also mounted
 * under "/task": no validation, no search, and a form whose due date is
 * submitted as "due_date".
 */
module FlatTaskRoutes {
  import opened Wrappers
  import opened Js
  import opened TaskStore
  import opened TaskRepositories
  import opened Responses
  import TaskRoutes

  const PREFIX: string := "/task"

  /** `initializeRoutes`: the newer table without its search route. */
  const ROUTES: seq<Route<TaskRoutes.Handler>> := [
    Route(HttpPost, "/", TaskRoutes.HandleCreate),
    Route(HttpGet, "/:id", TaskRoutes.HandleGetById),
    Route(HttpGet, "/", TaskRoutes.HandleGetAll),
    Route(HttpPut, "/:id", TaskRoutes.HandleUpdate),
    Route(HttpDelete, "/:id", TaskRoutes.HandleDelete)
  ]

  /** The flat table is the newer one with the search registration removed, in the same order. */
  lemma RoutesLackSearch()
    ensures forall i | 0 <= i < |ROUTES| :: ROUTES[i].handler != TaskRoutes.HandleSearch
    ensures ROUTES == TaskRoutes.ROUTES[..3] + TaskRoutes.ROUTES[4..]
  {
  }

  /** This generation's `getFormData`: the due date is submitted as "due_date". */
  function GetFormData(form: FormData): (f: FormFields)
    ensures f == ReadForm(form, "due_date")
    ensures "due_date" !in form ==> f.dueDate == ""
  {
    ReadForm(form, "due_date")
  }

  /** The two generations read the same form differently: a "dueDate" field reaches only the newer one. */
  lemma DueDateKeysDiffer(due: string)
    requires due != ""
    ensures GetFormData(map["dueDate" := due]).dueDate == ""
    ensures TaskRoutes.GetFormData(map["dueDate" := due]).dueDate == due
  {
    assert "dueDate"[3] != "due_date"[3];
  }

  class TaskRoute {
    const taskRepository: TaskRepository

    constructor(taskRepository: TaskRepository)
      ensures this.taskRepository == taskRepository
    {
      this.taskRepository := taskRepository;
    }

    /** `createTask`: one `create` call, no validation; success alert exactly when a task came back. */
    method CreateTask(form: FormData) returns (r: Result<Response, DbError>)
      requires taskRepository.Valid()
      modifies taskRepository.dbContext
      ensures taskRepository.Valid() && taskRepository.Allowed() == old(taskRepository.Allowed())
      ensures var entity := Entity(GetFormData(form));
        var task := Row(old(taskRepository.NextId()), entity);
        && (entity.status in old(taskRepository.Allowed()) ==>
              && r == Success(Response(CreateTaskResponse(Some(CreatedAlert(Some(task))), Some(task)), None))
              && taskRepository.Rows() == old(taskRepository.Rows())[task.id := task])
        && (entity.status !in old(taskRepository.Allowed()) ==>
              r == Failure(CheckConstraintFailed) && taskRepository.dbContext.current == old(taskRepository.dbContext.current))
    {
      var fields := GetFormData(form);
      var task := taskRepository.Create(Entity(fields));
      if task.Failure? {
        return Failure(task.error);
      }
      var alert := CreatedAlert(task.value);
      r := Success(Response(CreateTaskResponse(Some(alert), task.value), None));
    }

    /** `getTaskById`: the task, or else the "Failed to load" alert naming the id; never both. */
    function GetTaskById(id: Number): (r: Response)
      reads this, taskRepository, taskRepository.dbContext
      requires taskRepository.Valid()
      ensures r.hxTrigger.None? && r.body.GetTaskByIDResponse?
      ensures r.body.task.Some? <==> id.Int? && id.value in taskRepository.Rows()
      ensures r.body.task.Some? ==> r.body.task.value == taskRepository.Rows()[id.value]
      ensures r.body.alert.Some? <==> r.body.task.None?
      ensures r.body.alert.Some? ==> r.body.alert.value == LoadFailedAlert(id)
    {
      var task := taskRepository.Read(id);
      var alert := LoadFailedAlert(id);
      Response(GetTaskByIDResponse(if task.Some? then None else Some(alert), task), None)
    }

    /** `getAllTasks`: the cards of every task, in `readAll` order, with nothing between. */
    function GetAllTasks(card: Task -> string): (r: Response)
      reads this, taskRepository, taskRepository.dbContext
      requires taskRepository.Valid()
      ensures r.hxTrigger.None? && r.body.Markup?
      ensures taskRepository.Rows() == map[] ==> r.body.html == ""
    {
      var tasks := taskRepository.ReadAll();
      CardsBase(Task(0, "", None, "", ""), card);
      Response(Markup(Cards(tasks, card)), None)
    }

    /** `updateTask`: one `update` call, no validation; success alert exactly when a task came back. */
    method UpdateTask(id: Number, form: FormData) returns (r: Result<Response, DbError>)
      requires taskRepository.Valid()
      modifies taskRepository.dbContext
      ensures taskRepository.Valid() && taskRepository.Allowed() == old(taskRepository.Allowed())
      ensures var entity := Entity(GetFormData(form));
        var present := id.Int? && id.value in old(taskRepository.Rows());
        && (!present ==>
              && r == Success(Response(UpdateTaskResponse(Some(UpdatedAlert(id, None)), None), None))
              && taskRepository.dbContext.current == old(taskRepository.dbContext.current))
        && (present && entity.status in old(taskRepository.Allowed()) ==>
              var task := Row(id.value, entity);
              && r == Success(Response(UpdateTaskResponse(Some(UpdatedAlert(id, Some(task))), Some(task)), None))
              && taskRepository.Rows() == old(taskRepository.Rows())[id.value := task])
        && (present && entity.status !in old(taskRepository.Allowed()) ==>
              r == Failure(CheckConstraintFailed) && taskRepository.dbContext.current == old(taskRepository.dbContext.current))
    {
      var fields := GetFormData(form);
      var task := taskRepository.Update(id, Entity(fields));
      if task.Failure? {
        return Failure(task.error);
      }
      var alert := UpdatedAlert(id, task.value);
      r := Success(Response(UpdateTaskResponse(Some(alert), task.value), None));
    }

    /** `deleteTask`: the alert says whether a task was deleted; the `taskDeleted` trigger is sent either way. */
    method DeleteTask(id: Number) returns (r: Response)
      requires taskRepository.Valid()
      modifies taskRepository.dbContext
      ensures taskRepository.Valid()
      ensures r == Response(AlertFragment(DeletedAlert(id, id.Int? && id.value in old(taskRepository.Rows()))), Some(TASK_DELETED))
      ensures taskRepository.Rows() == if id.Int? then old(taskRepository.Rows()) - {id.value} else old(taskRepository.Rows())
    {
      var hasBeenDeleted := taskRepository.Delete(id);
      var alert := DeletedAlert(id, hasBeenDeleted.value);
      r := Response(AlertFragment(alert), Some(TASK_DELETED));
    }
  }
}
