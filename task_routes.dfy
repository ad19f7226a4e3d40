/**
 * `TaskRoute` (src/routes/task/task-route.ts), mounted under "/task": the
 * handlers that validate a form, call the repository and pick the alert.
 * A handler takes the already parsed request (the `parseInt` of the id, the
 * submitted form, and for the validators what `Date.parse` gave and the
 * clock); an error the repository throws leaves the handler as a `Failure`.
 */
module TaskRoutes {
  import opened Wrappers
  import opened Js
  import opened TaskStore
  import opened ValidationModel
  import opened ValidationRules
  import opened CreateTaskValidators
  import opened UpdateTaskValidators
  import opened TaskRepositories
  import opened Responses
  import Containers

  const PREFIX: string := "/task"

  /** The handlers `initializeRoutes` binds. */
  datatype Handler = HandleCreate | HandleGetById | HandleGetAll | HandleSearch | HandleUpdate | HandleDelete

  /** `initializeRoutes`, in registration order. */
  const ROUTES: seq<Route<Handler>> := [
    Route(HttpPost, "/", HandleCreate),
    Route(HttpGet, "/:id", HandleGetById),
    Route(HttpGet, "/", HandleGetAll),
    Route(HttpPost, "/search", HandleSearch),
    Route(HttpPut, "/:id", HandleUpdate),
    Route(HttpDelete, "/:id", HandleDelete)
  ]

  /** Every handler is registered exactly once, and no two registrations share a method and path. */
  lemma RoutesAreUnambiguous()
    ensures (set i | 0 <= i < |ROUTES| :: ROUTES[i].handler)
         == {HandleCreate, HandleGetById, HandleGetAll, HandleSearch, HandleUpdate, HandleDelete}
    ensures forall i, j | 0 <= i < j < |ROUTES| :: ROUTES[i].handler != ROUTES[j].handler
    ensures forall i, j | 0 <= i < j < |ROUTES| :: ROUTES[i].verb != ROUTES[j].verb || ROUTES[i].path != ROUTES[j].path
  {
    var handlers := set i | 0 <= i < |ROUTES| :: ROUTES[i].handler;
    assert ROUTES[0].handler in handlers && ROUTES[1].handler in handlers && ROUTES[2].handler in handlers;
    assert ROUTES[3].handler in handlers && ROUTES[4].handler in handlers && ROUTES[5].handler in handlers;
    RouteKeysDistinct();
    HandlersDistinct();
  }

  /** No handler appears twice in `ROUTES`. */
  lemma HandlersDistinct()
    ensures forall i, j | 0 <= i < j < |ROUTES| :: ROUTES[i].handler != ROUTES[j].handler
  {
  }

  /** The method and path pairs of `ROUTES` are pairwise different. */
  lemma RouteKeysDistinct()
    ensures forall i, j | 0 <= i < j < |ROUTES| :: ROUTES[i].verb != ROUTES[j].verb || ROUTES[i].path != ROUTES[j].path
  {
    assert "/"[0] != "/:id"[1] && "/search"[1] != "/"[0];
  }

  /** This generation's `getFormData`: the due date is submitted as "dueDate". */
  function GetFormData(form: FormData): (f: FormFields)
    ensures f == ReadForm(form, "dueDate")
    ensures "dueDate" !in form ==> f.dueDate == ""
  {
    ReadForm(form, "dueDate")
  }

  /** What the handlers hand the validators: `description || undefined`. */
  function ValidatedRequest(f: FormFields): (req: TaskRequest)
    ensures req.description.None? <==> f.description == ""
  {
    TaskRequest(f.title, if f.description == "" then None else Some(f.description), f.dueDate, f.status)
  }

  /**
   * A form with an empty title fails validation, yet `createTask` inserts
   * the task and reports "Task Created": the validation alert is overwritten
   * unseen.
   */
  lemma EmptyTitleIsCreated(form: FormData, d: Database, parsed: Option<int>, now: int)
    requires d.tasks.Some? && TableInvariant(d.tasks.value)
    requires Field(form, "title") == "" && Field(form, "status") in d.tasks.value.allowedStatuses
    ensures var f := GetFormData(form);
      var created := CreateWork(Entity(f), d);
      && ValidationAlert(CreateErrors(ValidatedRequest(f), parsed, now)).Some?
      && created.Success? && created.value.0 == Some(Row(d.tasks.value.sequence + 1, Entity(f)))
      && CreatedAlert(created.value.0).alertType == SuccessAlert
  {
    var f := GetFormData(form);
    assert TitleMessage("") == Some(TITLE_REQUIRED);
    CreateErrorsInRuleOrder(ValidatedRequest(f), parsed, now);
    CreateWorkSpec(Entity(f), d);
  }

  /**
   * A form with an empty title fails update validation, yet `updateTask`
   * overwrites the stored task with it and reports "Task Updated".
   */
  lemma EmptyTitleIsUpdated(form: FormData, d: Database, id: int, parsed: Option<int>)
    requires d.tasks.Some? && TableInvariant(d.tasks.value) && id in d.tasks.value.rows
    requires Field(form, "title") == "" && Field(form, "status") in d.tasks.value.allowedStatuses
    ensures var f := GetFormData(form);
      var updated := UpdateWork(Int(id), Entity(f), d);
      && ValidationAlert(UpdateErrors(ValidatedRequest(f), parsed)).Some?
      && updated.Success? && updated.value.0 == Some(Row(id, Entity(f)))
      && UpdatedAlert(Int(id), updated.value.0).alertType == SuccessAlert
  {
    var f := GetFormData(form);
    assert TitleMessage("") == Some(TITLE_REQUIRED);
    UpdateWorkSpec(Int(id), Entity(f), d);
  }

  /** A form that passes create validation has a status this generation's table admits. */
  lemma CreatedFormIsStorable(f: FormFields, parsed: Option<int>, now: int)
    ensures CreateErrors(ValidatedRequest(f), parsed, now) == [] ==> f.status in TASK_STATUSES
  {
    CreateValidIff(ValidatedRequest(f), parsed, now);
    ValidStatusesAreStorable(f.status);
  }

  /** A form that passes update validation has a status this generation's table admits. */
  lemma UpdatedFormIsStorable(f: FormFields, parsed: Option<int>)
    ensures UpdateErrors(ValidatedRequest(f), parsed) == [] ==> f.status in TASK_STATUSES
  {
    UpdateValidIff(ValidatedRequest(f), parsed);
    ValidStatusesAreStorable(f.status);
  }

  class TaskRoute {
    const taskRepository: TaskRepository

    constructor(taskRepository: TaskRepository)
      ensures this.taskRepository == taskRepository
    {
      this.taskRepository := taskRepository;
    }

    /** `new TaskRoute(container)`: the repository registered under "taskRepository", or the error `get` throws. */
    static method FromContainer(container: Containers.Container) returns (r: Result<TaskRoute, string>)
      requires Containers.TASK_REPOSITORY in container.dependencies ==>
        container.dependencies[Containers.TASK_REPOSITORY].Repository?
      ensures Containers.TASK_REPOSITORY !in container.dependencies ==>
        r == Failure(Containers.NotFoundMessage(Containers.TASK_REPOSITORY))
      ensures Containers.TASK_REPOSITORY in container.dependencies ==>
        && r.Success? && fresh(r.value)
        && r.value.taskRepository == container.dependencies[Containers.TASK_REPOSITORY].repository
    {
      var dependency := container.Get(Containers.TASK_REPOSITORY);
      if dependency.Failure? {
        return Failure(dependency.error);
      }
      var route := new TaskRoute(dependency.value.repository);
      return Success(route);
    }

    /**
     * `createTask`: validates, then calls `create` whatever validation found;
     * the alert shown depends on `create`'s result alone.
     */
    method CreateTask(form: FormData, parsedDueDate: Option<int>, now: int) returns (r: Result<Response, DbError>)
      requires taskRepository.Valid()
      modifies taskRepository.dbContext
      ensures taskRepository.Valid() && taskRepository.Allowed() == old(taskRepository.Allowed())
      ensures var entity := Entity(GetFormData(form));
        var task := Row(old(taskRepository.NextId()), entity);
        && (entity.status in old(taskRepository.Allowed()) ==>
              && r == Success(Response(CreateTaskResponse(Some(CreatedAlert(Some(task))), Some(task)), None))
              && taskRepository.Rows() == old(taskRepository.Rows())[task.id := task])
        && (entity.status !in old(taskRepository.Allowed()) ==>
              r == Failure(CheckConstraintFailed) && taskRepository.dbContext.current == old(taskRepository.dbContext.current))
    {
      var alert: Option<Alert> := None;
      var fields := GetFormData(form);
      var req := ValidatedRequest(fields);
      var validity := new CreateTaskValidator(req.title, req.description, req.dueDate, req.status, parsedDueDate, now);
      if !validity.base.IsValid() {
        alert := ValidationAlert(validity.base.errors);
      }
      var task := taskRepository.Create(Entity(fields));
      if task.Failure? {
        return Failure(task.error);
      }
      alert := Some(CreatedAlert(task.value));
      r := Success(Response(CreateTaskResponse(alert, task.value), None));
    }

    /**
     * `createTask` as evidently intended: an invalid form shows the
     * validation alert and writes nothing; a valid one is created, and
     * against a table with this generation's CHECK it cannot be refused.
     */
    method CreateTaskValidated(form: FormData, parsedDueDate: Option<int>, now: int) returns (r: Result<Response, DbError>)
      requires taskRepository.Valid()
      modifies taskRepository.dbContext
      ensures taskRepository.Valid()
      ensures var f := GetFormData(form);
        var errors := CreateErrors(ValidatedRequest(f), parsedDueDate, now);
        var task := Row(old(taskRepository.NextId()), Entity(f));
        && (errors != [] ==>
              && r == Success(Response(CreateTaskResponse(ValidationAlert(errors), None), None))
              && taskRepository.dbContext.current == old(taskRepository.dbContext.current))
        && (errors == [] && old(taskRepository.Allowed()) == TASK_STATUSES ==>
              && r == Success(Response(CreateTaskResponse(Some(CreatedAlert(Some(task))), Some(task)), None))
              && taskRepository.Rows() == old(taskRepository.Rows())[task.id := task])
    {
      ghost var allowed, next, rows := taskRepository.Allowed(), taskRepository.NextId(), taskRepository.Rows();
      var fields := GetFormData(form);
      var req := ValidatedRequest(fields);
      var validity := new CreateTaskValidator(req.title, req.description, req.dueDate, req.status, parsedDueDate, now);
      if !validity.base.IsValid() {
        return Success(Response(CreateTaskResponse(ValidationAlert(validity.base.errors), None), None));
      }
      CreatedFormIsStorable(fields, parsedDueDate, now);
      assert taskRepository.Allowed() == allowed && taskRepository.NextId() == next && taskRepository.Rows() == rows;
      var task := taskRepository.Create(Entity(fields));
      if task.Failure? {
        return Failure(task.error);
      }
      r := Success(Response(CreateTaskResponse(Some(CreatedAlert(task.value)), task.value), None));
    }

    /**
     * `searchTasks`: an alert, and with it the `taskSearchFailed` trigger,
     * exactly when no task has the id; a NaN id always ends "Not Found".
     */
    method SearchTasks(id: Number) returns (r: Response)
      requires taskRepository.Valid()
      ensures r.body.GetTaskByIDResponse?
      ensures r.hxTrigger.Some? <==> r.body.alert.Some?
      ensures r.hxTrigger.Some? ==> r.hxTrigger.value == TASK_SEARCH_FAILED
      ensures r.body.alert.Some? <==> !(id.Int? && id.value in taskRepository.Rows())
      ensures r.body.task.Some? <==> id.Int? && id.value in taskRepository.Rows()
      ensures r.body.task.Some? ==> r.body.task.value == taskRepository.Rows()[id.value]
      ensures r.body.alert.Some? ==> r.body.alert.value.title == "Not Found"
      ensures id.NaN? ==> r.body.alert == Some(Alert(DangerAlert, "Not Found", "No task found with ID NaN."))
    {
      var alert: Option<Alert> := None;
      if id.NaN? {
        alert := Some(Alert(DangerAlert, "Validation Error", "Invalid ID " + ToString(id) + " provided for search."));
      }
      var task := taskRepository.Read(id);
      if task.None? {
        alert := Some(Alert(DangerAlert, "Not Found", "No task found with ID " + ToString(id) + "."));
      }
      r := Response(GetTaskByIDResponse(alert, task), if alert.Some? then Some(TASK_SEARCH_FAILED) else None);
      assert id.NaN? ==> "No task found with ID " + ToString(id) + "." == "No task found with ID NaN.";
    }

    /** `getTaskById`: the task and no alert when found; otherwise the "Error" alert naming the id and no task. */
    method GetTaskById(id: Number) returns (r: Response)
      requires taskRepository.Valid()
      ensures r.hxTrigger.None? && r.body.GetTaskByIDResponse?
      ensures r.body.task.Some? <==> id.Int? && id.value in taskRepository.Rows()
      ensures r.body.task.Some? ==> r.body.task.value == taskRepository.Rows()[id.value]
      ensures r.body.alert.Some? <==> r.body.task.None?
      ensures r.body.alert.Some? ==> r.body.alert.value == Alert(DangerAlert, "Error", "No task found with ID " + ToString(id))
    {
      var alert: Option<Alert> := None;
      var task := taskRepository.Read(id);
      if task.None? {
        alert := Some(Alert(DangerAlert, "Error", "No task found with ID " + ToString(id)));
      }
      r := Response(GetTaskByIDResponse(alert, task), None);
    }

    /** `getAllTasks`: the cards of every task, in `readAll` order, with nothing between. */
    function GetAllTasks(card: Task -> string): (r: Response)
      reads this, taskRepository, taskRepository.dbContext
      requires taskRepository.Valid()
      ensures r.hxTrigger.None? && r.body.Markup?
      ensures taskRepository.Rows() == map[] ==> r.body.html == ""
    {
      var tasks := taskRepository.ReadAll();
      CardsBase(Task(0, "", None, "", ""), card);
      Response(Markup(Cards(tasks, card)), None)
    }

    /**
     * `updateTask`: validates, then calls `update` whatever validation
     * found; the alert shown depends on `update`'s result alone.
     */
    method UpdateTask(id: Number, form: FormData, parsedDueDate: Option<int>) returns (r: Result<Response, DbError>)
      requires taskRepository.Valid()
      modifies taskRepository.dbContext
      ensures taskRepository.Valid() && taskRepository.Allowed() == old(taskRepository.Allowed())
      ensures var entity := Entity(GetFormData(form));
        var present := id.Int? && id.value in old(taskRepository.Rows());
        && (!present ==>
              && r == Success(Response(UpdateTaskResponse(Some(UpdatedAlert(id, None)), None), None))
              && taskRepository.dbContext.current == old(taskRepository.dbContext.current))
        && (present && entity.status in old(taskRepository.Allowed()) ==>
              var task := Row(id.value, entity);
              && r == Success(Response(UpdateTaskResponse(Some(UpdatedAlert(id, Some(task))), Some(task)), None))
              && taskRepository.Rows() == old(taskRepository.Rows())[id.value := task])
        && (present && entity.status !in old(taskRepository.Allowed()) ==>
              r == Failure(CheckConstraintFailed) && taskRepository.dbContext.current == old(taskRepository.dbContext.current))
    {
      var alert: Option<Alert> := None;
      var fields := GetFormData(form);
      var req := ValidatedRequest(fields);
      var validity := new UpdateTaskValidator(req.title, req.description, req.dueDate, req.status, parsedDueDate);
      if !validity.base.IsValid() {
        alert := ValidationAlert(validity.base.errors);
      }
      var task := taskRepository.Update(id, Entity(fields));
      if task.Failure? {
        return Failure(task.error);
      }
      alert := Some(UpdatedAlert(id, task.value));
      r := Success(Response(UpdateTaskResponse(alert, task.value), None));
    }

    /**
     * `updateTask` as evidently intended: an invalid form shows the
     * validation alert and writes nothing.
     */
    method UpdateTaskValidated(id: Number, form: FormData, parsedDueDate: Option<int>) returns (r: Result<Response, DbError>)
      requires taskRepository.Valid()
      modifies taskRepository.dbContext
      ensures taskRepository.Valid()
      ensures var f := GetFormData(form);
        var errors := UpdateErrors(ValidatedRequest(f), parsedDueDate);
        var present := id.Int? && id.value in old(taskRepository.Rows());
        && (errors != [] ==>
              && r == Success(Response(UpdateTaskResponse(ValidationAlert(errors), None), None))
              && taskRepository.dbContext.current == old(taskRepository.dbContext.current))
        && (errors == [] && !present ==>
              r == Success(Response(UpdateTaskResponse(Some(UpdatedAlert(id, None)), None), None)))
        && (errors == [] && present && old(taskRepository.Allowed()) == TASK_STATUSES ==>
              var task := Row(id.value, Entity(f));
              && r == Success(Response(UpdateTaskResponse(Some(UpdatedAlert(id, Some(task))), Some(task)), None))
              && taskRepository.Rows() == old(taskRepository.Rows())[id.value := task])
    {
      var fields := GetFormData(form);
      var req := ValidatedRequest(fields);
      var validity := new UpdateTaskValidator(req.title, req.description, req.dueDate, req.status, parsedDueDate);
      if !validity.base.IsValid() {
        return Success(Response(UpdateTaskResponse(ValidationAlert(validity.base.errors), None), None));
      }
      UpdatedFormIsStorable(fields, parsedDueDate);
      var task := taskRepository.Update(id, Entity(fields));
      if task.Failure? {
        return Failure(task.error);
      }
      r := Success(Response(UpdateTaskResponse(Some(UpdatedAlert(id, task.value)), task.value), None));
    }

    /** `deleteTask`: the alert says whether a task was deleted; the `taskDeleted` trigger is sent either way. */
    method DeleteTask(id: Number) returns (r: Response)
      requires taskRepository.Valid()
      modifies taskRepository.dbContext
      ensures taskRepository.Valid()
      ensures r == Response(AlertFragment(DeletedAlert(id, id.Int? && id.value in old(taskRepository.Rows()))), Some(TASK_DELETED))
      ensures taskRepository.Rows() == if id.Int? then old(taskRepository.Rows()) - {id.value} else old(taskRepository.Rows())
    {
      var hasBeenDeleted := taskRepository.Delete(id);
      r := Response(AlertFragment(DeletedAlert(id, hasBeenDeleted.value)), Some(TASK_DELETED));
    }
  }
}
