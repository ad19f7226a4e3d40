/**
 * `FormRoute` (src/routes/form/form-route.ts), mounted under "/form": the
 * handlers that serve the create, search, update and delete forms. Each
 * is a query: the update and delete forms read one task and choose between
 * the form and the "Failed to load" alert.
 */
module FormRoutes {
  import opened Wrappers
  import opened Js
  import opened TaskStore
  import opened TaskRepositories
  import opened Responses

  const PREFIX: string := "/form"

  datatype Handler = HandleCreateForm | HandleSearchForm | HandleUpdateForm | HandleDeleteForm

  /** `initializeRoutes`. */
  const ROUTES: seq<Route<Handler>> := [
    Route(HttpGet, "/create", HandleCreateForm),
    Route(HttpGet, "/search", HandleSearchForm),
    Route(HttpGet, "/update/:id", HandleUpdateForm),
    Route(HttpGet, "/delete/:id", HandleDeleteForm)
  ]

  /** Every form handler is registered, each under its own path. */
  lemma RoutesAreUnambiguous()
    ensures (set i | 0 <= i < |ROUTES| :: ROUTES[i].handler)
         == {HandleCreateForm, HandleSearchForm, HandleUpdateForm, HandleDeleteForm}
    ensures forall i, j | 0 <= i < j < |ROUTES| :: ROUTES[i].path != ROUTES[j].path
  {
    assert "/create"[1] != "/search"[1] && "/create"[1] != "/update/:id"[1] && "/create"[1] != "/delete/:id"[1];
    assert "/search"[1] != "/update/:id"[1] && "/search"[1] != "/delete/:id"[1] && "/update/:id"[1] != "/delete/:id"[1];
    var handlers := set i | 0 <= i < |ROUTES| :: ROUTES[i].handler;
    assert ROUTES[0].handler in handlers && ROUTES[1].handler in handlers;
    assert ROUTES[2].handler in handlers && ROUTES[3].handler in handlers;
  }

  class FormRoute {
    const taskRepository: TaskRepository

    constructor(taskRepository: TaskRepository)
      ensures this.taskRepository == taskRepository
    {
      this.taskRepository := taskRepository;
    }

    /** `getCreateTaskForm`: the empty create form; the repository is not consulted. */
    function GetCreateTaskForm(): (r: Response)
      ensures r == Response(GetCreateTaskFormResponse, None)
    {
      Response(GetCreateTaskFormResponse, None)
    }

    /** `getSearchTasksForm`: the search form; the repository is not consulted. */
    function GetSearchTasksForm(): (r: Response)
      ensures r == Response(GetSearchTasksFormResponse, None)
    {
      Response(GetSearchTasksFormResponse, None)
    }

    /** `getUpdateTaskForm`: the form filled with the task exactly when it exists, else the alert. */
    function GetUpdateTaskForm(id: Number): (r: Response)
      reads this, taskRepository, taskRepository.dbContext
      requires taskRepository.Valid()
      ensures r.hxTrigger.None? && r.body.GetUpdateTaskFormResponse?
      ensures r.body.form.Some? != r.body.alert.Some?
      ensures r.body.form.Some? <==> id.Int? && id.value in taskRepository.Rows()
      ensures r.body.form.Some? ==> r.body.form.value == taskRepository.Rows()[id.value]
      ensures r.body.alert.Some? ==> r.body.alert.value == LoadFailedAlert(id)
    {
      Response(UpdateFormFor(id, taskRepository.Read(id)), None)
    }

    /** `getDeleteTaskForm`: a form carrying only the task's id exactly when it exists, else the alert. */
    function GetDeleteTaskForm(id: Number): (r: Response)
      reads this, taskRepository, taskRepository.dbContext
      requires taskRepository.Valid()
      ensures r.hxTrigger.None? && r.body.GetDeleteTaskFormResponse?
      ensures r.body.deleteForm.Some? != r.body.alert.Some?
      ensures r.body.deleteForm.Some? <==> id.Int? && id.value in taskRepository.Rows()
      ensures r.body.deleteForm.Some? ==> r.body.deleteForm.value == DeleteForm(id.value)
      ensures r.body.alert.Some? ==> r.body.alert.value == LoadFailedAlert(id)
    {
      Response(DeleteFormFor(id, taskRepository.Read(id)), None)
    }
  }
}
