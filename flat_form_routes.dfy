/**
 * The first-generation `FormRoute` (src/routes/form-route.ts): the same
 * update and delete forms, and a create form that is defined but never
 * registered.
 */
module FlatFormRoutes {
  import opened Wrappers
  import opened Js
  import opened TaskStore
  import opened TaskRepositories
  import opened Responses
  import FormRoutes

  const PREFIX: string := "/form"

  /** `initializeRoutes`: only the update and delete forms are routed. */
  const ROUTES: seq<Route<FormRoutes.Handler>> := [
    Route(HttpGet, "/update/:id", FormRoutes.HandleUpdateForm),
    Route(HttpGet, "/delete/:id", FormRoutes.HandleDeleteForm)
  ]

  /** No request reaches `getCreateTaskForm` (or a search form): it is not in the table. */
  lemma CreateFormIsUnrouted()
    ensures forall i | 0 <= i < |ROUTES| ::
      ROUTES[i].handler != FormRoutes.HandleCreateForm && ROUTES[i].handler != FormRoutes.HandleSearchForm
    ensures ROUTES == FormRoutes.ROUTES[2..]
  {
  }

  class FormRoute {
    const taskRepository: TaskRepository

    constructor(taskRepository: TaskRepository)
      ensures this.taskRepository == taskRepository
    {
      this.taskRepository := taskRepository;
    }

    /** `getCreateTaskForm`: a fixed heading (unreachable, as no route binds it). */
    function GetCreateTaskForm(): (r: Response)
      ensures r.body.Markup? && r.hxTrigger.None?
    {
      Response(Markup("<h1>Create Task Form</h1>"), None)
    }

    /** `getUpdateTaskForm`: the form filled with the task exactly when it exists, else the alert. */
    function GetUpdateTaskForm(id: Number): (r: Response)
      reads this, taskRepository, taskRepository.dbContext
      requires taskRepository.Valid()
      ensures r.hxTrigger.None? && r.body.GetUpdateTaskFormResponse?
      ensures r.body.form.Some? != r.body.alert.Some?
      ensures r.body.form.Some? <==> id.Int? && id.value in taskRepository.Rows()
      ensures r.body.form.Some? ==> r.body.form.value == taskRepository.Rows()[id.value]
      ensures r.body.alert.Some? ==> r.body.alert.value == LoadFailedAlert(id)
    {
      var task := taskRepository.Read(id);
      Response(UpdateFormFor(id, task), None)
    }

    /** `getDeleteTaskForm`: a form carrying only the task's id exactly when it exists, else the alert. */
    function GetDeleteTaskForm(id: Number): (r: Response)
      reads this, taskRepository, taskRepository.dbContext
      requires taskRepository.Valid()
      ensures r.hxTrigger.None? && r.body.GetDeleteTaskFormResponse?
      ensures r.body.deleteForm.Some? != r.body.alert.Some?
      ensures r.body.deleteForm.Some? <==> id.Int? && id.value in taskRepository.Rows()
      ensures r.body.deleteForm.Some? ==> r.body.deleteForm.value == DeleteForm(id.value)
      ensures r.body.alert.Some? ==> r.body.alert.value == LoadFailedAlert(id)
    {
      var task := taskRepository.Read(id);
      Response(DeleteFormFor(id, task), None)
    }
  }
}
