/**
 * What the route handlers answer with. A component's markup is not
 * modelled: a `Fragment` records which component renders and with which
 * props, which is everything the handlers choose. The alert and form
 * selections both route generations share are defined here once.
 */
module Responses {
  import opened Wrappers
  import opened Js
  import opened TaskStore
  import opened ValidationModel

  /** `AlertProps.alertType`, as far as the handlers use it. */
  datatype AlertType = SuccessAlert | DangerAlert

  /** `AlertProps`. */
  datatype Alert = Alert(alertType: AlertType, title: string, message: string)

  /** The props of the delete form: only the task's id. */
  datatype DeleteForm = DeleteForm(taskId: int)

  /** The component a handler renders, with its props. */
  datatype Fragment =
    | CreateTaskResponse(alert: Option<Alert>, task: Option<Task>)
    | GetTaskByIDResponse(alert: Option<Alert>, task: Option<Task>)
    | UpdateTaskResponse(alert: Option<Alert>, task: Option<Task>)
    | AlertFragment(shown: Alert)
    | Markup(html: string)
    | GetUpdateTaskFormResponse(alert: Option<Alert>, form: Option<Task>)
    | GetDeleteTaskFormResponse(alert: Option<Alert>, deleteForm: Option<DeleteForm>)
    | GetCreateTaskFormResponse
    | GetSearchTasksFormResponse

  /** `context.html(fragment, {headers})`: the body and the `HX-Trigger` header, if any. */
  datatype Response = Response(body: Fragment, hxTrigger: Option<string>)

  /** The HTTP methods the routers register handlers for. */
  datatype Verb = HttpGet | HttpPost | HttpPut | HttpDelete

  /** One `app.<verb>(path, handler)` registration. */
  datatype Route<H> = Route(verb: Verb, path: string, handler: H)

  /** The HTMX events the handlers trigger. */
  const TASK_DELETED: string := "taskDeleted"
  const TASK_SEARCH_FAILED: string := "taskSearchFailed"

  /** A submitted form: each field's value; a field not submitted is absent. */
  type FormData = map<string, string>

  /** What `getFormData` returns. */
  datatype FormFields = FormFields(title: string, description: string, status: string, dueDate: string)

  /** `(formData.get(key) as string) || ""`: the submitted value, or "" for a missing field. */
  function Field(form: FormData, key: string): (v: string)
    ensures key in form ==> v == form[key]
    ensures key !in form ==> v == ""
  {
    if key in form && form[key] != "" then form[key] else ""
  }

  /** `getFormData`, reading the due date under `dueDateKey` (the two route generations use different keys). */
  function ReadForm(form: FormData, dueDateKey: string): (f: FormFields)
    ensures f.title == Field(form, "title") && f.description == Field(form, "description")
    ensures f.status == Field(form, "status") && f.dueDate == Field(form, dueDateKey)
  {
    FormFields(Field(form, "title"), Field(form, "description"), Field(form, "status"), Field(form, dueDateKey))
  }

  /** The columns a handler passes to `create` or `update`: the description as submitted, possibly "". */
  function Entity(f: FormFields): TaskFields {
    TaskFields(f.title, Some(f.description), f.status, f.dueDate)
  }

  /** The alert after `create`: success, naming the title, exactly when a task came back. */
  function CreatedAlert(task: Option<Task>): (a: Alert)
    ensures a.alertType == SuccessAlert <==> task.Some?
    ensures task.Some? ==> a == Alert(SuccessAlert, "Task Created", "Task \"" + task.value.title + "\" created successfully!")
    ensures task.None? ==> a == Alert(DangerAlert, "Error", "Failed to create task")
  {
    if task.Some? then Alert(SuccessAlert, "Task Created", "Task \"" + task.value.title + "\" created successfully!")
    else Alert(DangerAlert, "Error", "Failed to create task")
  }

  /** The alert after `update`: success exactly when a task came back; else it names the id. */
  function UpdatedAlert(id: Number, task: Option<Task>): (a: Alert)
    ensures a.alertType == SuccessAlert <==> task.Some?
    ensures task.Some? ==> a == Alert(SuccessAlert, "Task Updated", "Task \"" + task.value.title + "\" updated successfully!")
    ensures task.None? ==> a == Alert(DangerAlert, "Error", "Failed to update task with ID " + ToString(id))
  {
    if task.Some? then Alert(SuccessAlert, "Task Updated", "Task \"" + task.value.title + "\" updated successfully!")
    else Alert(DangerAlert, "Error", "Failed to update task with ID " + ToString(id))
  }

  /** The alert after `delete`: success exactly when it reported true; both name the id. */
  function DeletedAlert(id: Number, deleted: bool): (a: Alert)
    ensures a.alertType == SuccessAlert <==> deleted
    ensures deleted ==> a == Alert(SuccessAlert, "Task Deleted", "Task with ID " + ToString(id) + " has been deleted successfully.")
    ensures !deleted ==> a == Alert(DangerAlert, "Error", "Failed to delete task with ID " + ToString(id))
  {
    if deleted then Alert(SuccessAlert, "Task Deleted", "Task with ID " + ToString(id) + " has been deleted successfully.")
    else Alert(DangerAlert, "Error", "Failed to delete task with ID " + ToString(id))
  }

  /** `validity.errors.map((e) => e.message)`. */
  function Messages(errors: seq<ValidationError>): (ms: seq<string>)
    ensures |ms| == |errors|
    ensures forall i | 0 <= i < |errors| :: ms[i] == errors[i].message
  {
    seq(|errors|, i requires 0 <= i < |errors| => errors[i].message)
  }

  /** The alert a failed validation produces: the messages joined with ", "; none when valid. */
  function ValidationAlert(errors: seq<ValidationError>): (a: Option<Alert>)
    ensures a.None? <==> errors == []
    ensures a.Some? ==> a.value == Alert(DangerAlert, "Validation Error", Join(Messages(errors), ", "))
  {
    if errors == [] then None else Some(Alert(DangerAlert, "Validation Error", Join(Messages(errors), ", ")))
  }

  /** The alert both form routes show when the task to edit or delete does not exist. */
  function LoadFailedAlert(id: Number): Alert {
    Alert(DangerAlert, "Error", "Failed to load task with ID " + ToString(id))
  }

  /** `getUpdateTaskForm`'s choice: the form filled with the task, or else the alert, never both. */
  function UpdateFormFor(id: Number, task: Option<Task>): (f: Fragment)
    ensures f.GetUpdateTaskFormResponse?
    ensures f.form.Some? != f.alert.Some?
    ensures f.form == task
    ensures f.alert.Some? ==> f.alert.value == LoadFailedAlert(id)
  {
    GetUpdateTaskFormResponse(if task.Some? then None else Some(LoadFailedAlert(id)), task)
  }

  /** `getDeleteTaskForm`'s choice: a form carrying only the task's id, or else the alert, never both. */
  function DeleteFormFor(id: Number, task: Option<Task>): (f: Fragment)
    ensures f.GetDeleteTaskFormResponse?
    ensures f.deleteForm.Some? != f.alert.Some?
    ensures f.deleteForm.Some? <==> task.Some?
    ensures task.Some? ==> f.deleteForm.value == DeleteForm(task.value.id)
    ensures f.alert.Some? ==> f.alert.value == LoadFailedAlert(id)
  {
    GetDeleteTaskFormResponse(
      if task.Some? then None else Some(LoadFailedAlert(id)),
      if task.Some? then Some(DeleteForm(task.value.id)) else None)
  }

  /** Joining with "" distributes over concatenation of the parts. */
  lemma {:induction false} JoinEmptyAppend(p: seq<string>, q: seq<string>)
    ensures Join(p + q, "") == Join(p, "") + Join(q, "")
    decreases |p|
  {
    if p == [] {
      assert p + q == q;
    } else if |p| == 1 {
      if q != [] {
        assert (p + q)[1..] == q;
      } else {
        assert p + q == p;
      }
    } else {
      assert (p + q)[1..] == p[1..] + q;
      JoinEmptyAppend(p[1..], q);
    }
  }

  /**
   * `tasks.map((task) => ReadTask(task)).join("")`: each task's card, in
   * order, with nothing between; `card` stands for the `ReadTask` component.
   */
  function Cards(tasks: seq<Task>, card: Task -> string): string {
    Join(seq(|tasks|, i requires 0 <= i < |tasks| => card(tasks[i])), "")
  }

  /** The cards of two lists of tasks are the two cards strings one after the other. */
  lemma CardsAppend(a: seq<Task>, b: seq<Task>, card: Task -> string)
    ensures Cards(a + b, card) == Cards(a, card) + Cards(b, card)
  {
    var pa := seq(|a|, i requires 0 <= i < |a| => card(a[i]));
    var pb := seq(|b|, i requires 0 <= i < |b| => card(b[i]));
    assert seq(|a + b|, i requires 0 <= i < |a + b| => card((a + b)[i])) == pa + pb;
    JoinEmptyAppend(pa, pb);
  }

  /** No tasks give no markup; one task gives exactly its card. */
  lemma CardsBase(t: Task, card: Task -> string)
    ensures Cards([], card) == ""
    ensures Cards([t], card) == card(t)
  {
    assert seq(1, i requires 0 <= i < 1 => card([t][i])) == [card(t)];
  }

  /** The card list is each task's card in order: the concatenation, task by task. */
  lemma {:induction false} CardsAreConcatenation(tasks: seq<Task>, card: Task -> string)
    ensures |tasks| > 0 ==> Cards(tasks, card) == Cards(tasks[..|tasks| - 1], card) + card(tasks[|tasks| - 1])
  {
    if |tasks| > 0 {
      var last := tasks[|tasks| - 1];
      assert tasks == tasks[..|tasks| - 1] + [last];
      CardsAppend(tasks[..|tasks| - 1], [last], card);
      CardsBase(last, card);
    }
  }
}
