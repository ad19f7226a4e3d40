/** `CreateTaskValidator`: runs the four rules on construction, with the due date required to be no earlier than now. */
module CreateTaskValidators {
  import opened Wrappers
  import opened Js
  import opened ValidationModel
  import opened ValidationRules
  import opened BaseValidators

  class CreateTaskValidator {
    const title: string
    const description: Option<string>
    const dueDate: string
    const status: string
    /** What `Date.parse(dueDate)` gives (None for NaN); `new Date(dueDate)` has the same time value. */
    const parsedDueDate: Option<int>
    /** The time value of `new Date()` when the rule runs. */
    const now: int
    /** The inherited `errors` list and `isValid` getter. */
    const base: BaseValidator

    function Request(): TaskRequest {
      TaskRequest(title, description, dueDate, status)
    }

    /** Construction runs `validate` once on the empty list: the errors are exactly `CreateErrors`. */
    constructor(title: string, description: Option<string>, dueDate: string, status: string,
                parsedDueDate: Option<int>, now: int)
      ensures this.title == title && this.description == description
      ensures this.dueDate == dueDate && this.status == status
      ensures this.parsedDueDate == parsedDueDate && this.now == now
      ensures fresh(base)
      ensures base.errors == CreateErrors(TaskRequest(title, description, dueDate, status), parsedDueDate, now)
    {
      this.title := title;
      this.description := description;
      this.dueDate := dueDate;
      this.status := status;
      this.parsedDueDate := parsedDueDate;
      this.now := now;
      base := new BaseValidator();
      new;
      Validate();
      CreateValidateFromEmpty(Request(), parsedDueDate, now);
    }

    /** `CreateTaskValidator.create`: the same as constructing one directly. */
    static method Create(title: string, description: Option<string>, dueDate: string, status: string,
                         parsedDueDate: Option<int>, now: int)
      returns (v: CreateTaskValidator)
      ensures fresh(v) && fresh(v.base)
      ensures v.Request() == TaskRequest(title, description, dueDate, status)
      ensures v.base.errors == CreateErrors(v.Request(), parsedDueDate, now)
    {
      v := new CreateTaskValidator(title, description, dueDate, status, parsedDueDate, now);
    }

    /** `validate`: the four rule methods in order, none skipped whatever the earlier ones found. */
    method Validate()
      modifies base
      ensures base.errors == CreateValidateFrom(old(base.errors), Request(), parsedDueDate, now)
    {
      ValidateTitle();
      ValidateDescription();
      ValidateDueDate();
      ValidateStatus();
    }

    method ValidateTitle()
      modifies base
      ensures base.errors == ApplyRule(old(base.errors), TITLE, TitleMessage(title))
    {
      var trimmed := Trim(title);
      if trimmed == [] {
        base.errors := base.errors + [ValidationError(TITLE, TITLE_REQUIRED)];
      } else if |trimmed| > 255 {
        base.errors := base.errors + [ValidationError(TITLE, TITLE_TOO_LONG)];
      } else if |trimmed| < 3 {
        base.errors := base.errors + [ValidationError(TITLE, TITLE_TOO_SHORT)];
      } else {
        base.errors := WithoutField(base.errors, TITLE);
      }
    }

    method ValidateDescription()
      modifies base
      ensures base.errors == ApplyRule(old(base.errors), DESCRIPTION, DescriptionMessage(description))
    {
      if description.Some? && description.value != "" && |description.value| > 1000 {
        base.errors := base.errors + [ValidationError(DESCRIPTION, DESCRIPTION_TOO_LONG)];
      } else {
        base.errors := WithoutField(base.errors, DESCRIPTION);
      }
    }

    method ValidateDueDate()
      modifies base
      ensures base.errors == ApplyRule(old(base.errors), DUE_DATE, CreateDueDateMessage(dueDate, parsedDueDate, now))
    {
      if dueDate == "" {
        base.errors := base.errors + [ValidationError(DUE_DATE, DUE_DATE_REQUIRED)];
      } else if parsedDueDate.None? {
        base.errors := base.errors + [ValidationError(DUE_DATE, DUE_DATE_INVALID)];
      } else if parsedDueDate.value < now {
        base.errors := base.errors + [ValidationError(DUE_DATE, DUE_DATE_PAST)];
      } else {
        base.errors := WithoutField(base.errors, DUE_DATE);
      }
    }

    method ValidateStatus()
      modifies base
      ensures base.errors == ApplyRule(old(base.errors), STATUS, StatusMessage(status))
    {
      if status !in VALID_STATUSES {
        base.errors := base.errors + [ValidationError(STATUS, STATUS_INVALID)];
      } else {
        base.errors := WithoutField(base.errors, STATUS);
      }
    }
  }
}
