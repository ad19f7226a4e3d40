/** `UpdateTaskValidator`: the same four rules, except that a due date in the past is accepted. */
module UpdateTaskValidators {
  import opened Wrappers
  import opened Js
  import opened ValidationModel
  import opened ValidationRules
  import opened BaseValidators

  class UpdateTaskValidator {
    const title: string
    const description: Option<string>
    const dueDate: string
    const status: string
    /** What `Date.parse(dueDate)` gives (None for NaN). */
    const parsedDueDate: Option<int>
    /** The inherited `errors` list and `isValid` getter. */
    const base: BaseValidator

    function Request(): TaskRequest {
      TaskRequest(title, description, dueDate, status)
    }

    /** Construction runs `validate` once on the empty list: the errors are exactly `UpdateErrors`. */
    constructor(title: string, description: Option<string>, dueDate: string, status: string,
                parsedDueDate: Option<int>)
      ensures this.title == title && this.description == description
      ensures this.dueDate == dueDate && this.status == status
      ensures this.parsedDueDate == parsedDueDate
      ensures fresh(base)
      ensures base.errors == UpdateErrors(TaskRequest(title, description, dueDate, status), parsedDueDate)
    {
      this.title := title;
      this.description := description;
      this.dueDate := dueDate;
      this.status := status;
      this.parsedDueDate := parsedDueDate;
      base := new BaseValidator();
      new;
      Validate();
      UpdateValidateFromEmpty(Request(), parsedDueDate);
    }

    /** `validate`: the four rule methods in order, none skipped whatever the earlier ones found. */
    method Validate()
      modifies base
      ensures base.errors == UpdateValidateFrom(old(base.errors), Request(), parsedDueDate)
    {
      ValidateTitle();
      ValidateDescription();
      ValidateDueDate();
      ValidateStatus();
    }

    method ValidateTitle()
      modifies base
      ensures base.errors == ApplyRule(old(base.errors), TITLE, TitleMessage(title))
    {
      var trimmed := Trim(title);
      if trimmed == [] {
        base.errors := base.errors + [ValidationError(TITLE, TITLE_REQUIRED)];
      } else if |trimmed| > 255 {
        base.errors := base.errors + [ValidationError(TITLE, TITLE_TOO_LONG)];
      } else if |trimmed| < 3 {
        base.errors := base.errors + [ValidationError(TITLE, TITLE_TOO_SHORT)];
      } else {
        base.errors := WithoutField(base.errors, TITLE);
      }
    }

    method ValidateDescription()
      modifies base
      ensures base.errors == ApplyRule(old(base.errors), DESCRIPTION, DescriptionMessage(description))
    {
      if description.Some? && description.value != "" && |description.value| > 1000 {
        base.errors := base.errors + [ValidationError(DESCRIPTION, DESCRIPTION_TOO_LONG)];
      } else {
        base.errors := WithoutField(base.errors, DESCRIPTION);
      }
    }

    method ValidateDueDate()
      modifies base
      ensures base.errors == ApplyRule(old(base.errors), DUE_DATE, UpdateDueDateMessage(dueDate, parsedDueDate))
    {
      if dueDate == "" {
        base.errors := base.errors + [ValidationError(DUE_DATE, DUE_DATE_REQUIRED)];
      } else if parsedDueDate.None? {
        base.errors := base.errors + [ValidationError(DUE_DATE, DUE_DATE_INVALID)];
      } else {
        base.errors := WithoutField(base.errors, DUE_DATE);
      }
    }

    method ValidateStatus()
      modifies base
      ensures base.errors == ApplyRule(old(base.errors), STATUS, StatusMessage(status))
    {
      if status !in VALID_STATUSES {
        base.errors := base.errors + [ValidationError(STATUS, STATUS_INVALID)];
      } else {
        base.errors := WithoutField(base.errors, STATUS);
      }
    }
  }
}
