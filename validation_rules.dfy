/**
 * The four field rules that both task validators run, and what a whole run
 * produces. A rule method of a validator either pushes its error onto the
 * list or filters its field out of it (`ApplyRule`); run from an empty list,
 * the four rules yield `CreateErrors` / `UpdateErrors`.
 *
 * `Date.parse(dueDate)` and the clock are outside the model: `parsed` is the
 * time value `Date.parse` gives (None for NaN) and `now` the current time value.
 */
module ValidationRules {
  import opened Wrappers
  import opened Js
  import opened ValidationModel

  /** The fields of a create or update request (`CreateTaskRequest`, `UpdateTaskRequest`). */
  datatype TaskRequest = TaskRequest(title: string, description: Option<string>, dueDate: string, status: string)

  const TITLE := "title"
  const DESCRIPTION := "description"
  const DUE_DATE := "dueDate"
  const STATUS := "status"

  const TITLE_REQUIRED := "Title is required"
  const TITLE_TOO_LONG := "Title must be less than 255 characters"
  const TITLE_TOO_SHORT := "Title must be at least 3 characters"
  const DESCRIPTION_TOO_LONG := "Description must be less than 1000 characters"
  const DUE_DATE_REQUIRED := "Due date is required"
  const DUE_DATE_INVALID := "Invalid date format"
  const DUE_DATE_PAST := "Due date cannot be in the past"
  const STATUS_INVALID := "Invalid task status"

  // ---------------------------------------------------------------------------
  // The rules, each as the message it reports (None when the field passes)

  /** The title rule: required, then at most 255, then at least 3 characters, all measured after trimming. */
  function TitleMessage(title: string): (m: Option<string>)
    ensures m == Some(TITLE_REQUIRED) <==> AllWhitespace(title)
    ensures m == Some(TITLE_TOO_LONG) <==> |Trim(title)| > 255
    ensures m == Some(TITLE_TOO_SHORT) <==> 0 < |Trim(title)| < 3
    ensures m == None <==> 3 <= |Trim(title)| <= 255
  {
    var trimmed := Trim(title);
    if trimmed == [] then Some(TITLE_REQUIRED)
    else if |trimmed| > 255 then Some(TITLE_TOO_LONG)
    else if |trimmed| < 3 then Some(TITLE_TOO_SHORT)
    else None
  }

  /** The description rule: only a present description longer than 1000 characters (untrimmed) is refused. */
  function DescriptionMessage(description: Option<string>): (m: Option<string>)
    ensures m.Some? <==> description.Some? && |description.value| > 1000
    ensures m.Some? ==> m.value == DESCRIPTION_TOO_LONG
  {
    if description.Some? && description.value != "" && |description.value| > 1000 then Some(DESCRIPTION_TOO_LONG)
    else None
  }

  /** The create validator's due-date rule: required, then parseable, then not before now. */
  function CreateDueDateMessage(dueDate: string, parsed: Option<int>, now: int): (m: Option<string>)
    ensures m == Some(DUE_DATE_REQUIRED) <==> dueDate == ""
    ensures m == Some(DUE_DATE_INVALID) <==> dueDate != "" && parsed.None?
    ensures m == Some(DUE_DATE_PAST) <==> dueDate != "" && parsed.Some? && parsed.value < now
    ensures m == None <==> dueDate != "" && parsed.Some? && parsed.value >= now
  {
    if dueDate == "" then Some(DUE_DATE_REQUIRED)
    else if parsed.None? then Some(DUE_DATE_INVALID)
    else if parsed.value < now then Some(DUE_DATE_PAST)
    else None
  }

  /** The update validator's due-date rule: required, then parseable; a date in the past is accepted. */
  function UpdateDueDateMessage(dueDate: string, parsed: Option<int>): (m: Option<string>)
    ensures m == Some(DUE_DATE_REQUIRED) <==> dueDate == ""
    ensures m == Some(DUE_DATE_INVALID) <==> dueDate != "" && parsed.None?
    ensures m == None <==> dueDate != "" && parsed.Some?
  {
    if dueDate == "" then Some(DUE_DATE_REQUIRED)
    else if parsed.None? then Some(DUE_DATE_INVALID)
    else None
  }

  /** The status rule: membership in `VALID_STATUSES`. */
  function StatusMessage(status: string): (m: Option<string>)
    ensures m.Some? <==> status !in VALID_STATUSES
    ensures m.Some? ==> m.value == STATUS_INVALID
  {
    if status !in VALID_STATUSES then Some(STATUS_INVALID) else None
  }

  // ---------------------------------------------------------------------------
  // Rule methods as written: push, or filter the field out

  /** `errors.filter((error) => error.field !== field)`. */
  function WithoutField(errors: seq<ValidationError>, field: string): seq<ValidationError> {
    if errors == [] then []
    else (if errors[0].field != field then [errors[0]] else []) + WithoutField(errors[1..], field)
  }

  /** What one rule method does to the list: push the rule's error, or drop every error of its field. */
  function ApplyRule(errors: seq<ValidationError>, field: string, m: Option<string>): seq<ValidationError> {
    if m.Some? then errors + [ValidationError(field, m.value)] else WithoutField(errors, field)
  }

  /** The four rule methods run in order on an existing list, given each rule's message. */
  function RunRules(errors: seq<ValidationError>, title: Option<string>, description: Option<string>,
                    dueDate: Option<string>, status: Option<string>): seq<ValidationError>
  {
    ApplyRule(ApplyRule(ApplyRule(ApplyRule(errors, TITLE, title), DESCRIPTION, description), DUE_DATE, dueDate), STATUS, status)
  }

  /** `CreateTaskValidator.validate` run on an existing error list. */
  function CreateValidateFrom(errors: seq<ValidationError>, req: TaskRequest, parsed: Option<int>, now: int): seq<ValidationError> {
    RunRules(errors, TitleMessage(req.title), DescriptionMessage(req.description),
             CreateDueDateMessage(req.dueDate, parsed, now), StatusMessage(req.status))
  }

  /** `UpdateTaskValidator.validate` run on an existing error list. */
  function UpdateValidateFrom(errors: seq<ValidationError>, req: TaskRequest, parsed: Option<int>): seq<ValidationError> {
    RunRules(errors, TitleMessage(req.title), DescriptionMessage(req.description),
             UpdateDueDateMessage(req.dueDate, parsed), StatusMessage(req.status))
  }

  // ---------------------------------------------------------------------------
  // What a validator reports

  /** The error a rule adds to a list that has no error for its field yet. */
  function RuleErrors(field: string, m: Option<string>): seq<ValidationError> {
    if m.Some? then [ValidationError(field, m.value)] else []
  }

  /** One error per failing rule, in rule order. */
  function Report(title: Option<string>, description: Option<string>, dueDate: Option<string>, status: Option<string>): seq<ValidationError> {
    RuleErrors(TITLE, title) + RuleErrors(DESCRIPTION, description) + RuleErrors(DUE_DATE, dueDate) + RuleErrors(STATUS, status)
  }

  /** The errors of a freshly constructed `CreateTaskValidator`. */
  function CreateErrors(req: TaskRequest, parsed: Option<int>, now: int): seq<ValidationError> {
    Report(TitleMessage(req.title), DescriptionMessage(req.description),
           CreateDueDateMessage(req.dueDate, parsed, now), StatusMessage(req.status))
  }

  /** The errors of a freshly constructed `UpdateTaskValidator`. */
  function UpdateErrors(req: TaskRequest, parsed: Option<int>): seq<ValidationError> {
    Report(TitleMessage(req.title), DescriptionMessage(req.description),
           UpdateDueDateMessage(req.dueDate, parsed), StatusMessage(req.status))
  }

  /** The position of a field in the rule order; -1 for a field no rule checks. */
  function FieldRank(field: string): int {
    if field == TITLE then 0
    else if field == DESCRIPTION then 1
    else if field == DUE_DATE then 2
    else if field == STATUS then 3
    else -1
  }

  /** Errors listed in rule order, each about a checked field, so no field has two. */
  predicate InRuleOrder(errors: seq<ValidationError>) {
    && (forall i | 0 <= i < |errors| :: FieldRank(errors[i].field) >= 0)
    && (forall i, j | 0 <= i < j < |errors| :: FieldRank(errors[i].field) < FieldRank(errors[j].field))
  }

  // ---------------------------------------------------------------------------
  // Properties

  /** Filtering out a field that no error mentions removes nothing. */
  lemma {:induction false} WithoutAbsentField(errors: seq<ValidationError>, field: string)
    requires forall i | 0 <= i < |errors| :: errors[i].field != field
    ensures WithoutField(errors, field) == errors
  {
    if errors != [] {
      WithoutAbsentField(errors[1..], field);
      assert errors == [errors[0]] + errors[1..];
    }
  }

  lemma FieldsDistinct()
    ensures TITLE != DESCRIPTION && TITLE != DUE_DATE && TITLE != STATUS
    ensures DESCRIPTION != DUE_DATE && DESCRIPTION != STATUS && DUE_DATE != STATUS
  {
    assert TITLE[0] != DESCRIPTION[0] && TITLE[0] != DUE_DATE[0] && TITLE[0] != STATUS[0];
    assert DESCRIPTION[0] == DUE_DATE[0] && DESCRIPTION[1] != DUE_DATE[1];
    assert DESCRIPTION[0] != STATUS[0] && DUE_DATE[0] != STATUS[0];
  }

  /**
   * Run from the empty list (as a constructor does), the four rule methods
   * yield `Report`: every `filter` in a passing branch removes nothing,
   * because no earlier rule reported an error for that field.
   */
  lemma RunRulesFromEmpty(title: Option<string>, description: Option<string>, dueDate: Option<string>, status: Option<string>)
    ensures RunRules([], title, description, dueDate, status) == Report(title, description, dueDate, status)
  {
    FieldsDistinct();
    var t := RuleErrors(TITLE, title);
    var d := RuleErrors(DESCRIPTION, description);
    var u := RuleErrors(DUE_DATE, dueDate);
    var s := RuleErrors(STATUS, status);
    var e1 := ApplyRule([], TITLE, title);
    assert e1 == t;
    var e2 := ApplyRule(e1, DESCRIPTION, description);
    WithoutAbsentField(t, DESCRIPTION);
    assert e2 == t + d;
    var e3 := ApplyRule(e2, DUE_DATE, dueDate);
    WithoutAbsentField(t + d, DUE_DATE);
    assert e3 == t + d + u;
    WithoutAbsentField(t + d + u, STATUS);
    assert ApplyRule(e3, STATUS, status) == t + d + u + s;
  }

  /** A new `CreateTaskValidator`'s `validate` from the empty list yields `CreateErrors`. */
  lemma CreateValidateFromEmpty(req: TaskRequest, parsed: Option<int>, now: int)
    ensures CreateValidateFrom([], req, parsed, now) == CreateErrors(req, parsed, now)
  {
    RunRulesFromEmpty(TitleMessage(req.title), DescriptionMessage(req.description),
                      CreateDueDateMessage(req.dueDate, parsed, now), StatusMessage(req.status));
  }

  /** A new `UpdateTaskValidator`'s `validate` from the empty list yields `UpdateErrors`. */
  lemma UpdateValidateFromEmpty(req: TaskRequest, parsed: Option<int>)
    ensures UpdateValidateFrom([], req, parsed) == UpdateErrors(req, parsed)
  {
    RunRulesFromEmpty(TitleMessage(req.title), DescriptionMessage(req.description),
                      UpdateDueDateMessage(req.dueDate, parsed), StatusMessage(req.status));
  }

  /** The rule order of the four checked fields. */
  lemma FieldRanks()
    ensures FieldRank(TITLE) == 0 && FieldRank(DESCRIPTION) == 1 && FieldRank(DUE_DATE) == 2 && FieldRank(STATUS) == 3
  {
    FieldsDistinct();
  }

  /** Adding a later rule's error to errors in rule order keeps them in rule order. */
  lemma InRuleOrderAppend(errors: seq<ValidationError>, field: string, m: Option<string>)
    requires InRuleOrder(errors) && FieldRank(field) >= 0 && RanksBelow(errors, FieldRank(field))
    ensures InRuleOrder(errors + RuleErrors(field, m))
    ensures RanksBelow(errors + RuleErrors(field, m), FieldRank(field) + 1)
  {
  }

  /** Every error's field comes before `bound` in the rule order. */
  predicate RanksBelow(errors: seq<ValidationError>, bound: int) {
    forall i | 0 <= i < |errors| :: FieldRank(errors[i].field) < bound
  }

  /** A report lists its errors in rule order, at most one per field. */
  lemma ReportInRuleOrder(title: Option<string>, description: Option<string>, dueDate: Option<string>, status: Option<string>)
    ensures InRuleOrder(Report(title, description, dueDate, status))
  {
    FieldRanks();
    var e1 := RuleErrors(TITLE, title);
    assert InRuleOrder(e1) && RanksBelow(e1, 1);
    var e2 := e1 + RuleErrors(DESCRIPTION, description);
    InRuleOrderAppend(e1, DESCRIPTION, description);
    var e3 := e2 + RuleErrors(DUE_DATE, dueDate);
    InRuleOrderAppend(e2, DUE_DATE, dueDate);
    InRuleOrderAppend(e3, STATUS, status);
    assert Report(title, description, dueDate, status) == e3 + RuleErrors(STATUS, status);
  }

  /** Create errors come in the order title, description, dueDate, status, at most one per field. */
  lemma CreateErrorsInRuleOrder(req: TaskRequest, parsed: Option<int>, now: int)
    ensures InRuleOrder(CreateErrors(req, parsed, now))
  {
    ReportInRuleOrder(TitleMessage(req.title), DescriptionMessage(req.description),
                      CreateDueDateMessage(req.dueDate, parsed, now), StatusMessage(req.status));
  }

  /** Update errors come in the same order, at most one per field. */
  lemma UpdateErrorsInRuleOrder(req: TaskRequest, parsed: Option<int>)
    ensures InRuleOrder(UpdateErrors(req, parsed))
  {
    ReportInRuleOrder(TitleMessage(req.title), DescriptionMessage(req.description),
                      UpdateDueDateMessage(req.dueDate, parsed), StatusMessage(req.status));
  }

  /** A create request is valid exactly when every rule passes. */
  lemma CreateValidIff(req: TaskRequest, parsed: Option<int>, now: int)
    ensures CreateErrors(req, parsed, now) == [] <==>
      && 3 <= |Trim(req.title)| <= 255
      && (req.description.None? || |req.description.value| <= 1000)
      && req.dueDate != "" && parsed.Some? && parsed.value >= now
      && req.status in VALID_STATUSES
  {
  }

  /** An update request is valid exactly when every rule passes; the due date need only parse. */
  lemma UpdateValidIff(req: TaskRequest, parsed: Option<int>)
    ensures UpdateErrors(req, parsed) == [] <==>
      && 3 <= |Trim(req.title)| <= 255
      && (req.description.None? || |req.description.value| <= 1000)
      && req.dueDate != "" && parsed.Some?
      && req.status in VALID_STATUSES
  {
  }

  /** A title of exactly 255 non-blank characters passes; one of 256 is too long. */
  lemma TitleLengthBoundary()
    ensures TitleMessage(seq(255, _ => 'a')) == None
    ensures TitleMessage(seq(256, _ => 'a')) == Some(TITLE_TOO_LONG)
    ensures TitleMessage("ab") == Some(TITLE_TOO_SHORT)
    ensures TitleMessage("   ") == Some(TITLE_REQUIRED)
  {
    assert !IsWhitespace('a') && !IsWhitespace('b');
  }

  /** "invalid-status" is not one of the valid statuses. */
  lemma InvalidStatusRefused()
    ensures StatusMessage("invalid-status") == Some(STATUS_INVALID)
  {
    assert "invalid-status"[0] != "overdue"[0] && "invalid-status"[2] != "in-progress"[2] && "invalid-status"[0] != "completed"[0];
  }

  /**
   * A request failing every rule (blank title, a description over 1000
   * characters, an unparseable due date, an unknown status) yields exactly
   * four errors, one per rule, in rule order.
   */
  lemma AllInvalidRequest(description: string, now: int)
    requires |description| > 1000
    ensures CreateErrors(TaskRequest("", Some(description), "invalid-date", "invalid-status"), None, now)
         == [ ValidationError(TITLE, TITLE_REQUIRED), ValidationError(DESCRIPTION, DESCRIPTION_TOO_LONG),
              ValidationError(DUE_DATE, DUE_DATE_INVALID), ValidationError(STATUS, STATUS_INVALID) ]
  {
    var req := TaskRequest("", Some(description), "invalid-date", "invalid-status");
    var t, d := TitleMessage(""), DescriptionMessage(Some(description));
    var u, s := CreateDueDateMessage("invalid-date", None, now), StatusMessage("invalid-status");
    assert t == Some(TITLE_REQUIRED);
    assert u == Some(DUE_DATE_INVALID) by {
      assert "invalid-date"[0] == 'i';
    }
    InvalidStatusRefused();
    var e1, e2 := ValidationError(TITLE, TITLE_REQUIRED), ValidationError(DESCRIPTION, DESCRIPTION_TOO_LONG);
    var e3, e4 := ValidationError(DUE_DATE, DUE_DATE_INVALID), ValidationError(STATUS, STATUS_INVALID);
    assert CreateErrors(req, None, now) == [e1] + [e2] + [e3] + [e4];
    FourInOrder(e1, e2, e3, e4);
  }

  lemma FourInOrder<T>(a: T, b: T, c: T, d: T)
    ensures [a] + [b] + [c] + [d] == [a, b, c, d]
  {
  }

  /** `errors` with every error carrying `message` removed. */
  function WithoutMessage(errors: seq<ValidationError>, message: string): seq<ValidationError> {
    if errors == [] then []
    else (if errors[0].message != message then [errors[0]] else []) + WithoutMessage(errors[1..], message)
  }

  lemma {:induction false} WithoutMessageAppend(a: seq<ValidationError>, b: seq<ValidationError>, message: string)
    ensures WithoutMessage(a + b, message) == WithoutMessage(a, message) + WithoutMessage(b, message)
  {
    if a == [] {
      assert a + b == b;
    } else {
      assert (a + b)[0] == a[0] && (a + b)[1..] == a[1..] + b;
      WithoutMessageAppend(a[1..], b, message);
    }
  }

  lemma {:induction false} WithoutMessageAbsent(errors: seq<ValidationError>, message: string)
    requires forall i | 0 <= i < |errors| :: errors[i].message != message
    ensures WithoutMessage(errors, message) == errors
  {
    if errors != [] {
      WithoutMessageAbsent(errors[1..], message);
      assert errors == [errors[0]] + errors[1..];
    }
  }

  /** Only the due-date rule can report "Due date cannot be in the past". */
  lemma PastMessageIsDistinct()
    ensures DUE_DATE_PAST != TITLE_REQUIRED && DUE_DATE_PAST != TITLE_TOO_LONG && DUE_DATE_PAST != TITLE_TOO_SHORT
    ensures DUE_DATE_PAST != DESCRIPTION_TOO_LONG && DUE_DATE_PAST != STATUS_INVALID
    ensures DUE_DATE_PAST != DUE_DATE_REQUIRED && DUE_DATE_PAST != DUE_DATE_INVALID
  {
    assert DUE_DATE_PAST[0] != TITLE_REQUIRED[0] && DUE_DATE_PAST[1] != DESCRIPTION_TOO_LONG[1];
    assert DUE_DATE_PAST[0] != STATUS_INVALID[0] && DUE_DATE_PAST[0] != DUE_DATE_INVALID[0];
    assert DUE_DATE_PAST[9] != DUE_DATE_REQUIRED[9];
  }

  /** Removing a message that only the due-date rule reported drops just that rule's error. */
  lemma ReportWithoutMessage(title: Option<string>, description: Option<string>, dueDate: Option<string>, status: Option<string>,
                             message: string)
    requires title != Some(message) && description != Some(message) && status != Some(message)
    ensures WithoutMessage(Report(title, description, dueDate, status), message)
         == Report(title, description, if dueDate == Some(message) then None else dueDate, status)
  {
    var t, d, u, s := RuleErrors(TITLE, title), RuleErrors(DESCRIPTION, description), RuleErrors(DUE_DATE, dueDate), RuleErrors(STATUS, status);
    WithoutMessageAppend(t + d + u, s, message);
    WithoutMessageAppend(t + d, u, message);
    WithoutMessageAppend(t, d, message);
    WithoutMessageAbsent(t, message);
    WithoutMessageAbsent(d, message);
    WithoutMessageAbsent(s, message);
    if dueDate != Some(message) {
      WithoutMessageAbsent(u, message);
    }
  }

  /**
   * For the same request, the update validator reports the create validator's
   * errors with the "in the past" error removed, and nothing else differs.
   */
  lemma UpdateIsCreateWithoutPast(req: TaskRequest, parsed: Option<int>, now: int)
    ensures UpdateErrors(req, parsed) == WithoutMessage(CreateErrors(req, parsed, now), DUE_DATE_PAST)
  {
    PastMessageIsDistinct();
    var c := CreateDueDateMessage(req.dueDate, parsed, now);
    assert UpdateDueDateMessage(req.dueDate, parsed) == if c == Some(DUE_DATE_PAST) then None else c;
    ReportWithoutMessage(TitleMessage(req.title), DescriptionMessage(req.description), c, StatusMessage(req.status), DUE_DATE_PAST);
  }

  /** A parseable due date in the past fails create validation but passes update validation. */
  lemma PastDueDateOnlyFailsCreate(req: TaskRequest, parsed: Option<int>, now: int)
    requires req.dueDate != "" && parsed.Some? && parsed.value < now
    ensures ValidationError(DUE_DATE, DUE_DATE_PAST) in CreateErrors(req, parsed, now)
    ensures forall e | e in UpdateErrors(req, parsed) :: e.field != DUE_DATE
  {
    FieldsDistinct();
    var t, d, s := TitleMessage(req.title), DescriptionMessage(req.description), StatusMessage(req.status);
    assert CreateDueDateMessage(req.dueDate, parsed, now) == Some(DUE_DATE_PAST);
    assert CreateErrors(req, parsed, now)
        == RuleErrors(TITLE, t) + RuleErrors(DESCRIPTION, d) + [ValidationError(DUE_DATE, DUE_DATE_PAST)] + RuleErrors(STATUS, s);
    assert UpdateDueDateMessage(req.dueDate, parsed) == None;
    assert UpdateErrors(req, parsed) == RuleErrors(TITLE, t) + RuleErrors(DESCRIPTION, d) + RuleErrors(STATUS, s);
  }
}
