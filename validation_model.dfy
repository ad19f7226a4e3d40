/** The validation layer's shared vocabulary: error records and the accepted task statuses. */
module ValidationModel {
  import opened Wrappers

  /** One field-level complaint; `field` names the request field it is about. */
  datatype ValidationError = ValidationError(field: string, message: string)

  /** The `TaskStatus` union of the validation layer. */
  datatype TaskStatus = Overdue | InProgress | Completed {
    function Name(): string {
      match this
      case Overdue => "overdue"
      case InProgress => "in-progress"
      case Completed => "completed"
    }
  }

  /** `VALID_STATUSES`, in its declared order. */
  const VALID_STATUSES: seq<string> := ["overdue", "in-progress", "completed"]

  /** The status a string names, if it names one of the union's members. */
  function ParseStatus(s: string): (r: Option<TaskStatus>)
    ensures r.Some? ==> r.value.Name() == s
    ensures r.None? ==> forall t: TaskStatus :: t.Name() != s
  {
    if s == "overdue" then Some(Overdue)
    else if s == "in-progress" then Some(InProgress)
    else if s == "completed" then Some(Completed)
    else None
  }

  /** Every status's name parses back to that status. */
  lemma ParseName(t: TaskStatus)
    ensures ParseStatus(t.Name()) == Some(t)
  {
  }

  /** A string is in `VALID_STATUSES` exactly when it is the name of a member of the `TaskStatus` union. */
  lemma ValidStatusesAreTheUnion(s: string)
    ensures s in VALID_STATUSES <==> ParseStatus(s).Some?
  {
  }

  /** `VALID_STATUSES` lists three pairwise-distinct names, and the set of them is exactly overdue, in-progress, completed. */
  lemma ValidStatusesDistinct()
    ensures |VALID_STATUSES| == 3
    ensures forall i, j | 0 <= i < j < |VALID_STATUSES| :: VALID_STATUSES[i] != VALID_STATUSES[j]
    ensures (set s | s in VALID_STATUSES) == {"overdue", "in-progress", "completed"}
  {
    assert "overdue"[0] != "in-progress"[0] && "overdue"[0] != "completed"[0] && "in-progress"[0] != "completed"[0];
  }

  /** The legacy storage layer's third status is not accepted by the validators. */
  lemma PendingIsNotValid()
    ensures "pending" !in VALID_STATUSES
  {
    assert "pending"[0] != "overdue"[0] && "pending"[0] != "in-progress"[0] && "pending"[0] != "completed"[0];
  }
}
