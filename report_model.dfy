/** The `Report` document: the status record of one asynchronous report task,
    and the `reports` collection that holds the records. */
module ReportModel {

  import opened Common
  import opened Calendar

  /** The four values the `status` field may take. */
  datatype Status = Pending | Running | Completed | Failed

  const STATUS_CHOICES: seq<string> := ["pending", "running", "completed", "failed"]

  function StatusName(s: Status): (name: string)
    ensures name in STATUS_CHOICES
  {
    match s
    case Pending => "pending"
    case Running => "running"
    case Completed => "completed"
    case Failed => "failed"
  }

  /** Field validation of `status`: a text is accepted exactly when it is one of
      the choices, and then it names exactly one status. */
  function ParseStatus(name: string): (r: Option<Status>)
    ensures r.Some? <==> name in STATUS_CHOICES
    ensures r.Some? ==> StatusName(r.value) == name
    ensures forall s: Status :: StatusName(s) == name ==> r == Some(s)
  {
    if name == "pending" then Some(Pending)
    else if name == "running" then Some(Running)
    else if name == "completed" then Some(Completed)
    else if name == "failed" then Some(Failed)
    else None
  }

  predicate IsTerminal(s: Status) {
    s == Completed || s == Failed
  }

  /** The forward transitions of the lifecycle pending -> running -> completed | failed. */
  predicate Advances(from: Status, to: Status) {
    (from == Pending && to == Running) || (from == Running && IsTerminal(to))
  }

  datatype Report = Report(
    id: string,
    user: string,
    taskId: string,
    status: Status,
    createdAt: Instant,
    completedAt: Option<Instant>,
    resultData: Json,
    errorMessage: Option<string>)

  /** `Report(_id=id, user=user, task_id=taskId[, status=...])` constructed at `now`:
      the status defaults to pending, `created_at` to the construction time,
      `result_data` to an empty dict (the default of a `DictField`), and the
      other two outcome fields are unset. */
  function NewReport(id: string, user: string, taskId: string, status: Option<Status>, now: Instant): (r: Report)
    ensures r.id == id && r.user == user && r.taskId == taskId && r.createdAt == now
    ensures status.None? ==> r.status == Pending
    ensures status.Some? ==> r.status == status.value
    ensures r.completedAt.None? && r.resultData == JObj(map[]) && r.errorMessage.None?
  {
    Report(id, user, taskId, if status.Some? then status.value else Pending, now, None, JObj(map[]), None)
  }

  /** The `reports` collection. `_id` is the primary key, so a saved document
      replaces the one with the same id. */
  class ReportStore {
    var reports: map<string, Report>
    /** Ids in insertion order: the collection's natural order. */
    var order: seq<string>
    /** Every document written by `save()`, in order. */
    var saves: seq<Report>

    ghost predicate Valid()
      reads this
    {
      && (forall id :: id in reports ==> reports[id].id == id)
      && (forall i :: 0 <= i < |order| ==> order[i] in reports)
      && (forall id :: id in reports ==> id in order)
    }

    constructor ()
      ensures Valid() && reports == map[] && order == [] && saves == []
    {
      reports, order, saves := map[], [], [];
    }

    /** `report.save()`. */
    method Save(r: Report)
      requires Valid()
      modifies this
      ensures Valid()
      ensures reports == old(reports)[r.id := r]
      ensures order == if r.id in old(reports) then old(order) else old(order) + [r.id]
      ensures saves == old(saves) + [r]
    {
      if r.id !in reports {
        order := order + [r.id];
      }
      reports := reports[r.id := r];
      saves := saves + [r];
    }

    /** The documents in the collection's natural order. */
    function Documents(): (docs: seq<Report>)
      reads this
      requires Valid()
      ensures |docs| == |order|
      ensures forall i :: 0 <= i < |order| ==> docs[i] == reports[order[i]]
    {
      seq(|order|, i reads this requires 0 <= i < |order| && Valid() => reports[order[i]])
    }
  }
}
