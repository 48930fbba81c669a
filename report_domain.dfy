/** The report endpoints: submit a report task, read one report, list the
    current user's reports. The current user is passed in as its id. */
module ReportDomain {

  import opened Common
  import opened Calendar
  import opened BaseDocument
  import opened ReportModel
  import opened ReportTask
  import opened Sorting
  import opened MongoQuery

  // ----- Task dispatch -----

  /** Celery's task ids are `str(uuid4())`: random, 36 characters with
      hyphens. Only their distinctness matters here, so the model issues
      them from a counter, as at least 32 hexadecimal digits without the
      hyphens. */
  const TASK_ID_WIDTH: nat := 32

  function TaskId(n: nat): (id: string)
    ensures |id| >= TASK_ID_WIDTH
  {
    Hex(n, TASK_ID_WIDTH)
  }

  /** The queue behind `process_report.apply_async`: every dispatched task with
      its id and arguments, in order. Ids are fresh. */
  class TaskQueue {
    var next: nat
    var dispatched: seq<(string, TaskData)>
    /** Every task id handed out so far. */
    ghost var issued: set<string>

    ghost predicate Valid()
      reads this
    {
      issued == set k | 0 <= k < next :: TaskId(k)
    }

    constructor ()
      ensures Valid() && next == 0 && dispatched == [] && issued == {}
    {
      next, dispatched := 0, [];
      issued := {};
    }

    /** `process_report.apply_async(args=[data])`. `failure` is the
        broker's answer: `Some(message)` when the task cannot be sent (the
        broker is unreachable), and then nothing is dispatched and no id is
        drawn. */
    method ApplyAsync(data: TaskData, failure: Option<string>) returns (r: Result<string, Exception>)
      requires Valid()
      modifies this
      ensures Valid()
      ensures failure.Some? ==>
        && r == Err(TransportError(failure.value))
        && next == old(next) && issued == old(issued) && dispatched == old(dispatched)
      ensures failure.None? ==>
        && r.Ok? && next == old(next) + 1
        && r.value !in old(issued) && issued == old(issued) + {r.value}
        && dispatched == old(dispatched) + [(r.value, data)]
    {
      if failure.Some? {
        return Err(TransportError(failure.value));
      }
      var taskId := TaskId(next);
      forall k | 0 <= k < next
        ensures TaskId(k) != taskId
      {
        HexInjective(k, next, TASK_ID_WIDTH);
      }
      next := next + 1;
      dispatched := dispatched + [(taskId, data)];
      issued := issued + {taskId};
      r := Ok(taskId);
    }
  }

  // ----- POST /report -----

  /** `report_post`: constructing the `Report` draws a fresh id; then the
      record is saved pending with an empty task id and the task is
      dispatched with the user and report ids. `failure` is the broker's
      answer to the dispatch: its error is not caught, so it leaves the
      handler (Flask answers 500) with the pending record, task id empty,
      already stored. Otherwise the record is saved again with the task
      id, and both ids are returned. */
  method ReportPost(store: ReportStore, ids: IdSource, queue: TaskQueue, user: string, now: Instant,
                    failure: Option<string>)
    returns (r: Result<Response, Exception>)
    requires store.Valid() && ids.Valid() && queue.Valid()
    modifies store, ids, queue
    ensures store.Valid() && ids.Valid() && queue.Valid()
    ensures failure.Some? ==>
      && r == Err(TransportError(failure.value))
      && queue.dispatched == old(queue.dispatched) && queue.issued == old(queue.issued)
      && exists rid ::
        && rid !in old(ids.issued) && ids.issued == old(ids.issued) + {rid}
        && store.saves == old(store.saves) + [NewReport(rid, user, "", Some(Pending), now)]
        && store.reports == old(store.reports)[rid := NewReport(rid, user, "", Some(Pending), now)]
    ensures failure.None? ==> exists rid, tid ::
      && rid !in old(ids.issued) && ids.issued == old(ids.issued) + {rid}
      && tid !in old(queue.issued) && queue.issued == old(queue.issued) + {tid}
      && queue.dispatched == old(queue.dispatched) + [(tid, TaskData(user, rid))]
      && store.saves == old(store.saves) + [NewReport(rid, user, "", Some(Pending), now), Queued(rid, user, tid, now)]
      && store.reports == old(store.reports)[rid := Queued(rid, user, tid, now)]
      && r == Ok(Submitted(rid, tid))
  {
    var rid := ids.Generate();
    var report := NewReport(rid, user, "", Some(Pending), now);
    store.Save(report);
    ghost var saved := store.reports;
    ghost var log := store.saves;
    var dispatch := queue.ApplyAsync(TaskData(user, rid), failure);
    assert store.reports == saved && store.saves == log;
    if dispatch.Err? {
      r := Err(dispatch.error);
      // `rid` is the witness of the postcondition.
      assert rid !in old(ids.issued) && ids.issued == old(ids.issued) + {rid};
      assert store.saves == old(store.saves) + [report];
      assert store.reports == old(store.reports)[rid := report];
      return;
    }
    var tid := dispatch.value;
    var queued := Queued(rid, user, tid, now);
    store.Save(queued);
    assert store.reports == saved[rid := queued];
    r := Ok(Submitted(rid, tid));
    // `rid` and `tid` are the witnesses of the postcondition.
    assert rid !in old(ids.issued) && ids.issued == old(ids.issued) + {rid};
    assert tid !in old(queue.issued) && queue.issued == old(queue.issued) + {tid};
    assert queue.dispatched == old(queue.dispatched) + [(tid, TaskData(user, rid))];
    assert store.saves == old(store.saves) + [report, queued];
    assert store.reports == old(store.reports)[rid := queued];
  }

  /** The record as the second save leaves it: still pending, now with its task id. */
  function Queued(reportId: string, user: string, taskId: string, now: Instant): Report {
    NewReport(reportId, user, taskId, Some(Pending), now)
  }

  /** The answer to a submission: status 200 with both new ids. */
  function Submitted(reportId: string, taskId: string): (resp: Response)
    ensures resp.status == 200 && resp.body.JObj?
    ensures resp.body.fields.Keys == {"msg", "report_id", "task_id"}
    ensures resp.body.fields["msg"] == JStr("report task submitted successfully")
    ensures resp.body.fields["report_id"] == JStr(reportId) && resp.body.fields["task_id"] == JStr(taskId)
  {
    Response(200, JObj(map["msg" := JStr("report task submitted successfully"), "report_id" := JStr(reportId), "task_id" := JStr(taskId)]))
  }

  // ----- Serialisation -----

  function OptionalTime(t: Option<Instant>): Json {
    if t.Some? then JTime(t.value) else JNull
  }

  function OptionalText(s: Option<string>): Json {
    if s.Some? then JStr(s.value) else JNull
  }

  /** `ReportResponseSchema().dump(report)`. */
  function ReportJson(r: Report): (j: Json)
    ensures j.JObj?
    ensures j.fields.Keys == {"id", "task_id", "user", "status", "created_at", "completed_at", "result_data", "error_message"}
    ensures j.fields["id"] == JStr(r.id) && j.fields["status"] == JStr(StatusName(r.status))
  {
    JObj(map[
      "id" := JStr(r.id),
      "task_id" := JStr(r.taskId),
      "user" := JStr(r.user),
      "status" := JStr(StatusName(r.status)),
      "created_at" := JTime(r.createdAt),
      "completed_at" := OptionalTime(r.completedAt),
      "result_data" := r.resultData,
      "error_message" := OptionalText(r.errorMessage)])
  }

  /** `ReportListItemSchema().dump(report)`: neither the owner nor the outcome. */
  function ListItemJson(r: Report): (j: Json)
    ensures j.JObj?
    ensures j.fields.Keys == {"id", "task_id", "status", "created_at", "completed_at"}
    ensures j.fields["id"] == JStr(r.id) && j.fields["status"] == JStr(StatusName(r.status))
  {
    JObj(map[
      "id" := JStr(r.id),
      "task_id" := JStr(r.taskId),
      "status" := JStr(StatusName(r.status)),
      "created_at" := JTime(r.createdAt),
      "completed_at" := OptionalTime(r.completedAt)])
  }

  // ----- GET /report/<report_id> -----

  /** `Report.objects(_id=report_id, user=user._id).get()`: the report with that id,
      only when the current user owns it. */
  function ReportGet(reports: map<string, Report>, reportId: string, user: string): (resp: Response)
    ensures resp.status == 200 <==> reportId in reports && reports[reportId].user == user
    ensures resp.status == 200 ==> resp.body == ReportJson(reports[reportId])
    ensures resp.status != 200 ==> resp == Msg(404, "Report not found")
  {
    if reportId in reports && reports[reportId].user == user then Response(200, ReportJson(reports[reportId]))
    else Msg(404, "Report not found")
  }

  /** A report owned by someone else answers exactly as a missing one: the
      endpoint does not reveal that the id exists. */
  lemma ReportGetHidesOthersReports(reports: map<string, Report>, reportId: string, user: string, other: Report)
    requires other.user != user
    ensures ReportGet(reports[reportId := other], reportId, user) == ReportGet(reports - {reportId}, reportId, user)
  {
  }

  // ----- GET /reports -----

  const DEFAULT_LIMIT: int := 50
  const MAX_LIMIT: int := 100

  /** The query `{'user': user}`, plus `{'status': status}` when the argument is
      present and not empty. */
  predicate Selected(r: Report, user: string, status: Option<string>) {
    r.user == user && (status.Some? && status.value != "" ==> StatusName(r.status) == status.value)
  }

  /** The documents the query matches, in natural order. */
  function Matches(docs: seq<Report>, user: string, status: Option<string>): (m: seq<Report>)
    ensures |m| <= |docs|
    ensures forall r :: r in m <==> r in docs && Selected(r, user, status)
  {
    if docs == [] then []
    else if Selected(docs[0], user, status) then [docs[0]] + Matches(docs[1..], user, status)
    else Matches(docs[1..], user, status)
  }

  /** When every document matches, the query returns them all. */
  lemma {:induction false} MatchesAll(docs: seq<Report>, user: string, status: Option<string>)
    requires forall i :: 0 <= i < |docs| ==> Selected(docs[i], user, status)
    ensures Matches(docs, user, status) == docs
  {
    if docs != [] {
      MatchesAll(docs[1..], user, status);
    }
  }

  function CreatedAt(r: Report): int {
    r.createdAt
  }

  /** `order_by('-created_at')`: newest first, each report no newer than the one before. */
  predicate NewestFirst(s: seq<Report>) {
    Descending(s, CreatedAt)
  }

  /** Sorting newest first; equal times keep their natural order. */
  function SortNewest(s: seq<Report>): (t: seq<Report>)
    ensures NewestFirst(t) && |t| == |s| && multiset(t) == multiset(s)
  {
    SortPermutes(s, CreatedAt);
    SortDescending(s, CreatedAt)
  }

  /** The reports the endpoint lists for an effective limit. */
  function Listing(docs: seq<Report>, user: string, status: Option<string>, limit: int): seq<Report> {
    Limit(SortNewest(Matches(docs, user, status)), limit)
  }

  /** Only the user's reports (with the requested status) are listed, newest first. */
  lemma ListingSound(docs: seq<Report>, user: string, status: Option<string>, limit: int)
    ensures forall r :: r in Listing(docs, user, status, limit) ==> r in docs && Selected(r, user, status)
    ensures NewestFirst(Listing(docs, user, status, limit))
  {
    var sorted := SortNewest(Matches(docs, user, status));
    var t := Listing(docs, user, status, limit);
    assert t == sorted[..|t|];
    DescendingPrefix(sorted, CreatedAt, |t|);
    forall x | x in t
      ensures x in docs && Selected(x, user, status)
    {
      assert x in multiset(sorted);
    }
  }

  /** The listing keeps the newest matches: a matching report left out is no
      newer than any listed one. */
  lemma ListingKeepsNewest(docs: seq<Report>, user: string, status: Option<string>, limit: int, r: Report, x: Report)
    requires r in docs && Selected(r, user, status) && r !in Listing(docs, user, status, limit)
    requires x in Listing(docs, user, status, limit)
    ensures x.createdAt >= r.createdAt
  {
    var sorted := SortNewest(Matches(docs, user, status));
    var t := Listing(docs, user, status, limit);
    assert t == sorted[..|t|];
    assert r in multiset(sorted);
    var k :| 0 <= k < |sorted| && sorted[k] == r;
    var i :| 0 <= i < |t| && t[i] == x;
    assert k >= |t|;
    DescendingAt(sorted, CreatedAt, i, k);
  }

  /** With no limit, or one at least as large as the number of matches, every
      matching report is listed. */
  lemma ListingComplete(docs: seq<Report>, user: string, status: Option<string>, limit: int)
    requires limit == 0 || Abs(limit) >= |Matches(docs, user, status)|
    ensures multiset(Listing(docs, user, status, limit)) == multiset(Matches(docs, user, status))
  {
    var sorted := SortNewest(Matches(docs, user, status));
    assert Listing(docs, user, status, limit) == sorted;
  }

  /** `{'reports': [...], 'count': len(reports)}`. */
  function ListJson(t: seq<Report>): (j: Json)
    ensures j.JObj? && j.fields.Keys == {"reports", "count"}
    ensures j.fields["count"] == JInt(|t|)
    ensures j.fields["reports"].JArr? && |j.fields["reports"].items| == |t|
    ensures forall i :: 0 <= i < |t| ==> j.fields["reports"].items[i] == ListItemJson(t[i])
  {
    JObj(map[
      "reports" := JArr(seq(|t|, i requires 0 <= i < |t| => ListItemJson(t[i]))),
      "count" := JInt(|t|)])
  }

  /** `int(request.args.get('limit', 50))`. */
  function LimitArgument(arg: QueryInt): (r: Result<int, Exception>)
    ensures arg.Absent? ==> r == Ok(DEFAULT_LIMIT)
    ensures arg.Integer? ==> r == Ok(arg.n)
    ensures arg.Malformed? ==> r.Err? && r.error.ValueError?
  {
    match arg
    case Absent => Ok(DEFAULT_LIMIT)
    case Integer(n) => Ok(n)
    case Malformed(text) => Err(ValueError("invalid literal for int() with base 10: '" + text + "'"))
  }

  /** `min(int(...), 100)`, as written: zero and negative values pass through. */
  function EffectiveLimitAsWritten(n: int): (l: int)
    ensures l <= MAX_LIMIT && (l == n || l == MAX_LIMIT)
  {
    if n < MAX_LIMIT then n else MAX_LIMIT
  }

  /** The limit clamped to 1..100, as the cap evidently intends. */
  function EffectiveLimit(n: int): (l: int)
    ensures 1 <= l <= MAX_LIMIT
    ensures 1 <= n <= MAX_LIMIT ==> l == n
  {
    if n < 1 then 1 else if n > MAX_LIMIT then MAX_LIMIT else n
  }

  /** `reports_list` as written. */
  function ReportsListAsWritten(docs: seq<Report>, user: string, status: Option<string>, limitArg: QueryInt): (r: Result<Response, Exception>)
    ensures r.Err? <==> limitArg.Malformed?
    ensures r.Ok? ==> (r.value.status == 200
      && r.value.body == ListJson(Listing(docs, user, status, EffectiveLimitAsWritten(LimitArgument(limitArg).value))))
  {
    var n := LimitArgument(limitArg);
    if n.Err? then Err(n.error)
    else Ok(Response(200, ListJson(Listing(docs, user, status, EffectiveLimitAsWritten(n.value)))))
  }

  /** `reports_list` with the limit clamped to 1..100. */
  function ReportsList(docs: seq<Report>, user: string, status: Option<string>, limitArg: QueryInt): (r: Result<Response, Exception>)
    ensures r.Err? <==> limitArg.Malformed?
    ensures r.Ok? ==> (r.value.status == 200
      && r.value.body == ListJson(Listing(docs, user, status, EffectiveLimit(LimitArgument(limitArg).value))))
  {
    var n := LimitArgument(limitArg);
    if n.Err? then Err(n.error)
    else Ok(Response(200, ListJson(Listing(docs, user, status, EffectiveLimit(n.value)))))
  }

  /** The corrected listing never holds more than 100 reports, and the default
      lists the 50 newest (all, when there are fewer). */
  lemma ReportsListCapped(docs: seq<Report>, user: string, status: Option<string>, limitArg: QueryInt)
    requires limitArg.Integer? || limitArg.Absent?
    ensures ReportsList(docs, user, status, limitArg).Ok?
    ensures |Listing(docs, user, status, EffectiveLimit(LimitArgument(limitArg).value))| <= MAX_LIMIT
    ensures limitArg.Absent? ==>
      |Listing(docs, user, status, EffectiveLimit(LimitArgument(limitArg).value))|
        == if |Matches(docs, user, status)| < DEFAULT_LIMIT then |Matches(docs, user, status)| else DEFAULT_LIMIT
  {
  }

  /** A report of `user` created at the same instant as the others. */
  function SampleReport(i: nat, user: string): Report {
    NewReport(ObjectId(i), user, "", None, 0)
  }

  /** As written, `limit=0` lifts the cap: a user with 101 reports gets all 101. */
  lemma LimitZeroExceedsCap(user: string)
    ensures var docs := seq(101, i requires 0 <= i < 101 => SampleReport(i, user));
      var r := ReportsListAsWritten(docs, user, None, Integer(0));
      r.Ok? && r.value.body.fields["count"] == JInt(101)
  {
    var docs := seq(101, i requires 0 <= i < 101 => SampleReport(i, user));
    MatchesAll(docs, user, None);
    assert EffectiveLimitAsWritten(0) == 0;
  }
}
