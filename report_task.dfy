/** The `process_report` background task: it looks up the report record,
    marks it running, builds the report and records the outcome. */
module ReportTask {

  import opened Common
  import opened Calendar
  import opened ReportModel

  /** The `task_data` dict the task receives. */
  datatype TaskData = TaskData(userId: string, reportId: string)

  /** What `build_report` does: return a value, or raise an exception whose
      `str()` is `message`. The value is stored in the `result_data`
      DictField, which takes a dict: a `Built` result is a JSON object in
      every run (the real `build_report` returns the mock dict). A non-object
      would be refused by the final `save()` with a ValidationError that
      leaves the task; that case is not modelled. */
  datatype WorkOutcome = Built(result: Json) | Raised(message: string)

  /** The dict the task returns. */
  datatype TaskResult = TaskCompleted(reportId: string) | TaskFailed(error: string)

  function TaskResultJson(t: TaskResult): (j: Json)
    ensures j.JObj? && "status" in j.fields
    ensures j.fields["status"] == JStr(if t.TaskCompleted? then "completed" else "failed")
  {
    match t
    case TaskCompleted(id) => JObj(map["status" := JStr("completed"), "report_id" := JStr(id)])
    case TaskFailed(e) => JObj(map["status" := JStr("failed"), "error" := JStr(e)])
  }

  /** The mock input every run builds from. */
  const MOCK_DATA: Json := JObj(map["foo" := JStr("bar")])

  /** `build_report`: after simulated work, the data comes back unchanged. */
  function BuildReport(data: Json): (o: WorkOutcome)
    ensures o == Built(data)
  {
    Built(data)
  }

  /** The first save: only the status changes, to running. */
  function Started(r: Report): (s: Report)
    ensures s.status == Running
    ensures s.(status := r.status) == r
  {
    r.(status := Running)
  }

  /** The second save. A success sets the status, the completion time and the
      result; a failure sets the status and the message and nothing else. */
  function Finished(r: Report, o: WorkOutcome, now: Instant): (f: Report)
    ensures o.Built? ==> f == r.(status := Completed, completedAt := Some(now), resultData := o.result)
    ensures o.Raised? ==> f == r.(status := Failed, errorMessage := Some(o.message))
  {
    match o
    case Built(j) => r.(status := Completed, completedAt := Some(now), resultData := j)
    case Raised(m) => r.(status := Failed, errorMessage := Some(m))
  }

  /** The value the task returns once the report was found. */
  function Outcome(reportId: string, o: WorkOutcome): (t: TaskResult)
    ensures o.Built? <==> t == TaskCompleted(reportId)
    ensures o.Raised? ==> t == TaskFailed(o.message)
  {
    match o
    case Built(_) => TaskCompleted(reportId)
    case Raised(m) => TaskFailed(m)
  }

  /** `process_report(task_data)`. `build` stands for `build_report`, which may
      raise; `now` is the clock reading taken on completion. A missing record
      leaves the store untouched; a found one is saved twice, first running,
      then finished. A `Built` result is taken to be a dict (see
      `WorkOutcome`). */
  method ProcessReport(store: ReportStore, task: TaskData, build: Json -> WorkOutcome, now: Instant)
    returns (res: TaskResult)
    requires store.Valid()
    modifies store
    ensures store.Valid() && store.order == old(store.order)
    ensures task.reportId !in old(store.reports) ==>
      res == TaskFailed("Report not found")
      && store.reports == old(store.reports) && store.saves == old(store.saves)
    ensures task.reportId in old(store.reports) ==>
      var r := old(store.reports)[task.reportId];
      var f := Finished(Started(r), build(MOCK_DATA), now);
      && res == Outcome(task.reportId, build(MOCK_DATA))
      && store.reports == old(store.reports)[task.reportId := f]
      && store.saves == old(store.saves) + [Started(r), f]
  {
    if task.reportId !in store.reports {
      return TaskFailed("Report not found");
    }
    var report := store.reports[task.reportId];
    report := report.(status := Running);
    store.Save(report);
    var outcome := build(MOCK_DATA);
    if outcome.Raised? {
      report := report.(status := Failed, errorMessage := Some(outcome.message));
      store.Save(report);
      return TaskFailed(outcome.message);
    }
    report := report.(status := Completed, completedAt := Some(now), resultData := outcome.result);
    store.Save(report);
    res := TaskCompleted(task.reportId);
  }

  /** The fields of a record agree with its status: a completed report has a
      completion time and no error, a failed one an error and the default
      result, and one not yet finished neither. */
  predicate Consistent(r: Report) {
    match r.status
    case Pending => r.completedAt.None? && r.resultData == JObj(map[]) && r.errorMessage.None?
    case Running => r.completedAt.None? && r.resultData == JObj(map[]) && r.errorMessage.None?
    case Completed => r.completedAt.Some? && r.errorMessage.None?
    case Failed => r.completedAt.None? && r.resultData == JObj(map[]) && r.errorMessage.Some?
  }

  /** A record created by the submit endpoint and then processed once moves
      forward through the lifecycle and stays consistent at every save. */
  lemma FirstRunKeepsConsistency(r: Report, o: WorkOutcome, now: Instant)
    requires Consistent(r) && r.status == Pending
    ensures Consistent(Started(r)) && Advances(r.status, Started(r).status)
    ensures Consistent(Finished(Started(r), o, now))
    ensures Advances(Started(r).status, Finished(Started(r), o, now).status)
    ensures IsTerminal(Finished(Started(r), o, now).status)
  {
  }

  /** With the real `build_report` the run always completes, storing the mock
      data as the result. */
  lemma BuildReportCompletes(r: Report, now: Instant)
    ensures Finished(Started(r), BuildReport(MOCK_DATA), now).resultData == MOCK_DATA
    ensures Outcome(r.id, BuildReport(MOCK_DATA)) == TaskCompleted(r.id)
  {
  }

  /** Nothing guards against running the task again for a report already
      completed: the status goes back to running, and a failure then leaves
      the old completion time and result in a failed record. */
  lemma RerunAfterCompletion(r: Report, message: string, now: Instant)
    requires r.status == Completed && Consistent(r)
    ensures !Advances(r.status, Started(r).status)
    ensures !Consistent(Finished(Started(r), Raised(message), now))
  {
  }
}
