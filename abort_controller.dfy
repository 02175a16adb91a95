/**
 * `abort(job_id)`: the `/abort` endpoint. It reads the job, refuses a job
 * already finished, and otherwise marks it `aborted` in the job store.
 */
module AbortController {
  import opened Wrappers
  import opened Json
  import opened Outcomes
  import opened TempDb
  import opened StatusController

  /** The statuses a job cannot be aborted from. */
  const Finished: seq<Json> := [JStr("completed"), JStr("error"), JStr("aborted")]

  /** The result recorded with an abort. */
  const AbortReason: Json := JObj([("reason", JStr("User requested abort"))])

  /** `job_data.get("status", "unknown")` */
  function CurrentStatus(fields: Dict): Json {
    GetOr(fields, "status", JStr("unknown"))
  }

  /** The job is found, is a dict, and its status is not a finished one: `abort` updates it. */
  predicate Abortable(jobId: string, job: Json) {
    jobId != "" && job.JObj? && CurrentStatus(job.fields) !in Finished
  }

  /** The reply to an abort of a job already finished. */
  function CannotAbort(jobId: string, status: string): Json {
    JObj([("id", JStr(jobId)), ("status", JStr(status)),
          ("message", JStr("Job cannot be aborted - current status: " + status))])
  }

  /** The reply to an abort that went ahead. */
  function AbortedReply(jobId: string): Json {
    JObj([("id", JStr(jobId)), ("status", JStr("aborted")), ("message", JStr("Job aborted successfully"))])
  }

  /** The reply of `abort(job_id)` once `get_job` has returned `job`. */
  function AbortReply(jobId: string, job: Json): (r: Json)
    ensures r.JObj?
    ensures HasKey(r.fields, "error") <==> jobId == "" || (job != JNull && !job.JObj?)
    ensures Abortable(jobId, job) ==> r == AbortedReply(jobId)
    ensures jobId != "" && job.JObj? && CurrentStatus(job.fields) in Finished ==>
      r == CannotAbort(jobId, CurrentStatus(job.fields).s)
  {
    ReplyKeys(jobId);
    AbortReplyKeys(jobId);
    if jobId == "" then JobIdRequired
    else if job == JNull then NotFound(jobId)
    else if !job.JObj? then NoGetAttribute(job)
    else
      var status := CurrentStatus(job.fields);
      if status in Finished then CannotAbort(jobId, status.s)
      else AbortedReply(jobId)
  }

  /** Neither of the two statuses replies carries an `error` field. */
  lemma AbortReplyKeys(jobId: string)
    ensures forall status :: !HasKey(CannotAbort(jobId, status).fields, "error")
    ensures !HasKey(AbortedReply(jobId).fields, "error")
  {
    forall status ensures !HasKey(CannotAbort(jobId, status).fields, "error") {
      var f := CannotAbort(jobId, status).fields;
      assert |f[0].0| == 2 && |f[1].0| == 6 && |f[2].0| == 7;
    }
    var f := AbortedReply(jobId).fields;
    assert |f[0].0| == 2 && |f[1].0| == 6 && |f[2].0| == 7;
  }

  /**
   * `abort(job_id)` against the job store, with the outcomes of its
   * `get_job` and `update_job_status` calls. Only an abortable job changes,
   * and it changes exactly as `update_job_status(job_id, "aborted", reason)`
   * would change it; the reply does not depend on that update's outcome.
   */
  method Abort(store: JobStore, jobId: string, getOutcome: Outcome, updateOutcome: Outcome, updatedAt: string)
    returns (r: Json)
    modifies store
    ensures r == AbortReply(jobId, GetJobFrom(old(store.backend), old(store.local), jobId, getOutcome))
    ensures !Abortable(jobId, GetJobFrom(old(store.backend), old(store.local), jobId, getOutcome)) ==>
      store.backend == old(store.backend) && store.local == old(store.local)
    ensures Abortable(jobId, GetJobFrom(old(store.backend), old(store.local), jobId, getOutcome)) && updateOutcome.Succeeded? ==>
      store.local == old(store.local) &&
      store.backend == old(store.backend)[jobId := UpdatedItem(if jobId in old(store.backend) then old(store.backend)[jobId] else NoItem,
                                                                "aborted", AbortReason, updatedAt)]
    ensures Abortable(jobId, GetJobFrom(old(store.backend), old(store.local), jobId, getOutcome)) && updateOutcome.ClientError? ==>
      store.backend == old(store.backend) &&
      store.local == if jobId in old(store.local) then old(store.local)[jobId := UpdatedRecord(old(store.local)[jobId], "aborted", AbortReason)]
                     else old(store.local)
    ensures updateOutcome.OtherError? ==> store.backend == old(store.backend) && store.local == old(store.local)
  {
    if jobId == "" {
      return JobIdRequired;
    }
    var job := store.GetJob(jobId, getOutcome);
    r := AbortReply(jobId, job);
    if Abortable(jobId, job) {
      var _ := store.UpdateJobStatus(jobId, "aborted", AbortReason, updatedAt, updateOutcome);
    }
  }

  /**
   * An abort whose read succeeded never creates a table item, so the next
   * successful status read reports the job's data status as before: the
   * store's `aborted` status is not what `/status` shows.
   */
  lemma AbortNotVisibleInStatus(backend: map<string, JobItem>, local: map<string, LocalJob>, jobId: string,
                                updatedAt: string, readOutcome: Outcome)
    requires Abortable(jobId, GetJobFrom(backend, local, jobId, Succeeded))
    ensures var item := UpdatedItem(backend[jobId], "aborted", AbortReason, updatedAt);
      GetStatus(backend[jobId := item], local, jobId, readOutcome) == GetStatus(backend, local, jobId, readOutcome)
  {
    UpdateKeepsStatus(backend, local, jobId, "aborted", AbortReason, updatedAt, readOutcome);
  }

  /** Repeating an abort after the status the job's data reports became `aborted` is refused. */
  lemma AbortedIsFinal(jobId: string, fields: Dict)
    requires jobId != "" && Get(fields, "status") == Some(JStr("aborted"))
    ensures !Abortable(jobId, JObj(fields))
    ensures AbortReply(jobId, JObj(fields)) == CannotAbort(jobId, "aborted")
  {
    assert CurrentStatus(fields) == Finished[2];
  }
}
