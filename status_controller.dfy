/**
 * `get_status(job_id)`: the reply of the `/status` endpoint, read from the
 * job store. A reply with an `error` field makes the route raise an HTTP
 * error with its `code`.
 */
module StatusController {
  import opened Wrappers
  import opened Json
  import opened Outcomes
  import opened TempDb

  /** The reply to an empty job id. */
  const JobIdRequired: Json := JObj([("error", JStr("Job ID is required")), ("code", JInt(400))])

  /** The reply when the store has no data for the job. */
  function NotFound(jobId: string): Json {
    JObj([("id", JStr(jobId)), ("status", JStr("not_found")), ("message", JStr("Job " + jobId + " not found"))])
  }

  /** The reply when the job's data is not a dict, so that `job_data.get` raises `AttributeError`. */
  function NoGetAttribute(job: Json): Json {
    JObj([("error", JStr("'" + TypeName(job) + "' object has no attribute 'get'")), ("code", JInt(500))])
  }

  /** The reply for a job whose data is a dict. */
  function StatusBody(jobId: string, status: Json, result: Json, createdAt: Json): Json {
    JObj([("id", JStr(jobId)), ("status", status), ("result", result), ("created_at", createdAt)])
  }

  /** Which replies carry an `error` field. */
  lemma ReplyKeys(jobId: string)
    ensures HasKey(JobIdRequired.fields, "error")
    ensures forall job :: HasKey(NoGetAttribute(job).fields, "error")
    ensures !HasKey(NotFound(jobId).fields, "error")
  {
    assert JobIdRequired.fields[0].0 == "error";
    forall job ensures HasKey(NoGetAttribute(job).fields, "error") {
      assert NoGetAttribute(job).fields[0].0 == "error";
    }
    var f := NotFound(jobId).fields;
    assert |f[0].0| == 2 && |f[1].0| == 6 && |f[2].0| == 7;
  }

  /** The fields of a status body, looked up by name. */
  lemma StatusBodyFields(jobId: string, status: Json, result: Json, createdAt: Json)
    ensures var f := StatusBody(jobId, status, result, createdAt).fields;
      Get(f, "id") == Some(JStr(jobId)) && Get(f, "status") == Some(status) &&
      Get(f, "result") == Some(result) && Get(f, "created_at") == Some(createdAt) && !HasKey(f, "error")
  {
    var f := StatusBody(jobId, status, result, createdAt).fields;
    assert |f[0].0| == 2 && |f[1].0| == 6 && |f[2].0| == 6 && |f[3].0| == 10;
    assert f[1].0[0] == 's' && f[2].0[0] == 'r';
    assert f[1..][1..] == f[2..];
    assert f[2..][1..] == f[3..];
    assert Get(f, "result") == Get(f[1..], "result") == Get(f[2..], "result");
    assert Get(f, "created_at") == Get(f[1..], "created_at") == Get(f[2..], "created_at") == Get(f[3..], "created_at");
  }

  /**
   * `get_status(job_id)`, reading the job through `get_job` with the given
   * outcome. It writes nothing.
   */
  function GetStatus(backend: map<string, JobItem>, local: map<string, LocalJob>, jobId: string, outcome: Outcome): (r: Json)
    ensures r.JObj?
    ensures HasKey(r.fields, "error") <==>
      jobId == "" || (GetJobFrom(backend, local, jobId, outcome) != JNull && !GetJobFrom(backend, local, jobId, outcome).JObj?)
    ensures jobId != "" && GetJobFrom(backend, local, jobId, outcome) == JNull ==> r == NotFound(jobId)
    ensures jobId != "" && GetJobFrom(backend, local, jobId, outcome).JObj? ==>
      var fields := GetJobFrom(backend, local, jobId, outcome).fields;
      Get(r.fields, "id") == Some(JStr(jobId)) &&
      Get(r.fields, "status") == Some(GetOr(fields, "status", JStr("unknown"))) &&
      Get(r.fields, "result") == Some(GetOr(fields, "result", JNull)) &&
      Get(r.fields, "created_at") == Some(GetOr(fields, "created_at", JNull))
  {
    ReplyKeys(jobId);
    if jobId == "" then JobIdRequired
    else
      var job := GetJobFrom(backend, local, jobId, outcome);
      if job == JNull then NotFound(jobId)
      else if !job.JObj? then NoGetAttribute(job)
      else
        StatusBodyFields(jobId, GetOr(job.fields, "status", JStr("unknown")), GetOr(job.fields, "result", JNull),
                         GetOr(job.fields, "created_at", JNull));
        StatusBody(jobId, GetOr(job.fields, "status", JStr("unknown")), GetOr(job.fields, "result", JNull),
                      GetOr(job.fields, "created_at", JNull))
  }

  /**
   * The status reply reads the job's data alone, so an update of the job's
   * status leaves it unchanged, except where the update creates a table item
   * without data: a successful read then reports status `unknown`.
   */
  lemma UpdateKeepsStatus(backend: map<string, JobItem>, local: map<string, LocalJob>, jobId: string,
                          status: string, result: Json, updatedAt: string, readOutcome: Outcome)
    requires jobId != ""
    ensures var item := UpdatedItem(if jobId in backend then backend[jobId] else NoItem, status, result, updatedAt);
      GetStatus(backend[jobId := item], local, jobId, readOutcome) ==
        if jobId !in backend && readOutcome.Succeeded? then StatusBody(jobId, JStr("unknown"), JNull, JNull)
        else GetStatus(backend, local, jobId, readOutcome)
    ensures jobId in local ==>
      GetStatus(backend, local[jobId := UpdatedRecord(local[jobId], status, result)], jobId, readOutcome) ==
        GetStatus(backend, local, jobId, readOutcome)
  {
    UpdateKeepsJobData(backend, local, jobId, status, result, updatedAt, jobId, readOutcome);
  }
}
