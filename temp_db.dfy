/**
 * Job records kept by id: a durable table (`backend`, whose items hold the
 * job's data as JSON text) and the in-memory fallback `_local_db`
 * (`local`). Each table call ends with an `Outcome`; the clock is a
 * parameter. `get_job`'s `None` is `JNull`, as is an absent `result`.
 */
module TempDb {
  import opened Wrappers
  import opened Json
  import opened JsonCodec
  import opened Outcomes

  /** A table item's attributes besides its key; an attribute the item lacks is `None`. */
  datatype JobItem = JobItem(data: Option<string>, createdAt: Option<string>, ttl: Option<int>,
                             status: Option<string>, result: Option<string>, updatedAt: Option<string>)

  /** A fallback record: the job's data, when it was saved, and what `update_job_status` added. */
  datatype LocalJob = LocalJob(data: Json, createdAt: string, status: Option<string>, result: Option<Json>)

  /** Seven days, in seconds: how long a saved job is kept. */
  const JobTtl: int := 7 * 24 * 60 * 60

  /** The item `save_job` puts, replacing any item the id had. */
  function SavedJob(data: Json, createdAt: string, now: int): JobItem {
    JobItem(Some(Encode(data, true)), Some(createdAt), Some(now + JobTtl), None, None, None)
  }

  /** The item an update of a missing id creates: only the attributes the update sets. */
  const NoItem: JobItem := JobItem(None, None, None, None, None, None)

  /** `SET status, updated_at` and, for a truthy result, `result`, on the item. */
  function UpdatedItem(item: JobItem, status: string, result: Json, updatedAt: string): (r: JobItem)
    ensures r.data == item.data && r.createdAt == item.createdAt && r.ttl == item.ttl
    ensures r.status == Some(status) && r.updatedAt == Some(updatedAt)
    ensures r.result == if Truthy(result) then Some(Encode(result, true)) else item.result
  {
    item.(status := Some(status), updatedAt := Some(updatedAt),
          result := if Truthy(result) then Some(Encode(result, true)) else item.result)
  }

  /**
   * What `get_job(job_id)` returns. A successful read decides alone: the
   * decoded `data` (text `{}` when the item has none), `None` when there is
   * no item. A failed call or text that is not JSON falls back to the
   * local record's data, or `None`.
   */
  function GetJobFrom(backend: map<string, JobItem>, local: map<string, LocalJob>, jobId: string, outcome: Outcome): (r: Json)
    ensures !outcome.Succeeded? ==> r == (if jobId in local then local[jobId].data else JNull)
    ensures outcome.Succeeded? && jobId !in backend ==> r == JNull
  {
    var fallback := if jobId in local then local[jobId].data else JNull;
    if !outcome.Succeeded? then fallback
    else if jobId !in backend then JNull
    else match Loads(backend[jobId].data.GetOr("{}"))
      case Some(v) => v
      case None => fallback
  }

  class JobStore {
    var backend: map<string, JobItem>
    var local: map<string, LocalJob>

    /** A store over an existing table, with an empty fallback. */
    constructor (table: map<string, JobItem>)
      ensures backend == table && local == map[]
    {
      backend := table;
      local := map[];
    }

    /**
     * `save_job(job_id, data)`: always `True`. A successful put replaces the
     * item; any failure writes the fallback record instead.
     */
    method SaveJob(jobId: string, data: Json, createdAt: string, now: int, outcome: Outcome) returns (ok: bool)
      modifies this
      ensures ok
      ensures outcome.Succeeded? ==> backend == old(backend)[jobId := SavedJob(data, createdAt, now)] && local == old(local)
      ensures !outcome.Succeeded? ==> backend == old(backend) && local == old(local)[jobId := LocalJob(data, createdAt, None, None)]
    {
      if outcome.Succeeded? {
        var item := JobItem(Some(Encode(data, true)), Some(createdAt), Some(now + JobTtl), None, None, None);
        backend := backend[jobId := item];
        return true;
      }
      local := local[jobId := LocalJob(data, createdAt, None, None)];
      return true;
    }

    /** `get_job(job_id)`: reads one tier, changes nothing. */
    method GetJob(jobId: string, outcome: Outcome) returns (r: Json)
      ensures r == GetJobFrom(backend, local, jobId, outcome)
    {
      if outcome.Succeeded? {
        if jobId !in backend {
          return JNull;
        }
        var decoded := Loads(backend[jobId].data.GetOr("{}"));
        if decoded.Some? {
          return decoded.value;
        }
      }
      if jobId in local {
        return local[jobId].data;
      }
      return JNull;
    }

    /**
     * `update_job_status(job_id, status, result)`. A successful update sets
     * the attributes on the item, creating it when the id has none. On
     * `ClientError` only an existing fallback record changes; any other
     * failure changes nothing and gives `False`.
     */
    method UpdateJobStatus(jobId: string, status: string, result: Json, updatedAt: string, outcome: Outcome) returns (ok: bool)
      modifies this
      ensures ok <==> !outcome.OtherError?
      ensures outcome.Succeeded? ==> local == old(local)
      ensures outcome.Succeeded? ==>
        backend == old(backend)[jobId := UpdatedItem(if jobId in old(backend) then old(backend)[jobId] else NoItem, status, result, updatedAt)]
      ensures outcome.ClientError? ==> backend == old(backend)
      ensures outcome.ClientError? ==>
        local == if jobId in old(local) then old(local)[jobId := UpdatedRecord(old(local)[jobId], status, result)] else old(local)
      ensures outcome.OtherError? ==> backend == old(backend) && local == old(local)
    {
      if outcome.Succeeded? {
        var item := if jobId in backend then backend[jobId] else NoItem;
        item := item.(status := Some(status), updatedAt := Some(updatedAt));
        if Truthy(result) {
          item := item.(result := Some(Encode(result, true)));
        }
        backend := backend[jobId := item];
        return true;
      }
      if outcome.ClientError? {
        if jobId in local {
          var record := local[jobId].(status := Some(status));
          if Truthy(result) {
            record := record.(result := Some(result));
          }
          local := local[jobId := record];
        }
        return true;
      }
      return false;
    }

    /**
     * `delete_job(job_id)`. A successful delete removes the item and leaves
     * any fallback record; on `ClientError` the fallback record goes; any
     * other failure changes nothing and gives `False`.
     */
    method DeleteJob(jobId: string, outcome: Outcome) returns (ok: bool)
      modifies this
      ensures ok <==> !outcome.OtherError?
      ensures outcome.Succeeded? ==> backend == old(backend) - {jobId} && local == old(local)
      ensures outcome.ClientError? ==> backend == old(backend) && local == old(local) - {jobId}
      ensures outcome.OtherError? ==> backend == old(backend) && local == old(local)
    {
      if outcome.Succeeded? {
        backend := backend - {jobId};
        return true;
      }
      if outcome.ClientError? {
        if jobId in local {
          local := local - {jobId};
        }
        return true;
      }
      return false;
    }
  }

  /** The fallback record after `update_job_status` on `ClientError`. */
  function UpdatedRecord(record: LocalJob, status: string, result: Json): (r: LocalJob)
    ensures r.data == record.data && r.createdAt == record.createdAt
    ensures r.status == Some(status)
    ensures r.result == if Truthy(result) then Some(result) else record.result
  {
    record.(status := Some(status), result := if Truthy(result) then Some(result) else record.result)
  }

  /** Saving a job and reading it back, with the table behaving the same both times, gives its data. */
  lemma SaveThenGetJob(backend: map<string, JobItem>, local: map<string, LocalJob>, jobId: string,
                       data: Json, createdAt: string, now: int, outcome: Outcome)
    requires WellFormed(data)
    ensures outcome.Succeeded? ==> GetJobFrom(backend[jobId := SavedJob(data, createdAt, now)], local, jobId, outcome) == data
    ensures !outcome.Succeeded? ==> GetJobFrom(backend, local[jobId := LocalJob(data, createdAt, None, None)], jobId, outcome) == data
  {
    LoadsDumps(data, true);
  }

  /** The text `{}` that stands in for a missing `data` attribute decodes to the empty dict. */
  lemma EmptyObjectText()
    ensures Loads("{}") == Some(JObj([]))
  {
    assert WellFormed(JObj([]));
    LoadsDumps(JObj([]), true);
    assert Encode(JObj([]), true) == "{}";
  }

  /**
   * `get_job` reads the data alone, so `update_job_status` leaves what it
   * returns unchanged, for every id and every later outcome, with one
   * exception: a successful update of an id the table lacks creates an item
   * without data, which a successful read then returns as `{}` where it
   * returned `None` before.
   */
  lemma UpdateKeepsJobData(backend: map<string, JobItem>, local: map<string, LocalJob>, jobId: string,
                           status: string, result: Json, updatedAt: string, readId: string, readOutcome: Outcome)
    ensures var item := UpdatedItem(if jobId in backend then backend[jobId] else NoItem, status, result, updatedAt);
      GetJobFrom(backend[jobId := item], local, readId, readOutcome) ==
        if readId == jobId && jobId !in backend && readOutcome.Succeeded? then JObj([])
        else GetJobFrom(backend, local, readId, readOutcome)
    ensures jobId in local ==>
      GetJobFrom(backend, local[jobId := UpdatedRecord(local[jobId], status, result)], readId, readOutcome) ==
        GetJobFrom(backend, local, readId, readOutcome)
  {
    if readId == jobId && jobId !in backend && readOutcome.Succeeded? {
      EmptyObjectText();
    }
  }

  /** After a successful delete a successful read finds nothing, even when a fallback record is left. */
  lemma DeleteThenGetJob(backend: map<string, JobItem>, local: map<string, LocalJob>, jobId: string)
    ensures GetJobFrom(backend - {jobId}, local, jobId, Succeeded) == JNull
  {
  }
}
