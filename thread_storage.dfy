/**
 * Conversation threads kept by id: a durable table (`backend`, one item per
 * thread holding the JSON text of its messages) and the in-memory fallback
 * `_local_threads` (`local`). Each backend call ends with an `Outcome`; the
 * fresh id (`uuid4`) and the clock are parameters.
 */
module ThreadStorage {
  import opened Wrappers
  import opened Json
  import opened JsonCodec
  import opened Outcomes

  /** A table item: the `messages` text, `message_count`, `updated_at` and `ttl`. */
  datatype ThreadItem = ThreadItem(messages: Option<string>, messageCount: int, updatedAt: string, ttl: int)

  /** Thirty days, in seconds: how long a saved thread is kept. */
  const ThreadTtl: int := 30 * 24 * 60 * 60

  /** The table item `save_thread` writes. */
  function SavedItem(messages: seq<Json>, updatedAt: string, now: int): ThreadItem {
    ThreadItem(Some(Encode(JArr(messages), false)), |messages|, updatedAt, now + ThreadTtl)
  }

  /**
   * What `get_thread(thread_id)` returns. On a successful read the table
   * decides alone: its decoded value when that has a length (a list, string
   * or dict), `[]` when the item is missing. A failed call, text that is not
   * JSON, and a value without a length (the `len` raises) all fall back to
   * `_local_threads.get(thread_id, [])`.
   */
  function GetThreadFrom(backend: map<string, ThreadItem>, local: map<string, seq<Json>>,
                         threadId: string, outcome: Outcome): (r: Json)
    ensures threadId == "" ==> r == JArr([])
    ensures threadId != "" && !outcome.Succeeded? ==> r == JArr(if threadId in local then local[threadId] else [])
    ensures threadId != "" && outcome.Succeeded? && threadId !in backend ==> r == JArr([])
  {
    var fallback := JArr(if threadId in local then local[threadId] else []);
    if threadId == "" then JArr([])
    else if !outcome.Succeeded? then fallback
    else if threadId !in backend then JArr([])
    else match Loads(backend[threadId].messages.GetOr("[]"))
      case Some(v) => if v.JArr? || v.JStr? || v.JObj? then v else fallback
      case None => fallback
  }

  /** The id `save_thread` stores under: the given one, or a fresh one when it is empty or `None`. */
  function SaveId(threadId: Option<string>, freshId: string): string {
    if threadId.Some? && threadId.value != "" then threadId.value else freshId
  }

  class ThreadStore {
    var backend: map<string, ThreadItem>
    var local: map<string, seq<Json>>

    /** A store over an existing table, with an empty fallback. */
    constructor (table: map<string, ThreadItem>)
      ensures backend == table && local == map[]
    {
      backend := table;
      local := map[];
    }

    /** `get_thread(thread_id)`: reads one tier, changes nothing. */
    method GetThread(threadId: string, outcome: Outcome) returns (r: Json)
      ensures r == GetThreadFrom(backend, local, threadId, outcome)
    {
      if threadId == "" {
        return JArr([]);
      }
      if outcome.Succeeded? {
        if threadId in backend {
          var messagesJson := backend[threadId].messages.GetOr("[]");
          var messages := Loads(messagesJson);
          if messages.Some? && (messages.value.JArr? || messages.value.JStr? || messages.value.JObj?) {
            return messages.value;
          }
        } else {
          return JArr([]);
        }
      }
      if threadId in local {
        return JArr(local[threadId]);
      }
      return JArr([]);
    }

    /**
     * `save_thread(thread_id, messages)`. The id comes back under every
     * outcome; a successful put replaces the table item and leaves the
     * fallback alone, a failed one writes the fallback only.
     */
    method SaveThread(threadId: Option<string>, messages: seq<Json>, freshId: string,
                      updatedAt: string, now: int, outcome: Outcome) returns (id: string)
      modifies this
      ensures id == SaveId(threadId, freshId)
      ensures outcome.Succeeded? ==> backend == old(backend)[id := SavedItem(messages, updatedAt, now)] && local == old(local)
      ensures !outcome.Succeeded? ==> backend == old(backend) && local == old(local)[id := messages]
    {
      id := if threadId.Some? then threadId.value else "";
      if id == "" {
        id := freshId;
      }
      if outcome.Succeeded? {
        var item := ThreadItem(Some(Encode(JArr(messages), false)), |messages|, updatedAt, now + ThreadTtl);
        backend := backend[id := item];
        return id;
      }
      local := local[id := messages];
      return id;
    }

    /**
     * `delete_thread(thread_id)`: on success the thread leaves both tiers
     * and `True` comes back; an empty id or a failed call changes nothing
     * and gives `False`.
     */
    method DeleteThread(threadId: string, outcome: Outcome) returns (ok: bool)
      modifies this
      ensures ok <==> threadId != "" && outcome.Succeeded?
      ensures ok ==> backend == old(backend) - {threadId} && local == old(local) - {threadId}
      ensures !ok ==> backend == old(backend) && local == old(local)
    {
      if threadId == "" {
        return false;
      }
      if !outcome.Succeeded? {
        return false;
      }
      backend := backend - {threadId};
      if threadId in local {
        local := local - {threadId};
      }
      return true;
    }
  }

  /**
   * Saving a thread and reading it back, with the backend behaving the same
   * both times, gives the messages that were saved.
   */
  lemma SaveThenGet(backend: map<string, ThreadItem>, local: map<string, seq<Json>>, id: string,
                    messages: seq<Json>, updatedAt: string, now: int, outcome: Outcome)
    requires id != ""
    requires forall i :: 0 <= i < |messages| ==> WellFormed(messages[i])
    ensures outcome.Succeeded? ==>
      GetThreadFrom(backend[id := SavedItem(messages, updatedAt, now)], local, id, outcome) == JArr(messages)
    ensures !outcome.Succeeded? ==> GetThreadFrom(backend, local[id := messages], id, outcome) == JArr(messages)
  {
    assert WellFormed(JArr(messages));
    LoadsDumps(JArr(messages), false);
  }

  /**
   * A successful read ignores the fallback: a thread saved while the table
   * was failing is not found once the table answers again.
   */
  lemma SuccessShadowsFallback(backend: map<string, ThreadItem>, local: map<string, seq<Json>>, id: string)
    requires id != "" && id !in backend && id in local
    ensures GetThreadFrom(backend, local, id, Succeeded) == JArr([])
    ensures GetThreadFrom(backend, local, id, ClientError) == JArr(local[id])
  {
  }

  /** After a successful delete the thread is gone from both tiers, whatever the next read's outcome. */
  lemma DeleteThenGet(backend: map<string, ThreadItem>, local: map<string, seq<Json>>, id: string, outcome: Outcome)
    ensures GetThreadFrom(backend - {id}, local - {id}, id, outcome) == JArr([])
  {
  }
}
