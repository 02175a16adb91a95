/**
 * The request checks applied before `/execute`, `/abort` and `/status`. A
 * verdict is Python's `(is_valid, error_message)` pair.
 */
module RequestValidator {
  import opened Wrappers
  import opened Json

  type Verdict = (bool, Option<string>)

  const NotAList := "inputs must be a list"
  const NotADict := "Each input must be a dictionary"
  const NoName := "Each input must have a 'name' field"
  const EmptyPayload := "payload input cannot be empty"
  const MissingPayload := "Missing required input: payload"

  /** The input is the payload: a dict whose `name` is `"payload"`. */
  predicate IsPayload(item: Json) {
    item.JObj? && Get(item.fields, "name") == Some(JStr("payload"))
  }

  /** The error one input item raises, checked in the source's order. */
  function ItemError(item: Json): (r: Option<string>)
    ensures r.None? <==> item.JObj? && HasKey(item.fields, "name") && (IsPayload(item) ==> Truthy(GetOr(item.fields, "data", JNull)))
  {
    if !item.JObj? then Some(NotADict)
    else if !HasKey(item.fields, "name") then Some(NoName)
    else if IsPayload(item) && !Truthy(GetOr(item.fields, "data", JNull)) then Some(EmptyPayload)
    else None
  }

  /** The error of the first item that has one. */
  function FirstItemError(items: seq<Json>): (r: Option<string>)
    ensures r.None? <==> forall k :: 0 <= k < |items| ==> ItemError(items[k]).None?
    ensures r.Some? ==> exists k :: 0 <= k < |items| && ItemError(items[k]) == r
                          && forall m :: 0 <= m < k ==> ItemError(items[m]).None?
    decreases |items|
  {
    if items == [] then None
    else if ItemError(items[0]).Some? then ItemError(items[0])
    else
      var r := FirstItemError(items[1..]);
      assert forall k :: 1 <= k < |items| ==> items[1..][k - 1] == items[k];
      assert r.Some? ==> exists k :: 1 <= k < |items| && ItemError(items[k]) == r
                          && forall m :: 0 <= m < k ==> ItemError(items[m]).None? by {
        if r.Some? {
          var k :| 0 <= k < |items[1..]| && ItemError(items[1..][k]) == r
                   && forall m :: 0 <= m < k ==> ItemError(items[1..][m]).None?;
          assert ItemError(items[k + 1]) == r;
        }
      }
      r
  }

  /** The verdict on an execute request's data, stated over the whole input list. */
  function ExecuteVerdict(data: Dict): Verdict {
    var inputs := GetOr(data, "inputs", JArr([]));
    if !inputs.JArr? then (false, Some(NotAList))
    else match FirstItemError(inputs.items)
      case Some(e) => (false, Some(e))
      case None =>
        if exists k :: 0 <= k < |inputs.items| && IsPayload(inputs.items[k]) then (true, None)
        else (false, Some(MissingPayload))
  }

  /**
   * `validate_execute_request(data)`: scans the inputs in order, stopping at
   * the first bad item, and remembers whether a payload was seen.
   */
  method ValidateExecuteRequest(data: Dict) returns (r: Verdict)
    ensures r == ExecuteVerdict(data)
  {
    var inputs := GetOr(data, "inputs", JArr([]));
    if !inputs.JArr? {
      return (false, Some(NotAList));
    }
    var items := inputs.items;
    var payloadFound := false;
    for i := 0 to |items|
      invariant forall k :: 0 <= k < i ==> ItemError(items[k]).None?
      invariant payloadFound <==> exists k :: 0 <= k < i && IsPayload(items[k])
    {
      var inp := items[i];
      if !inp.JObj? {
        return (false, Some(NotADict));
      }
      if !HasKey(inp.fields, "name") {
        return (false, Some(NoName));
      }
      if Get(inp.fields, "name") == Some(JStr("payload")) {
        payloadFound := true;
        if !Truthy(GetOr(inp.fields, "data", JNull)) {
          return (false, Some(EmptyPayload));
        }
      }
    }
    if !payloadFound {
      return (false, Some(MissingPayload));
    }
    return (true, None);
  }

  /**
   * An execute request is valid exactly when its inputs are a list of
   * named dicts, one of them the payload, and every payload item carries
   * truthy data; an invalid one always comes with a message.
   */
  lemma ExecuteValidIff(data: Dict)
    ensures ExecuteVerdict(data).0 <==> ExecuteVerdict(data).1.None?
    ensures ExecuteVerdict(data).0 <==>
      var inputs := GetOr(data, "inputs", JArr([]));
      inputs.JArr?
      && (forall k :: 0 <= k < |inputs.items| ==> inputs.items[k].JObj? && HasKey(inputs.items[k].fields, "name"))
      && (exists k :: 0 <= k < |inputs.items| && IsPayload(inputs.items[k]))
      && (forall k :: 0 <= k < |inputs.items| && IsPayload(inputs.items[k]) ==> Truthy(GetOr(inputs.items[k].fields, "data", JNull)))
  {
  }

  /** A request without `inputs` is missing its payload; it is not rejected as a non-list. */
  lemma NoInputsMissingPayload(data: Dict)
    requires !HasKey(data, "inputs")
    ensures ExecuteVerdict(data) == (false, Some(MissingPayload))
  {
    assert GetOr(data, "inputs", JArr([])) == JArr([]);
  }

  /** `validate_abort_request(data)` */
  function ValidateAbortRequest(data: Dict): (r: Verdict)
    ensures r.0 <==> r.1.None?
    ensures !HasKey(data, "id") ==> r == (false, Some("id is required"))
    ensures HasKey(data, "id") && !Truthy(Get(data, "id").value) ==> r == (false, Some("id cannot be empty"))
    ensures r.0 <==> HasKey(data, "id") && Truthy(Get(data, "id").value)
  {
    if !HasKey(data, "id") then (false, Some("id is required"))
    else if !Truthy(GetOr(data, "id", JNull)) then (false, Some("id cannot be empty"))
    else (true, None)
  }

  /** `validate_status_request(job_id)`: only the empty id is refused. */
  function ValidateStatusRequest(jobId: string): (r: Verdict)
    ensures r.0 <==> r.1.None?
    ensures r.0 <==> jobId != ""
    ensures !r.0 ==> r.1 == Some("id is required")
  {
    if jobId == "" then (false, Some("id is required")) else (true, None)
  }
}
