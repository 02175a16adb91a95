/**
 * Input helpers for the execute request: looking an input up by name,
 * shaping an output, and checking the required inputs. Each input is a dict
 * with a `name` and, usually, a `data` field.
 */
module Helper {
  import opened Wrappers
  import opened Text
  import opened Json

  /** `item.get('name') == name` */
  predicate Named(item: Dict, name: string) {
    Get(item, "name") == Some(JStr(name))
  }

  /**
   * `extract_input_value(inputs, name, default)`: the `data` of the first
   * input with that name (the default when that input has no `data`), or
   * the default when no input has it.
   */
  function ExtractInputValue(inputs: seq<Dict>, name: string, default: Json): (r: Json)
    ensures forall k :: 0 <= k < |inputs| && Named(inputs[k], name) && (forall m :: 0 <= m < k ==> !Named(inputs[m], name)) ==>
              r == GetOr(inputs[k], "data", default)
    ensures (forall k :: 0 <= k < |inputs| ==> !Named(inputs[k], name)) ==> r == default
    decreases |inputs|
  {
    if inputs == [] then default
    else if Named(inputs[0], name) then GetOr(inputs[0], "data", default)
    else
      var r := ExtractInputValue(inputs[1..], name, default);
      assert forall k :: 0 <= k < |inputs| && Named(inputs[k], name) && (forall m :: 0 <= m < k ==> !Named(inputs[m], name)) ==>
               r == GetOr(inputs[k], "data", default) by {
        forall k | 0 <= k < |inputs| && Named(inputs[k], name) && (forall m :: 0 <= m < k ==> !Named(inputs[m], name))
          ensures r == GetOr(inputs[k], "data", default)
        {
          assert k != 0;
          assert inputs[1..][k - 1] == inputs[k];
          assert forall m :: 0 <= m < k - 1 ==> !Named(inputs[1..][m], name) by {
            forall m | 0 <= m < k - 1 ensures !Named(inputs[1..][m], name) {
              assert inputs[1..][m] == inputs[m + 1];
            }
          }
        }
      }
      assert (forall k :: 0 <= k < |inputs| ==> !Named(inputs[k], name)) ==> r == default by {
        if forall k :: 0 <= k < |inputs| ==> !Named(inputs[k], name) {
          assert forall k :: 0 <= k < |inputs[1..]| ==> inputs[1..][k] == inputs[k + 1];
        }
      }
      r
  }

  /** The output type `format_output` uses when none is given. */
  const DefaultOutputType: string := "longText"

  /** `format_output(name, data, output_type)`: the output dict `{name, type, data}`. */
  function FormatOutput(name: string, data: Json, outputType: string): (r: Json)
    ensures r.JObj? && |r.fields| == 3 && DistinctKeys(r.fields)
    ensures Get(r.fields, "name") == Some(JStr(name))
    ensures Get(r.fields, "type") == Some(JStr(outputType))
    ensures Get(r.fields, "data") == Some(data)
  {
    var f := [("name", JStr(name)), ("type", JStr(outputType)), ("data", data)];
    assert |f[0].0| == 4 && |f[1].0| == 4 && |f[2].0| == 4;
    assert f[0].0[0] == 'n' && f[1].0[0] == 't' && f[2].0[0] == 'd';
    assert f[1..][1..] == f[2..];
    assert Get(f, "data") == Get(f[1..], "data") == Get(f[2..], "data");
    JObj(f)
  }

  /** `{inp.get('name') for inp in inputs}`, a missing name counting as `None`. */
  function InputNames(inputs: seq<Dict>): set<Json> {
    set i | 0 <= i < |inputs| :: GetOr(inputs[i], "name", JNull)
  }

  /** A Python set cannot hold a list or a dict: building `input_names` raises `TypeError`. */
  predicate Hashable(j: Json) {
    !j.JArr? && !j.JObj?
  }

  /** `value is None or (isinstance(value, str) and not value.strip())` */
  predicate Blank(v: Json) {
    v == JNull || (v.JStr? && Strip(v.s) == "")
  }

  /** What is wrong with one required field, if anything. */
  function FieldProblem(inputs: seq<Dict>, field: string): Option<string> {
    if JStr(field) !in InputNames(inputs) then Some("Missing required input: " + field)
    else if Blank(ExtractInputValue(inputs, field, JNull)) then Some("Required input '" + field + "' is empty")
    else None
  }

  /** The problem of the first required field that has one. */
  function FirstProblem(inputs: seq<Dict>, fields: seq<string>): (r: Option<string>)
    ensures r.None? <==> forall k :: 0 <= k < |fields| ==> FieldProblem(inputs, fields[k]).None?
    ensures r.Some? ==> exists k :: 0 <= k < |fields| && FieldProblem(inputs, fields[k]) == r
                          && forall m :: 0 <= m < k ==> FieldProblem(inputs, fields[m]).None?
    decreases |fields|
  {
    if fields == [] then None
    else if FieldProblem(inputs, fields[0]).Some? then FieldProblem(inputs, fields[0])
    else
      var r := FirstProblem(inputs, fields[1..]);
      assert forall k :: 1 <= k < |fields| ==> fields[1..][k - 1] == fields[k];
      assert r.None? ==> forall k :: 0 <= k < |fields| ==> FieldProblem(inputs, fields[k]).None? by {
        if r.None? {
          forall k | 1 <= k < |fields| ensures FieldProblem(inputs, fields[k]).None? {
            assert FieldProblem(inputs, fields[1..][k - 1]).None?;
          }
        }
      }
      assert r.Some? ==> exists k :: 1 <= k < |fields| && FieldProblem(inputs, fields[k]) == r
                          && forall m :: 0 <= m < k ==> FieldProblem(inputs, fields[m]).None? by {
        if r.Some? {
          var k :| 0 <= k < |fields[1..]| && FieldProblem(inputs, fields[1..][k]) == r
                   && forall m :: 0 <= m < k ==> FieldProblem(inputs, fields[1..][m]).None?;
          assert FieldProblem(inputs, fields[k + 1]) == r;
        }
      }
      r
  }

  /**
   * `validate_required_inputs(inputs, required_fields)`: `(True, None)` when
   * every required field is fine, else `False` with the first problem in
   * `required_fields` order; `None` where building the name set raises.
   */
  function ValidateRequiredInputs(inputs: seq<Dict>, requiredFields: seq<string>): (r: Option<(bool, Option<string>)>)
    ensures r.None? <==> exists i :: 0 <= i < |inputs| && !Hashable(GetOr(inputs[i], "name", JNull))
    ensures r.Some? ==> (r.value.0 <==> r.value.1.None?)
    ensures r.Some? ==> r.value.1 == FirstProblem(inputs, requiredFields)
  {
    if exists i :: 0 <= i < |inputs| && !Hashable(GetOr(inputs[i], "name", JNull)) then None
    else
      var problem := FirstProblem(inputs, requiredFields);
      Some((problem.None?, problem))
  }

  /** A field has no problem exactly when some input carries its name and the first such input's value is not blank. */
  lemma FieldProblemIff(inputs: seq<Dict>, field: string)
    ensures FieldProblem(inputs, field).None? <==>
      (exists i :: 0 <= i < |inputs| && Named(inputs[i], field)) && !Blank(ExtractInputValue(inputs, field, JNull))
  {
    if JStr(field) in InputNames(inputs) {
      var i :| 0 <= i < |inputs| && GetOr(inputs[i], "name", JNull) == JStr(field);
      assert Named(inputs[i], field);
    }
    if exists i :: 0 <= i < |inputs| && Named(inputs[i], field) {
      var i :| 0 <= i < |inputs| && Named(inputs[i], field);
      assert GetOr(inputs[i], "name", JNull) in InputNames(inputs);
    }
  }

  /**
   * The inputs validate exactly when every required field is named by some
   * input whose first value for it is neither `None` nor blank.
   */
  lemma ValidIff(inputs: seq<Dict>, requiredFields: seq<string>)
    requires forall i :: 0 <= i < |inputs| ==> Hashable(GetOr(inputs[i], "name", JNull))
    ensures ValidateRequiredInputs(inputs, requiredFields).Some?
    ensures ValidateRequiredInputs(inputs, requiredFields).value.0 <==>
      forall k :: 0 <= k < |requiredFields| ==>
        (exists i :: 0 <= i < |inputs| && Named(inputs[i], requiredFields[k]))
        && !Blank(ExtractInputValue(inputs, requiredFields[k], JNull))
  {
    forall k | 0 <= k < |requiredFields| {
      FieldProblemIff(inputs, requiredFields[k]);
    }
  }
}
