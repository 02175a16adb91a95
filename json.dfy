/**
 * JSON-shaped Python values: what `json.loads` produces and what the request
 * layer hands the controllers. A Python dict is an association list in
 * insertion order (Python dicts keep that order); `None` is `JNull`.
 * Floating-point numbers are not modelled (see README "Left out").
 */
module Json {
  import opened Wrappers

  datatype Json =
    | JNull
    | JBool(b: bool)
    | JInt(n: int)
    | JStr(s: string)
    | JArr(items: seq<Json>)
    | JObj(fields: seq<(string, Json)>)

  type Dict = seq<(string, Json)>

  /** Python truthiness: `None`, `False`, `0`, `""`, `[]` and `{}` are false. */
  predicate Truthy(j: Json) {
    match j
    case JNull => false
    case JBool(b) => b
    case JInt(n) => n != 0
    case JStr(s) => s != ""
    case JArr(items) => items != []
    case JObj(fields) => fields != []
  }

  /** The keys of a dict are distinct, as they are in every Python dict. */
  predicate DistinctKeys(d: Dict) {
    forall i, j :: 0 <= i < j < |d| ==> d[i].0 != d[j].0
  }

  /** Every dict inside `j` has distinct keys: `j` is a value Python can hold. */
  predicate WellFormed(j: Json)
    decreases j
  {
    match j
    case JArr(items) => forall i :: 0 <= i < |items| ==> WellFormed(items[i])
    case JObj(fields) => DistinctKeys(fields) && forall i :: 0 <= i < |fields| ==> FieldWellFormed(fields, i)
    case _ => true
  }

  predicate FieldWellFormed(fields: Dict, i: int)
    requires 0 <= i < |fields|
    decreases fields, 0
  {
    var f := fields[i];
    assert f.1 < f;
    WellFormed(f.1)
  }

  predicate HasKey(d: Dict, key: string) {
    exists i | 0 <= i < |d| :: d[i].0 == key
  }

  /** `key in d` together with `d[key]`: `d.get(key)` with `None` for a missing key. */
  function Get(d: Dict, key: string): (r: Option<Json>)
    ensures r.Some? <==> HasKey(d, key)
  {
    if d == [] then None
    else if d[0].0 == key then Some(d[0].1)
    else
      var r := Get(d[1..], key);
      assert HasKey(d, key) ==> HasKey(d[1..], key) by {
        if HasKey(d, key) {
          var i :| 0 <= i < |d| && d[i].0 == key;
          assert d[1..][i - 1].0 == key;
        }
      }
      assert HasKey(d[1..], key) ==> HasKey(d, key) by {
        if HasKey(d[1..], key) {
          var i :| 0 <= i < |d[1..]| && d[1..][i].0 == key;
          assert d[i + 1].0 == key;
        }
      }
      r
  }

  /** `Get` on a dict given as its first field and the rest. */
  lemma GetCons(h: (string, Json), t: Dict, key: string)
    ensures Get([h] + t, key) == if h.0 == key then Some(h.1) else Get(t, key)
  {
    assert ([h] + t)[1..] == t;
  }

  /** `d.get(key, default)` */
  function GetOr(d: Dict, key: string, default: Json): Json {
    Get(d, key).GetOr(default)
  }

  /**
   * `d[key] = v`: an existing key keeps its position and takes the new value;
   * a new key goes at the end.
   */
  function Put(d: Dict, key: string, v: Json): (r: Dict)
    ensures Get(r, key) == Some(v)
    ensures forall k :: k != key ==> Get(r, k) == Get(d, k)
    ensures !HasKey(d, key) ==> r == d + [(key, v)]
  {
    if d == [] then [(key, v)]
    else if d[0].0 == key then
      var r := [(key, v)] + d[1..];
      assert d == [d[0]] + d[1..];
      GetCons((key, v), d[1..], key);
      forall k | k != key ensures Get(r, k) == Get(d[1..], k) == Get([d[0]] + d[1..], k) {
        GetCons((key, v), d[1..], k);
        GetCons(d[0], d[1..], k);
      }
      r
    else
      var t := Put(d[1..], key, v);
      var r := [d[0]] + t;
      assert d == [d[0]] + d[1..];
      forall k ensures Get(r, k) == (if d[0].0 == k then Some(d[0].1) else Get(t, k)) {
        GetCons(d[0], t, k);
      }
      forall k ensures Get(d, k) == (if d[0].0 == k then Some(d[0].1) else Get(d[1..], k)) {
        GetCons(d[0], d[1..], k);
      }
      assert !HasKey(d, key) ==> !HasKey(d[1..], key) by {
        if HasKey(d[1..], key) {
          var i :| 0 <= i < |d[1..]| && d[1..][i].0 == key;
          assert d[i + 1].0 == key;
        }
      }
      assert d == [d[0]] + d[1..];
      r
  }

  lemma {:induction false} PutKeepsKeysDistinct(d: Dict, key: string, v: Json)
    requires DistinctKeys(d)
    ensures DistinctKeys(Put(d, key, v))
  {
    if d == [] {
    } else if d[0].0 == key {
      var r := Put(d, key, v);
      forall i, j | 0 <= i < j < |r| ensures r[i].0 != r[j].0 {
        assert r[i].0 == d[i].0 && r[j].0 == d[j].0;
      }
    } else {
      var t := Put(d[1..], key, v);
      assert DistinctKeys(d[1..]) by {
        forall i, j | 0 <= i < j < |d[1..]| ensures d[1..][i].0 != d[1..][j].0 {
          assert d[1..][i] == d[i + 1] && d[1..][j] == d[j + 1];
        }
      }
      PutKeepsKeysDistinct(d[1..], key, v);
      var r := [d[0]] + t;
      assert Put(d, key, v) == r;
      forall i, j | 0 <= i < j < |r| ensures r[i].0 != r[j].0 {
        assert r[j] == t[j - 1];
        if i == 0 {
          var k := t[j - 1].0;
          assert HasKey(t, k);
          if k != key {
            assert Get(t, k) == Get(d[1..], k);
            var m :| 0 <= m < |d[1..]| && d[1..][m].0 == k;
            assert d[m + 1].0 == k;
          }
        } else {
          assert r[i] == t[i - 1];
        }
      }
    }
  }

  /** A value found in a dict of a well-formed value is well-formed. */
  lemma {:induction false} GetWellFormed(d: Dict, key: string)
    requires WellFormed(JObj(d))
    ensures Get(d, key).Some? ==> WellFormed(Get(d, key).value)
  {
    if d != [] {
      assert FieldWellFormed(d, 0);
      if d[0].0 != key {
        var t := d[1..];
        assert DistinctKeys(t) by {
          forall i, j | 0 <= i < j < |t| ensures t[i].0 != t[j].0 {
            assert t[i] == d[i + 1] && t[j] == d[j + 1];
          }
        }
        forall i | 0 <= i < |t| ensures FieldWellFormed(t, i) {
          assert FieldWellFormed(d, i + 1);
          assert t[i] == d[i + 1];
        }
        GetWellFormed(t, key);
      }
    }
  }

  /** The Python type name that `str(e)` of an `AttributeError` raised by `j.get` names. */
  function TypeName(j: Json): string {
    match j
    case JNull => "NoneType"
    case JBool(_) => "bool"
    case JInt(_) => "int"
    case JStr(_) => "str"
    case JArr(_) => "list"
    case JObj(_) => "dict"
  }
}
