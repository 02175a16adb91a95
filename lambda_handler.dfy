/**
 * Configuration loading at Lambda start: parameters under an SSM path are
 * read into a dict keyed by the upper-cased last path segment, resolved
 * through an alias table, and merged into the process environment without
 * overwriting what is already set.
 */
module LambdaHandler {
  import opened Wrappers
  import opened Text

  /** `parameter_aliases`: each canonical name with its alias names, in declaration order. */
  const ParameterAliases: seq<(string, seq<string>)> := [
    ("APP_PORT", ["app_port", "port"]),
    ("APP_HOST", ["app_host", "host"]),
    ("ALLOW_ORIGINS", ["allow_origins", "cors_origins"]),
    ("ANTHROPIC_API_KEY", ["anthropic_api_key", "anthropic_key"]),
    ("AGENT_EXECUTE_LIMIT", ["agent_execute_limit", "execute_limit"]),
    ("AGENT_NAME", ["agent_name", "name"]),
    ("AGENT_TYPE", ["agent_type", "type"]),
    ("WEBHOOK_URL", ["webhook_url", "callback_url"]),
    ("DYNAMODB_TABLE", ["dynamodb_table", "jobs_table"]),
    ("ENVIRONMENT_MODE", ["environment_mode", "env_mode"])
  ]

  /** `parameter_aliases.keys()`, in order. */
  function CanonicalNames(): (r: seq<string>)
    ensures |r| == |ParameterAliases| && forall i :: 0 <= i < |r| ==> r[i] == ParameterAliases[i].0
  {
    seq(|ParameterAliases|, i requires 0 <= i < |ParameterAliases| => ParameterAliases[i].0)
  }

  /** `table.get(name, [])` over an alias table kept as a list of entries. */
  function AliasesIn(table: seq<(string, seq<string>)>, name: string): (r: seq<string>)
    ensures (forall i :: 0 <= i < |table| ==> table[i].0 != name) ==> r == []
    ensures forall i :: 0 <= i < |table| && table[i].0 == name && (forall m :: 0 <= m < i ==> table[m].0 != name) ==>
              r == table[i].1
    decreases |table|
  {
    if table == [] then []
    else if table[0].0 == name then table[0].1
    else
      var r := AliasesIn(table[1..], name);
      assert forall i :: 1 <= i < |table| ==> table[1..][i - 1] == table[i];
      r
  }

  /** The first alias whose upper-cased form is a loaded parameter gives the value; none gives `""`. */
  function FirstAlias(aliases: seq<string>, parameters: map<string, string>): (r: string)
    ensures (forall k :: 0 <= k < |aliases| ==> Upper(aliases[k]) !in parameters) ==> r == ""
    ensures forall k :: 0 <= k < |aliases| && Upper(aliases[k]) in parameters &&
                        (forall m :: 0 <= m < k ==> Upper(aliases[m]) !in parameters) ==>
              r == parameters[Upper(aliases[k])]
    decreases |aliases|
  {
    if aliases == [] then ""
    else if Upper(aliases[0]) in parameters then parameters[Upper(aliases[0])]
    else
      var r := FirstAlias(aliases[1..], parameters);
      assert forall k :: 1 <= k < |aliases| ==> aliases[1..][k - 1] == aliases[k];
      r
  }

  /**
   * Resolution of `name` against an alias table: the canonical name wins
   * when it is loaded; otherwise the first loaded alias in list order;
   * otherwise `""`.
   */
  function ResolveIn(table: seq<(string, seq<string>)>, name: string, parameters: map<string, string>): (r: string)
    ensures name in parameters ==> r == parameters[name]
    ensures name !in parameters && (forall k :: 0 <= k < |AliasesIn(table, name)| ==> Upper(AliasesIn(table, name)[k]) !in parameters) ==>
              r == ""
    ensures forall k :: name !in parameters && 0 <= k < |AliasesIn(table, name)| && Upper(AliasesIn(table, name)[k]) in parameters &&
                        (forall m :: 0 <= m < k ==> Upper(AliasesIn(table, name)[m]) !in parameters) ==>
              r == parameters[Upper(AliasesIn(table, name)[k])]
  {
    if name in parameters then parameters[name]
    else FirstAlias(AliasesIn(table, name), parameters)
  }

  /** `resolve_parameter_name(name, parameters)`, over `parameter_aliases`. */
  function ResolveParameterName(name: string, parameters: map<string, string>): string {
    ResolveIn(ParameterAliases, name, parameters)
  }

  /** A resolved value comes from the loaded parameters, or is `""`. */
  lemma ResolvedFromParameters(table: seq<(string, seq<string>)>, name: string, parameters: map<string, string>)
    ensures ResolveIn(table, name, parameters) == "" ||
            exists key :: key in parameters && parameters[key] == ResolveIn(table, name, parameters)
  {
    if name !in parameters {
      var aliases := AliasesIn(table, name);
      if exists k :: 0 <= k < |aliases| && Upper(aliases[k]) in parameters {
        var k := FirstLoaded(aliases, parameters);
        assert parameters[Upper(aliases[k])] == ResolveIn(table, name, parameters);
      }
    }
  }

  /** The index of the first alias whose upper-cased form is loaded. */
  lemma FirstLoaded(aliases: seq<string>, parameters: map<string, string>) returns (k: nat)
    requires exists k :: 0 <= k < |aliases| && Upper(aliases[k]) in parameters
    ensures k < |aliases| && Upper(aliases[k]) in parameters
    ensures forall m :: 0 <= m < k ==> Upper(aliases[m]) !in parameters
  {
    k := 0;
    while Upper(aliases[k]) !in parameters
      invariant k < |aliases| && exists j :: k <= j < |aliases| && Upper(aliases[j]) in parameters
      invariant forall m :: 0 <= m < k ==> Upper(aliases[m]) !in parameters
      decreases |aliases| - k
    {
      k := k + 1;
    }
  }

  // ---------------------------------------------------------------------------
  // get_ssm_parameters
  // ---------------------------------------------------------------------------

  /** One SSM parameter: its full path name and its value. */
  type Parameter = (string, string)

  /** What the SSM paginator yields for a path: its pages, a `ClientError`, or another exception. */
  datatype SsmReply = Pages(pages: seq<seq<Parameter>>) | SsmClientError | SsmOtherError

  /** `param['Name'].split('/')[-1].upper()`: the key a parameter is stored under. */
  function ParameterKey(name: string): string {
    Upper(LastSegment(name, '/'))
  }

  /**
   * The dict after storing each parameter, in order, over `m` under `keyOf`
   * of its name: a later one overwrites an earlier one. The loader stores
   * under `ParameterKey`.
   */
  function StoreAll(keyOf: string -> string, m: map<string, string>, params: seq<Parameter>): map<string, string>
    decreases |params|
  {
    if params == [] then m
    else
      var last := params[|params| - 1];
      StoreAll(keyOf, m, params[..|params| - 1])[keyOf(last.0) := last.1]
  }

  /** The dict after storing every page, in order, over `m`. */
  function StorePages(keyOf: string -> string, m: map<string, string>, pages: seq<seq<Parameter>>): map<string, string>
    decreases |pages|
  {
    if pages == [] then m
    else StoreAll(keyOf, StorePages(keyOf, m, pages[..|pages| - 1]), pages[|pages| - 1])
  }

  /** All the parameters of the pages, in order. */
  function Flatten(pages: seq<seq<Parameter>>): seq<Parameter>
    decreases |pages|
  {
    if pages == [] then [] else Flatten(pages[..|pages| - 1]) + pages[|pages| - 1]
  }

  /** What `get_ssm_parameters` returns; `None` where it raises. */
  function SsmParameters(reply: SsmReply): Option<map<string, string>> {
    match reply
    case Pages(pages) => Some(StorePages(ParameterKey, map[], pages))
    case SsmClientError => Some(map[])
    case SsmOtherError => None
  }

  /** `get_ssm_parameters(prefix)`, given the paginator's reply for that prefix. */
  method GetSsmParameters(reply: SsmReply) returns (r: Option<map<string, string>>)
    ensures r == SsmParameters(reply)
  {
    if reply.SsmClientError? {
      return Some(map[]);
    }
    if reply.SsmOtherError? {
      return None;
    }
    var pages := reply.pages;
    var parameters: map<string, string> := map[];
    for p := 0 to |pages|
      invariant parameters == StorePages(ParameterKey, map[], pages[..p])
    {
      var page := pages[p];
      ghost var start := parameters;
      for q := 0 to |page|
        invariant parameters == StoreAll(ParameterKey, start, page[..q])
      {
        StoreAllSnoc(ParameterKey, start, page, q);
        var name := ParameterKey(page[q].0);
        parameters := parameters[name := page[q].1];
      }
      StorePagesSnoc(ParameterKey, pages, p);
    }
    assert pages[..|pages|] == pages;
    return Some(parameters);
  }

  /** One more parameter of a page is stored over the earlier ones. */
  lemma StoreAllSnoc(keyOf: string -> string, m: map<string, string>, page: seq<Parameter>, q: nat)
    requires q < |page|
    ensures StoreAll(keyOf, m, page[..q + 1]) == StoreAll(keyOf, m, page[..q])[keyOf(page[q].0) := page[q].1]
  {
    PrefixStep(page, q);
  }

  /** Dropping the last element of the prefix `s[..q + 1]`, for any element type. */
  lemma PrefixStep<T>(s: seq<T>, q: nat)
    requires q < |s|
    ensures s[..q + 1][..q] == s[..q] && s[..q + 1][q] == s[q]
  {
  }

  /** One more page is stored over the earlier ones. */
  lemma StorePagesSnoc(keyOf: string -> string, pages: seq<seq<Parameter>>, p: nat)
    requires p < |pages|
    ensures StorePages(keyOf, map[], pages[..p + 1]) == StoreAll(keyOf, StorePages(keyOf, map[], pages[..p]), pages[p][..|pages[p]|])
  {
    PrefixStep(pages, p);
    assert pages[p][..|pages[p]|] == pages[p];
  }

  /** Storing two runs of parameters is storing their concatenation. */
  lemma {:induction false} StoreAllAppend(keyOf: string -> string, m: map<string, string>, a: seq<Parameter>, b: seq<Parameter>)
    ensures StoreAll(keyOf, StoreAll(keyOf, m, a), b) == StoreAll(keyOf, m, a + b)
    decreases |b|
  {
    if b == [] {
      assert a + b == a;
    } else {
      var init := b[..|b| - 1];
      assert (a + b)[..|a + b| - 1] == a + init;
      assert (a + b)[|a + b| - 1] == b[|b| - 1];
      StoreAllAppend(keyOf, m, a, init);
    }
  }

  /** Page boundaries do not matter: the pages store as one run of parameters. */
  lemma {:induction false} StorePagesFlat(keyOf: string -> string, m: map<string, string>, pages: seq<seq<Parameter>>)
    ensures StorePages(keyOf, m, pages) == StoreAll(keyOf, m, Flatten(pages))
    decreases |pages|
  {
    if pages != [] {
      var init := pages[..|pages| - 1];
      StorePagesFlat(keyOf, m, init);
      StoreAllAppend(keyOf, m, Flatten(init), pages[|pages| - 1]);
    }
  }

  /** A key is in the dict exactly when it was in `m` or some parameter is stored under it. */
  lemma {:induction false} StoreAllKeys(keyOf: string -> string, m: map<string, string>, params: seq<Parameter>, key: string)
    ensures key in StoreAll(keyOf, m, params) <==> key in m || exists i :: 0 <= i < |params| && keyOf(params[i].0) == key
    decreases |params|
  {
    if params != [] {
      var init := params[..|params| - 1];
      StoreAllKeys(keyOf, m, init, key);
      assert forall i :: 0 <= i < |init| ==> init[i] == params[i];
    }
  }

  /** The value under a key is that of the last parameter stored under it: a later one overwrites. */
  lemma {:induction false} StoreAllLastWins(keyOf: string -> string, m: map<string, string>, params: seq<Parameter>, key: string, i: nat)
    requires i < |params| && keyOf(params[i].0) == key
    requires forall j :: i < j < |params| ==> keyOf(params[j].0) != key
    ensures key in StoreAll(keyOf, m, params) && StoreAll(keyOf, m, params)[key] == params[i].1
    decreases |params|
  {
    var init := params[..|params| - 1];
    if i < |params| - 1 {
      assert init[i] == params[i];
      assert forall j :: i < j < |init| ==> init[j] == params[j];
      StoreAllLastWins(keyOf, m, init, key, i);
    }
  }

  /** Every parameter of the pages comes back under its key, unless a later one shares the key. */
  lemma SsmLastWins(pages: seq<seq<Parameter>>, key: string, i: nat)
    requires i < |Flatten(pages)| && ParameterKey(Flatten(pages)[i].0) == key
    requires forall j :: i < j < |Flatten(pages)| ==> ParameterKey(Flatten(pages)[j].0) != key
    ensures key in SsmParameters(Pages(pages)).value && SsmParameters(Pages(pages)).value[key] == Flatten(pages)[i].1
  {
    StorePagesFlat(ParameterKey, map[], pages);
    StoreAllLastWins(ParameterKey, map[], Flatten(pages), key, i);
  }

  // ---------------------------------------------------------------------------
  // load_config
  // ---------------------------------------------------------------------------

  /** `environ.get(key, default)` */
  function EnvGet(env: map<string, string>, key: string, default: string): string {
    if key in env then env[key] else default
  }

  /** The SSM path read at start: `SSM_PREFIX`, or `/app/{AGENT_NAME}/{ENVIRONMENT}` with their defaults. */
  function SsmPrefix(env: map<string, string>): string {
    EnvGet(env, "SSM_PREFIX", "/app/" + EnvGet(env, "AGENT_NAME", "agent-of-agreus") + "/" + EnvGet(env, "ENVIRONMENT", "dev"))
  }

  /** The environment after the loop has visited `names` in order, resolving through `table`. */
  function MergeNames(table: seq<(string, seq<string>)>, env: map<string, string>, parameters: map<string, string>, names: seq<string>): map<string, string>
    decreases |names|
  {
    if names == [] then env
    else
      var value := ResolveIn(table, names[0], parameters);
      MergeNames(table, if value != "" && names[0] !in env then env[names[0] := value] else env, parameters, names[1..])
  }

  /** `ENVIRONMENT_MODE` defaults to `prod` when still unset. */
  function WithDefaultMode(env: map<string, string>): map<string, string> {
    if "ENVIRONMENT_MODE" in env then env else env["ENVIRONMENT_MODE" := "prod"]
  }

  /** The environment after `load_config`, given the loaded parameters. */
  function Merged(env: map<string, string>, parameters: map<string, string>): map<string, string> {
    WithDefaultMode(MergeNames(ParameterAliases, env, parameters, CanonicalNames()))
  }

  /**
   * The merge in closed form: what was set stays, and each visited name that
   * was unset takes its resolved value when that is non-empty.
   */
  lemma {:induction false} MergeNamesClosed(table: seq<(string, seq<string>)>, env: map<string, string>, parameters: map<string, string>, names: seq<string>)
    ensures forall k :: k in env ==> k in MergeNames(table, env, parameters, names) && MergeNames(table, env, parameters, names)[k] == env[k]
    ensures forall k :: k !in env ==>
      (k in MergeNames(table, env, parameters, names) <==> k in names && ResolveIn(table, k, parameters) != "")
    ensures forall k :: k !in env && k in MergeNames(table, env, parameters, names) ==>
      MergeNames(table, env, parameters, names)[k] == ResolveIn(table, k, parameters)
    decreases |names|
  {
    if names != [] {
      var value := ResolveIn(table, names[0], parameters);
      var env' := if value != "" && names[0] !in env then env[names[0] := value] else env;
      MergeNamesClosed(table, env', parameters, names[1..]);
      assert forall k :: k in names <==> k == names[0] || k in names[1..];
    }
  }

  /** The closed form of the merge followed by the default, for any list of names holding `ENVIRONMENT_MODE`. */
  lemma DefaultedMerge(table: seq<(string, seq<string>)>, env: map<string, string>, parameters: map<string, string>, names: seq<string>)
    requires "ENVIRONMENT_MODE" in names
    ensures forall k :: k in env ==>
      k in WithDefaultMode(MergeNames(table, env, parameters, names)) && WithDefaultMode(MergeNames(table, env, parameters, names))[k] == env[k]
    ensures forall k :: k in WithDefaultMode(MergeNames(table, env, parameters, names)) && k !in env ==>
      WithDefaultMode(MergeNames(table, env, parameters, names))[k] != "" && k in names
    ensures forall k :: k !in env && k in names && ResolveIn(table, k, parameters) != "" ==>
      k in WithDefaultMode(MergeNames(table, env, parameters, names)) &&
      WithDefaultMode(MergeNames(table, env, parameters, names))[k] == ResolveIn(table, k, parameters)
  {
    var m := MergeNames(table, env, parameters, names);
    MergeNamesClosed(table, env, parameters, names);
    var w := WithDefaultMode(m);
    assert forall k :: k in w <==> k in m || k == "ENVIRONMENT_MODE";
    assert forall k | k in m :: w[k] == m[k];
  }

  /**
   * `load_config` never overwrites a variable that is already set, never
   * sets one to the empty string, and sets only names of the alias table;
   * every unset table name whose resolved value is non-empty takes it.
   */
  lemma MergedKeepsAndFills(env: map<string, string>, parameters: map<string, string>)
    ensures forall k :: k in env ==> k in Merged(env, parameters) && Merged(env, parameters)[k] == env[k]
    ensures forall k :: k in Merged(env, parameters) && k !in env ==> Merged(env, parameters)[k] != "" && k in CanonicalNames()
    ensures forall k :: k !in env && k in CanonicalNames() && ResolveParameterName(k, parameters) != "" ==>
      k in Merged(env, parameters) && Merged(env, parameters)[k] == ResolveParameterName(k, parameters)
  {
    EnvironmentModeCanonical();
    DefaultedMerge(ParameterAliases, env, parameters, CanonicalNames());
  }

  /** `ENVIRONMENT_MODE`, which gets a default, is itself a name of the alias table. */
  lemma EnvironmentModeCanonical()
    ensures "ENVIRONMENT_MODE" in CanonicalNames()
  {
    assert CanonicalNames()[9] == ParameterAliases[9].0;
  }

  /** After `load_config`, `ENVIRONMENT_MODE` is set; it is `prod` unless set before or loaded. */
  lemma EnvironmentModeSet(env: map<string, string>, parameters: map<string, string>)
    ensures "ENVIRONMENT_MODE" in Merged(env, parameters)
    ensures "ENVIRONMENT_MODE" !in env && ResolveParameterName("ENVIRONMENT_MODE", parameters) == "" ==>
      Merged(env, parameters)["ENVIRONMENT_MODE"] == "prod"
  {
    MergeNamesClosed(ParameterAliases, env, parameters, CanonicalNames());
  }

  /** The process environment, `os.environ`. */
  class Environ {
    var vars: map<string, string>

    constructor (initial: map<string, string>)
      ensures vars == initial
    {
      vars := initial;
    }
  }

  /** The loop of `load_config`: visits `names` in order and sets each unset one to its non-empty resolved value. */
  method MergeParameters(environ: Environ, ssmParams: map<string, string>, names: seq<string>)
    modifies environ
    ensures environ.vars == MergeNames(ParameterAliases, old(environ.vars), ssmParams, names)
  {
    ghost var start := environ.vars;
    for i := 0 to |names|
      invariant MergeNames(ParameterAliases, environ.vars, ssmParams, names[i..]) == MergeNames(ParameterAliases, start, ssmParams, names)
    {
      assert names[i..][1..] == names[i + 1..];
      var value := ResolveParameterName(names[i], ssmParams);
      if value != "" && names[i] !in environ.vars {
        environ.vars := environ.vars[names[i] := value];
      }
    }
    assert names[|names|..] == [];
  }

  /**
   * `load_config()`, with `ssm` giving the paginator's reply for each path.
   * It returns `false` where an exception other than `ClientError` escapes,
   * which happens before the environment is touched.
   */
  method LoadConfig(environ: Environ, ssm: string -> SsmReply) returns (ok: bool)
    modifies environ
    ensures ok <==> !ssm(SsmPrefix(old(environ.vars))).SsmOtherError?
    ensures ok ==> environ.vars == Merged(old(environ.vars), SsmParameters(ssm(SsmPrefix(old(environ.vars)))).value)
    ensures !ok ==> environ.vars == old(environ.vars)
  {
    var prefix := SsmPrefix(environ.vars);
    var loaded := GetSsmParameters(ssm(prefix));
    if loaded.None? {
      return false;
    }
    MergeParameters(environ, loaded.value, CanonicalNames());
    if "ENVIRONMENT_MODE" !in environ.vars {
      environ.vars := environ.vars["ENVIRONMENT_MODE" := "prod"];
    }
    return true;
  }
}
