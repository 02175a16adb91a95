/**
 * The agent itself: where the prompt file is found, the conversation thread
 * carried in the thread id (the JSON text of the message list), the
 * keyword-driven explanation of an answer, and the exchange `llm` makes.
 * The model call is a parameter (`callModel`), `None` where the client or
 * the API raises; `ENVIRONMENT_MODE` is the parameter `environmentMode`.
 */
module BaseAgent {
  import opened Wrappers
  import opened Text
  import opened Json
  import opened JsonCodec
  import opened Files
  import opened SkillLoader
  import opened PromptExtract

  // ---------------------------------------------------------------------------
  // get_prompt_file_path
  // ---------------------------------------------------------------------------

  /** The copy hot-reloaded into `/tmp` in dev mode. */
  function TmpPromptPath(filename: string): string {
    "/tmp/Prompt/" + filename
  }

  /** The bundled locations, in the order they are tried. */
  function PromptCandidates(filename: string): seq<string> {
    ["Prompt/" + filename, "/var/task/Prompt/" + filename, "smart_agent/../Prompt/" + filename]
  }

  /** What `get_prompt_file_path(filename)` returns. */
  function PromptPath(fs: FileSystem, environmentMode: string, filename: string): string {
    if environmentMode == "dev" && Exists(fs, TmpPromptPath(filename)) then TmpPromptPath(filename)
    else FirstFound(fs, PromptCandidates(filename), "Prompt/" + filename)
  }

  /** `get_prompt_file_path(filename)` */
  method GetPromptFilePath(fs: FileSystem, environmentMode: string, filename: string) returns (r: string)
    ensures r == PromptPath(fs, environmentMode, filename)
    ensures environmentMode == "dev" && Exists(fs, TmpPromptPath(filename)) ==> r == TmpPromptPath(filename)
    ensures r == TmpPromptPath(filename) || r in PromptCandidates(filename)
  {
    if environmentMode == "dev" {
      var tmpPath := "/tmp/Prompt/" + filename;
      if Exists(fs, tmpPath) {
        return tmpPath;
      }
    }
    var paths := PromptCandidates(filename);
    r := FirstExisting(fs, paths, "Prompt/" + filename);
    assert r == paths[0] || r in paths;
  }

  /**
   * Outside dev mode, or when `/tmp` holds no copy, the first bundled
   * location that exists is chosen, and `Prompt/<filename>` when none does.
   */
  lemma PromptPathBundled(fs: FileSystem, environmentMode: string, filename: string)
    requires environmentMode != "dev" || !Exists(fs, TmpPromptPath(filename))
    ensures var r := PromptPath(fs, environmentMode, filename);
      var cs := PromptCandidates(filename);
      (Exists(fs, cs[0]) ==> r == cs[0])
      && (!Exists(fs, cs[0]) && Exists(fs, cs[1]) ==> r == cs[1])
      && (!Exists(fs, cs[0]) && !Exists(fs, cs[1]) && Exists(fs, cs[2]) ==> r == cs[2])
      && (!Exists(fs, cs[0]) && !Exists(fs, cs[1]) && !Exists(fs, cs[2]) ==> r == "Prompt/" + filename)
  {
    var r := PromptPath(fs, environmentMode, filename);
    var cs := PromptCandidates(filename);
    if Exists(fs, cs[0]) || Exists(fs, cs[1]) || Exists(fs, cs[2]) {
      var k :| 0 <= k < |cs| && cs[k] == r && Exists(fs, r) && forall m :: 0 <= m < k ==> !Exists(fs, cs[m]);
      assert k == 0 || !Exists(fs, cs[0]);
      assert k <= 1 || !Exists(fs, cs[1]);
    }
  }

  // ---------------------------------------------------------------------------
  // The thread id: parse_thread_history and create_thread_id
  // ---------------------------------------------------------------------------

  /**
   * `parse_thread_history(thread_id)`: the decoded list, and `[]` for a falsy
   * id, text that is not JSON, JSON that is not a list, or an id that is not a
   * string (`json.loads` raises `TypeError`).
   */
  function ParseThreadHistory(threadId: Json): (r: seq<Json>)
    ensures !Truthy(threadId) ==> r == []
    ensures r != [] ==> threadId.JStr? && Loads(threadId.s) == Some(JArr(r))
    ensures threadId.JStr? && threadId.s != "" && Loads(threadId.s).Some? && Loads(threadId.s).value.JArr? ==>
              r == Loads(threadId.s).value.items
  {
    if !Truthy(threadId) then []
    else match threadId
      case JStr(text) =>
        (match Loads(text)
         case Some(JArr(history)) => history
         case _ => [])
      case _ => []
  }

  /**
   * `create_thread_id(messages)`: `json.dumps(messages, ensure_ascii=False)`,
   * a JSON array text; ThreadRoundTrip shows it is parsed back.
   */
  function CreateThreadId(messages: seq<Json>): (r: string)
    ensures |r| >= 2 && r[0] == '[' && r[|r| - 1] == ']'
    ensures messages == [] <==> r == "[]"
  {
    var items := EncodeItems(messages, false);
    assert Encode(JArr(messages), false) == "[" + items + "]";
    assert messages != [] ==> |items| > 0;
    Encode(JArr(messages), false)
  }

  /** Every message of a parsed thread is a value Python can hold. */
  lemma ParsedWellFormed(threadId: Json)
    ensures forall i :: 0 <= i < |ParseThreadHistory(threadId)| ==> WellFormed(ParseThreadHistory(threadId)[i])
  {
    if threadId.JStr? {
      LoadsWellFormed(threadId.s);
    }
  }

  /** Parsing a created thread id gives the messages back. */
  lemma ThreadRoundTrip(messages: seq<Json>)
    requires forall i :: 0 <= i < |messages| ==> WellFormed(messages[i])
    ensures ParseThreadHistory(JStr(CreateThreadId(messages))) == messages
  {
    assert WellFormed(JArr(messages));
    LoadsDumps(JArr(messages), false);
  }

  // ---------------------------------------------------------------------------
  // extract_reasoning_summary
  // ---------------------------------------------------------------------------

  const NoResponse: string := "No response generated."
  const DerivedPrefix: string := "Response derived from "
  const DerivedSuffix: string := " in the 2025 Agreus/KPMG Global Family Office Compensation Benchmark Report (585 survey responses, 20 qualitative interviews)."
  const GenericExplanation: string := "Response based on the 2025 Agreus/KPMG Global Family Office Compensation Benchmark Report data."

  /** A topic group: the terms looked for and the phrase they contribute. */
  type TopicGroup = (seq<string>, string)

  const CompensationGroup: TopicGroup :=
    (["salary", "compensation", "£", "$", "€"], "compensation data from the benchmark report")
  const BonusGroup: TopicGroup :=
    (["bonus", "ltip", "incentive"], "bonus and incentive structures")
  const RegionGroup: TopicGroup :=
    (["uk", "usa", "europe", "asia", "middle east", "australia"], "regional market analysis")
  const GovernanceGroup: TopicGroup :=
    (["governance", "succession", "structure"], "governance and organizational data")
  const InvestmentGroup: TopicGroup :=
    (["invest", "roi", "allocation", "portfolio"], "investment strategy insights")
  const RecruitmentGroup: TopicGroup :=
    (["hiring", "recruitment", "talent", "team"], "recruitment and talent trends")

  /** The six groups, in the order they are checked. */
  const TopicGroups: seq<TopicGroup> :=
    [CompensationGroup, BonusGroup, RegionGroup, GovernanceGroup, InvestmentGroup, RecruitmentGroup]

  /** The phrase of `g` when one of its terms occurs in `lower`. */
  function Pick(lower: string, g: TopicGroup): seq<string> {
    if ContainsAny(lower, g.0) then [g.1] else []
  }

  /** The phrases of the groups one of whose terms occurs in `lower`, in group order. */
  function Matched(lower: string, groups: seq<TopicGroup>): seq<string>
    decreases |groups|
  {
    if groups == [] then [] else Pick(lower, groups[0]) + Matched(lower, groups[1..])
  }

  /** The phrases of `groups`, in order. */
  function Phrases(groups: seq<TopicGroup>): (r: seq<string>)
    ensures |r| == |groups| && forall i :: 0 <= i < |r| ==> r[i] == groups[i].1
  {
    seq(|groups|, i requires 0 <= i < |groups| => groups[i].1)
  }

  /** `a` is `b` with some elements left out. */
  predicate Subsequence(a: seq<string>, b: seq<string>)
    decreases |b|
  {
    a == [] || (b != [] && if a[0] == b[0] then Subsequence(a[1..], b[1..]) else Subsequence(a, b[1..]))
  }

  /** The topics found in the lower-cased response. */
  function Topics(lower: string): seq<string> {
    Matched(lower, TopicGroups)
  }

  /** What `extract_reasoning_summary(response_text)` returns. */
  function Summary(responseText: string): string {
    if responseText == "" then NoResponse
    else
      var topics := Topics(Lower(responseText));
      if topics == [] then GenericExplanation
      else DerivedPrefix + Join(topics, ", ") + DerivedSuffix
  }

  /** `extract_reasoning_summary(response_text)` */
  method ExtractReasoningSummary(responseText: string) returns (r: string)
    ensures r == Summary(responseText)
  {
    if responseText == "" {
      return NoResponse;
    }
    var topics := FindTopics(Lower(responseText));
    if topics != [] {
      r := DerivedPrefix + Join(topics, ", ") + DerivedSuffix;
    } else {
      r := GenericExplanation;
    }
  }

  /** The six topic checks of `extract_reasoning_summary`, appending to `topics`. */
  method FindTopics(lower: string) returns (topics: seq<string>)
    ensures topics == Topics(lower)
  {
    topics := [];
    if ContainsAny(lower, CompensationGroup.0) {
      topics := topics + [CompensationGroup.1];
    }
    assert topics == Pick(lower, CompensationGroup);
    ghost var beforeBonusGroup := topics;
    if ContainsAny(lower, BonusGroup.0) {
      topics := topics + [BonusGroup.1];
    }
    assert topics == beforeBonusGroup + Pick(lower, BonusGroup);
    ghost var beforeRegionGroup := topics;
    if ContainsAny(lower, RegionGroup.0) {
      topics := topics + [RegionGroup.1];
    }
    assert topics == beforeRegionGroup + Pick(lower, RegionGroup);
    ghost var beforeGovernanceGroup := topics;
    if ContainsAny(lower, GovernanceGroup.0) {
      topics := topics + [GovernanceGroup.1];
    }
    assert topics == beforeGovernanceGroup + Pick(lower, GovernanceGroup);
    ghost var beforeInvestmentGroup := topics;
    if ContainsAny(lower, InvestmentGroup.0) {
      topics := topics + [InvestmentGroup.1];
    }
    assert topics == beforeInvestmentGroup + Pick(lower, InvestmentGroup);
    ghost var beforeRecruitmentGroup := topics;
    if ContainsAny(lower, RecruitmentGroup.0) {
      topics := topics + [RecruitmentGroup.1];
    }
    assert topics == beforeRecruitmentGroup + Pick(lower, RecruitmentGroup);
    MatchedSix(lower, CompensationGroup, BonusGroup, RegionGroup, GovernanceGroup, InvestmentGroup, RecruitmentGroup);
  }

  /** Matching six groups is picking from each in turn. */
  lemma MatchedSix(lower: string, g0: TopicGroup, g1: TopicGroup, g2: TopicGroup,
                   g3: TopicGroup, g4: TopicGroup, g5: TopicGroup)
    ensures Matched(lower, [g0, g1, g2, g3, g4, g5])
      == Pick(lower, g0) + Pick(lower, g1) + Pick(lower, g2) + Pick(lower, g3) + Pick(lower, g4) + Pick(lower, g5)
  {
    var t5 := [g5];
    assert t5[1..] == [];
    assert Matched(lower, t5) == Pick(lower, g5);
    var t4 := [g4] + t5;
    assert t4[1..] == t5;
    assert Matched(lower, t4) == Pick(lower, g4) + Matched(lower, t5);
    var t3 := [g3] + t4;
    assert t3[1..] == t4;
    assert Matched(lower, t3) == Pick(lower, g3) + Matched(lower, t4);
    var t2 := [g2] + t3;
    assert t2[1..] == t3;
    assert Matched(lower, t2) == Pick(lower, g2) + Matched(lower, t3);
    var t1 := [g1] + t2;
    assert t1[1..] == t2;
    assert Matched(lower, t1) == Pick(lower, g1) + Matched(lower, t2);
    var t0 := [g0] + t1;
    assert t0[1..] == t1;
    assert Matched(lower, t0) == Pick(lower, g0) + Matched(lower, t1);
    assert t0 == [g0, g1, g2, g3, g4, g5];
    Regroup(Pick(lower, g0), Pick(lower, g1), Pick(lower, g2), Pick(lower, g3), Pick(lower, g4), Pick(lower, g5));
  }

  lemma Regroup(p0: seq<string>, p1: seq<string>, p2: seq<string>, p3: seq<string>, p4: seq<string>, p5: seq<string>)
    ensures p0 + (p1 + (p2 + (p3 + (p4 + p5)))) == p0 + p1 + p2 + p3 + p4 + p5
  {
  }

  /** A phrase is among the topics exactly when a group with that phrase has a term in `lower`. */
  lemma {:induction false} MatchedMembership(lower: string, groups: seq<TopicGroup>, phrase: string)
    ensures phrase in Matched(lower, groups) <==>
      exists g :: 0 <= g < |groups| && groups[g].1 == phrase && ContainsAny(lower, groups[g].0)
    decreases |groups|
  {
    if groups != [] {
      MatchedMembership(lower, groups[1..], phrase);
      if exists g :: 1 <= g < |groups| && groups[g].1 == phrase && ContainsAny(lower, groups[g].0) {
        var g :| 1 <= g < |groups| && groups[g].1 == phrase && ContainsAny(lower, groups[g].0);
        assert groups[1..][g - 1] == groups[g];
      }
      if exists g :: 0 <= g < |groups[1..]| && groups[1..][g].1 == phrase && ContainsAny(lower, groups[1..][g].0) {
        var g :| 0 <= g < |groups[1..]| && groups[1..][g].1 == phrase && ContainsAny(lower, groups[1..][g].0);
        assert groups[g + 1] == groups[1..][g];
      }
    }
  }

  /** The topics keep the groups' order: they are the phrases with some left out. */
  lemma {:induction false} MatchedInOrder(lower: string, groups: seq<TopicGroup>)
    ensures Subsequence(Matched(lower, groups), Phrases(groups))
    decreases |groups|
  {
    if groups != [] {
      MatchedInOrder(lower, groups[1..]);
      var rest := Matched(lower, groups[1..]);
      assert Phrases(groups)[1..] == Phrases(groups[1..]);
      if ContainsAny(lower, groups[0].0) {
        assert Matched(lower, groups)[1..] == rest;
      } else {
        assert Matched(lower, groups) == rest;
        SubsequenceSkip(rest, Phrases(groups));
      }
    }
  }

  /** Leaving out the first element of `b` keeps `a` a subsequence of what remains, when it is one of `b[1..]`. */
  lemma SubsequenceSkip(a: seq<string>, b: seq<string>)
    requires b != [] && Subsequence(a, b[1..])
    ensures Subsequence(a, b)
    decreases |b|, 0
  {
    if a != [] && a[0] == b[0] {
      SubsequenceTail(a, b[1..]);
    }
  }

  /** A subsequence without its first element is still a subsequence. */
  lemma {:induction false} SubsequenceTail(a: seq<string>, b: seq<string>)
    requires a != [] && Subsequence(a, b)
    ensures Subsequence(a[1..], b)
    decreases |b|, 1
  {
    if a[0] != b[0] {
      SubsequenceTail(a, b[1..]);
    }
    SubsequenceSkip(a[1..], b);
  }

  /** When the phrases are distinct, each topic appears at most once. */
  lemma {:induction false} MatchedDistinct(lower: string, groups: seq<TopicGroup>)
    requires Distinct(Phrases(groups))
    ensures Distinct(Matched(lower, groups))
    decreases |groups|
  {
    if groups != [] {
      var tail := groups[1..];
      assert Distinct(Phrases(tail)) by {
        forall i, j | 0 <= i < j < |tail| ensures Phrases(tail)[i] != Phrases(tail)[j] {
          assert Phrases(tail)[i] == Phrases(groups)[i + 1] && Phrases(tail)[j] == Phrases(groups)[j + 1];
        }
      }
      MatchedDistinct(lower, tail);
      var rest := Matched(lower, tail);
      if ContainsAny(lower, groups[0].0) {
        MatchedMembership(lower, tail, groups[0].1);
        forall g | 0 <= g < |tail| ensures tail[g].1 != groups[0].1 {
          assert Phrases(groups)[0] != Phrases(groups)[g + 1];
          assert tail[g] == groups[g + 1];
        }
        var m := Matched(lower, groups);
        assert m == [groups[0].1] + rest;
        forall i, j | 0 <= i < j < |m| ensures m[i] != m[j] {
          if i == 0 {
            assert m[j] == rest[j - 1];
          } else {
            assert m[i] == rest[i - 1] && m[j] == rest[j - 1];
          }
        }
      }
    }
  }

  /** The six topic phrases are different from one another. */
  lemma TopicPhrasesDistinct()
    ensures Distinct(Phrases(TopicGroups))
  {
    var ps := Phrases(TopicGroups);
    assert |ps[0]| == 43 && |ps[1]| == 30 && |ps[2]| == 24 && |ps[3]| == 34 && |ps[4]| == 28 && |ps[5]| == 29;
  }

  /**
   * The explanation's topics: each group's phrase at most once, in group
   * order, present exactly when one of its terms occurs in the lower-cased
   * response.
   */
  lemma TopicsCharacterised(responseText: string, phrase: string)
    ensures var topics := Topics(Lower(responseText));
      Distinct(topics) && Subsequence(topics, Phrases(TopicGroups))
      && (phrase in topics <==>
            exists g :: 0 <= g < |TopicGroups| && TopicGroups[g].1 == phrase
              && ContainsAny(Lower(responseText), TopicGroups[g].0))
  {
    TopicPhrasesDistinct();
    MatchedDistinct(Lower(responseText), TopicGroups);
    MatchedInOrder(Lower(responseText), TopicGroups);
    MatchedMembership(Lower(responseText), TopicGroups, phrase);
  }

  /** Only an empty response yields "No response generated.". */
  lemma NoResponseOnlyForEmpty(responseText: string)
    ensures Summary(responseText) == NoResponse <==> responseText == ""
  {
    if responseText != "" {
      assert |NoResponse| == 22;
      assert |GenericExplanation| > 22;
      assert |DerivedSuffix| > 22;
    }
  }

  /** Upper and lower case in the response do not change the explanation. */
  lemma SummaryCaseInsensitive(responseText: string)
    ensures Summary(Lower(responseText)) == Summary(responseText)
  {
    LowerIdempotent(responseText);
  }

  // ---------------------------------------------------------------------------
  // llm
  // ---------------------------------------------------------------------------

  const DefaultInstructions: string := "Answer the user's question based on the benchmark data."
  const ReferenceDataHeader: string := "\n\n## Detailed Reference Data\n\n"

  /** One `{"role": role, "content": content}` message. */
  function Turn(role: string, content: string): Json {
    JObj([("role", JStr(role)), ("content", JStr(content))])
  }

  /** A history message as it is sent: `msg.get("role", "user")` and `msg.get("content", "")`. */
  function NormalMessage(fields: Dict): Json {
    JObj([("role", GetOr(fields, "role", JStr("user"))), ("content", GetOr(fields, "content", JStr("")))])
  }

  /** The history as it is sent; `None` when an item is not a dict (`.get` raises). */
  function Normalise(history: seq<Json>): (r: Option<seq<Json>>)
    ensures r.Some? <==> forall i :: 0 <= i < |history| ==> history[i].JObj?
    ensures r.Some? ==> |r.value| == |history|
    ensures r.Some? ==> forall i :: 0 <= i < |history| ==> r.value[i] == NormalMessage(history[i].fields)
  {
    if forall i :: 0 <= i < |history| ==> history[i].JObj? then
      Some(seq(|history|, i requires 0 <= i < |history| && history[i].JObj? => NormalMessage(history[i].fields)))
    else None
  }

  /** The history loop of `llm`. */
  method NormaliseHistory(history: seq<Json>) returns (r: Option<seq<Json>>)
    ensures r == Normalise(history)
  {
    var messages: seq<Json> := [];
    for k := 0 to |history|
      invariant |messages| == k
      invariant forall i :: 0 <= i < k ==> history[i].JObj? && messages[i] == NormalMessage(history[i].fields)
    {
      var msg := history[k];
      if !msg.JObj? {
        return None;
      }
      messages := messages + [JObj([("role", GetOr(msg.fields, "role", JStr("user"))),
                                    ("content", GetOr(msg.fields, "content", JStr("")))])];
    }
    ghost var spec := Normalise(history);
    assert spec.Some?;
    assert messages == spec.value;
    return Some(messages);
  }

  /** A normalised message is normalised again to itself. */
  lemma NormalMessageStable(fields: Dict)
    ensures NormalMessage(NormalMessage(fields).fields) == NormalMessage(fields)
  {
    var m := NormalMessage(fields).fields;
    assert Get(m, "role") == Some(m[0].1);
    assert m[0].0 != "content" by {
      assert |m[0].0| == 4;
    }
    assert m[1..] == [m[1]];
    assert Get(m, "content") == Some(m[1].1);
  }

  /** Normalising a normalised history changes nothing. */
  lemma NormaliseIdempotent(history: seq<Json>)
    requires Normalise(history).Some?
    ensures Normalise(Normalise(history).value) == Normalise(history)
  {
    var ms := Normalise(history).value;
    forall i | 0 <= i < |ms| ensures ms[i].JObj? && NormalMessage(ms[i].fields) == ms[i] {
      NormalMessageStable(history[i].fields);
    }
    assert Normalise(ms).Some?;
    assert Normalise(ms).value == ms;
  }

  /** A normalised message of a well-formed dict is well-formed. */
  lemma NormalMessageWellFormed(fields: Dict)
    requires WellFormed(JObj(fields))
    ensures WellFormed(NormalMessage(fields))
  {
    GetWellFormed(fields, "role");
    GetWellFormed(fields, "content");
    var m := NormalMessage(fields).fields;
    assert m[0].0 != m[1].0 by {
      assert |m[0].0| == 4 && |m[1].0| == 7;
    }
    assert FieldWellFormed(m, 0) && FieldWellFormed(m, 1);
  }

  /** The messages `llm` sends: the normalised history, then the user turn with the payload. */
  function SentMessages(threadId: Json, payload: string): Option<seq<Json>> {
    match Normalise(ParseThreadHistory(threadId))
    case None => None
    case Some(history) => Some(history + [Turn("user", payload)])
  }

  /** A text block of the answer, or any other kind of block. */
  datatype Block = Block(kind: string, text: string)

  /** The concatenated text of the `"text"` blocks, in order. */
  function ResponseText(blocks: seq<Block>): string
    decreases |blocks|
  {
    if blocks == [] then ""
    else
      var last := blocks[|blocks| - 1];
      ResponseText(blocks[..|blocks| - 1]) + (if last.kind == "text" then last.text else "")
  }

  /** Blocks of the answer concatenate their texts piecewise. */
  lemma {:induction false} ResponseTextAppend(a: seq<Block>, b: seq<Block>)
    ensures ResponseText(a + b) == ResponseText(a) + ResponseText(b)
    decreases |b|
  {
    if b == [] {
      assert a + b == a;
    } else {
      var init := b[..|b| - 1];
      assert (a + b)[..|a + b| - 1] == a + init;
      assert (a + b)[|a + b| - 1] == b[|b| - 1];
      ResponseTextAppend(a, init);
    }
  }

  /** Blocks that are not text contribute nothing. */
  lemma {:induction false} ResponseTextNoText(blocks: seq<Block>)
    requires forall i :: 0 <= i < |blocks| ==> blocks[i].kind != "text"
    ensures ResponseText(blocks) == ""
    decreases |blocks|
  {
    if blocks != [] {
      ResponseTextNoText(blocks[..|blocks| - 1]);
    }
  }

  /** The text loop of `llm`: `response_text += block.text` for each text block. */
  method CollectText(blocks: seq<Block>) returns (r: string)
    ensures r == ResponseText(blocks)
  {
    r := "";
    for i := 0 to |blocks|
      invariant r == ResponseText(blocks[..i])
    {
      assert blocks[..i + 1][..i] == blocks[..i];
      if blocks[i].kind == "text" {
        r := r + blocks[i].text;
      }
    }
    assert blocks[..|blocks|] == blocks;
  }

  /**
   * What `client.messages.create` is given. `temperature` is `None` where
   * the default 0.7 applies and the value passed through otherwise.
   */
  datatype ModelRequest = ModelRequest(model: Json, maxTokens: Json, temperature: Option<Json>,
                                       system: string, messages: seq<Json>)

  /** The request built from the model parameters; `None` where `model_params.get` raises (not a dict). */
  function RequestOf(params: ModelParams, system: string, messages: seq<Json>): (r: Option<ModelRequest>)
    ensures params.DefaultModel? ==> r == Some(ModelRequest(JStr(DefaultModelName), JInt(DefaultMaxTokens), None, system, messages))
    ensures r.Some? <==> params.DefaultModel? || params.value.JObj?
  {
    match params
    case DefaultModel => Some(ModelRequest(JStr(DefaultModelName), JInt(DefaultMaxTokens), None, system, messages))
    case ModelFrom(JObj(f)) =>
      Some(ModelRequest(GetOr(f, "name", JStr(DefaultModelName)), GetOr(f, "max_tokens", JInt(DefaultMaxTokens)),
                        Get(f, "temperature"), system, messages))
    case ModelFrom(_) => None
  }

  /** The system prompt with the skill content appended; `None` where loading it raises. */
  function SystemWithSkills(fs: FileSystem, system: string): Option<string> {
    var skillDir := FirstFound(fs, SkillDirCandidates, "Skill");
    if !Exists(fs, skillDir) then Some(system)
    else match SkillContentSpec(fs, skillDir)
      case None => None
      case Some(skill) => Some(if skill != "" then system + ReferenceDataHeader + skill else system)
  }

  /** The variables substituted into the prompt file. */
  function PromptVariables(payload: string, instructions: Option<string>): seq<(string, Option<string>)> {
    var given := if instructions.Some? && instructions.value != "" then instructions.value else DefaultInstructions;
    [("instructions", Some(given)), ("payload", Some(payload))]
  }

  /** The request `llm` sends; `None` where building it raises. */
  function LlmRequest(fs: FileSystem, environmentMode: string, yamlLoad: string -> Option<Json>,
                      payload: string, instructions: Option<string>, threadId: Json): Option<ModelRequest> {
    var path := PromptPath(fs, environmentMode, "AgentPrompt.yaml");
    match PromptsSpec(fs, path, yamlLoad, PromptVariables(payload, instructions))
    case None => None
    case Some((system, _, params)) => RequestFrom(fs, system, params, payload, threadId)
  }

  /** The request built from the prompt file's system prompt and model parameters. */
  function RequestFrom(fs: FileSystem, system: string, params: ModelParams, payload: string, threadId: Json): Option<ModelRequest> {
    match SystemWithSkills(fs, system)
    case None => None
    case Some(fullSystem) =>
      match SentMessages(threadId, payload)
      case None => None
      case Some(sent) => RequestOf(params, fullSystem, sent)
  }

  /**
   * The answer to a request: the stripped text of the text blocks, its
   * explanation, and the thread id of the messages sent plus the assistant
   * turn; `None` where the model call raises.
   */
  function AnswerSpec(callModel: ModelRequest -> Option<seq<Block>>, request: ModelRequest): Option<(string, string, string)> {
    match callModel(request)
    case None => None
    case Some(blocks) =>
      var text := Strip(ResponseText(blocks));
      Some((text, Summary(text), CreateThreadId(request.messages + [Turn("assistant", text)])))
  }

  /** What `llm(payload, instructions, thread_id)` returns; `None` where it raises. */
  function LlmSpec(fs: FileSystem, environmentMode: string, yamlLoad: string -> Option<Json>,
                   callModel: ModelRequest -> Option<seq<Block>>,
                   payload: string, instructions: Option<string>, threadId: Json): Option<(string, string, string)> {
    match LlmRequest(fs, environmentMode, yamlLoad, payload, instructions, threadId)
    case None => None
    case Some(request) => AnswerSpec(callModel, request)
  }

  /** The system prompt part of `llm`. */
  method BuildSystemPrompt(fs: FileSystem, system: string) returns (r: Option<string>)
    ensures r == SystemWithSkills(fs, system)
  {
    var skillDir := GetSkillDir(fs);
    if Exists(fs, skillDir) {
      var skillContent := LoadSkillContent(fs, skillDir);
      if skillContent.None? {
        return None;
      }
      if skillContent.value != "" {
        return Some(system + "\n\n## Detailed Reference Data\n\n" + skillContent.value);
      }
    }
    return Some(system);
  }

  /** The part of `llm` before the model call: the prompt, the system prompt and the messages. */
  method BuildRequest(fs: FileSystem, environmentMode: string, yamlLoad: string -> Option<Json>,
                      payload: string, instructions: Option<string>, threadId: Json)
    returns (r: Option<ModelRequest>)
    ensures r == LlmRequest(fs, environmentMode, yamlLoad, payload, instructions, threadId)
  {
    var promptFilePath := GetPromptFilePath(fs, environmentMode, "AgentPrompt.yaml");
    var prompts := ExtractPrompts(fs, promptFilePath, yamlLoad, PromptVariables(payload, instructions));
    if prompts.None? {
      return None;
    }
    var (systemPrompt, _, modelParams) := prompts.value;
    r := BuildMessages(fs, systemPrompt, modelParams, payload, threadId);
  }

  /** The system prompt and the messages of `llm`. */
  method BuildMessages(fs: FileSystem, systemPrompt: string, modelParams: ModelParams, payload: string, threadId: Json)
    returns (r: Option<ModelRequest>)
    ensures r == RequestFrom(fs, systemPrompt, modelParams, payload, threadId)
  {
    var system := BuildSystemPrompt(fs, systemPrompt);
    if system.None? {
      return None;
    }
    var history := NormaliseHistory(ParseThreadHistory(threadId));
    if history.None? {
      return None;
    }
    var messages := history.value + [Turn("user", payload)];
    r := RequestOf(modelParams, system.value, messages);
  }

  /** The part of `llm` from the model call on. */
  method Answer(callModel: ModelRequest -> Option<seq<Block>>, request: ModelRequest)
    returns (r: Option<(string, string, string)>)
    ensures r == AnswerSpec(callModel, request)
  {
    var response := callModel(request);
    if response.None? {
      return None;
    }
    var responseText := CollectText(response.value);
    responseText := Strip(responseText);
    var explanation := ExtractReasoningSummary(responseText);
    var messages := request.messages + [Turn("assistant", responseText)];
    var newThreadId := CreateThreadId(messages);
    return Some((responseText, explanation, newThreadId));
  }

  /** `llm(payload, instructions, thread_id)` */
  method Llm(fs: FileSystem, environmentMode: string, yamlLoad: string -> Option<Json>,
             callModel: ModelRequest -> Option<seq<Block>>,
             payload: string, instructions: Option<string>, threadId: Json)
    returns (r: Option<(string, string, string)>)
    ensures r == LlmSpec(fs, environmentMode, yamlLoad, callModel, payload, instructions, threadId)
  {
    var request := BuildRequest(fs, environmentMode, yamlLoad, payload, instructions, threadId);
    if request.None? {
      return None;
    }
    r := Answer(callModel, request.value);
  }

  /** The request carries the sent messages: the normalised history, then the user turn. */
  lemma LlmRequestMessages(fs: FileSystem, environmentMode: string, yamlLoad: string -> Option<Json>,
                           payload: string, instructions: Option<string>, threadId: Json)
    requires LlmRequest(fs, environmentMode, yamlLoad, payload, instructions, threadId).Some?
    ensures SentMessages(threadId, payload).Some?
    ensures LlmRequest(fs, environmentMode, yamlLoad, payload, instructions, threadId).value.messages
      == SentMessages(threadId, payload).value
  {
  }

  /**
   * An answer's thread id decodes to the request's messages plus one
   * assistant turn carrying the answer text.
   */
  lemma AnswerThread(callModel: ModelRequest -> Option<seq<Block>>, request: ModelRequest)
    requires AnswerSpec(callModel, request).Some?
    requires forall i :: 0 <= i < |request.messages| ==> WellFormed(request.messages[i])
    ensures var (text, explanation, newThreadId) := AnswerSpec(callModel, request).value;
      ParseThreadHistory(JStr(newThreadId)) == request.messages + [Turn("assistant", text)]
      && explanation == Summary(text) && Trimmed(text)
  {
    var (text, explanation, newThreadId) := AnswerSpec(callModel, request).value;
    var sent := request.messages;
    var all := sent + [Turn("assistant", text)];
    TurnWellFormed("assistant", text);
    forall i | 0 <= i < |all| ensures WellFormed(all[i]) {
      if i < |sent| {
        assert all[i] == sent[i];
      }
    }
    ThreadRoundTrip(all);
  }

  /**
   * The new thread id of `llm` decodes to the messages sent plus one
   * assistant turn carrying the returned answer; the explanation is that of
   * the answer.
   */
  lemma LlmThread(fs: FileSystem, environmentMode: string, yamlLoad: string -> Option<Json>,
                  callModel: ModelRequest -> Option<seq<Block>>,
                  payload: string, instructions: Option<string>, threadId: Json)
    requires LlmSpec(fs, environmentMode, yamlLoad, callModel, payload, instructions, threadId).Some?
    ensures SentMessages(threadId, payload).Some?
    ensures var (text, explanation, newThreadId) :=
        LlmSpec(fs, environmentMode, yamlLoad, callModel, payload, instructions, threadId).value;
      ParseThreadHistory(JStr(newThreadId)) == SentMessages(threadId, payload).value + [Turn("assistant", text)]
      && explanation == Summary(text) && Trimmed(text)
  {
    var request := LlmRequest(fs, environmentMode, yamlLoad, payload, instructions, threadId).value;
    LlmRequestMessages(fs, environmentMode, yamlLoad, payload, instructions, threadId);
    SentWellFormed(threadId, payload);
    AnswerThread(callModel, request);
  }

  /** A message built by `Turn` is well-formed. */
  lemma TurnWellFormed(role: string, content: string)
    ensures WellFormed(Turn(role, content))
  {
    var m := Turn(role, content).fields;
    assert m[0].0 != m[1].0 by {
      assert |m[0].0| == 4 && |m[1].0| == 7;
    }
    assert FieldWellFormed(m, 0) && FieldWellFormed(m, 1);
  }

  /** The sent messages are well-formed. */
  lemma SentWellFormed(threadId: Json, payload: string)
    requires SentMessages(threadId, payload).Some?
    ensures forall i :: 0 <= i < |SentMessages(threadId, payload).value| ==> WellFormed(SentMessages(threadId, payload).value[i])
  {
    var parsed := ParseThreadHistory(threadId);
    ParsedWellFormed(threadId);
    var history := Normalise(parsed).value;
    var sent := SentMessages(threadId, payload).value;
    TurnWellFormed("user", payload);
    forall i | 0 <= i < |sent| ensures WellFormed(sent[i]) {
      if i < |history| {
        NormalMessageWellFormed(parsed[i].fields);
      }
    }
  }

  /**
   * Passing a thread id made from well-formed messages back continues the
   * conversation: the next call sends those messages, already normalised,
   * and then its own user turn.
   */
  lemma ThreadContinues(messages: seq<Json>, nextPayload: string)
    requires forall i :: 0 <= i < |messages| ==> WellFormed(messages[i])
    requires Normalise(messages) == Some(messages)
    ensures SentMessages(JStr(CreateThreadId(messages)), nextPayload) == Some(messages + [Turn("user", nextPayload)])
  {
    ThreadRoundTrip(messages);
  }

  /**
   * The messages of an `llm` thread are unchanged by normalisation, so the
   * call after it sends them as they are, followed by its user turn.
   */
  lemma LlmThreadContinues(fs: FileSystem, environmentMode: string, yamlLoad: string -> Option<Json>,
                           callModel: ModelRequest -> Option<seq<Block>>,
                           payload: string, instructions: Option<string>, threadId: Json, nextPayload: string)
    requires LlmSpec(fs, environmentMode, yamlLoad, callModel, payload, instructions, threadId).Some?
    ensures SentMessages(threadId, payload).Some?
    ensures var (text, _, newThreadId) :=
        LlmSpec(fs, environmentMode, yamlLoad, callModel, payload, instructions, threadId).value;
      SentMessages(JStr(newThreadId), nextPayload)
        == Some(SentMessages(threadId, payload).value + [Turn("assistant", text), Turn("user", nextPayload)])
  {
    var (text, _, newThreadId) :=
      LlmSpec(fs, environmentMode, yamlLoad, callModel, payload, instructions, threadId).value;
    LlmThread(fs, environmentMode, yamlLoad, callModel, payload, instructions, threadId);
    var sent := SentMessages(threadId, payload).value;
    var all := sent + [Turn("assistant", text)];
    SentStable(threadId, payload, text);
    assert SentMessages(JStr(newThreadId), nextPayload) == Some(all + [Turn("user", nextPayload)]);
    AppendTwo(sent, Turn("assistant", text), Turn("user", nextPayload));
  }

  lemma AppendTwo(s: seq<Json>, a: Json, b: Json)
    ensures s + [a] + [b] == s + [a, b]
  {
  }

  /** The sent messages and an assistant turn are unchanged by normalisation. */
  lemma SentStable(threadId: Json, payload: string, text: string)
    requires SentMessages(threadId, payload).Some?
    ensures var all := SentMessages(threadId, payload).value + [Turn("assistant", text)];
      Normalise(all) == Some(all)
  {
    var history := Normalise(ParseThreadHistory(threadId)).value;
    var all := SentMessages(threadId, payload).value + [Turn("assistant", text)];
    NormaliseIdempotent(ParseThreadHistory(threadId));
    forall i | 0 <= i < |all| ensures all[i].JObj? && NormalMessage(all[i].fields) == all[i] {
      if i < |history| {
        assert all[i] == history[i];
      } else if i == |history| {
        TurnStable("user", payload);
      } else {
        TurnStable("assistant", text);
      }
    }
    assert Normalise(all).Some?;
    assert Normalise(all).value == all;
  }

  /** A turn is normalised to itself. */
  lemma TurnStable(role: string, content: string)
    ensures NormalMessage(Turn(role, content).fields) == Turn(role, content)
  {
    var f := Turn(role, content).fields;
    assert Get(f, "role") == Some(JStr(role));
    assert f[0].0 != "content" by {
      assert |f[0].0| == 4;
    }
    assert f[1..] == [f[1]];
    assert Get(f, "content") == Some(JStr(content));
  }
}
