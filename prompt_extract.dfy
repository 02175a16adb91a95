/**
 * The prompt file: `{{name}}` substitution into the prompt text, the
 * `<message role="...">` blocks taken out of it, the model parameters with
 * their defaults, and the skill content appended to the system prompt.
 * The YAML parser is a parameter (`yamlLoad`), `None` where it raises.
 */
module PromptExtract {
  import opened Wrappers
  import opened Text
  import opened Json
  import opened Files
  import opened SkillLoader

  // ---------------------------------------------------------------------------
  // {{variable}} substitution
  // ---------------------------------------------------------------------------

  /** The placeholder for the variable `key`: `{{key}}`. */
  function Placeholder(key: string): (r: string)
    ensures r != []
  {
    "{{" + key + "}}"
  }

  /** What a placeholder is replaced by: `str(value)`, or `''` for `None`. */
  function ValueText(value: Option<string>): string {
    value.GetOr("")
  }

  /** The prompt after the variables, in the order given, are substituted one after the other. */
  function SubstituteAll(prompt: string, variables: seq<(string, Option<string>)>): string
    decreases |variables|
  {
    if variables == [] then prompt
    else
      var (key, value) := variables[|variables| - 1];
      Replace(SubstituteAll(prompt, variables[..|variables| - 1]), Placeholder(key), ValueText(value))
  }

  /** Substituting the variables up to `k` and then the one at `k`. */
  lemma SubstituteStep(prompt: string, variables: seq<(string, Option<string>)>, k: nat)
    requires k < |variables|
    ensures SubstituteAll(prompt, variables[..k + 1])
            == Replace(SubstituteAll(prompt, variables[..k]), Placeholder(variables[k].0), ValueText(variables[k].1))
  {
    PrefixStep(variables, k);
  }

  /** Dropping the last element of the prefix `s[..k + 1]`, for any element type. */
  lemma PrefixStep<T>(s: seq<T>, k: nat)
    requires k < |s|
    ensures s[..k + 1][..k] == s[..k] && s[..k + 1][k] == s[k]
  {
  }

  /**
   * Substituting one variable cuts the prompt at every `{{key}}` (the pieces
   * hold no placeholder and rejoin to the prompt) and rejoins the pieces
   * with the value's text.
   */
  lemma SubstituteOne(prompt: string, key: string, value: Option<string>)
    ensures var pieces := Split(prompt, Placeholder(key));
      SubstituteAll(prompt, [(key, value)]) == Join(pieces, ValueText(value))
      && Join(pieces, Placeholder(key)) == prompt
      && forall k :: 0 <= k < |pieces| ==> !Contains(pieces[k], Placeholder(key))
  {
    assert [(key, value)][..0] == [];
    ReplaceCharacterised(prompt, Placeholder(key), ValueText(value));
  }

  /** A prompt that holds none of the passed placeholders comes back unchanged. */
  lemma {:induction false} SubstituteUntouched(prompt: string, variables: seq<(string, Option<string>)>)
    requires forall i :: 0 <= i < |variables| ==> !Contains(prompt, Placeholder(variables[i].0))
    ensures SubstituteAll(prompt, variables) == prompt
    decreases |variables|
  {
    if variables != [] {
      var init := variables[..|variables| - 1];
      forall i | 0 <= i < |init| ensures !Contains(prompt, Placeholder(init[i].0)) {
        assert init[i] == variables[i];
      }
      SubstituteUntouched(prompt, init);
    }
  }

  // ---------------------------------------------------------------------------
  // extract_message
  // ---------------------------------------------------------------------------

  function OpenTag(role: string): string {
    "<message role=\"" + role + "\">"
  }

  const CloseTag: string := "</message>"

  /** `p` occurs at `i`, and at no earlier index from `from` on: `s.find(p, from) == i`. */
  predicate FirstAt(s: string, p: string, from: nat, i: nat) {
    from <= i && OccursAt(s, p, i) && forall k :: from <= k < i ==> !OccursAt(s, p, k)
  }

  /** `p` occurs nowhere in `s` from index `from` on. */
  predicate NoneFrom(s: string, p: string, from: nat) {
    forall k :: from <= k <= |s| ==> !OccursAt(s, p, k)
  }

  /**
   * The text between the first `open` and the first `close` after it; `''`
   * when there is no such block.
   */
  function Between(content: string, open: string, close: string): (r: string)
    ensures !Contains(content, open) ==> r == ""
    ensures exists i, j :: 0 <= i <= j <= |content| && r == content[i..j]
  {
    match Find(content, open)
    case None => assert content[0..0] == ""; ""
    case Some(i) =>
      var start := i + |open|;
      match FindFrom(content, close, start)
      case None => assert content[0..0] == ""; ""
      case Some(j) => content[start..j]
  }

  /** The first `open` is at `i` and the first `close` after it at `j`. */
  predicate BlockAt(s: string, open: string, close: string, i: nat, j: nat) {
    FirstAt(s, open, 0, i) && FirstAt(s, close, i + |open|, j)
  }

  /** The first `open` is at `i` and no `close` follows it. */
  predicate UnclosedAt(s: string, open: string, close: string, i: nat) {
    FirstAt(s, open, 0, i) && NoneFrom(s, close, i + |open|)
  }

  /** `Between` finds the block at the first occurrences. */
  lemma BetweenAt(content: string, open: string, close: string, i: nat, j: nat)
    requires BlockAt(content, open, close, i, j)
    ensures Between(content, open, close) == content[i + |open|..j]
  {
    FindFromAt(content, open, 0, i);
    FindFromAt(content, close, i + |open|, j);
  }

  /** `Between` gives `''` when the first `open` is not closed. */
  lemma BetweenUnclosed(content: string, open: string, close: string, i: nat)
    requires UnclosedAt(content, open, close, i)
    ensures Between(content, open, close) == ""
  {
    FindFromAt(content, open, 0, i);
    FindFromNone(content, close, i + |open|);
  }

  /**
   * The stripped text between the first `open` and the first `close` after
   * it, `''` when there is no opening tag or no closing tag follows it.
   */
  function Tagged(content: string, open: string, close: string): (r: string)
    ensures Trimmed(r)
    ensures exists i, j :: 0 <= i <= j <= |content| && r == Strip(content[i..j])
    ensures !Contains(content, open) ==> r == ""
    ensures forall i: nat :: UnclosedAt(content, open, close, i) ==> r == ""
    ensures forall i: nat, j: nat :: BlockAt(content, open, close, i, j) ==>
              r == Strip(content[i + |open|..j])
  {
    assert forall i: nat :: UnclosedAt(content, open, close, i) ==> Between(content, open, close) == "" by {
      forall i: nat | UnclosedAt(content, open, close, i) {
        BetweenUnclosed(content, open, close, i);
      }
    }
    assert forall i: nat, j: nat :: BlockAt(content, open, close, i, j) ==> Between(content, open, close) == content[i + |open|..j] by {
      forall i: nat, j: nat | BlockAt(content, open, close, i, j) {
        BetweenAt(content, open, close, i, j);
      }
    }
    Strip(Between(content, open, close))
  }

  /**
   * `extract_message(content, role)`: the non-greedy match of
   * `<message role="r">(.*?)</message>`, stripped. With the first opening
   * tag at `i` and the first closing tag after it at `j`, the message is the
   * stripped text between them; with no opening tag, or no closing tag after
   * the first opening one, it is `''`.
   */
  function ExtractMessage(content: string, role: string): (r: string)
    ensures Trimmed(r)
    ensures exists i, j :: 0 <= i <= j <= |content| && r == Strip(content[i..j])
    ensures !Contains(content, OpenTag(role)) ==> r == ""
    ensures forall i: nat :: UnclosedAt(content, OpenTag(role), CloseTag, i) ==> r == ""
    ensures forall i: nat, j: nat :: BlockAt(content, OpenTag(role), CloseTag, i, j) ==>
              r == Strip(content[i + |OpenTag(role)|..j])
  {
    Tagged(content, OpenTag(role), CloseTag)
  }

  /**
   * The block of `pre + open + body + close + post`: when no `open` starts
   * inside `pre` and no `close` starts inside `body`, the tagged text is the
   * stripped `body`, whatever `post` holds.
   */
  lemma TaggedBlock(pre: string, open: string, body: string, close: string, post: string)
    requires forall k :: 0 <= k < |pre| ==> !OccursAt(pre + open + body + close + post, open, k)
    requires forall k :: |pre| + |open| <= k < |pre| + |open| + |body| ==>
               !OccursAt(pre + open + body + close + post, close, k)
    ensures Tagged(pre + open + body + close + post, open, close) == Strip(body)
  {
    var content := pre + open + body + close + post;
    var end := |pre| + |open| + |body|;
    LayoutBlock(pre, open, body, close, post);
    TaggedAt(content, open, close, |pre|, end);
  }

  /** The parts of `pre + open + body + close + post` form the first block. */
  lemma LayoutBlock(pre: string, open: string, body: string, close: string, post: string)
    requires forall k :: 0 <= k < |pre| ==> !OccursAt(pre + open + body + close + post, open, k)
    requires forall k :: |pre| + |open| <= k < |pre| + |open| + |body| ==>
               !OccursAt(pre + open + body + close + post, close, k)
    ensures BlockAt(pre + open + body + close + post, open, close, |pre|, |pre| + |open| + |body|)
    ensures (pre + open + body + close + post)[|pre| + |open|..|pre| + |open| + |body|] == body
  {
    var content := pre + open + body + close + post;
    Layout(pre, open, body, close, post);
    assert OccursAt(content, open, |pre|);
    assert OccursAt(content, close, |pre| + |open| + |body|);
  }

  /** The tagged text of a block found at `i` and `j`. */
  lemma TaggedAt(content: string, open: string, close: string, i: nat, j: nat)
    requires BlockAt(content, open, close, i, j)
    ensures i + |open| <= j <= |content|
    ensures Tagged(content, open, close) == Strip(content[i + |open|..j])
  {
  }

  /**
   * The block of `pre + open + body + close + post` for one role: when no
   * opening tag of that role starts inside `pre` and no closing tag starts
   * inside `body`, the message is the stripped `body`, whatever `post` holds.
   */
  lemma ExtractBlock(pre: string, role: string, body: string, post: string)
    requires forall k :: 0 <= k < |pre| ==> !OccursAt(pre + OpenTag(role) + body + CloseTag + post, OpenTag(role), k)
    requires forall k :: |pre| + |OpenTag(role)| <= k < |pre| + |OpenTag(role)| + |body| ==>
               !OccursAt(pre + OpenTag(role) + body + CloseTag + post, CloseTag, k)
    ensures ExtractMessage(pre + OpenTag(role) + body + CloseTag + post, role) == Strip(body)
  {
    TaggedBlock(pre, OpenTag(role), body, CloseTag, post);
  }

  /** Where each part of `a + b + c + d + e` sits. */
  lemma Layout(a: string, b: string, c: string, d: string, e: string)
    ensures var s := a + b + c + d + e;
      |s| == |a| + |b| + |c| + |d| + |e|
      && s[|a|..|a| + |b|] == b
      && s[|a| + |b|..|a| + |b| + |c|] == c
      && s[|a| + |b| + |c|..|a| + |b| + |c| + |d|] == d
      && (forall k :: 0 <= k < |a| ==> s[k] == a[k])
      && (forall k :: |a| + |b| <= k < |a| + |b| + |c| ==> s[k] == c[k - |a| - |b|])
  {
  }

  // ---------------------------------------------------------------------------
  // extract_prompts
  // ---------------------------------------------------------------------------

  const DefaultModelName: string := "claude-sonnet-4-20250514"
  const DefaultTemperature: real := 0.7
  const DefaultMaxTokens: int := 4096

  /**
   * `model_params`: the `model` value of the prompt file, or the default
   * dict (name `DefaultModelName`, temperature `DefaultTemperature`,
   * max_tokens `DefaultMaxTokens`) when the file has none.
   */
  datatype ModelParams = DefaultModel | ModelFrom(value: Json)

  /** The system and the user message of the substituted prompt. */
  function Messages(content: string): (string, string) {
    (ExtractMessage(content, "system"), ExtractMessage(content, "user"))
  }

  /**
   * What `extract_prompts` returns, `(system_prompt, user_prompt,
   * model_params)`; `None` where it raises: the file cannot be read or
   * parsed, the document is not a dict, or its prompt is not a string.
   */
  function PromptsSpec(fs: FileSystem, path: string, yamlLoad: string -> Option<Json>,
                       variables: seq<(string, Option<string>)>): Option<(string, string, ModelParams)> {
    match Read(fs, path)
    case None => None
    case Some(text) =>
      match yamlLoad(text)
      case Some(JObj(data)) =>
        var params := match Get(data, "model") case Some(m) => ModelFrom(m) case None => DefaultModel;
        (match GetOr(data, "prompt", JStr(""))
         case JStr(prompt) =>
           var content := SubstituteAll(prompt, variables);
           var (system, user) := Messages(content);
           Some((system, user, params))
         case _ => None)
      case _ => None
  }

  /** `extract_prompts(yaml_file_path, **variables)` */
  method ExtractPrompts(fs: FileSystem, yamlFilePath: string, yamlLoad: string -> Option<Json>,
                        variables: seq<(string, Option<string>)>)
    returns (r: Option<(string, string, ModelParams)>)
    ensures r == PromptsSpec(fs, yamlFilePath, yamlLoad, variables)
  {
    var text := Read(fs, yamlFilePath);
    if text.None? {
      return None;
    }
    var data := yamlLoad(text.value);
    if !(data.Some? && data.value.JObj?) {
      return None;
    }
    var fields := data.value.fields;
    var modelParams := match Get(fields, "model") case Some(m) => ModelFrom(m) case None => DefaultModel;
    var prompt := GetOr(fields, "prompt", JStr(""));
    if !prompt.JStr? {
      return None;
    }
    var promptContent := SubstituteVariables(prompt.s, variables);
    var (systemPrompt, userPrompt) := Messages(promptContent);
    return Some((systemPrompt, userPrompt, modelParams));
  }

  /** The substitution loop of `extract_prompts`: each variable in turn replaces its placeholder. */
  method SubstituteVariables(prompt: string, variables: seq<(string, Option<string>)>) returns (content: string)
    ensures content == SubstituteAll(prompt, variables)
  {
    content := prompt;
    for k := 0 to |variables|
      invariant content == SubstituteAll(prompt, variables[..k])
    {
      var (key, value) := variables[k];
      var placeholder := "{{" + key + "}}";
      SubstituteStep(prompt, variables, k);
      if value.Some? {
        content := Replace(content, placeholder, value.value);
      } else {
        content := Replace(content, placeholder, "");
      }
    }
    assert variables[..|variables|] == variables;
  }

  /** A prompt file without a `model` entry gets the default model parameters. */
  lemma DefaultModelWhenAbsent(fs: FileSystem, path: string, yamlLoad: string -> Option<Json>,
                               variables: seq<(string, Option<string>)>, data: Dict)
    requires Read(fs, path).Some? && yamlLoad(Read(fs, path).value) == Some(JObj(data))
    requires !HasKey(data, "model") && GetOr(data, "prompt", JStr("")).JStr?
    ensures PromptsSpec(fs, path, yamlLoad, variables).Some?
    ensures PromptsSpec(fs, path, yamlLoad, variables).value.2 == DefaultModel
  {
  }

  // ---------------------------------------------------------------------------
  // load_skill_content
  // ---------------------------------------------------------------------------

  /** Every `.md` file of the `references` listing, in sorted order, when the directory exists. */
  function AllReferencePieces(fs: FileSystem, referencesDir: string): Option<seq<Piece>> {
    if !Exists(fs, referencesDir) then Some([])
    else match ListDir(fs, referencesDir)
      case None => None
      case Some(listing) => Pieces(fs, referencesDir, SortStrings(listing), Listed)
  }

  /** What `load_skill_content(skill_dir)` returns; `None` where it raises. */
  function SkillContentSpec(fs: FileSystem, skillDir: string): Option<string> {
    match OverviewPieces(fs, skillDir)
    case None => None
    case Some(overview) =>
      match AllReferencePieces(fs, PathJoin(skillDir, "references"))
      case None => None
      case Some(refs) => Some(Join(Texts(overview + refs), PartSeparator))
  }

  /** `load_skill_content(skill_dir)` */
  method LoadSkillContent(fs: FileSystem, skillDir: string) returns (r: Option<string>)
    ensures r == SkillContentSpec(fs, skillDir)
  {
    var overview := LoadOverview(fs, skillDir);
    if overview.None? {
      return None;
    }
    var contentParts := overview.value.0;
    ghost var level1 := OverviewPieces(fs, skillDir).value;
    var referencesDir := PathJoin(skillDir, "references");
    var refs := LoadAllReferences(fs, referencesDir, contentParts);
    if refs.None? {
      return None;
    }
    TextsAppend(level1, AllReferencePieces(fs, referencesDir).value);
    return Some(Join(refs.value, PartSeparator));
  }

  /** The reference loop of `load_skill_content`, appending to `contentParts`. */
  method LoadAllReferences(fs: FileSystem, referencesDir: string, contentParts: seq<string>)
    returns (r: Option<seq<string>>)
    ensures r == match AllReferencePieces(fs, referencesDir)
      case None => None
      case Some(ps) => Some(contentParts + Texts(ps))
  {
    var parts := contentParts;
    if Exists(fs, referencesDir) {
      var listing := ListDir(fs, referencesDir);
      if listing.None? {
        return None;
      }
      var names := SortStrings(listing.value);
      ghost var pieces: seq<Piece> := [];
      for i := 0 to |names|
        invariant Pieces(fs, referencesDir, names[..i], Listed) == Some(pieces)
        invariant parts == contentParts + Texts(pieces)
      {
        var filename := names[i];
        PiecesStep(fs, referencesDir, names, Listed, i);
        if EndsWith(filename, ".md") {
          var filepath := PathJoin(referencesDir, filename);
          var text := Read(fs, filepath);
          if text.None? {
            PiecesPrefixNone(fs, referencesDir, names, Listed, i + 1);
            return None;
          }
          parts := parts + [text.value];
          pieces := pieces + [Piece(ReferenceName(filename), text.value)];
        }
      }
      assert names[..|names|] == names;
      return Some(parts);
    }
    assert parts == contentParts + Texts([]);
    return Some(parts);
  }

  /**
   * `load_skill_content` gives the same text as the fallback of
   * `load_relevant_skills`: `SKILL.md`, then every `.md` reference file in
   * sorted order.
   */
  lemma SkillContentIsFallback(fs: FileSystem, skillDir: string, query: string)
    requires FallbackFires(query, [], FallbackKeywords)
    ensures SkillContentSpec(fs, skillDir) == match LoadSpec(fs, skillDir, query, [])
      case None => None
      case Some(loaded) => Some(loaded.0)
  {
  }
}
