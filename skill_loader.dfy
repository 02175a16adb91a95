/**
 * Reference selection for the benchmark skill: which reference files a query
 * needs (`classify_query`), the two-tier context built from them
 * (`load_relevant_skills`), and the catalog summary for the system prompt.
 */
module SkillLoader {
  import opened Wrappers
  import opened Text
  import opened Files

  /** One entry of `SKILL_FILES`: a reference file, the keywords that select it, and its description. */
  datatype SkillFile = SkillFile(filename: string, keywords: seq<string>, description: string)

  /** `SKILL_FILES`, in its (insertion) order. */
  const Catalog: seq<SkillFile> := [
    SkillFile("regional-uk.md",
      ["uk", "united kingdom", "britain", "british", "london", "gbp", "£"],
      "UK family office compensation data"),
    SkillFile("regional-europe.md",
      ["europe", "european", "eu", "germany", "france", "switzerland", "eur", "€"],
      "Continental Europe compensation data"),
    SkillFile("regional-usa.md",
      ["usa", "us", "united states", "america", "american", "usd", "$", "new york", "california"],
      "USA family office compensation data"),
    SkillFile("regional-asia.md",
      ["asia", "asian", "singapore", "hong kong", "china", "japan", "india"],
      "Asia family office compensation data"),
    SkillFile("regional-australia.md",
      ["australia", "australian", "sydney", "melbourne", "aud"],
      "Australia family office compensation data"),
    SkillFile("regional-middleeast.md",
      ["middle east", "uae", "dubai", "saudi", "arabia", "qatar", "gulf"],
      "Middle East family office compensation data"),
    SkillFile("governance.md",
      ["governance", "succession", "structure", "board", "family council", "next gen", "professionalisation"],
      "Family office governance and succession planning"),
    SkillFile("investments.md",
      ["investment", "invest", "portfolio", "allocation", "asset", "roi", "return", "equity", "real estate", "private"],
      "Investment strategies and asset allocation"),
    SkillFile("recruitment.md",
      ["recruit", "hiring", "hire", "talent", "team", "staff", "employee", "headcount", "remote", "turnover"],
      "Recruitment trends and talent management")
  ]

  const CompensationKeywords: seq<string> :=
    ["salary", "salaries", "compensation", "pay", "bonus", "ltip", "incentive", "benefits", "package"]

  const RoleKeywords: seq<string> :=
    ["ceo", "cfo", "cio", "chief", "director", "manager", "analyst", "head of"]

  /** The keywords that let the fallback fire. */
  const FallbackKeywords: seq<string> := CompensationKeywords + RoleKeywords

  const ComparisonWords: seq<string> :=
    ["compare", "comparison", "vs", "versus", "difference", "between"]

  /** The separator between the parts of the assembled context. */
  const PartSeparator: string := "\n\n---\n\n"

  predicate InCatalog(f: string) {
    exists m | 0 <= m < |Catalog| :: Catalog[m].filename == f
  }

  /** `f` is a catalog file and one of its keywords occurs in the lower-cased query. */
  predicate Relevant(query: string, f: string) {
    exists m | 0 <= m < |Catalog| :: Catalog[m].filename == f && ContainsAny(Lower(query), Catalog[m].keywords)
  }

  predicate Distinct(xs: seq<string>) {
    forall i, j :: 0 <= i < j < |xs| ==> xs[i] != xs[j]
  }

  /** A possible result of `classify_query(query)`: the relevant files, each once, in any order. */
  ghost predicate IsClassification(query: string, r: seq<string>) {
    Distinct(r) && forall f :: f in r <==> Relevant(query, f)
  }

  /** Where `get_skill_dir()` looks for the skill directory, in order. */
  const SkillDirCandidates: seq<string> := ["Skill", "/var/task/Skill", "/tmp/Skill"]

  /** `get_skill_dir()` */
  method GetSkillDir(fs: FileSystem) returns (r: string)
    ensures r == FirstFound(fs, SkillDirCandidates, "Skill")
    ensures Exists(fs, "Skill") ==> r == "Skill"
    ensures !Exists(fs, "Skill") && Exists(fs, "/var/task/Skill") ==> r == "/var/task/Skill"
    ensures !Exists(fs, "Skill") && !Exists(fs, "/var/task/Skill") && Exists(fs, "/tmp/Skill") ==> r == "/tmp/Skill"
    ensures !Exists(fs, "Skill") && !Exists(fs, "/var/task/Skill") && !Exists(fs, "/tmp/Skill") ==> r == "Skill"
  {
    var paths := SkillDirCandidates;
    r := FirstExisting(fs, paths, "Skill");
    if Exists(fs, paths[0]) || Exists(fs, paths[1]) || Exists(fs, paths[2]) {
      var k :| 0 <= k < |paths| && paths[k] == r && Exists(fs, r) && forall m :: 0 <= m < k ==> !Exists(fs, paths[m]);
      assert k == 0 || !Exists(fs, paths[0]);
      assert k <= 1 || !Exists(fs, paths[1]);
    }
  }

  /**
   * `classify_query(query)`. The result comes from a Python set, so its
   * order is not determined; any order may come back here too.
   */
  method ClassifyQuery(query: string) returns (r: seq<string>)
    ensures Distinct(r)
    ensures forall f :: f in r <==> Relevant(query, f)
    ensures forall i :: 0 <= i < |r| ==> InCatalog(r[i])
  {
    var queryLower := Lower(query);
    var relevantFiles: set<string> := {};
    for k := 0 to |Catalog|
      invariant forall f :: f in relevantFiles <==>
        exists m | 0 <= m < k :: Catalog[m].filename == f && ContainsAny(queryLower, Catalog[m].keywords)
    {
      var keywords := Catalog[k].keywords;
      var before := relevantFiles;
      var w := 0;
      while w < |keywords|
        invariant 0 <= w <= |keywords|
        invariant forall v :: 0 <= v < w ==> !Contains(queryLower, keywords[v])
        invariant relevantFiles == before
      {
        if Contains(queryLower, keywords[w]) {
          relevantFiles := relevantFiles + {Catalog[k].filename};
          break;
        }
        w := w + 1;
      }
    }
    // The comparison-word check of the source does nothing.
    if ContainsAny(queryLower, ComparisonWords) {
    }
    r := ListOfSet(relevantFiles);
    forall i | 0 <= i < |r| ensures InCatalog(r[i]) {
      assert r[i] in r;
    }
  }

  /** `list(s)`: the elements of the set, each once, in an order the set does not fix. */
  method ListOfSet(s: set<string>) returns (r: seq<string>)
    ensures Distinct(r)
    ensures forall x :: x in r <==> x in s
  {
    r := [];
    var rest := s;
    while rest != {}
      invariant rest <= s
      invariant Distinct(r)
      invariant forall i :: 0 <= i < |r| ==> r[i] in s && r[i] !in rest
      invariant forall x :: x in s ==> x in rest || x in r
      decreases |rest|
    {
      var x :| x in rest;
      r := r + [x];
      rest := rest - {x};
    }
  }

  // ---------------------------------------------------------------------------
  // load_relevant_skills
  // ---------------------------------------------------------------------------

  /** One loaded file: the name reported in `loaded_files` and the text added to `content_parts`. */
  datatype Piece = Piece(name: string, text: string)

  function Names(ps: seq<Piece>): (r: seq<string>)
    ensures |r| == |ps| && forall i :: 0 <= i < |ps| ==> r[i] == ps[i].name
  {
    seq(|ps|, i requires 0 <= i < |ps| => ps[i].name)
  }

  function Texts(ps: seq<Piece>): (r: seq<string>)
    ensures |r| == |ps| && forall i :: 0 <= i < |ps| ==> r[i] == ps[i].text
  {
    seq(|ps|, i requires 0 <= i < |ps| => ps[i].text)
  }

  /** Level 1: `SKILL.md` when it exists; `None` when it exists but cannot be read. */
  function OverviewPieces(fs: FileSystem, skillDir: string): Option<seq<Piece>> {
    var path := PathJoin(skillDir, "SKILL.md");
    if !Exists(fs, path) then Some([])
    else match Read(fs, path)
      case None => None
      case Some(t) => Some([Piece("SKILL.md", "# Skill Overview\n" + t)])
  }

  /**
   * How a reference name is treated: a classified name is skipped when its
   * file does not exist; a listed name is skipped unless it ends in `.md`,
   * and is opened without an existence check.
   */
  datatype Tier = Classified | Listed

  predicate Skipped(fs: FileSystem, referencesDir: string, name: string, tier: Tier) {
    match tier
    case Classified => !Exists(fs, PathJoin(referencesDir, name))
    case Listed => !EndsWith(name, ".md")
  }

  /** The name a loaded reference file is reported under. */
  function ReferenceName(name: string): string {
    "references/" + name
  }

  /** `Some(None)`: skipped; `Some(Some(p))`: loaded; `None`: `open` raises. */
  function PieceOf(fs: FileSystem, referencesDir: string, name: string, tier: Tier): Option<Option<Piece>> {
    var path := PathJoin(referencesDir, name);
    if Skipped(fs, referencesDir, name, tier) then Some(None)
    else match Read(fs, path)
      case None => None
      case Some(t) => Some(Some(Piece(ReferenceName(name), t)))
  }

  /** The pieces loaded, in order, from the reference names `names`. */
  function Pieces(fs: FileSystem, referencesDir: string, names: seq<string>, tier: Tier): Option<seq<Piece>>
    decreases |names|
  {
    if names == [] then Some([])
    else match Pieces(fs, referencesDir, names[..|names| - 1], tier)
      case None => None
      case Some(ps) =>
        match PieceOf(fs, referencesDir, names[|names| - 1], tier)
        case None => None
        case Some(None) => Some(ps)
        case Some(Some(p)) => Some(ps + [p])
  }

  /** The fallback fires: nothing was classified, but the query names a compensation or role keyword. */
  predicate FallbackFires(query: string, relevant: seq<string>, keywords: seq<string>) {
    relevant == [] && ContainsAny(Lower(query), keywords)
  }

  /** Level 2 and the fallback, for the classification `relevant`. */
  function ReferencePieces(fs: FileSystem, referencesDir: string, query: string, relevant: seq<string>,
                           keywords: seq<string>): Option<seq<Piece>> {
    if Exists(fs, referencesDir) && relevant != [] then
      Pieces(fs, referencesDir, relevant, Classified)
    else if FallbackFires(query, relevant, keywords) && Exists(fs, referencesDir) then
      match ListDir(fs, referencesDir)
      case None => None
      case Some(listing) => Pieces(fs, referencesDir, SortStrings(listing), Listed)
    else Some([])
  }

  /**
   * What `load_relevant_skills(skill_dir, query)` returns, `(combined_content,
   * loaded_files)`, when `classify_query` gave `relevant`; `None` when it raises.
   */
  function LoadSpec(fs: FileSystem, skillDir: string, query: string, relevant: seq<string>): Option<(string, seq<string>)> {
    match OverviewPieces(fs, skillDir)
    case None => None
    case Some(overview) =>
      match ReferencePieces(fs, PathJoin(skillDir, "references"), query, relevant, FallbackKeywords)
      case None => None
      case Some(refs) => Some((Join(Texts(overview + refs), PartSeparator), Names(overview + refs)))
  }

  lemma {:induction false} PiecesPrefixNone(fs: FileSystem, referencesDir: string, names: seq<string>, tier: Tier, i: nat)
    requires i <= |names| && Pieces(fs, referencesDir, names[..i], tier).None?
    ensures Pieces(fs, referencesDir, names, tier).None?
    decreases |names|
  {
    if i == |names| {
      assert names[..i] == names;
    } else {
      var init := names[..|names| - 1];
      assert init[..i] == names[..i];
      PiecesPrefixNone(fs, referencesDir, init, tier, i);
    }
  }

  /** One step of a loading loop: what `Pieces` gives for `names[..i + 1]`. */
  lemma PiecesStep(fs: FileSystem, referencesDir: string, names: seq<string>, tier: Tier, i: nat)
    requires i < |names|
    ensures Pieces(fs, referencesDir, names[..i + 1], tier) ==
      match Pieces(fs, referencesDir, names[..i], tier)
      case None => None
      case Some(ps) =>
        match PieceOf(fs, referencesDir, names[i], tier)
        case None => None
        case Some(None) => Some(ps)
        case Some(Some(p)) => Some(ps + [p])
  {
    assert names[..i + 1][..i] == names[..i];
  }

  /**
   * A loading loop of `load_relevant_skills`: each name of `names` in turn,
   * its text appended to `contentParts` and its name to `loadedFiles`;
   * `None` where an `open` raises.
   */
  method LoadReferences(fs: FileSystem, referencesDir: string, names: seq<string>, tier: Tier,
                        contentParts: seq<string>, loadedFiles: seq<string>)
    returns (r: Option<(seq<string>, seq<string>)>)
    ensures r == match Pieces(fs, referencesDir, names, tier)
      case None => None
      case Some(ps) => Some((contentParts + Texts(ps), loadedFiles + Names(ps)))
    ensures r.Some? ==> |r.value.0| - |contentParts| == |r.value.1| - |loadedFiles|
  {
    var parts, loaded := contentParts, loadedFiles;
    ghost var pieces: seq<Piece> := [];
    for i := 0 to |names|
      invariant Pieces(fs, referencesDir, names[..i], tier) == Some(pieces)
      invariant parts == contentParts + Texts(pieces) && loaded == loadedFiles + Names(pieces)
    {
      var filename := names[i];
      var filepath := PathJoin(referencesDir, filename);
      PiecesStep(fs, referencesDir, names, tier, i);
      if !Skipped(fs, referencesDir, filename, tier) {
        var text := Read(fs, filepath);
        if text.None? {
          PiecesPrefixNone(fs, referencesDir, names, tier, i + 1);
          return None;
        }
        parts := parts + [text.value];
        loaded := loaded + [ReferenceName(filename)];
        pieces := pieces + [Piece(ReferenceName(filename), text.value)];
      }
    }
    assert names[..|names|] == names;
    return Some((parts, loaded));
  }

  /** Level 1 of `load_relevant_skills`: `SKILL.md` into `content_parts` and `loaded_files`. */
  method LoadOverview(fs: FileSystem, skillDir: string) returns (r: Option<(seq<string>, seq<string>)>)
    ensures r == match OverviewPieces(fs, skillDir)
      case None => None
      case Some(ps) => Some((Texts(ps), Names(ps)))
  {
    var loadedFiles: seq<string> := [];
    var contentParts: seq<string> := [];
    var skillMdPath := PathJoin(skillDir, "SKILL.md");
    if Exists(fs, skillMdPath) {
      var text := Read(fs, skillMdPath);
      if text.None? {
        return None;
      }
      contentParts := contentParts + ["# Skill Overview\n" + text.value];
      loadedFiles := loadedFiles + ["SKILL.md"];
      ghost var ps := [Piece("SKILL.md", "# Skill Overview\n" + text.value)];
      assert OverviewPieces(fs, skillDir) == Some(ps);
      assert contentParts == Texts(ps) && loadedFiles == Names(ps);
    } else {
      assert OverviewPieces(fs, skillDir) == Some([]);
    }
    return Some((contentParts, loadedFiles));
  }

  /**
   * Level 2 and the fallback of `load_relevant_skills`, for the
   * classification `relevantFiles` and the fallback keywords `keywords`.
   */
  method LoadLevel2(fs: FileSystem, referencesDir: string, query: string, relevantFiles: seq<string>,
                    keywords: seq<string>, contentParts: seq<string>, loadedFiles: seq<string>)
    returns (r: Option<(seq<string>, seq<string>)>)
    ensures r == match ReferencePieces(fs, referencesDir, query, relevantFiles, keywords)
      case None => None
      case Some(ps) => Some((contentParts + Texts(ps), loadedFiles + Names(ps)))
  {
    if Exists(fs, referencesDir) && relevantFiles != [] {
      r := LoadReferences(fs, referencesDir, relevantFiles, Classified, contentParts, loadedFiles);
      return;
    }
    if relevantFiles == [] {
      var queryLower := Lower(query);
      if ContainsAny(queryLower, keywords) {
        if Exists(fs, referencesDir) {
          var listing := ListDir(fs, referencesDir);
          if listing.None? {
            return None;
          }
          r := LoadReferences(fs, referencesDir, SortStrings(listing.value), Listed, contentParts, loadedFiles);
          return;
        }
      }
    }
    assert contentParts + Texts([]) == contentParts && loadedFiles + Names([]) == loadedFiles;
    return Some((contentParts, loadedFiles));
  }

  /**
   * `load_relevant_skills(skill_dir, query)`: `None` where it raises. The
   * classification it used is `relevant`; it is a classification of `query`
   * whenever the function gets as far as classifying.
   */
  method LoadRelevantSkills(fs: FileSystem, skillDir: string, query: string)
    returns (r: Option<(string, seq<string>)>, ghost relevant: seq<string>)
    ensures OverviewPieces(fs, skillDir).Some? ==> IsClassification(query, relevant)
    ensures r == LoadSpec(fs, skillDir, query, relevant)
  {
    var level1 := LoadOverview(fs, skillDir);
    if level1.None? {
      return None, [];
    }
    var contentParts, loadedFiles := level1.value.0, level1.value.1;
    ghost var overview := OverviewPieces(fs, skillDir).value;

    // Level 2 and the fallback
    var relevantFiles := ClassifyQuery(query);
    relevant := relevantFiles;
    var referencesDir := PathJoin(skillDir, "references");
    var loaded := LoadLevel2(fs, referencesDir, query, relevantFiles, FallbackKeywords, contentParts, loadedFiles);
    if loaded.None? {
      return None, relevant;
    }
    contentParts, loadedFiles := loaded.value.0, loaded.value.1;
    ghost var refs := ReferencePieces(fs, referencesDir, query, relevant, FallbackKeywords).value;
    TextsAppend(overview, refs);
    NamesAppend(overview, refs);
    r := Some((Join(contentParts, PartSeparator), loadedFiles));
  }

  // ---------------------------------------------------------------------------
  // What load_relevant_skills loads
  // ---------------------------------------------------------------------------

  /** The names of `names` that are not skipped, in order. */
  function Kept(fs: FileSystem, referencesDir: string, names: seq<string>, tier: Tier): (r: seq<string>)
    ensures forall n :: n in r <==> n in names && !Skipped(fs, referencesDir, n, tier)
    decreases |names|
  {
    if names == [] then []
    else
      var init, last := names[..|names| - 1], names[|names| - 1];
      assert names == init + [last];
      if Skipped(fs, referencesDir, last, tier) then Kept(fs, referencesDir, init, tier)
      else Kept(fs, referencesDir, init, tier) + [last]
  }

  function ReferenceNames(names: seq<string>): (r: seq<string>)
    ensures |r| == |names| && forall i :: 0 <= i < |names| ==> r[i] == ReferenceName(names[i])
  {
    seq(|names|, i requires 0 <= i < |names| => ReferenceName(names[i]))
  }

  /** The loaded names are the kept ones, in order, under `references/`. */
  lemma {:induction false} PiecesNames(fs: FileSystem, referencesDir: string, names: seq<string>, tier: Tier)
    requires Pieces(fs, referencesDir, names, tier).Some?
    ensures Names(Pieces(fs, referencesDir, names, tier).value) == ReferenceNames(Kept(fs, referencesDir, names, tier))
    decreases |names|
  {
    if names != [] {
      var init := names[..|names| - 1];
      PiecesNames(fs, referencesDir, init, tier);
    }
  }

  /** Filtering keeps each kept name as often as it occurs and drops every skipped one. */
  lemma {:induction false} KeptCount(fs: FileSystem, referencesDir: string, names: seq<string>, tier: Tier, n: string)
    ensures multiset(Kept(fs, referencesDir, names, tier))[n] ==
              if Skipped(fs, referencesDir, n, tier) then 0 else multiset(names)[n]
    decreases |names|
  {
    if names != [] {
      var init, last := names[..|names| - 1], names[|names| - 1];
      assert names == init + [last];
      KeptCount(fs, referencesDir, init, tier, n);
    }
  }

  /** Filtering keeps a sorted sequence sorted. */
  lemma {:induction false} KeptSorted(fs: FileSystem, referencesDir: string, names: seq<string>, tier: Tier)
    requires Sorted(names)
    ensures Sorted(Kept(fs, referencesDir, names, tier))
    decreases |names|
  {
    if names != [] {
      var init, last := names[..|names| - 1], names[|names| - 1];
      assert Sorted(init) by {
        forall i | 0 <= i < |init| - 1 ensures LexLe(init[i], init[i + 1]) {
          assert init[i] == names[i] && init[i + 1] == names[i + 1];
        }
      }
      KeptSorted(fs, referencesDir, init, tier);
      var k := Kept(fs, referencesDir, init, tier);
      if !Skipped(fs, referencesDir, last, tier) && k != [] {
        assert k[|k| - 1] in init;
        var j :| 0 <= j < |init| && init[j] == k[|k| - 1];
        SortedLe(names, j, |names| - 1);
        var r := k + [last];
        forall i | 0 <= i < |r| - 1 ensures LexLe(r[i], r[i + 1]) {
          if i < |k| - 1 {
            assert r[i] == k[i] && r[i + 1] == k[i + 1];
          }
        }
      }
    }
  }

  /** The names `load_relevant_skills` reports for `SKILL.md`: one when the file is there. */
  function OverviewNames(fs: FileSystem, skillDir: string): seq<string> {
    if Exists(fs, PathJoin(skillDir, "SKILL.md")) then ["SKILL.md"] else []
  }

  lemma OverviewPiecesNames(fs: FileSystem, skillDir: string)
    requires OverviewPieces(fs, skillDir).Some?
    ensures Names(OverviewPieces(fs, skillDir).value) == OverviewNames(fs, skillDir)
  {
  }

  /**
   * When `SKILL.md` is there, it is loaded first: `"SKILL.md"` heads the
   * loaded names and the combined content opens with its overview part.
   */
  lemma OverviewFirst(fs: FileSystem, skillDir: string, query: string, relevant: seq<string>, text: string)
    requires Read(fs, PathJoin(skillDir, "SKILL.md")) == Some(text)
    requires LoadSpec(fs, skillDir, query, relevant).Some?
    ensures var (content, names) := LoadSpec(fs, skillDir, query, relevant).value;
      var part := "# Skill Overview\n" + text;
      names != [] && names[0] == "SKILL.md" && |part| <= |content| && content[..|part|] == part
  {
    var overview := OverviewPieces(fs, skillDir).value;
    var refs := ReferencePieces(fs, PathJoin(skillDir, "references"), query, relevant, FallbackKeywords).value;
    assert Texts(overview + refs)[0] == "# Skill Overview\n" + text;
    JoinHead(Texts(overview + refs), PartSeparator);
  }

  /** Without a `SKILL.md`, every loaded name is a reference file. */
  lemma NoOverviewOnlyReferences(fs: FileSystem, skillDir: string, query: string, relevant: seq<string>)
    requires !Exists(fs, PathJoin(skillDir, "SKILL.md"))
    requires LoadSpec(fs, skillDir, query, relevant).Some?
    ensures var names := LoadSpec(fs, skillDir, query, relevant).value.1;
      forall i :: 0 <= i < |names| ==> exists f :: names[i] == ReferenceName(f)
  {
    var refs := ReferencePieces(fs, PathJoin(skillDir, "references"), query, relevant, FallbackKeywords).value;
    assert OverviewPieces(fs, skillDir) == Some([]);
    assert [] + refs == refs;
    forall i | 0 <= i < |refs| ensures exists f :: refs[i].name == ReferenceName(f) {
      ReferencePiecesNamed(fs, skillDir, query, relevant, i);
    }
  }

  lemma ReferencePiecesNamed(fs: FileSystem, skillDir: string, query: string, relevant: seq<string>, i: nat)
    requires ReferencePieces(fs, PathJoin(skillDir, "references"), query, relevant, FallbackKeywords).Some?
    requires i < |ReferencePieces(fs, PathJoin(skillDir, "references"), query, relevant, FallbackKeywords).value|
    ensures exists f :: ReferencePieces(fs, PathJoin(skillDir, "references"), query, relevant, FallbackKeywords).value[i].name == ReferenceName(f)
  {
    var referencesDir := PathJoin(skillDir, "references");
    var refs := ReferencePieces(fs, PathJoin(skillDir, "references"), query, relevant, FallbackKeywords).value;
    if Exists(fs, referencesDir) && relevant != [] {
      PiecesNames(fs, referencesDir, relevant, Classified);
      assert refs[i].name == ReferenceName(Kept(fs, referencesDir, relevant, Classified)[i]);
    } else {
      var listing := ListDir(fs, referencesDir).value;
      PiecesNames(fs, referencesDir, SortStrings(listing), Listed);
      assert refs[i].name == ReferenceName(Kept(fs, referencesDir, SortStrings(listing), Listed)[i]);
    }
  }

  /** The loaded names: those of level 1, then those of the reference pieces. */
  lemma LoadSpecNames(fs: FileSystem, skillDir: string, query: string, relevant: seq<string>)
    requires LoadSpec(fs, skillDir, query, relevant).Some?
    ensures LoadSpec(fs, skillDir, query, relevant).value.1
      == OverviewNames(fs, skillDir) + Names(ReferencePieces(fs, PathJoin(skillDir, "references"), query, relevant, FallbackKeywords).value)
  {
    NamesAppend(OverviewPieces(fs, skillDir).value, ReferencePieces(fs, PathJoin(skillDir, "references"), query, relevant, FallbackKeywords).value);
  }

  lemma TextsAppend(a: seq<Piece>, b: seq<Piece>)
    ensures Texts(a + b) == Texts(a) + Texts(b)
  {
  }

  lemma NamesAppend(a: seq<Piece>, b: seq<Piece>)
    ensures Names(a + b) == Names(a) + Names(b)
  {
  }

  /** A reference name is among the loaded names exactly when its file was kept. */
  lemma ReferenceNamesMembership(overview: seq<string>, kept: seq<string>, f: string)
    requires overview == [] || overview == ["SKILL.md"]
    ensures ReferenceName(f) in overview + ReferenceNames(kept) <==> f in kept
  {
    var names := overview + ReferenceNames(kept);
    assert ReferenceName(f) != "SKILL.md" by {
      assert ReferenceName(f)[0] == 'r';
    }
    if ReferenceName(f) in names {
      var i :| 0 <= i < |names| && names[i] == ReferenceName(f);
      ReferenceNameInjective(f, kept[i - |overview|]);
    }
    if f in kept {
      var k :| 0 <= k < |kept| && kept[k] == f;
      assert names[|overview| + k] == ReferenceName(f);
    }
  }

  /**
   * With a classification and a `references` directory, exactly the
   * classified files that exist are loaded after `SKILL.md`, in the order
   * of the classification.
   */
  lemma ClassifiedLoad(fs: FileSystem, skillDir: string, query: string, relevant: seq<string>)
    requires Exists(fs, PathJoin(skillDir, "references")) && relevant != []
    requires LoadSpec(fs, skillDir, query, relevant).Some?
    ensures var names := LoadSpec(fs, skillDir, query, relevant).value.1;
      var referencesDir := PathJoin(skillDir, "references");
      names == OverviewNames(fs, skillDir) + ReferenceNames(Kept(fs, referencesDir, relevant, Classified))
    ensures var names := LoadSpec(fs, skillDir, query, relevant).value.1;
      forall f :: ReferenceName(f) in names <==> f in relevant && Exists(fs, PathJoin(PathJoin(skillDir, "references"), f))
  {
    var referencesDir := PathJoin(skillDir, "references");
    LoadSpecNames(fs, skillDir, query, relevant);
    PiecesNames(fs, referencesDir, relevant, Classified);
    var kept := Kept(fs, referencesDir, relevant, Classified);
    forall f ensures ReferenceName(f) in OverviewNames(fs, skillDir) + ReferenceNames(kept) <==> f in kept {
      ReferenceNamesMembership(OverviewNames(fs, skillDir), kept, f);
    }
  }

  lemma ReferenceNameInjective(f: string, g: string)
    requires ReferenceName(f) == ReferenceName(g)
    ensures f == g
  {
    var p := "references/";
    assert f == ReferenceName(f)[|p|..] && g == ReferenceName(g)[|p|..];
  }

  /**
   * The fallback: with nothing classified and a compensation or role keyword
   * in the query, every `.md` name of the `references` listing is loaded
   * after `SKILL.md`, in sorted order.
   */
  lemma FallbackLoad(fs: FileSystem, skillDir: string, query: string, relevant: seq<string>, listing: seq<string>)
    requires FallbackFires(query, relevant, FallbackKeywords)
    requires ListDir(fs, PathJoin(skillDir, "references")) == Some(listing)
    requires LoadSpec(fs, skillDir, query, relevant).Some?
    ensures var names := LoadSpec(fs, skillDir, query, relevant).value.1;
      exists md :: Sorted(md) && (forall n :: n in md <==> n in listing && EndsWith(n, ".md"))
        && (forall n :: multiset(md)[n] == if EndsWith(n, ".md") then multiset(listing)[n] else 0)
        && names == OverviewNames(fs, skillDir) + ReferenceNames(md)
  {
    var referencesDir := PathJoin(skillDir, "references");
    var sorted := SortStrings(listing);
    LoadSpecNames(fs, skillDir, query, relevant);
    PiecesNames(fs, referencesDir, sorted, Listed);
    KeptSorted(fs, referencesDir, sorted, Listed);
    var md := Kept(fs, referencesDir, sorted, Listed);
    forall n ensures n in md <==> n in listing && EndsWith(n, ".md") {
      assert n in sorted <==> n in multiset(sorted);
      assert n in listing <==> n in multiset(listing);
    }
    forall n ensures multiset(md)[n] == if EndsWith(n, ".md") then multiset(listing)[n] else 0 {
      KeptCount(fs, referencesDir, sorted, Listed, n);
    }
  }

  /** Without a classification or a compensation or role keyword, only `SKILL.md` is loaded. */
  lemma NoKeywordNoReferences(fs: FileSystem, skillDir: string, query: string)
    requires !ContainsAny(Lower(query), FallbackKeywords)
    requires LoadSpec(fs, skillDir, query, []).Some?
    ensures LoadSpec(fs, skillDir, query, []).value.1 == OverviewNames(fs, skillDir)
  {
    assert ReferencePieces(fs, PathJoin(skillDir, "references"), query, [], FallbackKeywords) == Some([]);
    assert OverviewPieces(fs, skillDir).value + [] == OverviewPieces(fs, skillDir).value;
  }

  /** The classification reads the query only through its lower-cased form. */
  lemma ClassifyCaseInsensitive(query: string, f: string)
    ensures Relevant(Lower(query), f) <==> Relevant(query, f)
  {
    LowerIdempotent(query);
  }

  // ---------------------------------------------------------------------------
  // get_available_skills_summary
  // ---------------------------------------------------------------------------

  const SummaryHeader: string := "## Available Reference Data"

  /** The summary line of one catalog entry. */
  function SummaryLine(e: SkillFile): string {
    "- **" + e.filename + "**: " + e.description
  }

  /** The lines of the summary: the header, then one line per catalog entry in catalog order. */
  function SummaryLines(): (r: seq<string>)
    ensures |r| == |Catalog| + 1 && r[0] == SummaryHeader
    ensures forall i :: 0 <= i < |Catalog| ==> r[i + 1] == SummaryLine(Catalog[i])
  {
    [SummaryHeader] + seq(|Catalog|, i requires 0 <= i < |Catalog| => SummaryLine(Catalog[i]))
  }

  /**
   * `get_available_skills_summary(skill_dir)`: the header followed by one
   * line per catalog entry, in catalog order, joined by line breaks.
   */
  method GetAvailableSkillsSummary(skillDir: string) returns (r: string)
    ensures r == Join(SummaryLines(), "\n")
  {
    var lines := [SummaryHeader];
    for k := 0 to |Catalog|
      invariant lines == SummaryLines()[..k + 1]
    {
      var entry := Catalog[k];
      lines := lines + ["- **" + entry.filename + "**: " + entry.description];
    }
    assert lines == SummaryLines();
    r := Join(lines, "\n");
  }
}
