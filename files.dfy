/**
 * The part of the file system the agent reads: a map from path to entry,
 * with `os.path.exists`, `open(p).read()`, `os.listdir` and `os.path.join`.
 * A path that names a directory cannot be opened for reading and a file
 * cannot be listed; both raise in Python, which is `None` here.
 */
module Files {
  import opened Wrappers
  import opened Text

  datatype Entry = File(text: string) | Dir(names: seq<string>)

  type FileSystem = map<string, Entry>

  /** `os.path.exists(p)`: a file or a directory is there. */
  predicate Exists(fs: FileSystem, p: string) {
    p in fs
  }

  /** `open(p).read()`, with `None` where Python raises (missing path or a directory). */
  function Read(fs: FileSystem, p: string): (r: Option<string>)
    ensures r.Some? <==> p in fs && fs[p].File?
    ensures r.Some? ==> fs[p] == File(r.value)
  {
    if p in fs && fs[p].File? then Some(fs[p].text) else None
  }

  /** `os.listdir(p)`, with `None` where Python raises (missing path or a file). */
  function ListDir(fs: FileSystem, p: string): (r: Option<seq<string>>)
    ensures r.Some? <==> p in fs && fs[p].Dir?
    ensures r.Some? ==> fs[p] == Dir(r.value)
  {
    if p in fs && fs[p].Dir? then Some(fs[p].names) else None
  }

  /**
   * `os.path.join(a, b)` on POSIX: an absolute `b` discards `a`; otherwise a
   * `/` is inserted unless `a` is empty or already ends with one.
   */
  function PathJoin(a: string, b: string): string {
    if b != [] && b[0] == '/' then b
    else if a == [] || a[|a| - 1] == '/' then a + b
    else a + "/" + b
  }

  /** Joining a plain name (no `/` in it) puts that name last: `split('/')[-1]` gives it back. */
  lemma PathJoinName(a: string, b: string)
    requires forall k :: 0 <= k < |b| ==> b[k] != '/'
    ensures LastSegment(PathJoin(a, b), '/') == b
    ensures a != [] ==> PathJoin(a, b)[..|PathJoin(a, b)| - |b|] == (if a[|a| - 1] == '/' then a else a + "/")
  {
    var p := PathJoin(a, b);
    var c := if a == [] || a[|a| - 1] == '/' then a else a + "/";
    assert p == c + b;
    assert p[..|c|] == c;
    LastSegmentAfter(c, b);
  }

  /** The text after the last `/` of `c + b`, when `b` holds none and `c` is empty or ends with `/`. */
  lemma {:induction false} LastSegmentAfter(c: string, b: string)
    requires forall k :: 0 <= k < |b| ==> b[k] != '/'
    requires c == [] || c[|c| - 1] == '/'
    ensures LastSegment(c + b, '/') == b
    decreases |b|
  {
    if b == [] {
      assert c + b == c;
    } else {
      var init := b[..|b| - 1];
      assert (c + b)[..|c + b| - 1] == c + init;
      assert (c + b)[|c + b| - 1] == b[|b| - 1];
      LastSegmentAfter(c, init);
      assert init + [b[|b| - 1]] == b;
    }
  }

  /**
   * The first of `candidates` that exists, or `fallback` when none does: the
   * choice made by `get_skill_dir` and `get_prompt_file_path`.
   */
  function FirstFound(fs: FileSystem, candidates: seq<string>, fallback: string): (r: string)
    ensures (exists k :: 0 <= k < |candidates| && Exists(fs, candidates[k])) ==>
              exists k :: 0 <= k < |candidates| && candidates[k] == r && Exists(fs, r)
                && forall m :: 0 <= m < k ==> !Exists(fs, candidates[m])
    ensures (forall k :: 0 <= k < |candidates| ==> !Exists(fs, candidates[k])) ==> r == fallback
    decreases |candidates|
  {
    if candidates == [] then fallback
    else if Exists(fs, candidates[0]) then candidates[0]
    else
      var r := FirstFound(fs, candidates[1..], fallback);
      assert forall k :: 1 <= k < |candidates| ==> candidates[k] == candidates[1..][k - 1];
      r
  }

  /** The path-finding loop with early return shared by `get_skill_dir` and `get_prompt_file_path`. */
  method FirstExisting(fs: FileSystem, candidates: seq<string>, fallback: string) returns (r: string)
    ensures r == FirstFound(fs, candidates, fallback)
  {
    for i := 0 to |candidates|
      invariant FirstFound(fs, candidates[i..], fallback) == FirstFound(fs, candidates, fallback)
    {
      assert candidates[i..][1..] == candidates[i + 1..];
      if Exists(fs, candidates[i]) {
        return candidates[i];
      }
    }
    return fallback;
  }
}
