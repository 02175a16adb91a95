/**
 * The Python `str` operations the agent relies on, stated over `seq<char>`:
 * ASCII case mapping, substring search (`in`, `find`), `replace`, `split`,
 * `join`, `strip`, `endswith`, and the code-point order `sorted` uses.
 */
module Text {
  import opened Wrappers

  // ---------------------------------------------------------------------------
  // Case mapping. Only the ASCII letters are mapped; see README "Left out".
  // ---------------------------------------------------------------------------

  function LowerChar(c: char): char {
    if 'A' <= c <= 'Z' then (c as int + 32) as char else c
  }

  function UpperChar(c: char): char {
    if 'a' <= c <= 'z' then (c as int - 32) as char else c
  }

  /** `s.lower()` */
  function Lower(s: string): (r: string)
    ensures |r| == |s|
  {
    seq(|s|, i requires 0 <= i < |s| => LowerChar(s[i]))
  }

  /** Lower-casing twice is lower-casing once. */
  lemma LowerIdempotent(s: string)
    ensures Lower(Lower(s)) == Lower(s)
  {
  }

  /** `s.upper()` */
  function Upper(s: string): (r: string)
    ensures |r| == |s|
  {
    seq(|s|, i requires 0 <= i < |s| => UpperChar(s[i]))
  }

  // ---------------------------------------------------------------------------
  // Substrings
  // ---------------------------------------------------------------------------

  /** `p` occurs in `s` starting at index `i`. */
  predicate OccursAt(s: string, p: string, i: int) {
    0 <= i && i + |p| <= |s| && s[i..i + |p|] == p
  }

  /** Python's `p in s`. */
  predicate Contains(s: string, p: string) {
    exists i | 0 <= i <= |s| - |p| :: OccursAt(s, p, i)
  }

  /** Python's `any(p in s for p in ps)`. */
  predicate ContainsAny(s: string, ps: seq<string>) {
    exists k | 0 <= k < |ps| :: Contains(s, ps[k])
  }

  /** The first occurrence of `p` in `s` at or after `k` (`s.find(p, k)`, with `None` for -1). */
  function FindFrom(s: string, p: string, k: nat): (r: Option<nat>)
    requires k <= |s|
    ensures r.Some? ==> k <= r.value <= |s| && OccursAt(s, p, r.value)
    ensures r.Some? ==> forall j :: k <= j < r.value ==> !OccursAt(s, p, j)
    ensures r.None? ==> forall j :: k <= j ==> !OccursAt(s, p, j)
    decreases |s| - k
  {
    if OccursAt(s, p, k) then Some(k)
    else if k + |p| >= |s| then None
    else FindFrom(s, p, k + 1)
  }

  function Find(s: string, p: string): (r: Option<nat>)
    ensures r.Some? ==> OccursAt(s, p, r.value) && forall j :: 0 <= j < r.value ==> !OccursAt(s, p, j)
    ensures r.None? <==> !Contains(s, p)
  {
    FindFrom(s, p, 0)
  }

  /** `s.find(p, k)` is the occurrence at `j` when none lies between `k` and `j`. */
  lemma FindFromAt(s: string, p: string, k: nat, j: nat)
    requires k <= j && OccursAt(s, p, j)
    requires forall i :: k <= i < j ==> !OccursAt(s, p, i)
    ensures k <= |s| && FindFrom(s, p, k) == Some(j)
  {
    var r := FindFrom(s, p, k);
    assert r.Some?;
    assert !(r.value < j) && !(j < r.value);
  }

  /** `s.find(p, k)` is -1 when `p` occurs nowhere from `k` on. */
  lemma FindFromNone(s: string, p: string, k: nat)
    requires k <= |s|
    requires forall i :: k <= i <= |s| ==> !OccursAt(s, p, i)
    ensures FindFrom(s, p, k) == None
  {
    var r := FindFrom(s, p, k);
    assert !r.Some?;
  }

  /** A string with no occurrence of `p` before index `i` has none in its prefix `s[..i]`. */
  lemma NoOccurrenceInPrefix(s: string, p: string, i: nat)
    requires p != [] && i <= |s|
    requires forall j :: 0 <= j < i ==> !OccursAt(s, p, j)
    ensures !Contains(s[..i], p)
  {
    forall j | 0 <= j <= i - |p| ensures !OccursAt(s[..i], p, j) {
      assert !OccursAt(s, p, j);
      assert s[..i][j..j + |p|] == s[j..j + |p|];
    }
  }

  /** A string without the character `c` holds no occurrence of `[c]`. */
  lemma NoCharNoOccurrence(s: string, c: char)
    requires forall j :: 0 <= j < |s| ==> s[j] != c
    ensures !Contains(s, [c])
  {
    forall j | 0 <= j <= |s| - 1 ensures !OccursAt(s, [c], j) {
      assert s[j..j + 1] == [s[j]];
    }
  }

  // ---------------------------------------------------------------------------
  // join, split, replace
  // ---------------------------------------------------------------------------

  /** `sep.join(parts)` */
  function Join(parts: seq<string>, sep: string): string {
    if parts == [] then ""
    else if |parts| == 1 then parts[0]
    else parts[0] + sep + Join(parts[1..], sep)
  }

  /** The joined text begins with the first part. */
  lemma JoinHead(ps: seq<string>, sep: string)
    requires ps != []
    ensures |ps[0]| <= |Join(ps, sep)| && Join(ps, sep)[..|ps[0]|] == ps[0]
  {
    if |ps| > 1 {
      var t := Join(ps[1..], sep);
      assert Join(ps, sep) == ps[0] + (sep + t);
    }
  }

  lemma JoinCons(p: string, ps: seq<string>, sep: string)
    requires ps != []
    ensures Join([p] + ps, sep) == p + sep + Join(ps, sep)
  {
    assert ([p] + ps)[1..] == ps;
  }

  /** `s.split(sep)` for a non-empty separator: the pieces between the occurrences of `sep`. */
  function Split(s: string, sep: string): (r: seq<string>)
    requires sep != []
    ensures |r| >= 1
    decreases |s|
  {
    match Find(s, sep)
    case None => [s]
    case Some(i) => [s[..i]] + Split(s[i + |sep|..], sep)
  }

  /** `s.replace(pat, rep)`: every non-overlapping occurrence of `pat`, leftmost first. */
  function Replace(s: string, pat: string, rep: string): string
    requires pat != []
    decreases |s|
  {
    match Find(s, pat)
    case None => s
    case Some(i) => s[..i] + rep + Replace(s[i + |pat|..], pat, rep)
  }

  /** `replace` is `split` followed by `join` with the replacement. */
  lemma {:induction false} ReplaceIsSplitJoin(s: string, pat: string, rep: string)
    requires pat != []
    ensures Replace(s, pat, rep) == Join(Split(s, pat), rep)
    decreases |s|
  {
    var f := Find(s, pat);
    if f.Some? {
      var i := f.value;
      var head, rest := s[..i], s[i + |pat|..];
      SplitStep(s, pat);
      ReplaceIsSplitJoin(rest, pat, rep);
      JoinCons(head, Split(rest, pat), rep);
    }
  }

  /** A string is the text before, at and after a slice of it. */
  lemma Around(s: string, i: nat, j: nat)
    requires i <= j <= |s|
    ensures s[..i] + s[i..j] + s[j..] == s
  {
  }

  /** One step of `split`: the text before the first separator, the separator, and the rest. */
  lemma SplitStep(s: string, sep: string)
    requires sep != [] && Find(s, sep).Some?
    ensures var i := Find(s, sep).value;
      Split(s, sep) == [s[..i]] + Split(s[i + |sep|..], sep)
      && s == s[..i] + sep + s[i + |sep|..]
  {
    var i := Find(s, sep).value;
    assert s[i..i + |sep|] == sep;
    Around(s, i, i + |sep|);
  }

  /** The pieces `split` produces, rejoined with the separator, give back the text. */
  lemma {:induction false} JoinSplit(s: string, sep: string)
    requires sep != []
    ensures Join(Split(s, sep), sep) == s
    decreases |s|
  {
    var f := Find(s, sep);
    if f.Some? {
      var i := f.value;
      var head, rest := s[..i], s[i + |sep|..];
      SplitStep(s, sep);
      JoinCons(head, Split(rest, sep), sep);
      JoinSplit(rest, sep);
    }
  }

  /** No piece that `split` produces still holds an occurrence of the separator. */
  lemma {:induction false} SplitPiecesClean(s: string, sep: string)
    requires sep != []
    ensures forall k :: 0 <= k < |Split(s, sep)| ==> !Contains(Split(s, sep)[k], sep)
    decreases |s|
  {
    match Find(s, sep)
    case None =>
    case Some(i) =>
      var rest := s[i + |sep|..];
      SplitPiecesClean(rest, sep);
      NoOccurrenceInPrefix(s, sep, i);
      var ps := Split(s, sep);
      assert ps == [s[..i]] + Split(rest, sep);
      forall k | 0 <= k < |ps| ensures !Contains(ps[k], sep) {
        if k > 0 { assert ps[k] == Split(rest, sep)[k - 1]; }
      }
  }

  /**
   * `replace` cuts the text at every occurrence of `pat` and glues the pieces
   * back with `rep`: the pieces rejoined with `pat` are the original text, and
   * no piece still holds an occurrence of `pat`.
   */
  lemma ReplaceCharacterised(s: string, pat: string, rep: string)
    requires pat != []
    ensures var ps := Split(s, pat);
      Replace(s, pat, rep) == Join(ps, rep) && Join(ps, pat) == s
      && forall k :: 0 <= k < |ps| ==> !Contains(ps[k], pat)
  {
    ReplaceIsSplitJoin(s, pat, rep);
    JoinSplit(s, pat);
    SplitPiecesClean(s, pat);
  }

  /** Separate lines joined by a one-character separator they do not contain split back apart. */
  lemma {:induction false} SplitJoin(parts: seq<string>, c: char)
    requires |parts| >= 1
    requires forall k, j :: 0 <= k < |parts| && 0 <= j < |parts[k]| ==> parts[k][j] != c
    ensures Split(Join(parts, [c]), [c]) == parts
  {
    var p := parts[0];
    NoCharNoOccurrence(p, c);
    if |parts| == 1 {
    } else {
      var s := Join(parts, [c]);
      var t := Join(parts[1..], [c]);
      assert s == p + [c] + t;
      assert OccursAt(s, [c], |p|);
      forall j | 0 <= j < |p| ensures !OccursAt(s, [c], j) {
        assert s[j..j + 1] == [s[j]] && s[j] == p[j];
      }
      assert Find(s, [c]) == Some(|p|);
      assert s[..|p|] == p && s[|p| + 1..] == t;
      SplitJoin(parts[1..], c);
    }
  }

  // ---------------------------------------------------------------------------
  // strip
  // ---------------------------------------------------------------------------

  /** Python's `str.isspace` for one character. */
  predicate IsSpace(c: char) {
    var n := c as int;
    (0x09 <= n <= 0x0d) || (0x1c <= n <= 0x20) || n == 0x85 || n == 0xa0 || n == 0x1680
    || (0x2000 <= n <= 0x200a) || n == 0x2028 || n == 0x2029 || n == 0x202f || n == 0x205f
    || n == 0x3000
  }

  predicate AllSpace(s: string) {
    forall k :: 0 <= k < |s| ==> IsSpace(s[k])
  }

  /** Text with no white space at either end, as `strip` leaves it. */
  predicate Trimmed(s: string) {
    s == [] || (!IsSpace(s[0]) && !IsSpace(s[|s| - 1]))
  }

  function TrimStart(s: string): (r: string)
    ensures |r| <= |s| && r == s[|s| - |r|..] && AllSpace(s[..|s| - |r|])
    ensures r != [] ==> !IsSpace(r[0])
  {
    if s != [] && IsSpace(s[0]) then
      var r := TrimStart(s[1..]);
      TrimStartStep(s, r);
      r
    else s
  }

  function TrimEnd(s: string): (r: string)
    ensures |r| <= |s| && r == s[..|r|] && AllSpace(s[|r|..])
    ensures r != [] ==> !IsSpace(r[|r| - 1])
  {
    if s != [] && IsSpace(s[|s| - 1]) then
      var r := TrimEnd(s[..|s| - 1]);
      TrimEndStep(s, r);
      r
    else s
  }

  /** One white-space character in front of a trimmed tail. */
  lemma TrimStartStep(s: string, r: string)
    requires s != [] && IsSpace(s[0]) && |r| <= |s| - 1
    requires r == s[1..][|s| - 1 - |r|..] && AllSpace(s[1..][..|s| - 1 - |r|])
    ensures r == s[|s| - |r|..] && AllSpace(s[..|s| - |r|])
  {
    var pad := s[1..][..|s| - 1 - |r|];
    assert s[..|s| - |r|] == [s[0]] + pad;
    var lead := s[..|s| - |r|];
    assert forall k | 0 <= k < |pad| :: lead[k + 1] == pad[k];
  }

  /** One white-space character after a trimmed head. */
  lemma TrimEndStep(s: string, r: string)
    requires s != [] && IsSpace(s[|s| - 1]) && |r| <= |s| - 1
    requires r == s[..|s| - 1][..|r|] && AllSpace(s[..|s| - 1][|r|..])
    ensures r == s[..|r|] && AllSpace(s[|r|..])
  {
    var pad := s[..|s| - 1][|r|..];
    assert s[|r|..] == pad + [s[|s| - 1]];
    assert forall k | 0 <= k < |pad| :: s[|r|..][k] == pad[k];
  }

  /** `s.strip()`: `s` with its leading and trailing white space removed. */
  function Strip(s: string): (r: string)
    ensures Trimmed(r)
    ensures exists i, j :: 0 <= i <= j <= |s| && r == s[i..j] && AllSpace(s[..i]) && AllSpace(s[j..])
  {
    var t := TrimStart(s);
    var r := TrimEnd(t);
    var i := |s| - |t|;
    assert r == s[i..i + |r|];
    assert s[i + |r|..] == t[|r|..];
    r
  }

  lemma {:induction false} TrimStartPadded(a: string, b: string)
    requires AllSpace(a)
    requires b == [] || !IsSpace(b[0])
    ensures TrimStart(a + b) == b
  {
    if a != [] {
      assert (a + b)[1..] == a[1..] + b;
      TrimStartPadded(a[1..], b);
    }
  }

  lemma {:induction false} TrimEndPadded(a: string, b: string)
    requires AllSpace(b)
    requires a == [] || !IsSpace(a[|a| - 1])
    ensures TrimEnd(a + b) == a
  {
    if b != [] {
      assert (a + b)[..|a + b| - 1] == a + b[..|b| - 1];
      TrimEndPadded(a, b[..|b| - 1]);
    }
  }

  /** `strip` removes exactly the white-space padding around a trimmed core. */
  lemma StripPadded(a: string, core: string, b: string)
    requires AllSpace(a) && AllSpace(b) && Trimmed(core)
    ensures Strip(a + core + b) == core
  {
    if core == [] {
      assert a + core + b == a + b;
      TrimStartPadded(a + b, []);
      assert a + b + [] == a + b;
    } else {
      assert a + core + b == a + (core + b);
      TrimStartPadded(a, core + b);
      TrimEndPadded(core, b);
    }
  }

  // ---------------------------------------------------------------------------
  // endswith, split('/')[-1]
  // ---------------------------------------------------------------------------

  predicate EndsWith(s: string, suffix: string) {
    |suffix| <= |s| && s[|s| - |suffix|..] == suffix
  }

  /** `s.split(c)[-1]`: the text after the last `c`, or all of `s` when there is none. */
  function LastSegment(s: string, c: char): (r: string)
    ensures |r| <= |s| && r == s[|s| - |r|..]
    ensures forall k :: 0 <= k < |r| ==> r[k] != c
    ensures |r| < |s| ==> s[|s| - |r| - 1] == c
  {
    if s == [] then []
    else if s[|s| - 1] == c then []
    else
      var init := s[..|s| - 1];
      var t := LastSegment(init, c);
      assert s == init + [s[|s| - 1]];
      t + [s[|s| - 1]]
  }

  // ---------------------------------------------------------------------------
  // Code-point order and `sorted`
  // ---------------------------------------------------------------------------

  /** Python's `a <= b` on strings: lexicographic by code point. */
  predicate LexLe(a: string, b: string) {
    a == [] || (b != [] && (a[0] < b[0] || (a[0] == b[0] && LexLe(a[1..], b[1..]))))
  }

  lemma {:induction false} LexLeTotal(a: string, b: string)
    ensures LexLe(a, b) || LexLe(b, a)
  {
    if a != [] && b != [] && a[0] == b[0] {
      LexLeTotal(a[1..], b[1..]);
    }
  }

  lemma {:induction false} LexLeRefl(a: string)
    ensures LexLe(a, a)
  {
    if a != [] {
      LexLeRefl(a[1..]);
    }
  }

  lemma {:induction false} LexLeTrans(a: string, b: string, c: string)
    requires LexLe(a, b) && LexLe(b, c)
    ensures LexLe(a, c)
  {
    if a != [] && a[0] == b[0] && b[0] == c[0] {
      LexLeTrans(a[1..], b[1..], c[1..]);
    }
  }

  predicate Sorted(s: seq<string>) {
    forall i :: 0 <= i < |s| - 1 ==> LexLe(s[i], s[i + 1])
  }

  function Insert(x: string, s: seq<string>): (r: seq<string>)
    requires Sorted(s)
    ensures Sorted(r) && multiset(r) == multiset(s) + multiset{x}
    ensures r[0] == x || (s != [] && r[0] == s[0])
  {
    if s == [] then [x]
    else if LexLe(x, s[0]) then [x] + s
    else
      LexLeTotal(x, s[0]);
      assert s == [s[0]] + s[1..];
      [s[0]] + Insert(x, s[1..])
  }

  /** `sorted(xs)` */
  function SortStrings(xs: seq<string>): (r: seq<string>)
    ensures Sorted(r) && multiset(r) == multiset(xs)
  {
    if xs == [] then []
    else
      assert xs == [xs[0]] + xs[1..];
      Insert(xs[0], SortStrings(xs[1..]))
  }

  /** Any two elements of a sorted sequence are in order, not only neighbours. */
  lemma {:induction false} SortedLe(s: seq<string>, i: nat, j: nat)
    requires Sorted(s) && i <= j < |s|
    ensures LexLe(s[i], s[j])
    decreases j - i
  {
    if i == j {
      LexLeRefl(s[i]);
    } else {
      SortedLe(s, i + 1, j);
      LexLeTrans(s[i], s[i + 1], s[j]);
    }
  }
}
