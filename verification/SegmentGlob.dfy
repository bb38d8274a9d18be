/** The segment-aware glob matcher of platform_paths.py. */
module SegmentGlob {
  import opened Common

  type Segments = seq<string>

  const GLOBSTAR := "**"

  /** How one segment is matched; in the code, `fnmatch.fnmatchcase`. */
  type SegmentMatcher = (string, string) -> bool

  function MatchSegments(glob: SegmentMatcher, path: Segments, pat: Segments): bool
    decreases |pat|, |path|
  {
    if |pat| == 0 then |path| == 0
    else if pat[0] == GLOBSTAR then
      MatchSegments(glob, path, pat[1..]) || (|path| > 0 && MatchSegments(glob, path[1..], pat))
    else
      |path| > 0 && glob(path[0], pat[0]) && MatchSegments(glob, path[1..], pat[1..])
  }

  // ---- the declarative meaning ----

  /** A pattern segment lies over `path[from..to]`: any slice for `**`, otherwise one
      segment that it matches. */
  predicate Lies(glob: SegmentMatcher, path: Segments, segment: string, from: int, to: int) {
    && 0 <= from <= to <= |path|
    && (segment != GLOBSTAR ==> to == from + 1 && glob(path[from], segment))
  }

  /** The pattern's segments lie over consecutive slices that make up the path. */
  ghost predicate Covers(glob: SegmentMatcher, path: Segments, pat: Segments, cuts: seq<int>) {
    && |cuts| == |pat| + 1
    && cuts[0] == 0 && cuts[|pat|] == |path|
    && forall i :: 0 <= i < |pat| ==> Lies(glob, path, pat[i], cuts[i], cuts[i + 1])
  }

  function Shift(cuts: seq<int>, offset: int): (shifted: seq<int>)
    ensures |shifted| == |cuts| && forall i :: 0 <= i < |cuts| ==> shifted[i] == cuts[i] + offset
  {
    seq(|cuts|, i requires 0 <= i < |cuts| => cuts[i] + offset)
  }

  lemma CoverCons(glob: SegmentMatcher, path: Segments, pat: Segments, n: nat, rest: seq<int>)
    requires |pat| > 0 && Lies(glob, path, pat[0], 0, n) && Covers(glob, path[n..], pat[1..], rest)
    ensures Covers(glob, path, pat, [0] + Shift(rest, n))
  {
    var cuts := [0] + Shift(rest, n);
    forall i | 0 <= i < |pat| ensures Lies(glob, path, pat[i], cuts[i], cuts[i + 1]) {
      if i > 0 {
        assert Lies(glob, path[n..], pat[1..][i - 1], rest[i - 1], rest[i]);
      }
    }
  }

  lemma CoverUncons(glob: SegmentMatcher, path: Segments, pat: Segments, cuts: seq<int>)
    requires |pat| > 0 && Covers(glob, path, pat, cuts)
    ensures Lies(glob, path, pat[0], 0, cuts[1])
    ensures Covers(glob, path[cuts[1]..], pat[1..], Shift(cuts[1..], -cuts[1]))
  {
    var n := cuts[1];
    assert Lies(glob, path, pat[0], cuts[0], cuts[1]);
    CutsRise(glob, path, pat, cuts, 1);
    var rest := Shift(cuts[1..], -n);
    forall i | 0 <= i < |pat| - 1 ensures Lies(glob, path[n..], pat[1..][i], rest[i], rest[i + 1]) {
      assert Lies(glob, path, pat[i + 1], cuts[i + 1], cuts[i + 2]);
    }
  }

  lemma {:induction false} CutsRise(glob: SegmentMatcher, path: Segments, pat: Segments, cuts: seq<int>, from: nat)
    requires Covers(glob, path, pat, cuts) && from <= |pat|
    ensures forall i :: from <= i <= |pat| ==> cuts[from] <= cuts[i]
    decreases |pat| - from
  {
    if from < |pat| {
      assert Lies(glob, path, pat[from], cuts[from], cuts[from + 1]);
      CutsRise(glob, path, pat, cuts, from + 1);
    }
  }

  lemma {:induction false} MatchYieldsCover(glob: SegmentMatcher, path: Segments, pat: Segments)
    returns (cuts: seq<int>)
    requires MatchSegments(glob, path, pat)
    ensures Covers(glob, path, pat, cuts)
    decreases |pat|, |path|
  {
    if |pat| == 0 {
      cuts := [0];
    } else if pat[0] == GLOBSTAR && !MatchSegments(glob, path, pat[1..]) {
      var skipped := MatchYieldsCover(glob, path[1..], pat);
      CoverUncons(glob, path[1..], pat, skipped);
      var n := skipped[1] + 1;
      assert path[1..][skipped[1]..] == path[n..];
      CoverCons(glob, path, pat, n, Shift(skipped[1..], -skipped[1]));
      cuts := [0] + Shift(Shift(skipped[1..], -skipped[1]), n);
    } else {
      var n := if pat[0] == GLOBSTAR then 0 else 1;
      assert path[0..] == path;
      var rest := MatchYieldsCover(glob, path[n..], pat[1..]);
      CoverCons(glob, path, pat, n, rest);
      cuts := [0] + Shift(rest, n);
    }
  }

  lemma {:induction false} GlobstarSkips(glob: SegmentMatcher, path: Segments, pat: Segments, n: nat)
    requires |pat| > 0 && pat[0] == GLOBSTAR && n <= |path| && MatchSegments(glob, path[n..], pat[1..])
    ensures MatchSegments(glob, path, pat)
    decreases n
  {
    if n == 0 {
      assert path[0..] == path;
    } else {
      assert path[1..][n - 1..] == path[n..];
      GlobstarSkips(glob, path[1..], pat, n - 1);
    }
  }

  lemma {:induction false} CoverYieldsMatch(glob: SegmentMatcher, path: Segments, pat: Segments, cuts: seq<int>)
    requires Covers(glob, path, pat, cuts)
    ensures MatchSegments(glob, path, pat)
    decreases |pat|
  {
    if |pat| > 0 {
      CoverUncons(glob, path, pat, cuts);
      CoverYieldsMatch(glob, path[cuts[1]..], pat[1..], Shift(cuts[1..], -cuts[1]));
      if pat[0] == GLOBSTAR {
        GlobstarSkips(glob, path, pat, cuts[1]);
      }
    }
  }

  /** Sound and complete. */
  lemma MatchIffCovered(glob: SegmentMatcher, path: Segments, pat: Segments)
    ensures MatchSegments(glob, path, pat) <==> exists cuts :: Covers(glob, path, pat, cuts)
  {
    if MatchSegments(glob, path, pat) {
      var cuts := MatchYieldsCover(glob, path, pat);
    }
    forall cuts | Covers(glob, path, pat, cuts) ensures MatchSegments(glob, path, pat) {
      CoverYieldsMatch(glob, path, pat, cuts);
    }
  }

  // ---- algebra ----

  lemma {:induction false} MatchGlues(glob: SegmentMatcher, a: Segments, b: Segments, p: Segments, q: Segments)
    requires MatchSegments(glob, a, p) && MatchSegments(glob, b, q)
    ensures MatchSegments(glob, a + b, p + q)
    decreases |p|, |a|
  {
    if |p| == 0 {
      assert a + b == b && p + q == q;
    } else {
      assert (p + q)[1..] == p[1..] + q;
      if p[0] == GLOBSTAR && MatchSegments(glob, a, p[1..]) {
        MatchGlues(glob, a, b, p[1..], q);
      } else {
        assert (a + b)[1..] == a[1..] + b;
        MatchGlues(glob, a[1..], b, if p[0] == GLOBSTAR then p else p[1..], q);
      }
    }
  }

  lemma {:induction false} MatchSplits(glob: SegmentMatcher, path: Segments, p: Segments, q: Segments) returns (k: nat)
    requires MatchSegments(glob, path, p + q)
    ensures k <= |path| && MatchSegments(glob, path[..k], p) && MatchSegments(glob, path[k..], q)
    decreases |p|, |path|
  {
    if |p| == 0 {
      assert p + q == q && path[0..] == path;
      k := 0;
    } else {
      assert (p + q)[1..] == p[1..] + q;
      if p[0] == GLOBSTAR && MatchSegments(glob, path, p[1..] + q) {
        k := MatchSplits(glob, path, p[1..], q);
      } else {
        k := MatchSplits(glob, path[1..], if p[0] == GLOBSTAR then p else p[1..], q);
        k := k + 1;
        assert path[..k][1..] == path[1..][..k - 1];
        assert path[k..] == path[1..][k - 1..];
      }
    }
  }

  /** A concatenated pattern matches exactly the paths that split between its parts. */
  lemma MatchConcat(glob: SegmentMatcher, path: Segments, p: Segments, q: Segments)
    ensures MatchSegments(glob, path, p + q)
       <==> exists k :: 0 <= k <= |path| && MatchSegments(glob, path[..k], p) && MatchSegments(glob, path[k..], q)
  {
    if MatchSegments(glob, path, p + q) {
      var k := MatchSplits(glob, path, p, q);
    }
    forall k | 0 <= k <= |path| && MatchSegments(glob, path[..k], p) && MatchSegments(glob, path[k..], q)
      ensures MatchSegments(glob, path, p + q)
    {
      assert path[..k] + path[k..] == path;
      MatchGlues(glob, path[..k], path[k..], p, q);
    }
  }

  lemma {:induction false} GlobstarMatchesAll(glob: SegmentMatcher, path: Segments)
    ensures MatchSegments(glob, path, [GLOBSTAR])
    decreases |path|
  {
    if |path| > 0 {
      GlobstarMatchesAll(glob, path[1..]);
    }
  }

  // `p/**` matches exactly what `p` matches and everything beneath it.
  lemma GlobstarSuffix(glob: SegmentMatcher, path: Segments, p: Segments)
    ensures MatchSegments(glob, path, p + [GLOBSTAR])
       <==> exists k :: 0 <= k <= |path| && MatchSegments(glob, path[..k], p)
  {
    MatchConcat(glob, path, p, [GLOBSTAR]);
    forall k | 0 <= k <= |path| ensures MatchSegments(glob, path[k..], [GLOBSTAR]) {
      GlobstarMatchesAll(glob, path[k..]);
    }
  }

  // ---- one row per pattern segment, one entry per path suffix ----

  /** Entry i says whether the pattern matches `path[i..]`. Each entry is computed once,
      so the work is the product of the lengths, where the recursion above may backtrack. */
  function Row(glob: SegmentMatcher, path: Segments, pat: Segments): (row: seq<bool>)
    ensures |row| == |path| + 1
  {
    if |pat| == 0 then seq(|path| + 1, i => i == |path|)
    else if pat[0] == GLOBSTAR then AnyFrom(Row(glob, path, pat[1..]))
    else
      var rest := Row(glob, path, pat[1..]);
      seq(|path| + 1, i requires 0 <= i <= |path| => i < |path| && glob(path[i], pat[0]) && rest[i + 1])
  }

  /** Entry i is whether any entry from i on is set. */
  function AnyFrom(row: seq<bool>): (any: seq<bool>)
    ensures |any| == |row|
  {
    if |row| == 0 then []
    else
      var rest := AnyFrom(row[1..]);
      [row[0] || (|rest| > 0 && rest[0])] + rest
  }

  lemma {:induction false} AnyFromAt(row: seq<bool>, i: nat)
    requires i < |row|
    ensures AnyFrom(row)[i] == (row[i] || (i + 1 < |row| && AnyFrom(row)[i + 1]))
  {
    if i > 0 {
      AnyFromAt(row[1..], i - 1);
    }
  }

  lemma {:induction false} RowIsMatch(glob: SegmentMatcher, path: Segments, pat: Segments, i: nat)
    requires i <= |path|
    ensures Row(glob, path, pat)[i] == MatchSegments(glob, path[i..], pat)
    decreases |pat|, |path| - i
  {
    if |pat| > 0 {
      if pat[0] == GLOBSTAR {
        RowIsMatch(glob, path, pat[1..], i);
        AnyFromAt(Row(glob, path, pat[1..]), i);
        if i < |path| {
          RowIsMatch(glob, path, pat, i + 1);
          assert path[i..][1..] == path[i + 1..];
        }
      } else if i < |path| {
        RowIsMatch(glob, path, pat[1..], i + 1);
        assert path[i..][1..] == path[i + 1..];
      }
    }
  }

  /** The table gives the matcher's answer. */
  lemma TableAgrees(glob: SegmentMatcher, path: Segments, pat: Segments)
    ensures Row(glob, path, pat)[0] == MatchSegments(glob, path, pat)
  {
    RowIsMatch(glob, path, pat, 0);
    assert path[0..] == path;
  }

  // ---- against whole-string matching ----

  /** `fnmatchcase` on patterns of literals, `*` and `?`; `*` here crosses `/`. */
  function Wild(s: string, p: string): bool
    decreases |p|, |s|
  {
    if |p| == 0 then |s| == 0
    else if p[0] == '*' then Wild(s, p[1..]) || (|s| > 0 && Wild(s[1..], p))
    else |s| > 0 && (p[0] == '?' || p[0] == s[0]) && Wild(s[1..], p[1..])
  }

  /** A string as segments of one character each. */
  function Letters(s: string): (letters: Segments)
    ensures |letters| == |s| && forall i :: 0 <= i < |s| ==> letters[i] == [s[i]]
  {
    seq(|s|, i requires 0 <= i < |s| => [s[i]])
  }

  function LetterPattern(p: string): (pat: Segments)
    ensures |pat| == |p| && forall i :: 0 <= i < |p| ==> pat[i] == if p[i] == '*' then GLOBSTAR else [p[i]]
  {
    seq(|p|, i requires 0 <= i < |p| => if p[i] == '*' then GLOBSTAR else [p[i]])
  }

  const ONE_LETTER: SegmentMatcher := (letter, p) => p == "?" || letter == p

  /** Letter by letter it is the same matching: `*` lies over any slice, `?` over any letter. */
  lemma {:induction false} WildIsMatch(s: string, p: string)
    ensures Wild(s, p) <==> MatchSegments(ONE_LETTER, Letters(s), LetterPattern(p))
    decreases |p|, |s|
  {
    if |p| > 0 {
      assert LetterPattern(p)[1..] == LetterPattern(p[1..]);
      if p[0] == '*' {
        WildIsMatch(s, p[1..]);
      }
      if |s| > 0 {
        assert Letters(s)[1..] == Letters(s[1..]);
        WildIsMatch(s[1..], if p[0] == '*' then p else p[1..]);
      }
    }
  }

  function JoinPath(path: Segments): string {
    if |path| == 0 then "" else if |path| == 1 then path[0] else path[0] + "/" + JoinPath(path[1..])
  }

  lemma {:induction false} WildGlues(s: string, t: string, p: string, q: string)
    requires Wild(s, p) && Wild(t, q)
    ensures Wild(s + t, p + q)
    decreases |p|, |s|
  {
    if |p| == 0 {
      assert s + t == t && p + q == q;
    } else if p[0] == '*' && Wild(s, p[1..]) {
      WildGlues(s, t, p[1..], q);
      TailOfSum(p, q);
    } else if p[0] == '*' {
      WildGlues(s[1..], t, p, q);
      TailOfSum(s, t);
    } else {
      WildGlues(s[1..], t, p[1..], q);
      TailOfSum(s, t);
      TailOfSum(p, q);
    }
  }

  lemma TailOfSum(a: string, b: string)
    requires |a| > 0
    ensures (a + b)[1..] == a[1..] + b && (a + b)[0] == a[0] && |a + b| > 0
  {
  }

  /** Without `**`, a segment match is a whole-string match of the same length: this
      allow-list is never wider than the `fnmatch` one it replaces. */
  lemma {:induction false} NeverWiderThanFnmatch(path: Segments, pat: Segments)
    requires GLOBSTAR !in pat && MatchSegments(Wild, path, pat)
    ensures |path| == |pat| && Wild(JoinPath(path), JoinPath(pat))
    decreases |pat|
  {
    if |pat| > 0 {
      NeverWiderThanFnmatch(path[1..], pat[1..]);
      if |pat| > 1 {
        assert Wild("/", "/");
        WildGlues(path[0], "/", pat[0], "/");
        WildGlues(path[0] + "/", JoinPath(path[1..]), pat[0] + "/", JoinPath(pat[1..]));
      }
    }
  }

  /** It is strictly narrower wherever a segment holds a `*`: whole-string matching lets
      that `*` take in a separator, and so a path one level deeper. */
  lemma {:induction false} NarrowerThanFnmatch(pat: Segments) returns (path: Segments)
    requires GLOBSTAR !in pat && "" !in pat && exists i :: 0 <= i < |pat| && '*' in pat[i]
    ensures Wild(JoinPath(path), JoinPath(pat)) && !MatchSegments(Wild, path, pat)
    ensures |path| == |pat| + 1 && "" !in path
    decreases |pat|
  {
    if '*' in pat[0] {
      path := DeeperAtHead(pat);
    } else {
      var rest := NarrowerThanFnmatch(pat[1..]);
      path := [Filled(pat[0])] + rest;
      FilledMatches(pat[0]);
      WildJoins(Filled(pat[0]), pat[0], rest, pat[1..]);
      assert pat == [pat[0]] + pat[1..];
    }
    if MatchSegments(Wild, path, pat) {
      NeverWiderThanFnmatch(path, pat);
    }
  }

  lemma DeeperAtHead(pat: Segments) returns (path: Segments)
    requires |pat| > 0 && "" !in pat && '*' in pat[0]
    ensures Wild(JoinPath(path), JoinPath(pat)) && |path| == |pat| + 1 && "" !in path
  {
    var i :| 0 <= i < |pat[0]| && pat[0][i] == '*';
    var u, v := pat[0][..i], pat[0][i + 1..];
    assert pat[0] == u + "*" + v;
    SeparatorMatchesStar(u, v);
    path := TwoForOne(Filled(u) + "x", "x" + Filled(v), pat[0], pat[1..]);
    assert pat == [pat[0]] + pat[1..];
  }

  lemma TwoForOne(above: string, below: string, segment: string, pat: Segments) returns (path: Segments)
    requires above != "" && below != "" && "" !in pat && Wild(above + "/" + below, segment)
    ensures Wild(JoinPath(path), JoinPath([segment] + pat)) && |path| == |pat| + 2 && "" !in path
  {
    path := [above, below] + FilledAll(pat);
    FilledAllMatches(pat);
    WildJoins(above + "/" + below, segment, FilledAll(pat), pat);
    JoinTwo(above, below, FilledAll(pat));
  }

  lemma SeparatorMatchesStar(u: string, v: string)
    ensures Wild(Filled(u) + "x" + "/" + ("x" + Filled(v)), u + "*" + v)
  {
    FilledMatches(u);
    FilledMatches(v);
    StarMatchesAll("x/x");
    WildGlues(Filled(u), "x/x", u, "*");
    WildGlues(Filled(u) + "x/x", Filled(v), u + "*", v);
    Regrouped(Filled(u), Filled(v));
  }

  lemma Regrouped(s: string, t: string)
    ensures s + "x" + "/" + ("x" + t) == s + "x/x" + t
  {
    assert "x" + "/" + "x" == "x/x";
  }

  /** A name that the pattern segment matches: its wildcards filled in. */
  function Filled(segment: string): (name: string)
    ensures |name| == |segment|
  {
    seq(|segment|, i requires 0 <= i < |segment| => if segment[i] == '*' then 'x' else segment[i])
  }

  function FilledAll(pat: Segments): (path: Segments)
    ensures |path| == |pat|
  {
    seq(|pat|, i requires 0 <= i < |pat| => Filled(pat[i]))
  }

  lemma {:induction false} FilledMatches(segment: string)
    ensures Wild(Filled(segment), segment)
  {
    if |segment| > 0 {
      assert Filled(segment)[1..] == Filled(segment[1..]);
      FilledMatches(segment[1..]);
      if segment[0] == '*' {
        StarTakesOne(Filled(segment), segment);
      }
    }
  }

  lemma StarTakesOne(s: string, p: string)
    requires |s| > 0 && |p| > 0 && p[0] == '*' && Wild(s[1..], p[1..])
    ensures Wild(s, p)
  {
    assert Wild(s[1..], p);
  }

  lemma {:induction false} FilledAllMatches(pat: Segments)
    ensures Wild(JoinPath(FilledAll(pat)), JoinPath(pat))
  {
    if |pat| > 0 {
      var segment, rest := pat[0], pat[1..];
      assert pat == [segment] + rest;
      FilledOneMore(segment, rest);
      FilledMatches(segment);
      FilledAllMatches(rest);
      WildJoins(Filled(segment), segment, FilledAll(rest), rest);
    }
  }

  lemma FilledOneMore(segment: string, rest: Segments)
    ensures FilledAll([segment] + rest) == [Filled(segment)] + FilledAll(rest)
  {
  }

  /** Whole-string matching goes through a join with the rest. */
  lemma WildJoins(s: string, p: string, path: Segments, pat: Segments)
    requires Wild(s, p) && Wild(JoinPath(path), JoinPath(pat)) && (|path| == 0 <==> |pat| == 0)
    ensures Wild(JoinPath([s] + path), JoinPath([p] + pat))
  {
    assert ([s] + path)[1..] == path && ([p] + pat)[1..] == pat;
    if |path| > 0 {
      assert Wild("/", "/");
      WildGlues(s, "/", p, "/");
      WildGlues(s + "/", JoinPath(path), p + "/", JoinPath(pat));
    }
  }

  lemma JoinTwo(s: string, t: string, path: Segments)
    ensures JoinPath([s, t] + path) == JoinPath([s + "/" + t] + path)
  {
    assert ([s, t] + path)[1..] == [t] + path && ([t] + path)[1..] == path;
    assert ([s + "/" + t] + path)[1..] == path;
    if |path| == 0 {
      assert JoinPath([t] + path) == t;
    } else {
      assert s + "/" + (t + "/" + JoinPath(path)) == s + "/" + t + "/" + JoinPath(path);
    }
  }

  lemma {:induction false} LiteralMatches(s: string)
    requires '*' !in s
    ensures Wild(s, s)
  {
    if |s| > 0 {
      LiteralMatches(s[1..]);
    }
  }

  lemma {:induction false} LiteralMatchesOnly(s: string, p: string)
    requires '*' !in p && '?' !in p
    ensures Wild(s, p) <==> s == p
    decreases |p|
  {
    if |p| > 0 && |s| > 0 {
      LiteralMatchesOnly(s[1..], p[1..]);
      assert s == [s[0]] + s[1..] && p == [p[0]] + p[1..];
    }
  }

  lemma {:induction false} StarMatchesAll(s: string)
    ensures Wild(s, "*")
    decreases |s|
  {
    if |s| > 0 {
      StarMatchesAll(s[1..]);
    }
  }

  /** With `**` neither is contained in the other: where `p` has no `*` of its own, adding
      a globstar still matches whatever `p` matches, as the whole-string match of the same
      text never does. */
  lemma GlobstarReachesTheDirectory(path: Segments, p: Segments)
    requires |p| > 0 && (forall i :: 0 <= i < |p| ==> '*' !in p[i]) && MatchSegments(Wild, path, p)
    ensures MatchSegments(Wild, path, p + [GLOBSTAR])
    ensures !Wild(JoinPath(path), JoinPath(p + [GLOBSTAR]))
  {
    GlobstarSuffix(Wild, path, p);
    assert path[..|path|] == path;
    assert GLOBSTAR !in p;
    NeverWiderThanFnmatch(path, p);
    JoinHasNoStar(p);
    JoinGlobstar(p);
    NothingBeneath(JoinPath(path), JoinPath(p));
  }

  lemma NothingBeneath(s: string, p: string)
    requires '*' !in p && Wild(s, p)
    ensures !Wild(s, p + "/" + GLOBSTAR)
  {
    assert p + "" == p;
    WildLength(s, p, "");
    if Wild(s, p + "/" + GLOBSTAR) {
      WildLength(s, p + "/", GLOBSTAR);
    }
  }

  lemma {:induction false} JoinHasNoStar(p: Segments)
    requires forall i :: 0 <= i < |p| ==> '*' !in p[i]
    ensures '*' !in JoinPath(p)
  {
    if |p| > 1 {
      JoinHasNoStar(p[1..]);
    }
  }

  lemma {:induction false} JoinGlobstar(p: Segments)
    requires |p| > 0
    ensures JoinPath(p + [GLOBSTAR]) == JoinPath(p) + "/" + GLOBSTAR
  {
    if |p| == 1 {
      assert (p + [GLOBSTAR])[1..] == [GLOBSTAR];
    } else {
      JoinGlobstar(p[1..]);
      assert (p + [GLOBSTAR])[1..] == p[1..] + [GLOBSTAR];
    }
  }

  /** A part without `*` takes exactly its own length. */
  lemma {:induction false} WildLength(s: string, p: string, q: string)
    requires '*' !in p && Wild(s, p + q)
    ensures |s| >= |p| && (q == "" ==> |s| == |p|)
    decreases |p|
  {
    if |p| > 0 {
      assert (p + q)[0] == p[0] && (p + q)[1..] == p[1..] + q;
      WildLength(s[1..], p[1..], q);
    } else {
      assert p + q == q;
    }
  }
}
