/** Resolving a caller's path inside the platforms repository (platform_paths.py) and
    deciding whether it may be written (platform_guard.py). */
module PathJail {
  import opened Common
  import opened SegmentGlob

  /** An absolute path as its components; the empty sequence is the root directory. */
  type Path = seq<string>

  /** The symbolic links of a tree: the path of each link and the text it holds. */
  type Links = map<Path, string>

  datatype Refusal =
    | EmptyPath | Backslash | NullByte | Absolute | DotDot | GitDir
    | Escapes | NameNotAllowed | NoSuchFile | NotUnderRoot

  datatype Resolution = Resolved(path: Path) | Refused(why: Refusal)

  // ---- path text ----

  function SplitSlash(s: string): (parts: seq<string>)
    ensures |parts| > 0
    ensures forall i :: 0 <= i < |parts| ==> '/' !in parts[i]
  {
    if |s| == 0 then [""]
    else
      var rest := SplitSlash(s[1..]);
      if s[0] == '/' then [""] + rest else [[s[0]] + rest[0]] + rest[1..]
  }

  function DropEmptyAndDot(parts: seq<string>): (kept: seq<string>)
    ensures forall i :: 0 <= i < |kept| ==> kept[i] in parts && kept[i] != "" && kept[i] != "."
  {
    if |parts| == 0 then []
    else
      var rest := DropEmptyAndDot(parts[1..]);
      if parts[0] == "" || parts[0] == "." then rest else [parts[0]] + rest
  }

  predicate IsAbsolute(s: string) {
    |s| > 0 && s[0] == '/'
  }

  /** `PurePosixPath(s).parts`. Exactly two leading slashes are a root of their own. */
  function PathParts(s: string): seq<string> {
    (if !IsAbsolute(s) then []
     else if |s| >= 2 && s[1] == '/' && !(|s| >= 3 && s[2] == '/') then ["//"]
     else ["/"])
      + DropEmptyAndDot(SplitSlash(s))
  }

  function AsPosix(parts: seq<string>): string {
    if |parts| == 0 then "." else JoinPath(parts)
  }

  /** A component that means itself. */
  predicate Plain(name: string) {
    name != "" && name != "." && name != ".." && '/' !in name
  }

  predicate PlainPath(path: Path) {
    forall i :: 0 <= i < |path| ==> Plain(path[i])
  }

  lemma {:induction false} SplitOne(name: string, rest: string)
    requires '/' !in name
    ensures SplitSlash(name) == [name]
    ensures SplitSlash(name + "/" + rest) == [name] + SplitSlash(rest)
  {
    var whole := name + "/" + rest;
    if |name| == 0 {
      assert whole[1..] == rest;
    } else {
      SplitOne(name[1..], rest);
      assert whole[1..] == name[1..] + "/" + rest;
      assert name == [name[0]] + name[1..];
    }
  }

  /** The text is its pieces with slashes between them. */
  lemma {:induction false} SplitSlashJoins(s: string)
    ensures JoinPath(SplitSlash(s)) == s
  {
    if |s| > 0 {
      SplitSlashJoins(s[1..]);
      JoinOneMore(s[0], SplitSlash(s[1..]));
      assert s == [s[0]] + s[1..];
    }
  }

  lemma JoinOneMore(c: char, parts: seq<string>)
    requires |parts| > 0
    ensures JoinPath([""] + parts) == "/" + JoinPath(parts)
    ensures JoinPath([[c] + parts[0]] + parts[1..]) == [c] + JoinPath(parts)
  {
    JoinBehind("", parts);
    if |parts| > 1 {
      JoinBehind([c] + parts[0], parts[1..]);
      Regroup(c, parts[0], JoinPath(parts[1..]));
    } else {
      assert [[c] + parts[0]] + parts[1..] == [[c] + parts[0]];
    }
  }

  lemma JoinBehind(first: string, parts: seq<string>)
    requires |parts| > 0
    ensures JoinPath([first] + parts) == first + "/" + JoinPath(parts)
  {
    assert ([first] + parts)[1..] == parts;
  }

  lemma Regroup(c: char, first: string, rest: string)
    ensures [c] + first + "/" + rest == [c] + (first + "/" + rest)
  {
  }

  /** What is reported for a path reads back as that path. */
  lemma {:induction false} PosixRoundTrip(parts: seq<string>)
    requires PlainPath(parts)
    ensures PathParts(AsPosix(parts)) == parts
  {
    if |parts| == 0 {
      SplitOne(".", "");
      assert SplitSlash(".") == ["."];
      assert DropEmptyAndDot(["."]) == DropEmptyAndDot([]);
    } else {
      SplitJoined(parts);
      assert JoinPath(parts)[0] == parts[0][0];
      assert parts[0][0] in parts[0];
      DropNothing(parts);
    }
  }

  lemma {:induction false} SplitJoined(parts: seq<string>)
    requires |parts| > 0 && PlainPath(parts)
    ensures SplitSlash(JoinPath(parts)) == parts && |JoinPath(parts)| > 0
  {
    if |parts| == 1 {
      SplitOne(parts[0], "");
    } else {
      SplitJoined(parts[1..]);
      SplitOne(parts[0], JoinPath(parts[1..]));
    }
  }

  lemma {:induction false} DropNothing(parts: seq<string>)
    requires PlainPath(parts)
    ensures DropEmptyAndDot(parts) == parts
  {
    if |parts| > 0 {
      DropNothing(parts[1..]);
    }
  }

  // ---- names and shapes ----

  const ALLOWED_SUFFIXES := {".yml", ".yaml", ".json", ".json5", ".md", ".conf"}

  function LowerAscii(s: string): string {
    if |s| == 0 then ""
    else [if 'A' <= s[0] <= 'Z' then s[0] - 'A' + 'a' else s[0]] + LowerAscii(s[1..])
  }

  /** Index of the last dot, or -1. */
  function LastDot(name: string): (i: int)
    ensures -1 <= i < |name|
    ensures i >= 0 ==> name[i] == '.'
    ensures forall j :: i < j < |name| ==> name[j] != '.'
  {
    if |name| == 0 then -1
    else if Last(name) == '.' then |name| - 1
    else LastDot(Front(name))
  }

  function Suffix(name: string): string {
    var i := LastDot(name);
    if 0 < i < |name| - 1 then name[i..] else ""
  }

  /** No other letter lowers to one that occurs in an allowed suffix, so ASCII lowering is exact here. */
  predicate IsAllowedName(name: string) {
    name == ".env" || LowerAscii(Suffix(name)) in ALLOWED_SUFFIXES
  }

  function NameOf(path: Path): string {
    if |path| == 0 then "" else Last(path)
  }

  /** What `str.strip` removes. */
  predicate IsUnicodeSpace(c: char) {
    var n := c as int;
    || 0x09 <= n <= 0x0D || 0x1C <= n <= 0x20 || n == 0x85 || n == 0xA0 || n == 0x1680
    || 0x2000 <= n <= 0x200A || n == 0x2028 || n == 0x2029 || n == 0x202F || n == 0x205F || n == 0x3000
  }

  function FirstBadPart(parts: seq<string>): Option<Refusal> {
    if |parts| == 0 then None
    else if parts[0] == ".." then Some(DotDot)
    else if parts[0] == ".git" then Some(GitDir)
    else FirstBadPart(parts[1..])
  }

  /** The refusals that look at the text alone. */
  function CheckShape(relative: string): Option<Refusal> {
    if forall i :: 0 <= i < |relative| ==> IsUnicodeSpace(relative[i]) then Some(EmptyPath)
    else if '\\' in relative then Some(Backslash)
    else if '\0' in relative then Some(NullByte)
    else if IsAbsolute(relative) then Some(Absolute)
    else FirstBadPart(PathParts(relative))
  }

  /** A request's text is accepted when it is not blank, holds no backslash or null, does not
      start with a slash, and has no piece between slashes that is `..` or `.git`. */
  lemma ShapeAcceptedIff(relative: string)
    ensures CheckShape(relative) == None
       <==> (exists i :: 0 <= i < |relative| && !IsUnicodeSpace(relative[i]))
            && '\\' !in relative && '\0' !in relative && relative[0] != '/'
            && (forall i :: 0 <= i < |SplitSlash(relative)| ==> SplitSlash(relative)[i] !in {"..", ".git"})
  {
    BadPartIff(SplitSlash(relative));
    if !IsAbsolute(relative) {
      assert PathParts(relative) == DropEmptyAndDot(SplitSlash(relative));
    }
  }

  lemma {:induction false} BadPartIff(parts: seq<string>)
    ensures FirstBadPart(DropEmptyAndDot(parts)) == None
       <==> forall i :: 0 <= i < |parts| ==> parts[i] !in {"..", ".git"}
  {
    if |parts| > 0 {
      BadPartIff(parts[1..]);
      assert forall i :: 1 <= i < |parts| ==> parts[i] == parts[1..][i - 1];
    }
  }

  /** The letter, in either case. */
  predicate IsLetterOf(c: char, lower: char) {
    c == lower || ('a' <= lower <= 'z' && c as int + 32 == lower as int)
  }

  predicate EndsLike(name: string, suffix: string) {
    |name| > |suffix|
      && forall i :: 0 <= i < |suffix| ==> IsLetterOf(name[|name| - |suffix| + i], suffix[i])
  }

  lemma {:induction false} LowerAsciiIff(s: string, lower: string)
    requires forall i :: 0 <= i < |lower| ==> !('A' <= lower[i] <= 'Z')
    ensures LowerAscii(s) == lower
       <==> |s| == |lower| && forall i :: 0 <= i < |s| ==> IsLetterOf(s[i], lower[i])
  {
    if |s| > 0 && |lower| > 0 {
      LowerAsciiIff(s[1..], lower[1..]);
      assert lower == [lower[0]] + lower[1..];
      assert forall i :: 1 <= i < |s| ==> s[i] == s[1..][i - 1];
      assert forall i :: 1 <= i < |lower| ==> lower[i] == lower[1..][i - 1];
    }
  }

  lemma SuffixShape(suffix: string)
    requires suffix in ALLOWED_SUFFIXES
    ensures |suffix| >= 3 && suffix[0] == '.'
    ensures forall i :: 1 <= i < |suffix| ==> suffix[i] != '.'
    ensures forall i :: 0 <= i < |suffix| ==> !('A' <= suffix[i] <= 'Z')
  {
  }

  /** A name may be edited when it is `.env` or ends, in letters of either case and after at
      least one character, in one of these suffixes. */
  lemma AllowedNameIff(name: string)
    ensures IsAllowedName(name)
       <==> name == ".env"
            || exists suffix :: suffix in {".yml", ".yaml", ".json", ".json5", ".md", ".conf"} && EndsLike(name, suffix)
  {
    if LowerAscii(Suffix(name)) in ALLOWED_SUFFIXES {
      AllowedEndsLike(name, LowerAscii(Suffix(name)));
    }
    forall suffix | suffix in ALLOWED_SUFFIXES && EndsLike(name, suffix)
      ensures LowerAscii(Suffix(name)) == suffix
    {
      EndsLikeAllowed(name, suffix);
    }
  }

  lemma AllowedEndsLike(name: string, suffix: string)
    requires suffix in ALLOWED_SUFFIXES && LowerAscii(Suffix(name)) == suffix
    ensures EndsLike(name, suffix)
  {
    var tail := Suffix(name);
    SuffixShape(suffix);
    LowerAsciiIff(tail, suffix);
    assert forall i :: 0 <= i < |tail| ==> name[|name| - |tail| + i] == tail[i];
  }

  lemma EndsLikeAllowed(name: string, suffix: string)
    requires suffix in ALLOWED_SUFFIXES && EndsLike(name, suffix)
    ensures LowerAscii(Suffix(name)) == suffix
  {
    var start := |name| - |suffix|;
    SuffixShape(suffix);
    forall j | start <= j < |name| ensures name[j] == '.' <==> j == start {
      assert IsLetterOf(name[|name| - |suffix| + (j - start)], suffix[j - start]);
    }
    assert LastDot(name) == start;
    LowerAsciiIff(name[start..], suffix);
  }

  // ---- following links, as `os.path.realpath` does ----

  datatype Work = Name(name: string) | Finish(link: Path)

  function Names(parts: seq<string>): (work: seq<Work>)
    ensures |work| == |parts| && forall i :: 0 <= i < |parts| ==> work[i] == Name(parts[i])
  {
    seq(|parts|, i requires 0 <= i < |parts| => Name(parts[i]))
  }

  /** `seen` maps each link met to where it leads, or to nothing while it is being
      followed. A link met again while it is being followed is a loop and stands as it is. */
  function Walk(links: Links, path: Path, rest: seq<Work>, seen: map<Path, Option<Path>>): Path
    decreases links.Keys - seen.Keys, |rest|
  {
    if |rest| == 0 then path
    else match rest[0]
      case Finish(link) =>
        if link in seen then Walk(links, path, rest[1..], seen[link := Some(path)])
        else Walk(links, path, rest[1..], seen)
      case Name(name) =>
        if name == "" || name == "." then Walk(links, path, rest[1..], seen)
        else if name == ".." then Walk(links, if |path| == 0 then [] else Front(path), rest[1..], seen)
        else
          var next := path + [name];
          if next !in links then Walk(links, next, rest[1..], seen)
          else if next in seen then
            Walk(links, if seen[next].Some? then seen[next].value else next, rest[1..], seen)
          else
            assert seen[next := None].Keys == seen.Keys + {next};
            Walk(links, if IsAbsolute(links[next]) then [] else path,
                 Names(SplitSlash(links[next])) + [Finish(next)] + rest[1..], seen[next := None])
  }

  function Realpath(links: Links, parts: seq<string>): Path {
    Walk(links, [], Names(parts), map[])
  }

  /** No link stands on the way to `path` or at its end: it names one place. */
  ghost predicate Canonical(links: Links, path: Path) {
    forall k :: 0 < k <= |path| ==> path[..k] !in links
  }

  ghost predicate PlainWork(rest: seq<Work>) {
    forall i :: 0 <= i < |rest| && rest[i].Name? ==> '/' !in rest[i].name
  }

  ghost predicate PlainSeen(seen: map<Path, Option<Path>>) {
    forall link :: link in seen && seen[link].Some? ==> PlainPath(seen[link].value)
  }

  lemma {:induction false} WalkStaysPlain(links: Links, path: Path, rest: seq<Work>, seen: map<Path, Option<Path>>)
    requires PlainPath(path) && PlainWork(rest) && PlainSeen(seen)
    ensures PlainPath(Walk(links, path, rest, seen))
    decreases links.Keys - seen.Keys, |rest|
  {
    if |rest| > 0 {
      match rest[0] {
        case Finish(link) =>
          if link in seen {
            WalkStaysPlain(links, path, rest[1..], seen[link := Some(path)]);
          } else {
            WalkStaysPlain(links, path, rest[1..], seen);
          }
        case Name(name) =>
          if name == "" || name == "." {
            WalkStaysPlain(links, path, rest[1..], seen);
          } else if name == ".." {
            WalkStaysPlain(links, if |path| == 0 then [] else Front(path), rest[1..], seen);
          } else {
            var next := path + [name];
            if next !in links {
              WalkStaysPlain(links, next, rest[1..], seen);
            } else if next in seen {
              WalkStaysPlain(links, if seen[next].Some? then seen[next].value else next, rest[1..], seen);
            } else {
              assert seen[next := None].Keys == seen.Keys + {next};
              WalkStaysPlain(links, if IsAbsolute(links[next]) then [] else path,
                Names(SplitSlash(links[next])) + [Finish(next)] + rest[1..], seen[next := None]);
            }
          }
      }
    }
  }

  lemma RealpathIsPlain(links: Links, parts: seq<string>)
    requires forall i :: 0 <= i < |parts| ==> '/' !in parts[i]
    ensures PlainPath(Realpath(links, parts))
  {
    WalkStaysPlain(links, [], Names(parts), map[]);
  }

  /** Whether the walk meets a link while it is still being followed. */
  predicate MeetsLoop(links: Links, path: Path, rest: seq<Work>, seen: map<Path, Option<Path>>)
    decreases links.Keys - seen.Keys, |rest|
  {
    if |rest| == 0 then false
    else match rest[0]
      case Finish(link) =>
        if link in seen then MeetsLoop(links, path, rest[1..], seen[link := Some(path)])
        else MeetsLoop(links, path, rest[1..], seen)
      case Name(name) =>
        if name == "" || name == "." then MeetsLoop(links, path, rest[1..], seen)
        else if name == ".." then MeetsLoop(links, if |path| == 0 then [] else Front(path), rest[1..], seen)
        else
          var next := path + [name];
          if next !in links then MeetsLoop(links, next, rest[1..], seen)
          else if next in seen then
            seen[next] == None || MeetsLoop(links, seen[next].value, rest[1..], seen)
          else
            assert seen[next := None].Keys == seen.Keys + {next};
            MeetsLoop(links, if IsAbsolute(links[next]) then [] else path,
              Names(SplitSlash(links[next])) + [Finish(next)] + rest[1..], seen[next := None])
  }

  ghost predicate CanonicalSeen(links: Links, seen: map<Path, Option<Path>>) {
    forall link :: link in seen && seen[link].Some? ==> Canonical(links, seen[link].value)
  }

  /** Short of a loop, every link on the way has been followed. */
  lemma {:induction false} WalkEndsCanonical(links: Links, path: Path, rest: seq<Work>, seen: map<Path, Option<Path>>)
    requires Canonical(links, path) && CanonicalSeen(links, seen) && !MeetsLoop(links, path, rest, seen)
    ensures Canonical(links, Walk(links, path, rest, seen))
    decreases links.Keys - seen.Keys, |rest|
  {
    if |rest| > 0 {
      match rest[0] {
        case Finish(link) =>
          if link in seen {
            WalkEndsCanonical(links, path, rest[1..], seen[link := Some(path)]);
          } else {
            WalkEndsCanonical(links, path, rest[1..], seen);
          }
        case Name(name) =>
          if name == "" || name == "." {
            WalkEndsCanonical(links, path, rest[1..], seen);
          } else if name == ".." {
            ParentCanonical(links, path);
            WalkEndsCanonical(links, if |path| == 0 then [] else Front(path), rest[1..], seen);
          } else {
            var next := path + [name];
            if next !in links {
              ChildCanonical(links, path, name);
              WalkEndsCanonical(links, next, rest[1..], seen);
            } else if next in seen {
              WalkEndsCanonical(links, seen[next].value, rest[1..], seen);
            } else {
              assert seen[next := None].Keys == seen.Keys + {next};
              WalkEndsCanonical(links, if IsAbsolute(links[next]) then [] else path,
                Names(SplitSlash(links[next])) + [Finish(next)] + rest[1..], seen[next := None]);
            }
          }
      }
    }
  }

  lemma ParentCanonical(links: Links, path: Path)
    requires Canonical(links, path)
    ensures |path| > 0 ==> Canonical(links, Front(path))
  {
    forall k | 0 < k <= |path| - 1 ensures Front(path)[..k] !in links {
      assert Front(path)[..k] == path[..k];
    }
  }

  lemma ChildCanonical(links: Links, path: Path, name: string)
    requires Canonical(links, path) && path + [name] !in links
    ensures Canonical(links, path + [name])
  {
    var next := path + [name];
    forall k | 0 < k <= |next| ensures next[..k] !in links {
      if k <= |path| {
        assert next[..k] == path[..k];
      } else {
        assert next[..k] == next;
      }
    }
  }

  /** Resolving is idempotent wherever it meets no loop. */
  lemma RealpathIdempotent(links: Links, parts: seq<string>)
    requires forall i :: 0 <= i < |parts| ==> '/' !in parts[i]
    requires !MeetsLoop(links, [], Names(parts), map[])
    ensures Canonical(links, Realpath(links, parts))
    ensures Realpath(links, Realpath(links, parts)) == Realpath(links, parts)
  {
    WalkEndsCanonical(links, [], Names(parts), map[]);
    RealpathIsPlain(links, parts);
    RealpathOfCanonical(links, Realpath(links, parts));
  }

  /** A canonical path is where it says it is. */
  lemma {:induction false} WalkPlainly(links: Links, path: Path, parts: seq<string>, seen: map<Path, Option<Path>>)
    requires PlainPath(parts) && Canonical(links, path + parts)
    ensures Walk(links, path, Names(parts), seen) == path + parts
    decreases |parts|
  {
    if |parts| == 0 {
      assert path + parts == path;
    } else {
      var next := path + [parts[0]];
      assert next == (path + parts)[..|path| + 1];
      assert next + parts[1..] == path + parts;
      assert Names(parts)[1..] == Names(parts[1..]);
      WalkPlainly(links, next, parts[1..], seen);
    }
  }

  // ---- the jail ----

  function Resolve(links: Links, root: Path, relative: string): Resolution {
    match CheckShape(relative)
    case Some(why) => Refused(why)
    case None =>
      var rootReal := Realpath(links, root);
      var candidate := Realpath(links, rootReal + PathParts(relative));
      if !(rootReal <= candidate) then Refused(Escapes)
      else if !IsAllowedName(NameOf(candidate)) then Refused(NameNotAllowed)
      else Resolved(candidate)
  }

  /** The reported form of a path, which resolves it once more. */
  function RelativeToRoot(links: Links, root: Path, path: Path): Option<string> {
    var rootReal, again := Realpath(links, root), Realpath(links, path);
    if rootReal <= again then Some(AsPosix(again[|rootReal|..])) else None
  }

  datatype FileGuard = FileGuard(writeEnabled: bool, writeGlobs: seq<string>)

  predicate MatchesWriteGlob(glob: SegmentMatcher, guard: FileGuard, within: Segments) {
    exists i :: 0 <= i < |guard.writeGlobs| && MatchSegments(glob, within, PathParts(guard.writeGlobs[i]))
  }

  predicate DecideWrite(glob: SegmentMatcher, guard: FileGuard, rel: string) {
    guard.writeEnabled && MatchesWriteGlob(glob, guard, PathParts(rel))
  }

  /** Everything the write procedure decides before it takes the lock: the path to write. */
  function Permit(glob: SegmentMatcher, guard: FileGuard, links: Links, root: Path, relative: string): Option<Path> {
    match Resolve(links, root, relative)
    case Refused(_) => None
    case Resolved(path) =>
      match RelativeToRoot(links, root, path)
      case None => None
      case Some(rel) => if DecideWrite(glob, guard, rel) then Some(path) else None
  }

  /** A place the configuration lets the procedure change. What matches a write glob is
      where the place leads when it is resolved once more. */
  ghost predicate Permitted(glob: SegmentMatcher, guard: FileGuard, links: Links, root: Path, path: Path) {
    var rootReal, again := Realpath(links, root), Realpath(links, path);
    && rootReal <= path
    && IsAllowedName(NameOf(path))
    && guard.writeEnabled
    && rootReal <= again
    && MatchesWriteGlob(glob, guard, again[|rootReal|..])
  }

  /** For any tree of links, loops included: a path is let through exactly when it is what
      the request resolves to and the configuration permits that place. */
  lemma PermitIsJailed(glob: SegmentMatcher, guard: FileGuard, links: Links, root: Path, relative: string, path: Path)
    requires PlainPath(root)
    ensures Permit(glob, guard, links, root, relative) == Some(path)
       <==> Resolve(links, root, relative) == Resolved(path) && Permitted(glob, guard, links, root, path)
  {
    if Resolve(links, root, relative) == Resolved(path) {
      ResolvedIsCandidate(links, root, relative, path);
      ReportedReadsBack(links, root, path);
    }
  }

  /** What the guard is shown reads back as where the path leads. */
  lemma ReportedReadsBack(links: Links, root: Path, path: Path)
    requires PlainPath(path)
    ensures var rootReal, again, rel := Realpath(links, root), Realpath(links, path), RelativeToRoot(links, root, path);
      && (rel.Some? <==> rootReal <= again)
      && (rel.Some? ==> PathParts(rel.value) == again[|rootReal|..])
  {
    var rootReal, again := Realpath(links, root), Realpath(links, path);
    RealpathIsPlain(links, path);
    if rootReal <= again {
      PosixRoundTrip(again[|rootReal|..]);
    }
  }

  lemma ResolvedIsCandidate(links: Links, root: Path, relative: string, path: Path)
    requires PlainPath(root) && Resolve(links, root, relative) == Resolved(path)
    ensures var rootReal := Realpath(links, root);
      && rootReal <= path && path == Realpath(links, rootReal + PathParts(relative))
      && PlainPath(rootReal) && PlainPath(PathParts(relative))
    ensures IsAllowedName(NameOf(path)) && PlainPath(path)
  {
    RealpathIsPlain(links, root);
    ShapelyPartsArePlain(relative);
    RealpathIsPlain(links, Realpath(links, root) + PathParts(relative));
  }

  // ---- when the guard's glob is about the path that is written ----

  /** Whether resolving the request meets a link while it is still being followed. */
  predicate RequestMeetsLoop(links: Links, root: Path, relative: string) {
    MeetsLoop(links, [], Names(Realpath(links, root) + PathParts(relative)), map[])
  }

  /** Short of that, no link is on the resolved path, so it is the one place it names. */
  lemma NoLoopSettles(links: Links, root: Path, relative: string, path: Path)
    requires PlainPath(root) && !RequestMeetsLoop(links, root, relative)
    requires Resolve(links, root, relative) == Resolved(path)
    ensures Canonical(links, path) && Realpath(links, path) == path
  {
    ResolvedIsCandidate(links, root, relative, path);
    RealpathIdempotent(links, Realpath(links, root) + PathParts(relative));
  }

  ghost predicate SpellsName(glob: SegmentMatcher, name: string, pat: string) {
    Plain(pat) && pat != GLOBSTAR && forall other :: Plain(other) ==> (glob(other, pat) <==> other == name)
  }

  ghost predicate HasSpelling(glob: SegmentMatcher, name: string) {
    exists pat :: SpellsName(glob, name, pat)
  }

  /** Each of the names has a pattern for it alone; for `fnmatchcase` every name has one, itself
      with `*`, `?` and `[` each put in brackets. */
  ghost predicate SpellsNames(glob: SegmentMatcher, names: Path) {
    forall i :: 0 <= i < |names| ==> HasSpelling(glob, names[i])
  }

  /** A name without wildcards spells itself. */
  lemma WildSpells(name: string)
    requires Plain(name) && '*' !in name && '?' !in name
    ensures HasSpelling(Wild, name)
  {
    forall other | Plain(other) ensures Wild(other, name) <==> other == name {
      LiteralMatchesOnly(other, name);
    }
    assert SpellsName(Wild, name, name);
  }

  /** The guard tests where the resolved path leads when it is resolved again. For a given
      request, all write globs that let it through match the components of the path that
      is written if and only if resolving that path again does not move it within the root. */
  lemma GlobIsAboutWrittenPathIff(glob: SegmentMatcher, links: Links, root: Path, relative: string, path: Path)
    requires PlainPath(root) && Resolve(links, root, relative) == Resolved(path)
    requires var rootReal, again := Realpath(links, root), Realpath(links, path);
      rootReal <= again ==> SpellsNames(glob, again[|rootReal|..])
    ensures var rootReal, again := Realpath(links, root), Realpath(links, path);
      (forall guard :: Permit(glob, guard, links, root, relative) == Some(path) ==>
         rootReal <= path && MatchesWriteGlob(glob, guard, path[|rootReal|..]))
      <==> (rootReal <= again ==> again == path)
  {
    var rootReal, again := Realpath(links, root), Realpath(links, path);
    ResolvedIsCandidate(links, root, relative, path);
    RealpathIsPlain(links, path);
    forall guard ensures Permit(glob, guard, links, root, relative) == Some(path)
                    <==> Permitted(glob, guard, links, root, path)
    {
      PermitIsJailed(glob, guard, links, root, relative, path);
    }
    if rootReal <= again && again != path {
      assert path == rootReal + path[|rootReal|..] && again == rootReal + again[|rootReal|..];
      var guard := SeparatingGuard(glob, again[|rootReal|..], path[|rootReal|..]);
      assert Permitted(glob, guard, links, root, path);
    }
  }

  lemma SeparatingGuard(glob: SegmentMatcher, a: Path, b: Path) returns (guard: FileGuard)
    requires SpellsNames(glob, a) && PlainPath(b) && PlainPath(a) && a != b
    ensures guard.writeEnabled && MatchesWriteGlob(glob, guard, a) && !MatchesWriteGlob(glob, guard, b)
  {
    var pats := SpellNames(glob, a);
    guard := FileGuard(true, [AsPosix(pats)]);
    PosixRoundTrip(pats);
    SpelledMatchesOnly(glob, a, pats, a);
    SpelledMatchesOnly(glob, a, pats, b);
    assert guard.writeGlobs[0] == AsPosix(pats);
  }

  lemma {:induction false} SpellNames(glob: SegmentMatcher, names: Path) returns (pats: Segments)
    requires SpellsNames(glob, names)
    ensures PlainPath(pats) && |pats| == |names|
    ensures forall i :: 0 <= i < |names| ==> SpellsName(glob, names[i], pats[i])
  {
    pats := [];
    if |names| > 0 {
      assert HasSpelling(glob, names[0]);
      var pat :| SpellsName(glob, names[0], pat);
      pats := SpellNames(glob, names[1..]);
      pats := [pat] + pats;
    }
  }

  lemma {:induction false} SpelledMatchesOnly(glob: SegmentMatcher, names: Path, pats: Segments, path: Path)
    requires |pats| == |names| && PlainPath(path)
    requires forall i :: 0 <= i < |names| ==> SpellsName(glob, names[i], pats[i])
    ensures MatchSegments(glob, path, pats) <==> path == names
    decreases |names|
  {
    if |names| > 0 && |path| > 0 {
      assert SpellsName(glob, names[0], pats[0]);
      SpelledMatchesOnly(glob, names[1..], pats[1..], path[1..]);
      assert path == [path[0]] + path[1..] && names == [names[0]] + names[1..];
    } else if |names| > 0 {
      assert SpellsName(glob, names[0], pats[0]);
    }
  }

  predicate LoopNames(r: string, g: string, d: string, y: string) {
    Plain(r) && Plain(g) && Plain(d) && Plain(y) && g != d
  }

  /** A request that passes the shape checks, a directory without `*` or `[`, and a `.yml` file. */
  predicate LoopRequest(g: string, d: string, y: string) {
    && g != "" && g != ".git" && '\\' !in g && '\0' !in g && !IsUnicodeSpace(g[0])
    && '*' !in d && '[' !in d
    && |y| > 4 && y[|y| - 4..] == ".yml"
  }

  /** Two links that lead into each other: `r/g` holds `d/y`, and `r/d/y` holds `../g/../d/y`. */
  function LoopedLinks(r: string, g: string, d: string, y: string): Links {
    map[[r, g] := JoinPath([d, y]), [r, d, y] := ".." + "/" + (g + "/" + (".." + "/" + JoinPath([d, y])))]
  }

  /** For such links, whatever the names, a request for `g` writes `d/y` although the
      only write glob is `d/d` followed by a wildcard, which `d/y` does not match. */
  lemma LoopedRequestEscapesGlob(r: string, g: string, d: string, y: string)
    requires LoopNames(r, g, d, y) && LoopRequest(g, d, y)
    ensures var guard, links := FileGuard(true, [JoinPath([d, d, "*"])]), LoopedLinks(r, g, d, y);
      && Permit(Wild, guard, links, [r], g) == Some([r, d, y])
      && !MatchesWriteGlob(Wild, guard, [d, y])
  {
    var guard, links := FileGuard(true, [JoinPath([d, d, "*"])]), LoopedLinks(r, g, d, y);
    LoopedResolves(r, g, d, y);
    WalkOfLoopAgain(r, g, d, y);
    LoopedGlob(d, y);
    assert [r, d, d, y][1..] == [d, d, y];
    PermitIsJailed(Wild, guard, links, [r], g, [r, d, y]);
  }

  lemma LoopedResolves(r: string, g: string, d: string, y: string)
    requires LoopNames(r, g, d, y) && LoopRequest(g, d, y)
    ensures Realpath(LoopedLinks(r, g, d, y), [r]) == [r]
    ensures Resolve(LoopedLinks(r, g, d, y), [r], g) == Resolved([r, d, y])
    ensures IsAllowedName(NameOf([r, d, y]))
  {
    ShapelyName(g);
    YmlIsAllowed(y);
    RealpathOfCanonical(LoopedLinks(r, g, d, y), [r]);
    WalkOfLoop(r, g, d, y);
    assert [r] + [g] == [r, g];
  }

  /** For one: a request for `g` where `r/g` holds `sub/l.yml`, `r/sub/l.yml` holds
      `../g/../sub/l.yml`, and writes are allowed to `sub/sub` alone. */
  lemma LoopedExample() returns (r: string, g: string, d: string, y: string)
    ensures r == "r" && g == "g" && d == "sub" && y == "l.yml"
    ensures var guard, links := FileGuard(true, [JoinPath([d, d, "*"])]), LoopedLinks(r, g, d, y);
      && Permit(Wild, guard, links, [r], g) == Some([r, d, y])
      && !MatchesWriteGlob(Wild, guard, [d, y])
  {
    r, g, d, y := "r", "g", "sub", "l.yml";
    LoopedRequestEscapesGlob(r, g, d, y);
  }

  lemma YmlIsAllowed(y: string)
    requires |y| > 4 && y[|y| - 4..] == ".yml"
    ensures IsAllowedName(y)
  {
    assert forall i :: 0 <= i < 4 ==> y[|y| - 4 + i] == ".yml"[i];
    assert EndsLike(y, ".yml");
    AllowedNameIff(y);
  }

  lemma ShapelyName(g: string)
    requires Plain(g) && g != ".git" && '\\' !in g && '\0' !in g && !IsUnicodeSpace(g[0])
    ensures CheckShape(g) == None && PathParts(g) == [g]
  {
    SplitOne(g, "");
    DropNothing([g]);
    assert g[0] in g;
    assert PathParts(g) == [g];
    assert FirstBadPart([g][1..]) == None;
  }

  lemma LoopedGlob(d: string, y: string)
    requires Plain(d) && Plain(y) && '*' !in d
    ensures var guard := FileGuard(true, [JoinPath([d, d, "*"])]);
      MatchesWriteGlob(Wild, guard, [d, d, y]) && !MatchesWriteGlob(Wild, guard, [d, y])
  {
    var pat := [d, d, "*"];
    var guard := FileGuard(true, [JoinPath(pat)]);
    PosixRoundTrip(pat);
    assert PathParts(guard.writeGlobs[0]) == pat;
    LiteralMatches(d);
    StarMatchesAll(y);
    OneByOne(Wild, d, d, [d, y], [d, "*"]);
    OneByOne(Wild, d, d, [y], ["*"]);
    OneByOne(Wild, y, "*", [], []);
    OneByOne(Wild, y, d, [], ["*"]);
    assert [d] + [d, y] == [d, d, y] && [d] + [y] == [d, y] && [y] + [] == [y];
    assert [d] + [d, "*"] == pat && [d] + ["*"] == [d, "*"] && ["*"] + [] == ["*"];
  }

  lemma OneByOne(glob: SegmentMatcher, name: string, segment: string, path: Segments, pat: Segments)
    requires segment != GLOBSTAR
    ensures MatchSegments(glob, [name] + path, [segment] + pat)
       <==> glob(name, segment) && MatchSegments(glob, path, pat)
  {
    assert ([name] + path)[1..] == path && ([segment] + pat)[1..] == pat;
  }

  lemma LoopedTexts(r: string, g: string, d: string, y: string)
    requires LoopNames(r, g, d, y)
    ensures var links := LoopedLinks(r, g, d, y);
      && SplitSlash(links[[r, g]]) == [d, y] && !IsAbsolute(links[[r, g]])
      && SplitSlash(links[[r, d, y]]) == ["..", g, "..", d, y] && !IsAbsolute(links[[r, d, y]])
  {
    var tail := JoinPath([d, y]);
    SplitJoined([d, y]);
    SplitOne("..", tail);
    SplitOne(g, ".." + "/" + tail);
    SplitOne("..", g + "/" + (".." + "/" + tail));
    assert tail[0] == d[0] && d[0] in d;
  }

  // One step of the walk at a time.

  lemma StepInto(links: Links, path: Path, name: string, rest: seq<Work>, seen: map<Path, Option<Path>>)
    requires Plain(name)
    requires path + [name] !in links || (path + [name] in seen && seen[path + [name]] == None)
    ensures Walk(links, path, [Name(name)] + rest, seen) == Walk(links, path + [name], rest, seen)
  {
    assert ([Name(name)] + rest)[1..] == rest;
  }

  lemma StepOut(links: Links, path: Path, name: string, rest: seq<Work>, seen: map<Path, Option<Path>>)
    ensures Walk(links, path + [name], [Name("..")] + rest, seen) == Walk(links, path, rest, seen)
  {
    assert ([Name("..")] + rest)[1..] == rest && Front(path + [name]) == path;
  }

  lemma StepAlong(links: Links, path: Path, name: string, rest: seq<Work>, seen: map<Path, Option<Path>>)
    requires Plain(name) && path + [name] in links && path + [name] !in seen
    requires !IsAbsolute(links[path + [name]])
    ensures var next := path + [name];
      Walk(links, path, [Name(name)] + rest, seen)
        == Walk(links, path, Names(SplitSlash(links[next])) + ([Finish(next)] + rest), seen[next := None])
  {
    var next := path + [name];
    assert ([Name(name)] + rest)[1..] == rest;
    assert Names(SplitSlash(links[next])) + [Finish(next)] + rest
        == Names(SplitSlash(links[next])) + ([Finish(next)] + rest);
  }

  const NO_LINKS_SEEN: map<Path, Option<Path>> := map[]

  /** Following g leads to y, y back through g, and the walk stops at y. */
  lemma WalkOfLoop(r: string, g: string, d: string, y: string)
    requires LoopNames(r, g, d, y)
    ensures Realpath(LoopedLinks(r, g, d, y), [r, g]) == [r, d, y]
  {
    var links, atG, atY := LoopedLinks(r, g, d, y), [r] + [g], [r, d] + [y];
    assert [] + [r] == [r] && [r] + [d] == [r, d] && atG == [r, g] && atY == [r, d, y];
    LoopedTexts(r, g, d, y);
    var onG := NO_LINKS_SEEN[atG := None];
    var doneG := [Finish(atG)] + [];
    assert Names([r, g]) == [Name(r)] + ([Name(g)] + []);
    assert Names([d, y]) + doneG == [Name(d)] + ([Name(y)] + doneG);
    StepInto(links, [], r, [Name(g)] + [], NO_LINKS_SEEN);
    StepAlong(links, [r], g, [], NO_LINKS_SEEN);
    StepInto(links, [r], d, [Name(y)] + doneG, onG);
    WalkBackThroughG(r, g, d, y);
  }

  lemma WalkBackThroughG(r: string, g: string, d: string, y: string)
    requires LoopNames(r, g, d, y)
    ensures var atG := [r] + [g]; var doneG := [Finish(atG)] + [];
      Walk(LoopedLinks(r, g, d, y), [r, d], [Name(y)] + doneG, NO_LINKS_SEEN[atG := None]) == [r, d, y]
  {
    var links, atG, atY := LoopedLinks(r, g, d, y), [r] + [g], [r, d] + [y];
    assert [] + [r] == [r] && [r] + [d] == [r, d] && atG == [r, g] && atY == [r, d, y];
    LoopedTexts(r, g, d, y);
    var onG := NO_LINKS_SEEN[atG := None];
    var onBoth := onG[atY := None];
    var doneBoth := [Finish(atY)] + ([Finish(atG)] + []);
    var toY := [Name(d)] + ([Name(y)] + doneBoth);
    assert Names(["..", g, "..", d, y]) + doneBoth == [Name("..")] + ([Name(g)] + ([Name("..")] + toY));
    StepAlong(links, [r, d], y, [Finish(atG)] + [], onG);
    StepOut(links, [r], d, [Name(g)] + ([Name("..")] + toY), onBoth);
    StepInto(links, [r], g, [Name("..")] + toY, onBoth);
    StepOut(links, [r], g, toY, onBoth);
    StepInto(links, [r], d, [Name(y)] + doneBoth, onBoth);
    StepInto(links, [r, d], y, doneBoth, onBoth);
    assert doneBoth[1..] == [Finish(atG)] && [Finish(atG)][1..] == [];
    assert Walk(links, atY, [Finish(atG)], onBoth[atY := Some(atY)]) == atY;
  }

  /** Starting from y, the same detour ends before y's own text is used up. */
  lemma WalkOfLoopAgain(r: string, g: string, d: string, y: string)
    requires LoopNames(r, g, d, y)
    ensures Realpath(LoopedLinks(r, g, d, y), [r, d, y]) == [r, d, d, y]
  {
    var links, atG, atY := LoopedLinks(r, g, d, y), [r] + [g], [r, d] + [y];
    assert [] + [r] == [r] && [r] + [d] == [r, d] && atG == [r, g] && atY == [r, d, y];
    LoopedTexts(r, g, d, y);
    var onY := NO_LINKS_SEEN[atY := None];
    var doneY := [Finish(atY)] + [];
    var again := [Name("..")] + ([Name(d)] + ([Name(y)] + doneY));
    assert Names([r, d, y]) == [Name(r)] + ([Name(d)] + ([Name(y)] + []));
    assert Names(["..", g, "..", d, y]) + doneY == [Name("..")] + ([Name(g)] + again);
    StepInto(links, [], r, [Name(d)] + ([Name(y)] + []), NO_LINKS_SEEN);
    StepInto(links, [r], d, [Name(y)] + [], NO_LINKS_SEEN);
    StepAlong(links, [r, d], y, [], NO_LINKS_SEEN);
    StepOut(links, [r], d, [Name(g)] + again, onY);
    WalkOnFromG(r, g, d, y, doneY);
  }

  lemma WalkOnFromG(r: string, g: string, d: string, y: string, rest: seq<Work>)
    requires LoopNames(r, g, d, y) && rest == [Finish([r, d] + [y])] + []
    ensures var again := [Name("..")] + ([Name(d)] + ([Name(y)] + rest));
      Walk(LoopedLinks(r, g, d, y), [r], [Name(g)] + again, NO_LINKS_SEEN[[r, d] + [y] := None]) == [r, d, d, y]
  {
    var links, atG, atY := LoopedLinks(r, g, d, y), [r] + [g], [r, d] + [y];
    assert [r] + [d] == [r, d] && atG == [r, g] && atY == [r, d, y];
    LoopedTexts(r, g, d, y);
    var onY := NO_LINKS_SEEN[atY := None];
    var onBoth := onY[atG := None];
    var again := [Name("..")] + ([Name(d)] + ([Name(y)] + rest));
    var doneG := [Finish(atG)] + again;
    assert Names([d, y]) + doneG == [Name(d)] + ([Name(y)] + doneG);
    StepAlong(links, [r], g, again, onY);
    StepInto(links, [r], d, [Name(y)] + doneG, onBoth);
    StepInto(links, [r, d], y, doneG, onBoth);
    assert doneG[1..] == again;
    WalkPastLoop(r, g, d, y, rest, onBoth[atG := Some(atY)]);
  }

  lemma WalkPastLoop(r: string, g: string, d: string, y: string, rest: seq<Work>, seen: map<Path, Option<Path>>)
    requires LoopNames(r, g, d, y) && rest == [Finish([r, d] + [y])] + []
    requires [r, d] + [y] in seen && seen[[r, d] + [y]] == None
    ensures var again := [Name("..")] + ([Name(d)] + ([Name(y)] + rest));
      Walk(LoopedLinks(r, g, d, y), [r, d] + [y], again, seen) == [r, d, d, y]
  {
    var links := LoopedLinks(r, g, d, y);
    assert [r, d] + [d] == [r, d, d] && [r, d, d] + [y] == [r, d, d, y] && rest[1..] == [];
    assert [r, d] + [y] == [r, d, y];
    StepOut(links, [r, d], y, [Name(d)] + ([Name(y)] + rest), seen);
    StepInto(links, [r, d], d, [Name(y)] + rest, seen);
    StepInto(links, [r, d, d], y, rest, seen);
  }

  /** The jail does not over-refuse: where no link is on the way, a well-shaped path with an
      allowed name resolves to itself under the root. */
  lemma PlainTreeResolves(links: Links, root: Path, relative: string)
    requires PlainPath(root) && Canonical(links, root + PathParts(relative))
    requires CheckShape(relative) == None && IsAllowedName(NameOf(root + PathParts(relative)))
    ensures Resolve(links, root, relative) == Resolved(root + PathParts(relative))
  {
    var parts := PathParts(relative);
    ShapelyPartsArePlain(relative);
    RealpathOfCanonical(links, root + parts);
    forall k | 0 < k <= |root| ensures root[..k] !in links {
      assert root[..k] == (root + parts)[..k];
    }
    RealpathOfCanonical(links, root);
  }

  lemma RealpathOfCanonical(links: Links, path: Path)
    requires PlainPath(path) && Canonical(links, path)
    ensures Realpath(links, path) == path
  {
    assert [] + path == path;
    WalkPlainly(links, [], path, map[]);
  }

  lemma ShapelyPartsArePlain(relative: string)
    requires CheckShape(relative) == None
    ensures PlainPath(PathParts(relative))
  {
    var parts := PathParts(relative);
    assert parts == DropEmptyAndDot(SplitSlash(relative));
    NoBadPart(parts);
  }

  lemma {:induction false} NoBadPart(parts: seq<string>)
    requires FirstBadPart(parts) == None
    ensures forall i :: 0 <= i < |parts| ==> parts[i] != ".." && parts[i] != ".git"
  {
    if |parts| > 0 {
      NoBadPart(parts[1..]);
    }
  }
}
