/** What `os.path.realpath` computes, against the walk it stands for: every link replaced by
    its text where it is met, nothing remembered, as the kernel follows a path. */
module PlainWalk {
  import opened Common
  import opened SegmentGlob
  import opened PathJail

  /** The end of the walk, or nothing if it takes more than `limit` links. */
  function Follow(links: Links, path: Path, parts: seq<string>, limit: nat): Option<Path>
    decreases limit, |parts|
  {
    if |parts| == 0 then Some(path)
    else
      var name, rest := parts[0], parts[1..];
      if name == "" || name == "." then Follow(links, path, rest, limit)
      else if name == ".." then Follow(links, if |path| == 0 then [] else Front(path), rest, limit)
      else
        var next := path + [name];
        if next !in links then Follow(links, next, rest, limit)
        else if limit == 0 then None
        else
          Follow(links, if IsAbsolute(links[next]) then [] else path, SplitSlash(links[next]) + rest, limit - 1)
  }

  ghost predicate Leads(links: Links, path: Path, parts: seq<string>, end: Path) {
    exists limit: nat :: Follow(links, path, parts, limit) == Some(end)
  }

  // ---- the plain walk ----

  lemma {:induction false} MoreLinksAllowed(links: Links, path: Path, parts: seq<string>, limit: nat, more: nat)
    requires Follow(links, path, parts, limit).Some? && limit <= more
    ensures Follow(links, path, parts, more) == Follow(links, path, parts, limit)
    decreases limit, |parts|
  {
    if |parts| > 0 {
      var name, rest := parts[0], parts[1..];
      if name == "" || name == "." {
        MoreLinksAllowed(links, path, rest, limit, more);
      } else if name == ".." {
        MoreLinksAllowed(links, if |path| == 0 then [] else Front(path), rest, limit, more);
      } else {
        var next := path + [name];
        if next !in links {
          MoreLinksAllowed(links, next, rest, limit, more);
        } else {
          MoreLinksAllowed(links, if IsAbsolute(links[next]) then [] else path,
            SplitSlash(links[next]) + rest, limit - 1, more - 1);
        }
      }
    }
  }

  lemma LeadsToOne(links: Links, path: Path, parts: seq<string>, a: Path, b: Path)
    requires Leads(links, path, parts, a) && Leads(links, path, parts, b)
    ensures a == b
  {
    var m: nat :| Follow(links, path, parts, m) == Some(a);
    var n: nat :| Follow(links, path, parts, n) == Some(b);
    MoreLinksAllowed(links, path, parts, m, m + n);
    MoreLinksAllowed(links, path, parts, n, m + n);
  }

  /** A walk that ends goes through the end of each of its beginnings. */
  lemma {:induction false} FollowSplits(links: Links, path: Path, a: seq<string>, b: seq<string>, limit: nat)
    returns (mid: Path)
    requires Follow(links, path, a + b, limit).Some?
    ensures Follow(links, path, a, limit) == Some(mid)
    ensures Follow(links, mid, b, limit) == Follow(links, path, a + b, limit)
    decreases limit, |a|
  {
    if |a| == 0 {
      assert a + b == b;
      mid := path;
    } else {
      var name, rest := a[0], a[1..];
      assert (a + b)[1..] == rest + b;
      if name == "" || name == "." {
        mid := FollowSplits(links, path, rest, b, limit);
      } else if name == ".." {
        mid := FollowSplits(links, if |path| == 0 then [] else Front(path), rest, b, limit);
      } else {
        var next := path + [name];
        if next !in links {
          mid := FollowSplits(links, next, rest, b, limit);
        } else {
          assert SplitSlash(links[next]) + (rest + b) == SplitSlash(links[next]) + rest + b;
          mid := FollowSplits(links, if IsAbsolute(links[next]) then [] else path,
                              SplitSlash(links[next]) + rest, b, limit - 1);
          MoreLinksAllowed(links, mid, b, limit - 1, limit);
        }
      }
    }
  }

  lemma {:induction false} FollowJoins(links: Links, path: Path, a: seq<string>, b: seq<string>, m: nat, n: nat)
    requires Follow(links, path, a, m).Some? && Follow(links, Follow(links, path, a, m).value, b, n).Some?
    ensures Follow(links, path, a + b, m + n) == Follow(links, Follow(links, path, a, m).value, b, n)
    decreases m, |a|
  {
    if |a| == 0 {
      assert a + b == b;
      MoreLinksAllowed(links, path, b, n, m + n);
    } else {
      var name, rest := a[0], a[1..];
      assert (a + b)[1..] == rest + b;
      if name == "" || name == "." {
        FollowJoins(links, path, rest, b, m, n);
      } else if name == ".." {
        FollowJoins(links, if |path| == 0 then [] else Front(path), rest, b, m, n);
      } else {
        var next := path + [name];
        if next !in links {
          FollowJoins(links, next, rest, b, m, n);
        } else {
          assert SplitSlash(links[next]) + (rest + b) == SplitSlash(links[next]) + rest + b;
          FollowJoins(links, if IsAbsolute(links[next]) then [] else path,
            SplitSlash(links[next]) + rest, b, m - 1, n);
        }
      }
    }
  }

  // ---- what the remembering walk relies on ----

  /** The names still to be walked, without the notes where a link is finished. */
  function NamesIn(rest: seq<Work>): seq<string> {
    if |rest| == 0 then []
    else (if rest[0].Name? then [rest[0].name] else []) + NamesIn(rest[1..])
  }

  /** The walk from the second place ends where that from the first does, and takes no more links. */
  ghost predicate Continues(links: Links, path: Path, parts: seq<string>, path': Path, parts': seq<string>) {
    && (forall end :: Leads(links, path', parts', end) ==> Leads(links, path, parts, end))
    && (forall n: nat :: Follow(links, path, parts, n).Some? ==> Follow(links, path', parts', n).Some?)
  }

  /** Walking the link alone comes down to walking `parts` from here, having used one link. */
  ghost predicate ComesDownTo(links: Links, link: Path, path: Path, parts: seq<string>) {
    && |link| > 0
    && (forall end :: Leads(links, path, parts, end) ==> Leads(links, Front(link), [Last(link)], end))
    && (forall n: nat :: Follow(links, Front(link), [Last(link)], n).Some? ==>
          n > 0 && Follow(links, path, parts, n - 1).Some?)
  }

  /** Each note stands where walking its link ends. */
  ghost predicate NotesRight(links: Links, path: Path, rest: seq<Work>) {
    forall i :: 0 <= i < |rest| && rest[i].Finish? ==> ComesDownTo(links, rest[i].link, path, NamesIn(rest[..i]))
  }

  /** What is remembered of a link is where it leads, and one being followed has its note. */
  ghost predicate SeenRight(links: Links, rest: seq<Work>, seen: map<Path, Option<Path>>) {
    && (forall link :: link in seen && seen[link].Some? ==>
          |link| > 0 && Leads(links, Front(link), [Last(link)], seen[link].value))
    && (forall link :: link in seen && seen[link].None? ==> Finish(link) in rest)
  }

  lemma ComesDownFurther(links: Links, link: Path, path: Path, parts: seq<string>, path': Path, parts': seq<string>)
    requires ComesDownTo(links, link, path, parts) && Continues(links, path, parts, path', parts')
    ensures ComesDownTo(links, link, path', parts')
  {
  }

  lemma {:induction false} NamesInConcat(a: seq<Work>, b: seq<Work>)
    ensures NamesIn(a + b) == NamesIn(a) + NamesIn(b)
  {
    if |a| == 0 {
      assert a + b == b;
    } else {
      assert (a + b)[1..] == a[1..] + b;
      NamesInConcat(a[1..], b);
    }
  }

  lemma {:induction false} NamesInNames(parts: seq<string>)
    ensures NamesIn(Names(parts)) == parts
  {
    if |parts| > 0 {
      assert Names(parts)[1..] == Names(parts[1..]);
      NamesInNames(parts[1..]);
      assert parts == [parts[0]] + parts[1..];
    }
  }

  // ---- one step ----

  /** Taking `name` from `path` comes to standing at `path'` with `texts` to walk first. */
  ghost predicate Hops(links: Links, path: Path, name: string, path': Path, texts: seq<string>) {
    forall more :: Continues(links, path, [name] + more, path', texts + more)
  }

  /** Where the link `path + [name]` does not come in. */
  lemma HopPlainly(links: Links, path: Path, name: string)
    requires name == "" || name == "." || name == ".." || path + [name] !in links
    ensures var path' := if name == "" || name == "." then path
                         else if name == ".." then (if |path| == 0 then [] else Front(path))
                         else path + [name];
      Hops(links, path, name, path', [])
  {
    var path' := if name == "" || name == "." then path
                 else if name == ".." then (if |path| == 0 then [] else Front(path))
                 else path + [name];
    forall more ensures Continues(links, path, [name] + more, path', [] + more) {
      assert ([name] + more)[1..] == more && [] + more == more;
      assert forall n: nat :: Follow(links, path, [name] + more, n) == Follow(links, path', more, n);
    }
  }

  predicate IsLink(links: Links, path: Path, name: string) {
    name != "" && name != "." && name != ".." && path + [name] in links
  }

  function Base(links: Links, path: Path, next: Path): Path
    requires next in links
  {
    if IsAbsolute(links[next]) then [] else path
  }

  lemma FollowLink(links: Links, path: Path, name: string, more: seq<string>, n: nat)
    requires IsLink(links, path, name)
    ensures var next := path + [name];
      && Follow(links, path, [name] + more, n + 1)
         == Follow(links, Base(links, path, next), SplitSlash(links[next]) + more, n)
      && Follow(links, path, [name] + more, 0) == None
  {
    assert ([name] + more)[1..] == more;
  }

  lemma HopAlong(links: Links, path: Path, name: string)
    requires IsLink(links, path, name)
    ensures var next := path + [name];
      && Hops(links, path, name, Base(links, path, next), SplitSlash(links[next]))
      && ComesDownTo(links, next, Base(links, path, next), SplitSlash(links[next]))
  {
    var next := path + [name];
    var base, texts := Base(links, path, next), SplitSlash(links[next]);
    forall more ensures Continues(links, path, [name] + more, base, texts + more) {
      forall end | Leads(links, base, texts + more, end) ensures Leads(links, path, [name] + more, end) {
        var n: nat :| Follow(links, base, texts + more, n) == Some(end);
        FollowLink(links, path, name, more, n);
      }
      forall n: nat | Follow(links, path, [name] + more, n).Some?
        ensures n > 0 && Follow(links, base, texts + more, n - 1).Some? && Follow(links, base, texts + more, n).Some?
      {
        FollowLink(links, path, name, more, if n > 0 then n - 1 else 0);
        MoreLinksAllowed(links, base, texts + more, n - 1, n);
      }
    }
    assert Front(next) == path && Last(next) == name && [name] + [] == [name] && texts + [] == texts;
    assert Continues(links, path, [name] + [], base, texts + []);
    forall n: nat | Follow(links, path, [name], n).Some? ensures n > 0 && Follow(links, base, texts, n - 1).Some? {
      FollowLink(links, path, name, [], if n > 0 then n - 1 else 0);
    }
  }

  /** A link that leads somewhere can be replaced by where it leads. */
  lemma HopAcross(links: Links, path: Path, name: string, end: Path)
    requires Leads(links, path, [name], end)
    ensures Hops(links, path, name, end, [])
  {
    forall more ensures Continues(links, path, [name] + more, end, [] + more) {
      assert [] + more == more;
      forall last | Leads(links, end, more, last) ensures Leads(links, path, [name] + more, last) {
        var m: nat :| Follow(links, path, [name], m) == Some(end);
        var n: nat :| Follow(links, end, more, n) == Some(last);
        FollowJoins(links, path, [name], more, m, n);
      }
      forall n: nat | Follow(links, path, [name] + more, n).Some? ensures Follow(links, end, more, n).Some? {
        var mid := FollowSplits(links, path, [name], more, n);
        LeadsToOne(links, path, [name], mid, end);
      }
    }
  }

  /** After a step that puts `more` in the place of the first name. */
  lemma AfterHop(links: Links, path: Path, rest: seq<Work>, path': Path, more: seq<Work>)
    requires |rest| > 0 && rest[0].Name? && NotesRight(links, path, rest) && NotesRight(links, path', more)
    requires Hops(links, path, rest[0].name, path', NamesIn(more))
    ensures NotesRight(links, path', more + rest[1..])
    ensures Continues(links, path, NamesIn(rest), path', NamesIn(more + rest[1..]))
  {
    var after := more + rest[1..];
    forall i | 0 <= i < |after| && after[i].Finish?
      ensures ComesDownTo(links, after[i].link, path', NamesIn(after[..i]))
    {
      if i < |more| {
        assert after[..i] == more[..i];
      } else {
        var j := i - |more| + 1;
        assert rest[j] == after[i] && after[..i] == more + rest[1..j];
        NamesInConcat(more, rest[1..j]);
        assert rest[..j][1..] == rest[1..j];
        ComesDownFurther(links, rest[j].link, path, NamesIn(rest[..j]), path', NamesIn(after[..i]));
      }
    }
    NamesInConcat(more, rest[1..]);
  }

  function Noted(seen: map<Path, Option<Path>>, link: Path, path: Path): map<Path, Option<Path>> {
    if link in seen then seen[link := Some(path)] else seen
  }

  lemma AfterNote(links: Links, path: Path, rest: seq<Work>)
    requires |rest| > 0 && rest[0].Finish? && NotesRight(links, path, rest)
    ensures NotesRight(links, path, rest[1..]) && NamesIn(rest) == NamesIn(rest[1..])
    ensures |rest[0].link| > 0 && Leads(links, Front(rest[0].link), [Last(rest[0].link)], path)
  {
    NotesAfterFirst(links, path, rest);
    EndsHere(links, rest[0].link, path);
    assert NamesIn(rest[..0]) == [] && ComesDownTo(links, rest[0].link, path, NamesIn(rest[..0]));
  }

  lemma EndsHere(links: Links, link: Path, path: Path)
    ensures ComesDownTo(links, link, path, []) ==> Leads(links, Front(link), [Last(link)], path)
  {
    assert Follow(links, path, [], 0) == Some(path);
    assert Leads(links, path, [], path);
  }

  lemma NotesAfterFirst(links: Links, path: Path, rest: seq<Work>)
    requires |rest| > 0 && rest[0].Finish? && NotesRight(links, path, rest)
    ensures NotesRight(links, path, rest[1..])
  {
    var tail := rest[1..];
    forall i | 0 <= i < |tail| && tail[i].Finish?
      ensures ComesDownTo(links, tail[i].link, path, NamesIn(tail[..i]))
    {
      assert rest[i + 1] == tail[i] && rest[..i + 1][1..] == tail[..i];
      assert NamesIn(rest[..i + 1]) == NamesIn(tail[..i]);
    }
  }

  lemma SeenAfterNote(links: Links, path: Path, rest: seq<Work>, seen: map<Path, Option<Path>>)
    requires |rest| > 0 && rest[0].Finish? && SeenRight(links, rest, seen)
    requires |rest[0].link| > 0 && Leads(links, Front(rest[0].link), [Last(rest[0].link)], path)
    ensures SeenRight(links, rest[1..], Noted(seen, rest[0].link, path))
  {
    var after := Noted(seen, rest[0].link, path);
    forall link | link in after && after[link].None? ensures Finish(link) in rest[1..] {
      StillThere(rest, Finish(link));
    }
  }

  lemma StillThere(rest: seq<Work>, work: Work)
    requires |rest| > 0 && work in rest && work != rest[0]
    ensures work in rest[1..]
  {
    var i :| 0 <= i < |rest| && rest[i] == work;
    assert rest[1..][i - 1] == work;
  }

  /** A link that comes down to itself is never at its end. */
  lemma {:induction false} NeverEnds(links: Links, link: Path, more: seq<string>, n: nat)
    requires |link| > 0 && ComesDownTo(links, link, Front(link), [Last(link)] + more)
    ensures Follow(links, Front(link), [Last(link)], n) == None
  {
    if Follow(links, Front(link), [Last(link)], n).Some? {
      var mid := FollowSplits(links, Front(link), [Last(link)], more, n - 1);
      NeverEnds(links, link, more, n - 1);
      assert false;
    }
  }

  lemma LoopFound(links: Links, path: Path, rest: seq<Work>, seen: map<Path, Option<Path>>, n: nat)
    requires NotesRight(links, path, rest) && SeenRight(links, rest, seen) && |rest| > 0 && rest[0].Name?
    requires path + [rest[0].name] in seen && seen[path + [rest[0].name]].None?
    ensures Follow(links, path, NamesIn(rest), n) == None
  {
    var name := rest[0].name;
    var next := path + [name];
    assert Front(next) == path && Last(next) == name;
    var i :| 0 <= i < |rest| && rest[i] == Finish(next);
    var more := NamesIn(rest[1..i]);
    assert rest[..i][1..] == rest[1..i];
    assert NamesIn(rest[..i]) == [name] + more;
    NeverEnds(links, next, more, n);
    if Follow(links, path, [name] + NamesIn(rest[1..]), n).Some? {
      var mid := FollowSplits(links, path, [name], NamesIn(rest[1..]), n);
    }
  }

  /** The first name is that of a link which is still being followed. */
  predicate AtLoop(links: Links, path: Path, rest: seq<Work>, seen: map<Path, Option<Path>>) {
    && |rest| > 0 && rest[0].Name? && IsLink(links, path, rest[0].name)
    && path + [rest[0].name] in seen && seen[path + [rest[0].name]].None?
  }

  /** Where the walk goes when it takes the first name, short of a loop. */
  lemma NameTaken(links: Links, path: Path, rest: seq<Work>, seen: map<Path, Option<Path>>)
    returns (path': Path, more: seq<Work>, seen': map<Path, Option<Path>>)
    requires |rest| > 0 && rest[0].Name? && SeenRight(links, rest, seen) && !AtLoop(links, path, rest, seen)
    ensures Hops(links, path, rest[0].name, path', NamesIn(more)) && NotesRight(links, path', more)
    ensures SeenRight(links, more + rest[1..], seen')
    ensures Walk(links, path, rest, seen) == Walk(links, path', more + rest[1..], seen')
    ensures MeetsLoop(links, path, rest, seen) == MeetsLoop(links, path', more + rest[1..], seen')
    ensures (seen' == seen && more == []) || links.Keys - seen'.Keys < links.Keys - seen.Keys
  {
    var name := rest[0].name;
    var next := path + [name];
    more, seen' := [], seen;
    if !IsLink(links, path, name) {
      path' := if name == "" || name == "." then path
               else if name == ".." then (if |path| == 0 then [] else Front(path))
               else next;
      HopPlainly(links, path, name);
    } else if next in seen {
      path' := seen[next].value;
      assert Front(next) == path && Last(next) == name;
      HopAcross(links, path, name, path');
    } else {
      path' := Base(links, path, next);
      seen' := seen[next := None];
      assert seen'.Keys == seen.Keys + {next};
      more := Names(SplitSlash(links[next])) + [Finish(next)];
      HopAlong(links, path, name);
      NoteRight(links, path', SplitSlash(links[next]), next);
    }
    assert [] + rest[1..] == rest[1..];
    SeenAfterName(links, rest, seen, more, seen');
  }

  lemma SeenAfterName(links: Links, rest: seq<Work>, seen: map<Path, Option<Path>>,
                      more: seq<Work>, seen': map<Path, Option<Path>>)
    requires |rest| > 0 && rest[0].Name? && SeenRight(links, rest, seen)
    requires seen' == seen || (|more| > 0 && Last(more).Finish? && seen' == seen[Last(more).link := None])
    ensures SeenRight(links, more + rest[1..], seen')
  {
    forall link | link in seen' && seen'[link].None? ensures Finish(link) in more + rest[1..] {
      if seen' == seen || link != Last(more).link {
        StillThere(rest, Finish(link));
      } else {
        assert Finish(link) in more;
      }
    }
  }

  lemma NoteRight(links: Links, path: Path, texts: seq<string>, link: Path)
    requires ComesDownTo(links, link, path, texts)
    ensures NotesRight(links, path, Names(texts) + [Finish(link)])
    ensures NamesIn(Names(texts) + [Finish(link)]) == texts
  {
    var more := Names(texts) + [Finish(link)];
    NamesInNames(texts);
    NamesInConcat(Names(texts), [Finish(link)]);
    assert more[..|texts|] == Names(texts);
  }

  /** The promise: short of a loop the plain walk ends where this one does, and otherwise never. */
  ghost predicate WalksAlike(links: Links, path: Path, rest: seq<Work>, seen: map<Path, Option<Path>>) {
    if MeetsLoop(links, path, rest, seen)
    then forall n: nat :: Follow(links, path, NamesIn(rest), n) == None
    else Leads(links, path, NamesIn(rest), Walk(links, path, rest, seen))
  }

  lemma {:induction false} WalkFollows(links: Links, path: Path, rest: seq<Work>, seen: map<Path, Option<Path>>)
    requires NotesRight(links, path, rest) && SeenRight(links, rest, seen)
    ensures WalksAlike(links, path, rest, seen)
    decreases links.Keys - seen.Keys, |rest|
  {
    if |rest| == 0 {
      assert Follow(links, path, [], 0) == Some(path);
    } else if rest[0].Finish? {
      AfterNote(links, path, rest);
      SeenAfterNote(links, path, rest, seen);
      var seen' := Noted(seen, rest[0].link, path);
      assert seen'.Keys == seen.Keys;
      WalkFollows(links, path, rest[1..], seen');
      AlikeBack(links, path, rest, seen, path, rest[1..], seen');
    } else if AtLoop(links, path, rest, seen) {
      forall n: nat ensures Follow(links, path, NamesIn(rest), n) == None {
        LoopFound(links, path, rest, seen, n);
      }
    } else {
      var path', more, seen' := NameTaken(links, path, rest, seen);
      AfterHop(links, path, rest, path', more);
      assert more == [] ==> more + rest[1..] == rest[1..];
      WalkFollows(links, path', more + rest[1..], seen');
      AlikeBack(links, path, rest, seen, path', more + rest[1..], seen');
    }
  }

  lemma AlikeBack(links: Links, path: Path, rest: seq<Work>, seen: map<Path, Option<Path>>,
                  path': Path, rest': seq<Work>, seen': map<Path, Option<Path>>)
    requires Continues(links, path, NamesIn(rest), path', NamesIn(rest'))
    requires Walk(links, path, rest, seen) == Walk(links, path', rest', seen')
    requires MeetsLoop(links, path, rest, seen) == MeetsLoop(links, path', rest', seen')
    requires WalksAlike(links, path', rest', seen')
    ensures WalksAlike(links, path, rest, seen)
  {
  }

  /** Resolving meets a loop exactly when the plain walk never ends, and otherwise gives the
      one place where that ends. */
  lemma RealpathIsPlainWalk(links: Links, parts: seq<string>)
    ensures !MeetsLoop(links, [], Names(parts), map[]) <==> exists end :: Leads(links, [], parts, end)
    ensures forall end :: Leads(links, [], parts, end) ==> end == Realpath(links, parts)
  {
    NamesInNames(parts);
    WalkFollows(links, [], Names(parts), map[]);
    forall end | Leads(links, [], parts, end)
      ensures !MeetsLoop(links, [], Names(parts), map[]) && end == Realpath(links, parts)
    {
      var limit: nat :| Follow(links, [], NamesIn(Names(parts)), limit) == Some(end);
      LeadsToOne(links, [], parts, end, Realpath(links, parts));
    }
  }

  // ---- requests ----

  /** Pieces that are empty or a dot are passed over wherever they stand. */
  lemma {:induction false} DropIsPassedOver(links: Links, path: Path, a: seq<string>, b: seq<string>, limit: nat)
    ensures Follow(links, path, a + DropEmptyAndDot(b), limit) == Follow(links, path, a + b, limit)
    decreases limit, |b|, |a|
  {
    var kept := DropEmptyAndDot(b);
    if |a| > 0 {
      var name, rest := a[0], a[1..];
      assert (a + b)[1..] == rest + b && (a + kept)[1..] == rest + kept;
      if name == "" || name == "." {
        DropIsPassedOver(links, path, rest, b, limit);
      } else if name == ".." {
        DropIsPassedOver(links, if |path| == 0 then [] else Front(path), rest, b, limit);
      } else if path + [name] !in links {
        DropIsPassedOver(links, path + [name], rest, b, limit);
      } else if limit > 0 {
        var texts := SplitSlash(links[path + [name]]);
        assert texts + (rest + b) == texts + rest + b && texts + (rest + kept) == texts + rest + kept;
        DropIsPassedOver(links, Base(links, path, path + [name]), texts + rest, b, limit - 1);
      }
    } else if |b| > 0 {
      assert a + kept == kept && a + b == b;
      if b[0] == "" || b[0] == "." {
        DropIsPassedOver(links, path, [], b[1..], limit);
        assert [] + kept == kept && [] + b[1..] == b[1..];
      } else {
        DropIsPassedOver(links, path, [b[0]], b[1..], limit);
        assert b == [b[0]] + b[1..];
      }
    }
  }

  /** What a request resolves to, without how: when walking the root ends at `rootReal`, and
      walking the request's own text from there ends at `end`, it is accepted exactly when its
      text is well-shaped, that end lies under the root and its name may be edited; and then
      the end is the path. */
  lemma ResolvesWhereWalkEnds(links: Links, root: Path, relative: string, rootReal: Path, end: Path, path: Path)
    requires Leads(links, [], root, rootReal) && Leads(links, [], rootReal + SplitSlash(relative), end)
    ensures Resolve(links, root, relative) == Resolved(path)
       <==> CheckShape(relative) == None && path == end && rootReal <= end && IsAllowedName(NameOf(end))
  {
    RealpathIsPlainWalk(links, root);
    if CheckShape(relative) == None {
      assert PathParts(relative) == DropEmptyAndDot(SplitSlash(relative));
      var limit: nat :| Follow(links, [], rootReal + SplitSlash(relative), limit) == Some(end);
      DropIsPassedOver(links, [], rootReal, SplitSlash(relative), limit);
      assert Leads(links, [], rootReal + PathParts(relative), end);
      RealpathIsPlainWalk(links, rootReal + PathParts(relative));
    }
  }
}
