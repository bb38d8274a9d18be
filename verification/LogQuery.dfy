/** The `logs` procedure: two streams, each fetched as a tail, are merged on carried
    timestamps (model.py) and trimmed to the newest window (handlers.py). */
module LogQuery {
  import opened Common
  import opened ByteStrings
  import opened LineFraming

  const EPOCH := Timestamp(0, 0)

  predicate KeyAtMost(a: Timestamp, b: Timestamp) {
    a.seconds < b.seconds || (a.seconds == b.seconds && a.nanos <= b.nanos)
  }

  /** A line's sort key: its own time, or the latest one before it in its own stream. */
  function Carried(lines: seq<LogLine>, i: nat): Timestamp
    requires i < |lines|
  {
    match lines[i].time
    case Some(ts) => ts
    case None => if i == 0 then EPOCH else Carried(lines, i - 1)
  }

  /** What the code sorts: key, stream index, position, line. */
  datatype Keyed = Keyed(key: Timestamp, stream: nat, pos: nat, line: LogLine)

  function KeyedLines(lines: seq<LogLine>, stream: nat): (keyed: seq<Keyed>)
    ensures |keyed| == |lines|
    ensures forall i :: 0 <= i < |lines| ==> keyed[i] == Keyed(Carried(lines, i), stream, i, lines[i])
  {
    seq(|lines|, i requires 0 <= i < |lines| => Keyed(Carried(lines, i), stream, i, lines[i]))
  }

  function Lines(keyed: seq<Keyed>): (lines: seq<LogLine>)
    ensures |lines| == |keyed|
    ensures forall i :: 0 <= i < |keyed| ==> lines[i] == keyed[i].line
  {
    seq(|keyed|, i requires 0 <= i < |keyed| => keyed[i].line)
  }

  // ---- sorting on (key, stream, position) ----

  predicate Before(x: Keyed, y: Keyed) {
    if x.key != y.key then KeyAtMost(x.key, y.key)
    else if x.stream != y.stream then x.stream < y.stream
    else x.pos < y.pos
  }

  ghost predicate Ordered(s: seq<Keyed>) {
    forall i, j :: 0 <= i < j < |s| ==> Before(s[i], s[j])
  }

  /** No two elements come from the same place. */
  ghost predicate Distinct(s: seq<Keyed>) {
    forall i, j :: 0 <= i < j < |s| ==> s[i].stream != s[j].stream || s[i].pos != s[j].pos
  }

  function Insert(x: Keyed, s: seq<Keyed>): seq<Keyed> {
    if |s| == 0 || Before(x, s[0]) then [x] + s else [s[0]] + Insert(x, s[1..])
  }

  /** `list.sort` on the triple. Which algorithm it is does not matter: see OrderedUnique. */
  function Sort(s: seq<Keyed>): seq<Keyed> {
    if |s| == 0 then [] else Insert(s[0], Sort(s[1..]))
  }

  lemma {:induction false} InsertPermutes(x: Keyed, s: seq<Keyed>)
    ensures multiset(Insert(x, s)) == multiset{x} + multiset(s)
  {
    if |s| > 0 {
      assert s == [s[0]] + s[1..];
      if !Before(x, s[0]) {
        InsertPermutes(x, s[1..]);
      }
    }
  }

  lemma {:induction false} InsertOrders(x: Keyed, s: seq<Keyed>)
    requires Ordered(s)
    requires forall y :: y in s ==> y.stream != x.stream || y.pos != x.pos
    ensures Ordered(Insert(x, s))
  {
    if |s| > 0 && !Before(x, s[0]) {
      InsertOrders(x, s[1..]);
      InsertPermutes(x, s[1..]);
      var rest := Insert(x, s[1..]);
      forall j | 0 <= j < |rest| ensures Before(s[0], rest[j]) {
        assert rest[j] in multiset(rest);
        assert rest[j] == x || rest[j] in s[1..];
      }
    }
  }

  lemma {:induction false} SortPermutes(s: seq<Keyed>)
    ensures multiset(Sort(s)) == multiset(s)
  {
    if |s| > 0 {
      var rest := s[1..];
      assert s == [s[0]] + rest;
      SortPermutes(rest);
      InsertPermutes(s[0], Sort(rest));
    }
  }

  lemma {:induction false} SortSorts(s: seq<Keyed>)
    requires Distinct(s)
    ensures multiset(Sort(s)) == multiset(s)
    ensures Ordered(Sort(s))
  {
    SortPermutes(s);
    if |s| > 0 {
      SortSorts(s[1..]);
      HeadIsApart(s, Sort(s[1..]));
      InsertOrders(s[0], Sort(s[1..]));
    }
  }

  lemma HeadIsApart(s: seq<Keyed>, rest: seq<Keyed>)
    requires |s| > 0 && Distinct(s) && multiset(rest) == multiset(s[1..])
    ensures forall y :: y in rest ==> y.stream != s[0].stream || y.pos != s[0].pos
  {
    forall y | y in rest ensures y.stream != s[0].stream || y.pos != s[0].pos {
      assert y in multiset(rest);
      assert y in s[1..];
    }
  }

  /** An order in which no two elements tie has one sorted arrangement. */
  lemma {:induction false} OrderedUnique(s: seq<Keyed>, t: seq<Keyed>)
    requires Ordered(s) && Ordered(t) && multiset(s) == multiset(t)
    ensures s == t
  {
    assert |s| == |multiset(s)| == |multiset(t)| == |t|;
    if |s| > 0 {
      SameHead(s, t);
      WithoutHead(s);
      WithoutHead(t);
      OrderedUnique(s[1..], t[1..]);
    }
  }

  lemma WithoutHead(s: seq<Keyed>)
    requires |s| > 0
    ensures s == [s[0]] + s[1..] && multiset(s[1..]) == multiset(s) - multiset{s[0]}
  {
    assert s == [s[0]] + s[1..];
  }

  lemma SameHead(s: seq<Keyed>, t: seq<Keyed>)
    requires Ordered(s) && Ordered(t) && multiset(s) == multiset(t) && |s| > 0 && |t| > 0
    ensures s[0] == t[0]
  {
    assert s[0] in multiset(t) && t[0] in multiset(s);
    HeadIsLeast(s, t[0]);
    HeadIsLeast(t, s[0]);
  }

  lemma HeadIsLeast(s: seq<Keyed>, x: Keyed)
    requires |s| > 0 && Ordered(s) && x in multiset(s)
    ensures x == s[0] || Before(s[0], x)
  {
    var i :| 0 <= i < |s| && s[i] == x;
  }

  // ---- merging ----

  function MergedKeyed(stdout: seq<LogLine>, stderr: seq<LogLine>): seq<Keyed> {
    if |stderr| == 0 then KeyedLines(stdout, 0)
    else if |stdout| == 0 then KeyedLines(stderr, 1)
    else Sort(KeyedLines(stdout, 0) + KeyedLines(stderr, 1))
  }

  function Merged(stdout: seq<LogLine>, stderr: seq<LogLine>): seq<LogLine> {
    Lines(MergedKeyed(stdout, stderr))
  }

  method MergeLogLines(stdout: seq<LogLine>, stderr: seq<LogLine>) returns (merged: seq<LogLine>)
    ensures merged == Merged(stdout, stderr)
  {
    assert Lines(KeyedLines(stdout, 0)) == stdout && Lines(KeyedLines(stderr, 1)) == stderr;
    if |stderr| == 0 {
      return stdout;
    }
    if |stdout| == 0 {
      return stderr;
    }
    var keyed := AppendKeyed([], stdout, 0);
    keyed := AppendKeyed(keyed, stderr, 1);
    assert keyed == KeyedLines(stdout, 0) + KeyedLines(stderr, 1);
    keyed := Sort(keyed);
    merged := Lines(keyed);
  }

  /** The inner loop, which carries the latest timestamp forward. */
  method AppendKeyed(keyed: seq<Keyed>, lines: seq<LogLine>, stream: nat) returns (all: seq<Keyed>)
    ensures all == keyed + KeyedLines(lines, stream)
  {
    var carried := EPOCH;
    all := keyed;
    for position := 0 to |lines|
      invariant carried == if position == 0 then EPOCH else Carried(lines, position - 1)
      invariant all == keyed + KeyedLines(lines, stream)[..position]
    {
      var line := lines[position];
      if line.time.Some? {
        carried := line.time.value;
      }
      all := all + [Keyed(carried, stream, position, line)];
    }
  }

  lemma BothDistinct(stdout: seq<LogLine>, stderr: seq<LogLine>)
    ensures Distinct(KeyedLines(stdout, 0) + KeyedLines(stderr, 1))
  {
  }

  /** Nothing is lost, repeated or invented, for any inputs. */
  lemma MergePermutes(stdout: seq<LogLine>, stderr: seq<LogLine>)
    ensures multiset(Merged(stdout, stderr)) == multiset(stdout) + multiset(stderr)
  {
    var keyed := KeyedLines(stdout, 0) + KeyedLines(stderr, 1);
    assert Lines(KeyedLines(stdout, 0)) == stdout && Lines(KeyedLines(stderr, 1)) == stderr;
    assert Lines(keyed) == stdout + stderr;
    SortKeepsLines(keyed);
  }

  lemma MergedLength(stdout: seq<LogLine>, stderr: seq<LogLine>)
    ensures |Merged(stdout, stderr)| == |stdout| + |stderr|
  {
    MergePermutes(stdout, stderr);
    assert |multiset(Merged(stdout, stderr))| == |multiset(stdout) + multiset(stderr)|;
  }

  lemma {:induction false} SortKeepsLines(s: seq<Keyed>)
    ensures multiset(Lines(Sort(s))) == multiset(Lines(s))
  {
    if |s| > 0 {
      SortKeepsLines(s[1..]);
      InsertKeepsLines(s[0], Sort(s[1..]));
      assert Lines(s) == [s[0].line] + Lines(s[1..]);
    }
  }

  lemma {:induction false} InsertKeepsLines(x: Keyed, s: seq<Keyed>)
    ensures multiset(Lines(Insert(x, s))) == multiset{x.line} + multiset(Lines(s))
  {
    if |s| == 0 || Before(x, s[0]) {
      assert Lines([x] + s) == [x.line] + Lines(s);
    } else {
      InsertKeepsLines(x, s[1..]);
      assert Lines(Insert(x, s)) == [s[0].line] + Lines(Insert(x, s[1..]));
      assert Lines(s) == [s[0].line] + Lines(s[1..]);
    }
  }

  /** A continuation line is never separated from the line it belongs to, for any inputs. */
  lemma UntimedFollowsPredecessor(stdout: seq<LogLine>, stderr: seq<LogLine>, i: nat)
    requires var m := MergedKeyed(stdout, stderr);
      i < |m| && m[i].line.time == None && m[i].pos > 0
    ensures var m := MergedKeyed(stdout, stderr);
      i > 0 && m[i - 1].stream == m[i].stream && m[i - 1].pos == m[i].pos - 1
  {
    if |stdout| > 0 && |stderr| > 0 {
      var keyed := KeyedLines(stdout, 0) + KeyedLines(stderr, 1);
      var m := MergedKeyed(stdout, stderr);
      BothDistinct(stdout, stderr);
      SortSorts(keyed);
      assert m[i] in multiset(keyed);
      var previous := PredecessorKeyed(stdout, stderr, m[i]);
      assert previous in multiset(m);
      AdjacentWhenNothingFits(m, previous, i);
    }
  }

  lemma PredecessorKeyed(stdout: seq<LogLine>, stderr: seq<LogLine>, z: Keyed) returns (x: Keyed)
    requires z in KeyedLines(stdout, 0) + KeyedLines(stderr, 1) && z.line.time == None && z.pos > 0
    ensures x in KeyedLines(stdout, 0) + KeyedLines(stderr, 1)
    ensures x.stream == z.stream && x.key == z.key && x.pos + 1 == z.pos
  {
    var keyed := KeyedLines(stdout, 0) + KeyedLines(stderr, 1);
    var k :| 0 <= k < |keyed| && keyed[k] == z;
    x := keyed[k - 1];
  }

  lemma AdjacentWhenNothingFits(m: seq<Keyed>, x: Keyed, i: nat)
    requires Ordered(m) && i < |m| && x in m
    requires x.stream == m[i].stream && x.key == m[i].key && x.pos + 1 == m[i].pos
    ensures i > 0 && m[i - 1] == x
  {
    var j :| 0 <= j < |m| && m[j] == x;
    assert !Before(m[i], m[j]);
    assert j < i;
    NothingFitsBetween(x, m[i - 1], m[i]);
  }

  lemma NothingFitsBetween(x: Keyed, y: Keyed, z: Keyed)
    requires x.stream == z.stream && x.key == z.key && x.pos + 1 == z.pos
    ensures !(Before(x, y) && Before(y, z))
  {
  }

  // ---- the linear merge ----

  /** Neither stream's carried keys ever step back. */
  ghost predicate NonDecreasing(s: seq<Keyed>) {
    forall i, j :: 0 <= i < j < |s| ==> KeyAtMost(s[i].key, s[j].key)
  }

  /** The two-way merge, ties to the first stream. */
  function TwoWay(a: seq<Keyed>, b: seq<Keyed>): (merged: seq<Keyed>)
    ensures |merged| == |a| + |b|
    decreases |a| + |b|
  {
    if |a| == 0 then b
    else if |b| == 0 then a
    else if KeyAtMost(a[0].key, b[0].key) then [a[0]] + TwoWay(a[1..], b)
    else [b[0]] + TwoWay(a, b[1..])
  }

  lemma {:induction false} TwoWayPermutes(a: seq<Keyed>, b: seq<Keyed>)
    ensures multiset(TwoWay(a, b)) == multiset(a) + multiset(b)
    decreases |a| + |b|
  {
    if |a| > 0 && |b| > 0 {
      assert a == [a[0]] + a[1..] && b == [b[0]] + b[1..];
      if KeyAtMost(a[0].key, b[0].key) {
        TwoWayPermutes(a[1..], b);
      } else {
        TwoWayPermutes(a, b[1..]);
      }
    }
  }

  lemma {:induction false} TwoWayOrders(a: seq<Keyed>, b: seq<Keyed>)
    requires Ordered(a) && Ordered(b) && NonDecreasing(a) && NonDecreasing(b)
    requires forall i, j :: 0 <= i < |a| && 0 <= j < |b| ==> a[i].stream < b[j].stream
    ensures Ordered(TwoWay(a, b))
    decreases |a| + |b|
  {
    if |a| > 0 && |b| > 0 {
      if KeyAtMost(a[0].key, b[0].key) {
        TwoWayOrders(a[1..], b);
        forall j | 0 <= j < |b| ensures Before(a[0], b[j]) {
          assert j > 0 ==> KeyAtMost(b[0].key, b[j].key);
        }
        HeadFirst(a[0], a[1..], b);
      } else {
        TwoWayOrders(a, b[1..]);
        forall j | 0 <= j < |a| ensures Before(b[0], a[j]) {
          assert j > 0 ==> KeyAtMost(a[0].key, a[j].key);
        }
        HeadFirst(b[0], a, b[1..]);
      }
    }
  }

  lemma HeadFirst(x: Keyed, a: seq<Keyed>, b: seq<Keyed>)
    requires Ordered(TwoWay(a, b))
    requires forall i :: 0 <= i < |a| ==> Before(x, a[i])
    requires forall j :: 0 <= j < |b| ==> Before(x, b[j])
    ensures Ordered([x] + TwoWay(a, b))
  {
    TwoWayPermutes(a, b);
    var rest := TwoWay(a, b);
    forall j | 0 <= j < |rest| ensures Before(x, rest[j]) {
      assert rest[j] in multiset(rest);
      assert rest[j] in a || rest[j] in b;
    }
  }

  /** With carried keys that do not step back, sorting is the linear merge; each stream
      keeps its own order and a tie goes to stdout. */
  lemma MergeIsTwoWay(stdout: seq<LogLine>, stderr: seq<LogLine>)
    requires NonDecreasing(KeyedLines(stdout, 0)) && NonDecreasing(KeyedLines(stderr, 1))
    ensures MergedKeyed(stdout, stderr) == TwoWay(KeyedLines(stdout, 0), KeyedLines(stderr, 1))
  {
    var a, b := KeyedLines(stdout, 0), KeyedLines(stderr, 1);
    if |stdout| > 0 && |stderr| > 0 {
      BothDistinct(stdout, stderr);
      SortSorts(a + b);
      TwoWayOrders(a, b);
      TwoWayPermutes(a, b);
      OrderedUnique(Sort(a + b), TwoWay(a, b));
    }
  }

  // ---- tail, merge, tail ----

  /** The oldest line of a stream with more than `k` others is not among the newest `k`. */
  lemma {:induction false} OldestOfFirstFallsOut(a: seq<Keyed>, b: seq<Keyed>, k: nat)
    requires |a| > k && NonDecreasing(a)
    ensures TakeLast(TwoWay(a, b), k) == TakeLast(TwoWay(a[1..], b), k)
    decreases |b|
  {
    if |b| > 0 && !KeyAtMost(a[0].key, b[0].key) {
      OldestOfFirstFallsOut(a, b[1..], k);
      TakeLastPast(b[0], TwoWay(a, b[1..]), k);
      TakeLastPast(b[0], TwoWay(a[1..], b[1..]), k);
      assert TwoWay(a[1..], b) == [b[0]] + TwoWay(a[1..], b[1..]);
    } else {
      TakeLastPast(a[0], TwoWay(a[1..], b), k);
      assert TwoWay(a, b) == [a[0]] + TwoWay(a[1..], b);
    }
  }

  lemma {:induction false} OldestOfSecondFallsOut(a: seq<Keyed>, b: seq<Keyed>, k: nat)
    requires |b| > k && NonDecreasing(b)
    ensures TakeLast(TwoWay(a, b), k) == TakeLast(TwoWay(a, b[1..]), k)
    decreases |a|
  {
    if |a| > 0 && KeyAtMost(a[0].key, b[0].key) {
      OldestOfSecondFallsOut(a[1..], b, k);
      TakeLastPast(a[0], TwoWay(a[1..], b), k);
      TakeLastPast(a[0], TwoWay(a[1..], b[1..]), k);
      assert TwoWay(a, b[1..]) == [a[0]] + TwoWay(a[1..], b[1..]);
    } else {
      TakeLastPast(b[0], TwoWay(a, b[1..]), k);
      assert TwoWay(a, b) == [b[0]] + TwoWay(a, b[1..]);
    }
  }

  lemma TakeLastPast<T>(x: T, s: seq<T>, k: nat)
    requires |s| >= k
    ensures TakeLast([x] + s, k) == TakeLast(s, k)
  {
  }

  lemma {:induction false} TailsSuffice(a: seq<Keyed>, b: seq<Keyed>, k: nat)
    requires NonDecreasing(a) && NonDecreasing(b)
    ensures TakeLast(TwoWay(a, b), k) == TakeLast(TwoWay(TakeLast(a, k), TakeLast(b, k)), k)
    decreases |a| + |b|
  {
    if |a| > k {
      OldestOfFirstFallsOut(a, b, k);
      TailsSuffice(a[1..], b, k);
      TakeLastPast(a[0], a[1..], k);
      assert a == [a[0]] + a[1..];
    } else if |b| > k {
      OldestOfSecondFallsOut(a, b, k);
      TailsSuffice(a, b[1..], k);
      TakeLastPast(b[0], b[1..], k);
      assert b == [b[0]] + b[1..];
    }
  }

  /** Equal but for positions, which a linear merge does not look at. */
  ghost predicate SameButPos(s: seq<Keyed>, t: seq<Keyed>) {
    |s| == |t| && forall i :: 0 <= i < |s| ==> s[i].key == t[i].key && s[i].line == t[i].line
  }

  lemma {:induction false} TwoWayIgnoresPos(a: seq<Keyed>, b: seq<Keyed>, c: seq<Keyed>, d: seq<Keyed>)
    requires SameButPos(a, c) && SameButPos(b, d)
    ensures SameButPos(TwoWay(a, b), TwoWay(c, d))
    decreases |a| + |b|
  {
    if |a| > 0 && |b| > 0 {
      if KeyAtMost(a[0].key, b[0].key) {
        TwoWayIgnoresPos(a[1..], b, c[1..], d);
      } else {
        TwoWayIgnoresPos(a, b[1..], c, d[1..]);
      }
    }
  }

  /** Cutting a stream to its last `k` lines keeps the key of the first line kept. Only a
      line without a time of its own can lose its key: its predecessor has been cut off. */
  predicate HeadKeyKept(lines: seq<LogLine>, k: nat) {
    |lines| <= k || k == 0
      || lines[|lines| - k].time.Some?
      || Carried(lines, |lines| - k) == EPOCH
  }

  lemma {:induction false} CarriedInCut(lines: seq<LogLine>, k: nat, i: nat)
    requires HeadKeyKept(lines, k) && i < |TakeLast(lines, k)|
    ensures Carried(TakeLast(lines, k), i) == Carried(lines, |lines| - |TakeLast(lines, k)| + i)
    decreases i
  {
    var cut := TakeLast(lines, k);
    assert cut[i] == lines[|lines| - |cut| + i];
    if i > 0 {
      CarriedInCut(lines, k, i - 1);
    }
  }

  lemma CutKeepsKeys(lines: seq<LogLine>, k: nat, stream: nat)
    requires HeadKeyKept(lines, k)
    ensures SameButPos(TakeLast(KeyedLines(lines, stream), k), KeyedLines(TakeLast(lines, k), stream))
  {
    var s, t := TakeLast(KeyedLines(lines, stream), k), KeyedLines(TakeLast(lines, k), stream);
    forall i | 0 <= i < |s| ensures s[i].key == t[i].key && s[i].line == t[i].line {
      var from := |lines| - |s| + i;
      CarriedInCut(lines, k, i);
      assert s[i] == KeyedLines(lines, stream)[from] && TakeLast(lines, k)[i] == lines[from];
    }
  }

  /** What the procedure promises about time order: carried keys do not step back. */
  ghost predicate WellTimed(lines: seq<LogLine>) {
    NonDecreasing(KeyedLines(lines, 0))
  }

  lemma WellTimedSurvivesCut(lines: seq<LogLine>, k: nat)
    requires WellTimed(lines) && HeadKeyKept(lines, k)
    ensures WellTimed(TakeLast(lines, k))
  {
    var cut := KeyedLines(TakeLast(lines, k), 0);
    forall i, j | 0 <= i < j < |cut| ensures KeyAtMost(cut[i].key, cut[j].key) {
      CarriedInCut(lines, k, i);
      CarriedInCut(lines, k, j);
      var off := |lines| - |cut|;
      assert KeyAtMost(KeyedLines(lines, 0)[off + i].key, KeyedLines(lines, 0)[off + j].key);
    }
  }

  /** Fetching only the newest `k` of each stream loses none of the newest `k` overall. */
  lemma TailMergeTail(stdout: seq<LogLine>, stderr: seq<LogLine>, k: nat)
    requires WellTimed(stdout) && WellTimed(stderr) && HeadKeyKept(stdout, k) && HeadKeyKept(stderr, k)
    ensures TakeLast(Merged(TakeLast(stdout, k), TakeLast(stderr, k)), k) == TakeLast(Merged(stdout, stderr), k)
  {
    var a, b := KeyedLines(stdout, 0), KeyedLines(stderr, 1);
    var out, err := TakeLast(stdout, k), TakeLast(stderr, k);
    WellTimedSurvivesCut(stdout, k);
    WellTimedSurvivesCut(stderr, k);
    MergeIsTwoWay(stdout, stderr);
    MergeIsTwoWay(out, err);
    TailsSuffice(a, b, k);
    CutKeepsKeys(stdout, k, 0);
    CutKeepsKeys(stderr, k, 1);
    TwoWayIgnoresPos(TakeLast(a, k), TakeLast(b, k), KeyedLines(out, 0), KeyedLines(err, 1));
    LinesOfTail(TwoWay(a, b), k);
    LinesOfTail(TwoWay(TakeLast(a, k), TakeLast(b, k)), k);
    assert Lines(TwoWay(TakeLast(a, k), TakeLast(b, k))) == Merged(out, err);
  }

  lemma LinesOfTail(s: seq<Keyed>, k: nat)
    ensures Lines(TakeLast(s, k)) == TakeLast(Lines(s), k)
  {
  }

  lemma LinesFrom(lines: seq<LogLine>, stream: nat, from: nat)
    requires from <= |lines|
    ensures Lines(KeyedLines(lines, stream)[from..]) == lines[from..]
  {
  }

  // ---- exactly when a cut stream can be trusted ----

  const STDOUT: nat := 1
  const STDERR: nat := 2

  ghost predicate TailLaw(stdout: seq<LogLine>, stderr: seq<LogLine>, k: nat) {
    TakeLast(Merged(TakeLast(stdout, k), TakeLast(stderr, k)), k) == TakeLast(Merged(stdout, stderr), k)
  }

  /** No line is tagged as the other stream's, and no time is before the epoch. */
  ghost predicate OfStream(lines: seq<LogLine>, other: nat) {
    forall i :: 0 <= i < |lines| ==> lines[i].stream != other && KeyAtMost(EPOCH, Carried(lines, i))
  }

  /** For a stdout whose times do not step back, the window is right against every stderr
      if and only if the cut does not separate a line from the time it inherits. */
  lemma {:induction false} TailLawIff(stdout: seq<LogLine>, k: nat)
    requires k > 0 && WellTimed(stdout) && OfStream(stdout, STDERR)
    ensures (forall stderr :: WellTimed(stderr) && HeadKeyKept(stderr, k) ==> TailLaw(stdout, stderr, k))
       <==> HeadKeyKept(stdout, k)
  {
    if HeadKeyKept(stdout, k) {
      forall stderr | WellTimed(stderr) && HeadKeyKept(stderr, k) ensures TailLaw(stdout, stderr, k) {
        TailMergeTail(stdout, stderr, k);
      }
    } else {
      var c := LogLine(STDERR, "", Some(EPOCH));
      OldLineStaysOut(stdout, k, c);
      OldLineGetsIn(TakeLast(stdout, k), c);
      var cut, whole := Merged(TakeLast(stdout, k), [c]), Merged(stdout, [c]);
      assert TakeLast([c], k) == [c] && WellTimed([c]) && HeadKeyKept([c], k);
      assert c in TakeLast(cut, k) && c !in TakeLast(whole, k);
      assert !TailLaw(stdout, [c], k);
    }
  }

  /** Likewise for a stderr, where a tie goes against it: the stdout line that gives the
      cut away has the very time that was inherited. */
  lemma {:induction false} TailLawIffStderr(stderr: seq<LogLine>, k: nat)
    requires k > 0 && WellTimed(stderr) && OfStream(stderr, STDOUT)
    ensures (forall stdout :: WellTimed(stdout) && HeadKeyKept(stdout, k) ==> TailLaw(stdout, stderr, k))
       <==> HeadKeyKept(stderr, k)
  {
    if HeadKeyKept(stderr, k) {
      forall stdout | WellTimed(stdout) && HeadKeyKept(stdout, k) ensures TailLaw(stdout, stderr, k) {
        TailMergeTail(stdout, stderr, k);
      }
    } else {
      var c := LogLine(STDOUT, "", Some(Carried(stderr, |stderr| - k)));
      TiedLineStaysOut(stderr, k, c);
      LateLineGetsIn(TakeLast(stderr, k), c);
      var cut, whole := Merged([c], TakeLast(stderr, k)), Merged([c], stderr);
      assert TakeLast([c], k) == [c] && WellTimed([c]) && HeadKeyKept([c], k);
      assert c in TakeLast(cut, k) && c !in TakeLast(whole, k);
      assert !TailLaw([c], stderr, k);
    }
  }

  /** In the whole log a stderr line as old as the epoch comes before the cut ... */
  lemma OldLineStaysOut(stdout: seq<LogLine>, k: nat, c: LogLine)
    requires 0 < k < |stdout| && WellTimed(stdout) && c.time == Some(EPOCH)
    requires !KeyAtMost(Carried(stdout, |stdout| - k), EPOCH)
    ensures TakeLast(Merged(stdout, [c]), k) == stdout[|stdout| - k..]
  {
    var a, b := KeyedLines(stdout, 0), KeyedLines([c], 1);
    var from := |stdout| - k;
    MergeIsTwoWay(stdout, [c]);
    assert b == [b[0]] && b[0].key == EPOCH;
    assert a[from].key == Carried(stdout, from);
    LateSuffixUntouched(a, b[0], from);
    LinesOfTail(TwoWay(a, b), k);
    LinesFrom(stdout, 0, from);
  }

  lemma {:induction false} LateSuffixUntouched(a: seq<Keyed>, x: Keyed, from: nat)
    requires from < |a| && NonDecreasing(a) && !KeyAtMost(a[from].key, x.key)
    ensures TakeLast(TwoWay(a, [x]), |a| - from) == a[from..]
  {
    if KeyAtMost(a[0].key, x.key) {
      LateSuffixUntouched(a[1..], x, from - 1);
      TakeLastPast(a[0], TwoWay(a[1..], [x]), |a| - from);
      assert a[1..][from - 1..] == a[from..];
    } else {
      assert TwoWay(a, [x]) == [x] + a;
    }
  }

  /** ... and after it once the line at the cut has lost its inherited time. */
  lemma OldLineGetsIn(cut: seq<LogLine>, c: LogLine)
    requires |cut| > 0 && cut[0].time == None && c.time == Some(EPOCH)
    ensures |Merged(cut, [c])| == |cut| + 1 && c in TakeLast(Merged(cut, [c]), |cut|)
  {
    LaterIsKept(cut, [c], KeyedLines(cut, 0)[0], KeyedLines([c], 1)[0]);
  }

  /** In the whole log a stdout line with the time of the cut comes before it ... */
  lemma TiedLineStaysOut(stderr: seq<LogLine>, k: nat, c: LogLine)
    requires 0 < k < |stderr| && WellTimed(stderr) && c.time == Some(Carried(stderr, |stderr| - k))
    ensures TakeLast(Merged([c], stderr), k) == stderr[|stderr| - k..]
  {
    var m := MergedKeyed([c], stderr);
    TiedKeyStaysOut(stderr, k, c);
    LinesOfTail(m, k);
    LinesFrom(stderr, 1, |stderr| - k);
  }

  lemma TiedKeyStaysOut(stderr: seq<LogLine>, k: nat, c: LogLine)
    requires 0 < k < |stderr| && WellTimed(stderr) && c.time == Some(Carried(stderr, |stderr| - k))
    ensures TakeLast(MergedKeyed([c], stderr), k) == KeyedLines(stderr, 1)[|stderr| - k..]
  {
    var x, b := KeyedLines([c], 0)[0], KeyedLines(stderr, 1);
    WellTimedAsSecond(stderr);
    assert KeyedLines([c], 0) == [x] && NonDecreasing([x]);
    MergeIsTwoWay([c], stderr);
    TiedSuffixUntouched(x, b, |stderr| - k);
  }

  lemma WellTimedAsSecond(stderr: seq<LogLine>)
    requires WellTimed(stderr)
    ensures NonDecreasing(KeyedLines(stderr, 1))
  {
    var first, second := KeyedLines(stderr, 0), KeyedLines(stderr, 1);
    forall i, j | 0 <= i < j < |second| ensures KeyAtMost(second[i].key, second[j].key) {
      assert KeyAtMost(first[i].key, first[j].key);
    }
  }

  lemma {:induction false} TiedSuffixUntouched(x: Keyed, b: seq<Keyed>, from: nat)
    requires from < |b| && NonDecreasing(b) && KeyAtMost(x.key, b[from].key)
    ensures TakeLast(TwoWay([x], b), |b| - from) == b[from..]
  {
    if KeyAtMost(x.key, b[0].key) {
      assert [x][1..] == [];
      assert TwoWay([x], b) == [x] + b;
    } else {
      var rest := b[1..];
      assert NonDecreasing(rest) && rest[from - 1] == b[from] && rest[from - 1..] == b[from..];
      TiedSuffixUntouched(x, rest, from - 1);
      TakeLastPast(b[0], TwoWay([x], rest), |b| - from);
      assert TwoWay([x], b) == [b[0]] + TwoWay([x], rest);
    }
  }

  /** ... and after it once the line at the cut has fallen back to the epoch. */
  lemma LateLineGetsIn(cut: seq<LogLine>, c: LogLine)
    requires |cut| > 0 && cut[0].time == None
    requires c.time.Some? && c.time.value != EPOCH && KeyAtMost(EPOCH, c.time.value)
    ensures |Merged([c], cut)| == |cut| + 1 && c in TakeLast(Merged([c], cut), |cut|)
  {
    LaterIsKept([c], cut, KeyedLines(cut, 1)[0], KeyedLines([c], 0)[0]);
  }

  /** A line that has any other before it is not the oldest. */
  lemma LaterIsKept(stdout: seq<LogLine>, stderr: seq<LogLine>, first: Keyed, mine: Keyed)
    requires |stdout| > 0 && |stderr| > 0 && !Before(mine, first) && mine != first
    requires first in KeyedLines(stdout, 0) + KeyedLines(stderr, 1)
    requires mine in KeyedLines(stdout, 0) + KeyedLines(stderr, 1)
    ensures |Merged(stdout, stderr)| == |stdout| + |stderr|
    ensures mine.line in TakeLast(Merged(stdout, stderr), |stdout| + |stderr| - 1)
  {
    var keyed := KeyedLines(stdout, 0) + KeyedLines(stderr, 1);
    BothDistinct(stdout, stderr);
    SortSorts(keyed);
    var m := MergedKeyed(stdout, stderr);
    MergedLength(stdout, stderr);
    LaterIsNotFirst(m, first, mine);
  }

  lemma LaterIsNotFirst(m: seq<Keyed>, first: Keyed, mine: Keyed)
    requires Ordered(m) && first in multiset(m) && mine in multiset(m) && !Before(mine, first) && mine != first
    ensures mine.line in TakeLast(Lines(m), |m| - 1)
  {
    HeadIsLeast(m, first);
    var j :| 0 <= j < |m| && m[j] == mine;
    assert j > 0;
    assert TakeLast(Lines(m), |m| - 1)[j - 1] == mine.line;
  }

  // ---- trimming ----

  function Utf8Size(c: char): nat {
    if c as int < 0x80 then 1 else if c as int < 0x800 then 2 else if c as int < 0x10000 then 3 else 4
  }

  function Utf8Len(text: string): nat {
    if |text| == 0 then 0 else Utf8Size(text[0]) + Utf8Len(text[1..])
  }

  /** What a line costs: its UTF-8 bytes and a newline. */
  function Cost(lines: seq<LogLine>): nat {
    if |lines| == 0 then 0 else Utf8Len(lines[0].text) + 1 + Cost(lines[1..])
  }

  /** UTF-8, section 3 of RFC 3629. */
  function Utf8Char(c: char): Bytes {
    var n := c as int;
    if n < 0x80 then [n as byte]
    else if n < 0x800 then [(0xC0 + n / 0x40) as byte, (0x80 + n % 0x40) as byte]
    else if n < 0x10000 then
      [(0xE0 + n / 0x1000) as byte, (0x80 + n / 0x40 % 0x40) as byte, (0x80 + n % 0x40) as byte]
    else
      [(0xF0 + n / 0x40000) as byte, (0x80 + n / 0x1000 % 0x40) as byte,
       (0x80 + n / 0x40 % 0x40) as byte, (0x80 + n % 0x40) as byte]
  }

  function Utf8(text: string): Bytes {
    if |text| == 0 then [] else Utf8Char(text[0]) + Utf8(text[1..])
  }

  function Encoded(lines: seq<LogLine>): Bytes {
    if |lines| == 0 then [] else Utf8(lines[0].text) + [NEWLINE] + Encoded(lines[1..])
  }

  /** The examples of section 7 of RFC 3629. */
  lemma Utf8Examples()
    ensures Utf8Char('A') == [0x41]
    ensures Utf8Char('\U{2262}') == [0xE2, 0x89, 0xA2]
    ensures Utf8Char('\U{0391}') == [0xCE, 0x91]
    ensures Utf8Char('\U{233B4}') == [0xF0, 0xA3, 0x8E, 0xB4]
  {
  }

  lemma {:induction false} Utf8LenIsLength(text: string)
    ensures Utf8Len(text) == |Utf8(text)|
  {
    if |text| > 0 {
      Utf8LenIsLength(text[1..]);
    }
  }

  /** The bytes that are counted are those of the lines written out. */
  lemma {:induction false} CostIsEncodedLength(lines: seq<LogLine>)
    ensures Cost(lines) == |Encoded(lines)|
  {
    if |lines| > 0 {
      Utf8LenIsLength(lines[0].text);
      CostIsEncodedLength(lines[1..]);
    }
  }

  /** A limit of zero or less is no limit. */
  predicate Fits(lines: seq<LogLine>, maxLines: int, maxBytes: int) {
    (maxLines > 0 ==> |lines| <= maxLines) && (maxBytes > 0 ==> Cost(lines) <= maxBytes)
  }

  /** The newest window: give up the oldest line until what is left fits. */
  function Capped(lines: seq<LogLine>, maxLines: int, maxBytes: int): (kept: seq<LogLine>)
    ensures |kept| <= |lines|
  {
    if Fits(lines, maxLines, maxBytes) then lines else Capped(lines[1..], maxLines, maxBytes)
  }

  /** It is the longest suffix of no more lines and no more bytes than the limits allow, a
      limit of zero or less being none. */
  lemma CappedIsLongestFit(lines: seq<LogLine>, maxLines: int, maxBytes: int)
    ensures var kept := Capped(lines, maxLines, maxBytes);
      && (maxLines > 0 ==> |kept| <= maxLines) && (maxBytes > 0 ==> |Encoded(kept)| <= maxBytes)
      && kept == lines[|lines| - |kept|..]
      && forall start :: 0 <= start < |lines| - |kept| ==>
        || (maxLines > 0 && |lines[start..]| > maxLines)
        || (maxBytes > 0 && |Encoded(lines[start..])| > maxBytes)
  {
    var kept := Capped(lines, maxLines, maxBytes);
    CappedIsLongest(lines, maxLines, maxBytes);
    CostIsEncodedLength(kept);
    forall start | 0 <= start < |lines| - |kept|
      ensures (maxLines > 0 && |lines[start..]| > maxLines) || (maxBytes > 0 && |Encoded(lines[start..])| > maxBytes)
    {
      CostIsEncodedLength(lines[start..]);
    }
  }

  lemma {:induction false} CappedIsLongest(lines: seq<LogLine>, maxLines: int, maxBytes: int)
    ensures var kept := Capped(lines, maxLines, maxBytes);
      && Fits(kept, maxLines, maxBytes)
      && kept == lines[|lines| - |kept|..]
      && forall start :: 0 <= start < |lines| - |kept| ==> !Fits(lines[start..], maxLines, maxBytes)
  {
    if !Fits(lines, maxLines, maxBytes) {
      CappedIsLongest(lines[1..], maxLines, maxBytes);
      var kept := Capped(lines, maxLines, maxBytes);
      forall start | 0 <= start < |lines| - |kept| ensures !Fits(lines[start..], maxLines, maxBytes) {
        if start > 0 {
          assert lines[start..] == lines[1..][start - 1..];
        } else {
          assert lines[0..] == lines;
        }
      }
    }
  }

  lemma {:induction false} CostOfSuffix(lines: seq<LogLine>, start: nat)
    requires start <= |lines|
    ensures Cost(lines[start..]) <= Cost(lines)
    ensures start < |lines| ==> Cost(lines[start..]) == Utf8Len(lines[start].text) + 1 + Cost(lines[start + 1..])
  {
    if start > 0 {
      CostOfSuffix(lines[1..], start - 1);
      assert lines[1..][start - 1..] == lines[start..];
    }
  }

  /** A suffix that fits, just below one that does not, is the window. */
  lemma {:induction false} WindowFound(lines: seq<LogLine>, maxLines: int, maxBytes: int, start: nat)
    requires start <= |lines| && Fits(lines[start..], maxLines, maxBytes)
    requires start > 0 ==> !Fits(lines[start - 1..], maxLines, maxBytes)
    ensures Capped(lines, maxLines, maxBytes) == lines[start..]
  {
    if start == 0 {
      assert lines[0..] == lines;
    } else {
      CostOfSuffix(lines, start - 1);
      assert lines[1..][start - 1..] == lines[start..];
      if start > 1 {
        assert lines[1..][start - 2..] == lines[start - 1..];
      }
      WindowFound(lines[1..], maxLines, maxBytes, start - 1);
    }
  }

  method CapLogLines(lines: seq<LogLine>, maxLines: int, maxBytes: int) returns (kept: seq<LogLine>, truncated: bool)
    ensures kept == Capped(lines, maxLines, maxBytes)
    ensures truncated <==> |kept| < |lines|
  {
    truncated := false;
    kept := lines;
    if maxLines > 0 && |kept| > maxLines {
      kept := kept[|kept| - maxLines..];
      truncated := true;
    }
    ghost var cut := |lines| - |kept|;
    assert kept == lines[cut..];
    var start := 0;
    if maxBytes > 0 {
      start := FirstWithinBytes(kept, maxBytes);
      SliceOfSlice(lines, cut, start);
      if start > 0 {
        SliceOfSlice(lines, cut, start - 1);
        kept := kept[start..];
        truncated := true;
      }
    }
    WindowFound(lines, maxLines, maxBytes, cut + start);
  }

  lemma SliceOfSlice(lines: seq<LogLine>, i: nat, j: nat)
    requires i + j <= |lines|
    ensures lines[i..][j..] == lines[i + j..]
  {
  }

  /** The backward scan: where the newest lines that fit the byte limit start. */
  method FirstWithinBytes(kept: seq<LogLine>, maxBytes: int) returns (start: nat)
    requires maxBytes > 0
    ensures start <= |kept| && Cost(kept[start..]) <= maxBytes
    ensures start > 0 ==> Cost(kept[start - 1..]) > maxBytes
  {
    var total := 0;
    start := |kept|;
    for index := |kept| downto 0
      invariant index == start && total == Cost(kept[start..]) <= maxBytes
    {
      CostOfSuffix(kept, index);
      total := total + Utf8Len(kept[index].text) + 1;
      if total > maxBytes {
        break;
      }
      start := index;
    }
  }

  /** Trimming looks at no more than the newest `maxLines`. */
  lemma {:induction false} CappedSeesOnlyTail(lines: seq<LogLine>, maxLines: int, maxBytes: int)
    requires maxLines > 0
    ensures Capped(TakeLast(lines, maxLines), maxLines, maxBytes) == Capped(lines, maxLines, maxBytes)
  {
    if |lines| > maxLines {
      CappedSeesOnlyTail(lines[1..], maxLines, maxBytes);
      assert TakeLast(lines[1..], maxLines) == TakeLast(lines, maxLines);
    }
  }

  // ---- the procedure ----

  datatype Selector = Both | StdoutOnly | StderrOnly

  datatype LogsRequest = LogsRequest(tailLines: nat, selector: Selector)

  datatype Limits = Limits(defaultTail: int, maxTail: int, maxLogBytes: int)

  /** A container's whole log as parsed lines; with a terminal the runtime has already
      merged the streams into `stdout`. */
  datatype ContainerLog = ContainerLog(tty: bool, stdout: seq<LogLine>, stderr: seq<LogLine>)

  datatype LogsResponse = LogsResponse(lines: seq<LogLine>, truncated: bool, tailLines: int)

  /** The runtime's `tail`, where zero or less asks for everything. */
  function Fetch(lines: seq<LogLine>, tail: int): seq<LogLine> {
    if tail > 0 then TakeLast(lines, tail) else lines
  }

  /** The answer is the newest window of the whole log of the selected streams, although only
      the tail of each was fetched. */
  method HandleLogs(request: LogsRequest, limits: Limits, log: ContainerLog) returns (response: LogsResponse)
    ensures response.tailLines <= limits.maxTail
    ensures response.tailLines != limits.maxTail ==>
      response.tailLines == if request.tailLines == 0 then limits.defaultTail else request.tailLines
    ensures response.tailLines == limits.maxTail ==>
      limits.maxTail <= if request.tailLines == 0 then limits.defaultTail else request.tailLines
    ensures log.tty || request.selector.StdoutOnly? ==>
      && response.lines == Capped(log.stdout, response.tailLines, limits.maxLogBytes)
      && (forall line :: line in response.lines ==> line in log.stdout)
      && (response.truncated <==> |response.lines| < |Fetch(log.stdout, response.tailLines)|)
    ensures !log.tty && request.selector.StderrOnly? ==>
      && response.lines == Capped(log.stderr, response.tailLines, limits.maxLogBytes)
      && (forall line :: line in response.lines ==> line in log.stderr)
      && (response.truncated <==> |response.lines| < |Fetch(log.stderr, response.tailLines)|)
    ensures !log.tty && request.selector.Both? ==> var tail := response.tailLines;
      && (WellTimed(log.stdout) && WellTimed(log.stderr)
          && (tail > 0 ==> HeadKeyKept(log.stdout, tail) && HeadKeyKept(log.stderr, tail))
          ==> response.lines == Capped(Merged(log.stdout, log.stderr), tail, limits.maxLogBytes))
      && (forall line :: line in response.lines ==> line in log.stdout || line in log.stderr)
      && (response.truncated <==> |response.lines| < |Fetch(log.stdout, tail)| + |Fetch(log.stderr, tail)|)
  {
    var tail := if request.tailLines != 0 then request.tailLines else limits.defaultTail;
    if limits.maxTail < tail {
      tail := limits.maxTail;
    }
    var lines := FetchLines(log, request.selector, tail, limits.maxLogBytes);
    var kept, truncated := CapLogLines(lines, tail, limits.maxLogBytes);
    CappedIsSubset(lines, tail, limits.maxLogBytes);
    response := LogsResponse(kept, truncated, tail);
  }

  /** The tails of the wanted streams, merged; a stream that is not wanted is empty. */
  method FetchLines(log: ContainerLog, selector: Selector, tail: int, ghost maxBytes: int) returns (lines: seq<LogLine>)
    ensures log.tty || selector.StdoutOnly? ==>
      && Capped(lines, tail, maxBytes) == Capped(log.stdout, tail, maxBytes)
      && (forall line :: line in lines ==> line in log.stdout)
      && |lines| == |Fetch(log.stdout, tail)|
    ensures !log.tty && selector.StderrOnly? ==>
      && Capped(lines, tail, maxBytes) == Capped(log.stderr, tail, maxBytes)
      && (forall line :: line in lines ==> line in log.stderr)
      && |lines| == |Fetch(log.stderr, tail)|
    ensures !log.tty && selector.Both? ==>
      && (WellTimed(log.stdout) && WellTimed(log.stderr)
          && (tail > 0 ==> HeadKeyKept(log.stdout, tail) && HeadKeyKept(log.stderr, tail))
          ==> Capped(lines, tail, maxBytes) == Capped(Merged(log.stdout, log.stderr), tail, maxBytes))
      && (forall line :: line in lines ==> line in log.stdout || line in log.stderr)
      && |lines| == |Fetch(log.stdout, tail)| + |Fetch(log.stderr, tail)|
  {
    if log.tty {
      FetchedWindow(log.stdout, tail, maxBytes);
      return Fetch(log.stdout, tail);
    }
    var out := if selector.StderrOnly? then [] else log.stdout;
    var err := if selector.StdoutOnly? then [] else log.stderr;
    lines := MergeLogLines(Fetch(out, tail), Fetch(err, tail));
    FetchedMerge(out, err, tail, maxBytes);
  }

  lemma CappedIsSubset(lines: seq<LogLine>, maxLines: int, maxBytes: int)
    ensures forall line :: line in Capped(lines, maxLines, maxBytes) ==> line in lines
  {
    CappedIsLongestFit(lines, maxLines, maxBytes);
  }

  lemma FetchedWindow(lines: seq<LogLine>, tail: int, maxBytes: int)
    ensures Capped(Fetch(lines, tail), tail, maxBytes) == Capped(lines, tail, maxBytes)
    ensures forall line :: line in Fetch(lines, tail) ==> line in lines
  {
    if tail > 0 {
      CappedSeesOnlyTail(lines, tail, maxBytes);
    }
  }

  lemma FetchedMerge(out: seq<LogLine>, err: seq<LogLine>, tail: int, maxBytes: int)
    ensures var lines := Merged(Fetch(out, tail), Fetch(err, tail));
      && |lines| == |Fetch(out, tail)| + |Fetch(err, tail)|
      && (forall line :: line in lines ==> line in out || line in err)
      && (out == [] ==> Capped(lines, tail, maxBytes) == Capped(err, tail, maxBytes))
      && (err == [] ==> Capped(lines, tail, maxBytes) == Capped(out, tail, maxBytes))
      && (WellTimed(out) && WellTimed(err) && (tail > 0 ==> HeadKeyKept(out, tail) && HeadKeyKept(err, tail))
          ==> Capped(lines, tail, maxBytes) == Capped(Merged(out, err), tail, maxBytes))
  {
    var lines := Merged(Fetch(out, tail), Fetch(err, tail));
    FetchedWindow(out, tail, maxBytes);
    FetchedWindow(err, tail, maxBytes);
    MergedLength(Fetch(out, tail), Fetch(err, tail));
    MergeKeepsLines(Fetch(out, tail), Fetch(err, tail));
    if tail > 0 && WellTimed(out) && WellTimed(err) && HeadKeyKept(out, tail) && HeadKeyKept(err, tail) {
      TailMergeTail(out, err, tail);
      CappedSeesOnlyTail(lines, tail, maxBytes);
      CappedSeesOnlyTail(Merged(out, err), tail, maxBytes);
    }
  }

  lemma MergeKeepsLines(stdout: seq<LogLine>, stderr: seq<LogLine>)
    ensures forall line :: line in Merged(stdout, stderr) ==> line in stdout || line in stderr
    ensures stdout == [] ==> Merged(stdout, stderr) == stderr
    ensures stderr == [] ==> Merged(stdout, stderr) == stdout
  {
    MergePermutes(stdout, stderr);
    assert Lines(KeyedLines(stdout, 0)) == stdout && Lines(KeyedLines(stderr, 1)) == stderr;
    forall line | line in Merged(stdout, stderr) ensures line in stdout || line in stderr {
      assert line in multiset(Merged(stdout, stderr));
    }
  }

  // ---- the same in nanoseconds ----

  function Nanoseconds(ts: Timestamp): int {
    ts.seconds * 1000000000 + ts.nanos
  }

  /** Every line has a time, a valid one, and none is earlier than the one before it. */
  ghost predicate InTimeOrder(lines: seq<LogLine>) {
    && (forall i :: 0 <= i < |lines| ==> lines[i].time.Some? && 0 <= lines[i].time.value.nanos < 1000000000)
    && (forall i, j :: 0 <= i < j < |lines| && lines[i].time.Some? && lines[j].time.Some? ==>
          Nanoseconds(lines[i].time.value) <= Nanoseconds(lines[j].time.value))
  }

  lemma KeyAtMostIsEarlier(a: Timestamp, b: Timestamp)
    requires 0 <= a.nanos < 1000000000 && 0 <= b.nanos < 1000000000
    ensures KeyAtMost(a, b) <==> Nanoseconds(a) <= Nanoseconds(b)
  {
  }

  lemma InOrderIsWellTimed(lines: seq<LogLine>, k: nat)
    requires InTimeOrder(lines)
    ensures WellTimed(lines) && HeadKeyKept(lines, k)
  {
    var keyed := KeyedLines(lines, 0);
    forall i, j | 0 <= i < j < |keyed| ensures KeyAtMost(keyed[i].key, keyed[j].key) {
      KeyAtMostIsEarlier(lines[i].time.value, lines[j].time.value);
    }
  }

  /** For logs in time order the window of the fetched tails is the window of the whole log. */
  lemma TimedTailsSuffice(stdout: seq<LogLine>, stderr: seq<LogLine>, k: nat, maxBytes: int)
    requires k > 0 && InTimeOrder(stdout) && InTimeOrder(stderr)
    ensures Capped(Merged(TakeLast(stdout, k), TakeLast(stderr, k)), k, maxBytes)
         == Capped(Merged(stdout, stderr), k, maxBytes)
  {
    InOrderIsWellTimed(stdout, k);
    InOrderIsWellTimed(stderr, k);
    FetchedMerge(stdout, stderr, k, maxBytes);
  }

  /** And whenever there are two streams to merge, whatever they hold, the lines with valid
      times come out in time order. */
  lemma MergedInTimeOrder(stdout: seq<LogLine>, stderr: seq<LogLine>, i: nat, j: nat)
    requires |stdout| > 0 && |stderr| > 0 && i < j < |Merged(stdout, stderr)|
    requires var m := Merged(stdout, stderr);
      && m[i].time.Some? && 0 <= m[i].time.value.nanos < 1000000000
      && m[j].time.Some? && 0 <= m[j].time.value.nanos < 1000000000
    ensures Nanoseconds(Merged(stdout, stderr)[i].time.value) <= Nanoseconds(Merged(stdout, stderr)[j].time.value)
  {
    var keyed, m := KeyedLines(stdout, 0) + KeyedLines(stderr, 1), MergedKeyed(stdout, stderr);
    BothDistinct(stdout, stderr);
    SortSorts(keyed);
    OwnTimeIsKey(stdout, stderr, m[i]);
    OwnTimeIsKey(stdout, stderr, m[j]);
    assert Before(m[i], m[j]);
    KeyAtMostIsEarlier(m[i].key, m[j].key);
  }

  lemma OwnTimeIsKey(stdout: seq<LogLine>, stderr: seq<LogLine>, x: Keyed)
    requires x in multiset(KeyedLines(stdout, 0) + KeyedLines(stderr, 1)) && x.line.time.Some?
    ensures x.key == x.line.time.value
  {
    assert x in KeyedLines(stdout, 0) || x in KeyedLines(stderr, 1);
  }

  /** Lines with no time before them in their own stream, theirs included, sort as at zero. */
  lemma LeadingUntimedAtZero(stdout: seq<LogLine>, stderr: seq<LogLine>, i: nat, j: nat)
    requires |stdout| > 0 && |stderr| > 0
    requires var m := MergedKeyed(stdout, stderr);
      && i < |m| && j < |m| && m[j].line.time.Some? && 0 <= m[j].line.time.value.nanos < 1000000000
      && var own := if m[i].stream == 0 then stdout else stderr;
         m[i].pos < |own| && forall k :: 0 <= k <= m[i].pos ==> own[k].time == None
    ensures var m := MergedKeyed(stdout, stderr);
      && (i < j ==> 0 <= Nanoseconds(m[j].line.time.value))
      && (j < i ==> Nanoseconds(m[j].line.time.value) <= 0)
  {
    var keyed, m := KeyedLines(stdout, 0) + KeyedLines(stderr, 1), MergedKeyed(stdout, stderr);
    BothDistinct(stdout, stderr);
    SortSorts(keyed);
    OwnTimeIsKey(stdout, stderr, m[j]);
    KeyIsCarried(stdout, stderr, m[i]);
    NothingCarried(if m[i].stream == 0 then stdout else stderr, m[i].pos);
    assert i < j ==> Before(m[i], m[j]);
    assert j < i ==> Before(m[j], m[i]);
  }

  lemma KeyIsCarried(stdout: seq<LogLine>, stderr: seq<LogLine>, x: Keyed)
    requires x in multiset(KeyedLines(stdout, 0) + KeyedLines(stderr, 1))
    ensures var own := if x.stream == 0 then stdout else stderr; x.pos < |own| && x.key == Carried(own, x.pos)
  {
    assert x in KeyedLines(stdout, 0) || x in KeyedLines(stderr, 1);
  }

  lemma {:induction false} NothingCarried(lines: seq<LogLine>, i: nat)
    requires i < |lines| && forall k :: 0 <= k <= i ==> lines[k].time == None
    ensures Carried(lines, i) == Timestamp(0, 0)
  {
    if i > 0 {
      NothingCarried(lines, i - 1);
    }
  }
}
