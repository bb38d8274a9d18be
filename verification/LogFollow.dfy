/** One follower thread of logs_follower.py: `_emit` behind the rate cap, and the
    frame loop of `_follow`. */
module LogFollow {
  import opened Common
  import opened ByteStrings
  import opened LineFraming
  import opened RateCap

  /** What reaches `_enqueue`: a gap note with its count, or a line. */
  datatype Push = Note(dropped: nat, stamp: real) | Line(text: string, stamp: real)

  /** A non-blank line together with the clock reading taken for it. */
  datatype Timed = Timed(line: LogLine, now: real)

  const NANOS_PER_SECOND := 1000000000.0

  function Stamp(t: Timed): real {
    match t.line.time
    case Some(ts) => ts.seconds as real + ts.nanos as real / NANOS_PER_SECOND
    case None => t.now
  }

  // ---- the specification: a fold over the lines ----

  datatype Progress = Progress(budget: Budget, dropped: nat, since: Option<real>, pushed: seq<Push>)

  const START := Progress(FRESH, 0, None, [])

  function EmitLine(cap: int, p: Progress, t: Timed): Progress {
    var (budget, ok) := Spend(cap, p.budget, t.now);
    if !ok then Progress(budget, p.dropped + 1, p.since, p.pushed)
    else
      var note := if p.dropped == 0 then [] else [Note(p.dropped, t.now)];
      Progress(budget, 0, Some(Stamp(t)), p.pushed + note + [Line(t.line.text, Stamp(t))])
  }

  function Run(cap: int, lines: seq<Timed>): Progress {
    if |lines| == 0 then START else EmitLine(cap, Run(cap, Front(lines)), Last(lines))
  }

  // ---- gap accounting ----

  /** A recording read back: a note of count n stands for n unseen lines. */
  function Expand(pushed: seq<Push>): seq<Option<(string, real)>> {
    if |pushed| == 0 then [] else Expand(Front(pushed)) + Reading(Last(pushed))
  }

  function Reading(push: Push): seq<Option<(string, real)>> {
    match push
    case Note(n, _) => Blanks(n)
    case Line(text, stamp) => [Some((text, stamp))]
  }

  function Blanks(n: nat): (blanks: seq<Option<(string, real)>>)
    ensures |blanks| == n && forall i :: 0 <= i < n ==> blanks[i] == None
  {
    if n == 0 then [] else Blanks(n - 1) + [None]
  }

  /** The input with each refused line blanked out, the verdicts being those of the
      limiter run on the clock readings alone. */
  function Masked(cap: int, lines: seq<Timed>): (masked: seq<Option<(string, real)>>)
    ensures |masked| == |lines|
  {
    var verdicts := Verdicts(cap, FRESH, Clock(lines));
    seq(|lines|, i requires 0 <= i < |lines| =>
      if verdicts[i] then Some((lines[i].line.text, Stamp(lines[i]))) else None)
  }

  function Clock(lines: seq<Timed>): (times: seq<real>)
    ensures |times| == |lines|
  {
    seq(|lines|, i requires 0 <= i < |lines| => lines[i].now)
  }

  /** No note is empty, and each is followed at once by the line that closes its gap. */
  ghost predicate NotesInPlace(pushed: seq<Push>) {
    forall i :: 0 <= i < |pushed| && pushed[i].Note? ==>
      pushed[i].dropped > 0 && i + 1 < |pushed| && pushed[i + 1].Line?
  }

  lemma {:induction false} RunBudget(cap: int, lines: seq<Timed>)
    ensures Run(cap, lines).budget == Spent(cap, FRESH, Clock(lines))
  {
    if |lines| > 0 {
      RunBudget(cap, Front(lines));
      assert Front(Clock(lines)) == Clock(Front(lines));
    }
  }

  /** Nothing is shed silently: the recording, read back, is the input with exactly the
      refused lines blank, and what the limiter still holds is the trailing gap. */
  lemma {:induction false} GapAccounting(cap: int, lines: seq<Timed>)
    ensures Expand(Run(cap, lines).pushed) + Blanks(Run(cap, lines).dropped) == Masked(cap, lines)
    ensures NotesInPlace(Run(cap, lines).pushed)
    ensures var p := Run(cap, lines);
      p.since == if p.pushed == [] then None else Some(Last(p.pushed).stamp)
  {
    if |lines| > 0 {
      GapAccounting(cap, Front(lines));
      RunBudget(cap, Front(lines));
      MaskedSnoc(cap, lines);
      EmitExpands(cap, Run(cap, Front(lines)), Last(lines));
      EmitKeepsOrder(cap, Run(cap, Front(lines)), Last(lines));
    }
  }

  /** One line's worth: recorded, or one more blank at the end. */
  lemma EmitExpands(cap: int, before: Progress, t: Timed)
    ensures var after := EmitLine(cap, before, t);
      Expand(after.pushed) + Blanks(after.dropped)
        == Expand(before.pushed) + Blanks(before.dropped)
           + [if Spend(cap, before.budget, t.now).1 then Some((t.line.text, Stamp(t))) else None]
  {
    if Spend(cap, before.budget, t.now).1 {
      var note := Note(before.dropped, t.now);
      var noted := before.pushed + if before.dropped == 0 then [] else [note];
      ExpandSnoc(noted, Line(t.line.text, Stamp(t)));
      if before.dropped == 0 {
        assert noted == before.pushed;
      } else {
        ExpandSnoc(before.pushed, note);
      }
    } else {
      assert Blanks(before.dropped + 1) == Blanks(before.dropped) + [None];
    }
  }

  lemma EmitKeepsOrder(cap: int, before: Progress, t: Timed)
    requires NotesInPlace(before.pushed)
    requires before.since == if before.pushed == [] then None else Some(Last(before.pushed).stamp)
    ensures var after := EmitLine(cap, before, t);
      && NotesInPlace(after.pushed)
      && after.since == if after.pushed == [] then None else Some(Last(after.pushed).stamp)
  {
    if Spend(cap, before.budget, t.now).1 {
      var note := if before.dropped == 0 then [] else [Note(before.dropped, t.now)];
      LineAfterNote(before.pushed, note, Line(t.line.text, Stamp(t)));
    }
  }

  lemma LineAfterNote(pushed: seq<Push>, note: seq<Push>, line: Push)
    requires NotesInPlace(pushed) && line.Line?
    requires |note| <= 1 && forall i :: 0 <= i < |note| ==> note[i].Note? && note[i].dropped > 0
    ensures NotesInPlace(pushed + note + [line]) && Last(pushed + note + [line]) == line
  {
    var all := pushed + note + [line];
    forall i | 0 <= i < |all| && all[i].Note?
      ensures all[i].dropped > 0 && i + 1 < |all| && all[i + 1].Line?
    {
      if i < |pushed| {
        assert all[i] == pushed[i] && all[i + 1] == pushed[i + 1];
      } else {
        assert all[i] == note[0] && all[i + 1] == line;
      }
    }
  }

  lemma ExpandSnoc(pushed: seq<Push>, push: Push)
    ensures Expand(pushed + [push]) == Expand(pushed) + Reading(push)
  {
    assert Front(pushed + [push]) == pushed;
  }

  lemma MaskedSnoc(cap: int, lines: seq<Timed>)
    requires |lines| > 0
    ensures Masked(cap, lines) == Masked(cap, Front(lines))
      + [if Spend(cap, Spent(cap, FRESH, Clock(Front(lines))), Last(lines).now).1
         then Some((Last(lines).line.text, Stamp(Last(lines)))) else None]
  {
    assert Clock(lines) == Clock(Front(lines)) + [Last(lines).now];
    VerdictsSnoc(cap, FRESH, Clock(Front(lines)), Last(lines).now);
  }

  /** With the cap off every line is recorded, in order and without notes. */
  lemma {:induction false} UncappedRecordsEverything(cap: int, lines: seq<Timed>)
    requires cap <= 0
    ensures Run(cap, lines).dropped == 0
    ensures Run(cap, lines).pushed
         == seq(|lines|, i requires 0 <= i < |lines| => Line(lines[i].line.text, Stamp(lines[i])))
  {
    if |lines| > 0 {
      UncappedRecordsEverything(cap, Front(lines));
    }
  }

  // ---- the thread ----

  /** Pairs lines with successive clock readings, the first of them reading number `from`. */
  function Readings(lines: seq<LogLine>, clock: nat -> real, from: nat): (timed: seq<Timed>)
    ensures |timed| == |lines|
    ensures forall i :: 0 <= i < |lines| ==> timed[i] == Timed(lines[i], clock(from + i))
  {
    seq(|lines|, i requires 0 <= i < |lines| => Timed(lines[i], clock(from + i)))
  }

  /** The lines seen after `chunks`: each non-blank one takes the next clock reading. */
  function SeenAfter(codec: Codec, clock: nat -> real, seen: seq<Timed>, chunks: seq<Bytes>): seq<Timed> {
    seen + Readings(ParseChunks(codec, chunks, 0), clock, |seen|)
  }

  lemma SeenAfterAppend(codec: Codec, clock: nat -> real, seen: seq<Timed>, a: seq<Bytes>, b: seq<Bytes>)
    ensures SeenAfter(codec, clock, seen, a + b) == SeenAfter(codec, clock, SeenAfter(codec, clock, seen, a), b)
  {
    ParseChunksAppend(codec, a, b, 0);
  }

  lemma ConcatOneMore(before: Bytes, frames: seq<Bytes>, i: nat)
    requires i < |frames|
    ensures before + Concat(frames[..i]) + frames[i] == before + Concat(frames[..i + 1])
  {
    assert frames[..i + 1] == frames[..i] + [frames[i]];
    ConcatAppend(frames[..i], frames[i]);
  }

  class Follower {
    const codec: Codec
    const clock: nat -> real
    const limiter: RateLimiter
    const buffer: LineBuffer
    var since: Option<real>
    var pushed: seq<Push>
    /** Clock readings taken so far. */
    var readings: nat
    /** Every non-blank line taken from the stream so far. */
    ghost var seen: seq<Timed>

    ghost predicate Valid()
      reads this, limiter, buffer
    {
      && buffer.Valid()
      && readings == |seen|
      && Run(limiter.cap, seen) == Progress(limiter.budget, limiter.dropped, since, pushed)
    }

    constructor (codec: Codec, clock: nat -> real, cap: int)
      ensures Valid() && fresh(limiter) && fresh(buffer)
      ensures seen == [] && pushed == [] && buffer.fed == [] && limiter.cap == cap
      ensures this.codec == codec && this.clock == clock
    {
      this.codec := codec;
      this.clock := clock;
      limiter := new RateLimiter(cap);
      buffer := new LineBuffer();
      since := None;
      pushed := [];
      readings := 0;
      seen := [];
    }

    method Emit(chunk: Bytes)
      requires Valid()
      modifies this, limiter
      ensures Valid()
      ensures seen == SeenAfter(codec, clock, old(seen), [chunk])
    {
      assert [chunk][1..] == [];
      var parsed := ParseLogLine(codec, chunk, 0);
      if parsed.None? {
        assert ParseChunks(codec, [chunk], 0) == [];
        assert seen + Readings([], clock, |seen|) == seen;
        return;
      }
      var line := parsed.value;
      var now := clock(readings);
      readings := readings + 1;
      seen := seen + [Timed(line, now)];
      assert Front(seen) == old(seen);
      assert ParseChunks(codec, [chunk], 0) == [line];
      assert Readings([line], clock, |old(seen)|) == [Timed(line, now)];
      var ok := limiter.Allow(now);
      if !ok {
        return;
      }
      var note := limiter.OverflowNote();
      if note.Some? {
        pushed := pushed + [Note(note.value, now)];
      }
      var stamp := Stamp(Timed(line, now));
      pushed := pushed + [Line(line.text, stamp)];
      since := Some(stamp);
    }

    method EmitAll(chunks: seq<Bytes>)
      requires Valid()
      modifies this, limiter
      ensures Valid()
      ensures seen == SeenAfter(codec, clock, old(seen), chunks)
    {
      for i := 0 to |chunks|
        invariant Valid()
        invariant buffer.fed == old(buffer.fed)
        invariant seen == SeenAfter(codec, clock, old(seen), chunks[..i])
      {
        assert chunks[..i + 1] == chunks[..i] + [chunks[i]];
        SeenAfterAppend(codec, clock, old(seen), chunks[..i], [chunks[i]]);
        Emit(chunks[i]);
      }
      assert chunks[..|chunks|] == chunks;
    }

    method ReadFrames(frames: seq<Bytes>) returns (ghost finished: seq<Bytes>)
      requires Valid()
      modifies this, limiter, buffer
      ensures Valid()
      ensures buffer.fed == old(buffer.fed) + Concat(frames)
      ensures Completes(old(buffer.fed), buffer.fed, finished)
      ensures seen == SeenAfter(codec, clock, old(seen), finished)
    {
      finished := [];
      for i := 0 to |frames|
        invariant Valid()
        invariant buffer.fed == old(buffer.fed) + Concat(frames[..i])
        invariant Completes(old(buffer.fed), buffer.fed, finished)
        invariant seen == SeenAfter(codec, clock, old(seen), finished)
      {
        ghost var before := buffer.fed;
        var lines := buffer.Feed(frames[i]);
        ConcatOneMore(old(buffer.fed), frames, i);
        CompletesTrans(old(buffer.fed), before, buffer.fed, finished, lines);
        EmitAll(lines);
        SeenAfterAppend(codec, clock, old(seen), finished, lines);
        finished := finished + lines;
      }
      assert frames[..|frames|] == frames;
    }

    /** One opened stream. A stream that ends cleanly is flushed; one that ends in an
        exception is not, and its unfinished line stays in the buffer. Either way the
        pieces emitted complete those of the bytes received, however the frames were cut. */
    method FollowStream(frames: seq<Bytes>, clean: bool) returns (ghost finished: seq<Bytes>)
      requires Valid()
      modifies this, limiter, buffer
      ensures Valid()
      ensures Completes(old(buffer.fed), old(buffer.fed) + Concat(frames), finished)
      ensures buffer.fed == if clean then [] else old(buffer.fed) + Concat(frames)
      ensures seen == SeenAfter(codec, clock, old(seen),
                        finished + if clean then Flushed(old(buffer.fed) + Concat(frames)) else [])
    {
      finished := ReadFrames(frames);
      if clean {
        var lines := buffer.Flush();
        EmitAll(lines);
        SeenAfterAppend(codec, clock, old(seen), finished, lines);
      } else {
        assert finished + [] == finished;
      }
    }
  }

  /** The stamp of a recorded line: its own time to the nanosecond, or else the clock's. */
  ghost predicate IsStampOf(line: LogLine, now: real, stamp: real) {
    match line.time
    case Some(ts) => stamp * 1000000000.0 == (ts.seconds * 1000000000 + ts.nanos) as real
    case None => stamp == now
  }

  function Ticking(clock: nat -> real, n: nat): (times: seq<real>)
    ensures |times| == n && forall i :: 0 <= i < n ==> times[i] == clock(i)
  {
    seq(n, i requires 0 <= i < n => clock(i))
  }

  /** A recording of these pieces: piece `k` is there with its text and stamp exactly when no
      more than `cap` pieces, itself included, came in its window, and otherwise a blank is. */
  ghost predicate RecordsPieces(codec: Codec, clock: nat -> real, cap: int, pieces: seq<Bytes>,
                                recording: seq<Option<(string, real)>>) {
    && |recording| == |pieces|
    && (forall k :: 0 <= k < |pieces| ==>
          (recording[k].Some? <==> cap <= 0 || CallsInWindow(Ticking(clock, k + 1)) <= cap))
    && (forall k :: 0 <= k < |pieces| && recording[k].Some? ==> exists line ::
          && ReadsAs(codec, pieces[k], line)
          && recording[k].value.0 == line.text && IsStampOf(line, clock(k), recording[k].value.1))
  }

  lemma MaskedRecordsPieces(codec: Codec, clock: nat -> real, cap: int, pieces: seq<Bytes>, lines: seq<LogLine>)
    requires ReadAs(codec, pieces, lines, 0)
    ensures RecordsPieces(codec, clock, cap, pieces, Masked(cap, Readings(lines, clock, 0)))
  {
    var timed := Readings(lines, clock, 0);
    var recording := Masked(cap, timed);
    forall k | 0 <= k < |pieces|
      ensures recording[k].Some? <==> cap <= 0 || CallsInWindow(Ticking(clock, k + 1)) <= cap
      ensures recording[k].Some? ==> exists line ::
        && ReadsAs(codec, pieces[k], line)
        && recording[k].value.0 == line.text && IsStampOf(line, clock(k), recording[k].value.1)
    {
      AnsweredYesIff(cap, Clock(timed), k);
      assert Clock(timed)[..k + 1] == Ticking(clock, k + 1);
      StampIsExact(timed[k]);
      assert ReadsAs(codec, pieces[k], lines[k]);
    }
  }

  lemma StampIsExact(t: Timed)
    ensures IsStampOf(t.line, t.now, Stamp(t))
  {
  }

  /** End to end, from frames to what is enqueued, for a fresh follower and a stream that
      ends cleanly: the recording, read back, is the parse of the whole byte string with
      exactly the refused lines blank. */
  method FollowOnce(codec: Codec, clock: nat -> real, cap: int, frames: seq<Bytes>)
    returns (pushed: seq<Push>, pending: nat)
    ensures Expand(pushed) + Blanks(pending)
         == Masked(cap, Readings(ParseLogStream(codec, Concat(frames), 0), clock, 0))
    ensures NotesInPlace(pushed)
    ensures cap <= 0 ==> pending == 0 && |pushed| == |ParseLogStream(codec, Concat(frames), 0)|
    ensures RecordsPieces(codec, clock, cap, NonBlank(Split(Concat(frames))), Expand(pushed) + Blanks(pending))
  {
    var f := new Follower(codec, clock, cap);
    ghost var finished := f.FollowStream(frames, true);
    ghost var raw := Concat(frames);
    assert [] + raw == raw;
    assert Front(Split([])) == [];
    assert finished == Front(Split(raw));
    FlushCompletes(codec, raw, 0);
    ghost var lines := Readings(ParseLogStream(codec, raw, 0), clock, 0);
    assert f.seen == lines;
    pushed, pending := f.pushed, f.limiter.dropped;
    GapAccounting(cap, lines);
    if cap <= 0 {
      UncappedRecordsEverything(cap, lines);
    }
    StreamReadsAs(codec, raw, 0);
    MaskedRecordsPieces(codec, clock, cap, NonBlank(Split(raw)), ParseLogStream(codec, raw, 0));
  }

  // ---- a thread's whole life ----

  /** One opened stream: its frames, and whether it came to an end or broke off. */
  datatype Stream = Stream(frames: seq<Bytes>, clean: bool)

  /** The pieces of the streams that came to an end, and the bytes held back since. */
  datatype Heard = Heard(pieces: seq<Bytes>, held: Bytes)

  /** Streams that break off run on into the next; one that ends completes them all. */
  function HeardFrom(streams: seq<Stream>): Heard {
    if |streams| == 0 then Heard([], [])
    else
      var Heard(pieces, held) := HeardFrom(Front(streams));
      var raw := held + Concat(Last(streams).frames);
      if Last(streams).clean then Heard(pieces + Split(raw), []) else Heard(pieces, raw)
  }

  /** The pieces emitted so far: of what is held, only those a newline has completed. */
  function Emitted(heard: Heard): seq<Bytes> {
    heard.pieces + Front(Split(heard.held))
  }

  /** However often the thread reconnects, and however each stream ends and is cut into
      frames: the recording, read back, is the lines of the bytes between two clean ends run
      together, with exactly the refused lines blank. */
  method Follow(codec: Codec, clock: nat -> real, cap: int, streams: seq<Stream>)
    returns (pushed: seq<Push>, pending: nat)
    ensures NotesInPlace(pushed)
    ensures RecordsPieces(codec, clock, cap, NonBlank(Emitted(HeardFrom(streams))), Expand(pushed) + Blanks(pending))
  {
    var f := new Follower(codec, clock, cap);
    NothingHeld([]);
    for k := 0 to |streams|
      invariant f.Valid() && f.codec == codec && f.clock == clock && f.limiter.cap == cap
      invariant fresh(f) && fresh(f.limiter) && fresh(f.buffer)
      invariant f.buffer.fed == HeardFrom(streams[..k]).held
      invariant f.seen == SeenAfter(codec, clock, [], Emitted(HeardFrom(streams[..k])))
    {
      var stream := streams[k];
      assert Front(streams[..k + 1]) == streams[..k] && Last(streams[..k + 1]) == stream;
      ghost var before := HeardFrom(streams[..k]);
      ghost var finished := f.FollowStream(stream.frames, stream.clean);
      StreamHeard(codec, clock, before, stream, finished);
    }
    assert streams[..|streams|] == streams;
    pushed, pending := f.pushed, f.limiter.dropped;
    GapAccounting(cap, f.seen);
    ghost var pieces := Emitted(HeardFrom(streams));
    ChunksReadAs(codec, pieces, 0);
    MaskedRecordsPieces(codec, clock, cap, NonBlank(pieces), ParseChunks(codec, pieces, 0));
    assert f.seen == Readings(ParseChunks(codec, pieces, 0), clock, 0);
  }

  lemma NothingHeld(pieces: seq<Bytes>)
    ensures Emitted(Heard(pieces, [])) == pieces
  {
    assert Split([]) == [[]];
  }

  lemma StreamHeard(codec: Codec, clock: nat -> real, before: Heard, stream: Stream, finished: seq<Bytes>)
    requires Completes(before.held, before.held + Concat(stream.frames), finished)
    ensures var raw := before.held + Concat(stream.frames);
      var after := if stream.clean then Heard(before.pieces + Split(raw), []) else Heard(before.pieces, raw);
      SeenAfter(codec, clock, SeenAfter(codec, clock, [], Emitted(before)),
                finished + if stream.clean then Flushed(raw) else [])
        == SeenAfter(codec, clock, [], Emitted(after))
  {
    var raw := before.held + Concat(stream.frames);
    var early, chunks := Front(Split(before.held)), finished + if stream.clean then Flushed(raw) else [];
    SeenAfterAppend(codec, clock, [], Emitted(before), chunks);
    assert Emitted(before) + chunks == before.pieces + (early + chunks);
    CompletedParse(codec, before.held, raw, finished, stream.clean);
    ParseChunksAppend(codec, before.pieces, early + chunks, 0);
    ParseChunksAppend(codec, before.pieces, if stream.clean then Split(raw) else Front(Split(raw)), 0);
    NothingHeld(before.pieces + Split(raw));
  }

  /** What was complete before and what has been completed since, together. */
  lemma CompletedParse(codec: Codec, before: Bytes, after: Bytes, finished: seq<Bytes>, clean: bool)
    requires Completes(before, after, finished)
    ensures ParseChunks(codec, Front(Split(before)) + (finished + if clean then Flushed(after) else []), 0)
         == ParseChunks(codec, if clean then Split(after) else Front(Split(after)), 0)
  {
    var early, flushed := Front(Split(before)), if clean then Flushed(after) else [];
    assert early + (finished + flushed) == Front(Split(after)) + flushed;
    if clean {
      FlushCompletes(codec, after, 0);
      assert |after| == 0 ==> ParseChunks(codec, [[]], 0) == [];
    } else {
      assert Front(Split(after)) + flushed == Front(Split(after));
    }
  }

  // ---- the rate at which lines are recorded ----

  function LineCount(pushed: seq<Push>): nat {
    if |pushed| == 0 then 0 else LineCount(Front(pushed)) + if Last(pushed).Line? then 1 else 0
  }

  lemma {:induction false} AdmittedSnoc(cap: int, b: Budget, times: seq<real>, now: real, lo: real, hi: real)
    ensures AdmittedWithin(cap, b, times + [now], lo, hi)
         == AdmittedWithin(cap, b, times, lo, hi)
            + if Spend(cap, Spent(cap, b, times), now).1 && lo <= now < hi then 1 else 0
    decreases |times|
  {
    var all := times + [now];
    if |times| > 0 {
      assert all[1..] == times[1..] + [now];
      AdmittedSnoc(cap, Spend(cap, b, times[0]).0, times[1..], now, lo, hi);
      SpentCons(cap, b, times);
    }
  }

  /** From any point of a run on, no more lines are recorded than the limiter admits. */
  lemma {:induction false} RecordedAreAdmitted(cap: int, lines: seq<Timed>, from: nat, lo: real, hi: real)
    requires from <= |lines| && forall k :: from <= k < |lines| ==> lo <= lines[k].now < hi
    ensures LineCount(Run(cap, lines).pushed) - LineCount(Run(cap, lines[..from]).pushed)
         <= AdmittedWithin(cap, FRESH, Clock(lines), lo, hi)
    decreases |lines|
  {
    if from == |lines| {
      assert lines[..from] == lines;
    } else {
      var front := Front(lines);
      assert front[..from] == lines[..from] && Clock(lines) == Clock(front) + [Last(lines).now];
      RecordedAreAdmitted(cap, front, from, lo, hi);
      AdmittedSnoc(cap, FRESH, Clock(front), Last(lines).now, lo, hi);
      RunBudget(cap, front);
      EmitRecordsOne(cap, Run(cap, front), Last(lines));
    }
  }

  lemma EmitRecordsOne(cap: int, before: Progress, t: Timed)
    ensures LineCount(EmitLine(cap, before, t).pushed)
         == LineCount(before.pushed) + if Spend(cap, before.budget, t.now).1 then 1 else 0
  {
    if Spend(cap, before.budget, t.now).1 {
      var note := Note(before.dropped, t.now);
      var noted := before.pushed + if before.dropped == 0 then [] else [note];
      assert before.dropped == 0 ==> noted == before.pushed;
      assert before.dropped > 0 ==> Front(noted) == before.pushed;
      assert Front(noted + [Line(t.line.text, Stamp(t))]) == noted;
    }
  }

  /** Any stretch of a follower's run whose clock readings lie within an interval of length
      L records at most (ceil(L) + 1) * cap lines: for a cap of one on any clock, otherwise
      while no reading lies before its window's start. */
  lemma RecordedRateBound(cap: int, lines: seq<Timed>, from: nat, lo: real, hi: real)
    requires cap > 0 && lo < hi && (cap == 1 || NeverBeforeWindow(cap, FRESH, Clock(lines)))
    requires from <= |lines| && forall k :: from <= k < |lines| ==> lo <= lines[k].now < hi
    ensures LineCount(Run(cap, lines).pushed) - LineCount(Run(cap, lines[..from]).pushed) <= (Ceil(hi - lo) + 1) * cap
  {
    RecordedAreAdmitted(cap, lines, from, lo, hi);
    if cap == 1 {
      BoundHoldsOnAnyClockIff(cap);
    } else {
      RateBound(cap, Clock(lines), lo, hi);
    }
  }
}
