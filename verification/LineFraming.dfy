/** Log bytes to log lines: the line parser of model.py and the `LineBuffer` of
    logs_follower.py. The pull path splits a whole log at once; the follow path
    sees it frame by frame. */
module LineFraming {
  import opened Common
  import opened ByteStrings

  datatype Timestamp = Timestamp(seconds: int, nanos: int)

  datatype LogLine = LogLine(stream: nat, text: string, time: Option<Timestamp>)

  /** UTF-8 decoding with replacement, and RFC 3339 parsing, are foreign code. */
  datatype Codec = Codec(decode: Bytes -> string, parseTime: Bytes -> Option<Timestamp>)

  // ---- splitting at newlines ----

  function Split(data: Bytes): (parts: seq<Bytes>)
    ensures |parts| > 0
  {
    if |data| == 0 then [[]]
    else
      var rest := Split(data[1..]);
      if data[0] == NEWLINE then [[]] + rest else Attach(data[0], rest)
  }

  /** Puts one more byte before the first piece. */
  function Attach(x: byte, parts: seq<Bytes>): seq<Bytes>
    requires |parts| > 0
  {
    [[x] + parts[0]] + parts[1..]
  }

  function Join(parts: seq<Bytes>): Bytes
    requires |parts| > 0
  {
    if |parts| == 1 then parts[0] else parts[0] + [NEWLINE] + Join(parts[1..])
  }

  /** Splitting loses nothing, and no piece keeps a newline. */
  lemma {:induction false} SplitJoins(data: Bytes)
    ensures Join(Split(data)) == data
    ensures forall i :: 0 <= i < |Split(data)| ==> NEWLINE !in Split(data)[i]
  {
    if |data| > 0 {
      SplitJoins(data[1..]);
      var rest := Split(data[1..]);
      if data[0] == NEWLINE {
        assert ([[]] + rest)[1..] == rest;
      } else {
        var parts := Attach(data[0], rest);
        if |rest| > 1 {
          assert parts[1..] == rest[1..];
          assert Join(parts) == [data[0]] + (rest[0] + [NEWLINE] + Join(rest[1..]));
        }
      }
    }
  }

  /** What one frame adds depends on the bytes before it only through the unfinished piece. */
  lemma {:induction false} SplitAppend(a: Bytes, b: Bytes)
    ensures Split(a + b) == Front(Split(a)) + Split(Last(Split(a)) + b)
  {
    if |a| == 0 {
      assert a + b == b == [] + b;
    } else {
      SplitAppend(a[1..], b);
      SplitAppendStep(a[0], a[1..], b);
      assert a == [a[0]] + a[1..];
    }
  }

  lemma SplitAppendStep(x: byte, tail: Bytes, b: Bytes)
    requires Split(tail + b) == Front(Split(tail)) + Split(Last(Split(tail)) + b)
    ensures Split([x] + tail + b) == Front(Split([x] + tail)) + Split(Last(Split([x] + tail)) + b)
  {
    var rest := Split(tail);
    var grown := Split(Last(rest) + b);
    assert [x] + tail + b == [x] + (tail + b);
    SplitCons(x, tail + b);
    SplitCons(x, tail);
    if x != NEWLINE && |rest| == 1 {
      assert [x] + rest[0] + b == [x] + (rest[0] + b);
      SplitCons(x, rest[0] + b);
    }
    PiecesGrow(x, rest, grown);
  }

  /** One more byte before the pieces, as splitting sees it. */
  function Prepend(x: byte, parts: seq<Bytes>): seq<Bytes>
    requires |parts| > 0
  {
    if x == NEWLINE then [[]] + parts else Attach(x, parts)
  }

  /** The same step on the pieces alone: only a first piece that is also the last one grows
      from both ends. */
  lemma PiecesGrow(x: byte, rest: seq<Bytes>, grown: seq<Bytes>)
    requires |rest| > 0 && |grown| > 0
    ensures var alone := x != NEWLINE && |rest| == 1;
      && Last(Prepend(x, rest)) == (if alone then [x] + rest[0] else Last(rest))
      && Prepend(x, Front(rest) + grown)
         == Front(Prepend(x, rest)) + if alone then Prepend(x, grown) else grown
  {
    if x == NEWLINE {
      NewlineGrows(rest, grown);
    } else if |rest| > 1 {
      FirstPieceGrows(x, rest, grown);
    } else {
      assert Front(rest) + grown == grown && Front(Attach(x, rest)) == [];
      assert [] + Attach(x, grown) == Attach(x, grown);
    }
  }

  lemma NewlineGrows(rest: seq<Bytes>, grown: seq<Bytes>)
    requires |rest| > 0
    ensures [[]] + (Front(rest) + grown) == Front([[]] + rest) + grown && Last([[]] + rest) == Last(rest)
  {
  }

  lemma FirstPieceGrows(x: byte, rest: seq<Bytes>, grown: seq<Bytes>)
    requires |rest| > 1
    ensures Attach(x, Front(rest) + grown) == Front(Attach(x, rest)) + grown && Last(Attach(x, rest)) == Last(rest)
  {
    assert (Front(rest) + grown)[1..] == Front(rest)[1..] + grown;
    assert Front(Attach(x, rest)) == Attach(x, Front(rest));
  }

  lemma SplitCons(x: byte, data: Bytes)
    ensures Split([x] + data) == Prepend(x, Split(data))
  {
    assert ([x] + data)[1..] == data;
  }

  // ---- one line ----

  /** Index of the first whitespace byte, or the length. */
  function FirstSpace(chunk: Bytes): (p: nat)
    ensures p <= |chunk|
    ensures forall i :: 0 <= i < p ==> !IsSpace(chunk[i])
    ensures p < |chunk| ==> IsSpace(chunk[p])
  {
    if |chunk| == 0 || IsSpace(chunk[0]) then 0 else 1 + FirstSpace(chunk[1..])
  }

  /** Whether the pattern `^(\S+?Z)\s(.*)$` matches; the token then ends at the first space. */
  predicate HasTimePrefix(chunk: Bytes) {
    var p := FirstSpace(chunk);
    2 <= p < |chunk| && chunk[p - 1] == UPPER_Z
  }

  function StripCr(text: string): string {
    if |text| > 0 && Last(text) == '\r' then StripCr(Front(text)) else text
  }

  function ParseLogLine(codec: Codec, chunk: Bytes, stream: nat): Option<LogLine> {
    if Blank(chunk) then None
    else if HasTimePrefix(chunk) then
      var p := FirstSpace(chunk);
      Some(LogLine(stream, StripCr(codec.decode(chunk[p + 1..])), codec.parseTime(chunk[..p])))
    else
      Some(LogLine(stream, StripCr(codec.decode(chunk)), None))
  }

  // ---- what parsing means, without how it is done ----

  /** The text without its trailing carriage returns. */
  ghost predicate IsTextOf(decoded: string, text: string) {
    && text <= decoded && (forall i :: |text| <= i < |decoded| ==> decoded[i] == '\r')
    && (text == "" || Last(text) != '\r')
  }

  /** The first whitespace is at `p`, and the two bytes or more before it end in Z. */
  ghost predicate StampEnds(chunk: Bytes, p: int) {
    2 <= p < |chunk| && chunk[p - 1] == UPPER_Z && IsSpace(chunk[p]) && forall i :: 0 <= i < p ==> !IsSpace(chunk[i])
  }

  /** What the line of a chunk is: the time and the text behind it, or else all text. */
  ghost predicate ReadsAs(codec: Codec, chunk: Bytes, line: LogLine) {
    && (forall p :: StampEnds(chunk, p) ==>
          line.time == codec.parseTime(chunk[..p]) && IsTextOf(codec.decode(chunk[p + 1..]), line.text))
    && ((forall p :: !StampEnds(chunk, p)) ==> line.time == None && IsTextOf(codec.decode(chunk), line.text))
  }

  lemma {:induction false} StripCrStrips(text: string)
    ensures IsTextOf(text, StripCr(text))
  {
    if |text| > 0 && Last(text) == '\r' {
      StripCrStrips(Front(text));
      assert text == Front(text) + ['\r'];
    }
  }

  lemma StampFound(chunk: Bytes)
    ensures forall p :: StampEnds(chunk, p) <==> HasTimePrefix(chunk) && p == FirstSpace(chunk)
  {
    forall p | StampEnds(chunk, p) ensures p == FirstSpace(chunk) {
      assert IsSpace(chunk[p]);
    }
  }

  /** A chunk gives no line exactly when it is blank, and otherwise the one it reads as. */
  lemma ParseLogLineIff(codec: Codec, chunk: Bytes, stream: nat, line: LogLine)
    ensures ParseLogLine(codec, chunk, stream) == None <==> Blank(chunk)
    ensures ParseLogLine(codec, chunk, stream) == Some(line)
       <==> !Blank(chunk) && line.stream == stream && ReadsAs(codec, chunk, line)
  {
    StampFound(chunk);
    var body := if HasTimePrefix(chunk) then chunk[FirstSpace(chunk) + 1..] else chunk;
    StripCrStrips(codec.decode(body));
    if HasTimePrefix(chunk) {
      assert StampEnds(chunk, FirstSpace(chunk));
    }
    if IsTextOf(codec.decode(body), line.text) {
      TextOfUnique(codec.decode(body), line.text, StripCr(codec.decode(body)));
    }
  }

  lemma TextOfUnique(decoded: string, a: string, b: string)
    requires IsTextOf(decoded, a) && IsTextOf(decoded, b)
    ensures a == b
  {
    TextNoLonger(decoded, a, b);
    TextNoLonger(decoded, b, a);
  }

  lemma TextNoLonger(decoded: string, a: string, b: string)
    requires IsTextOf(decoded, a) && IsTextOf(decoded, b)
    ensures |b| <= |a|
  {
    if |b| > 0 {
      assert Last(b) == decoded[|b| - 1];
    }
  }

  /** Rendering a line the way `--timestamps` does and parsing it gives the parts back. */
  lemma ParseRendered(codec: Codec, stamp: Bytes, text: Bytes, stream: nat)
    requires |stamp| >= 2 && Last(stamp) == UPPER_Z
    requires forall i :: 0 <= i < |stamp| ==> !IsSpace(stamp[i])
    ensures var parsed := ParseLogLine(codec, stamp + [SPACE] + text, stream);
      && parsed.Some? && parsed.value.time == codec.parseTime(stamp)
      && IsTextOf(codec.decode(text), parsed.value.text)
  {
    var chunk := stamp + [SPACE] + text;
    StripCrStrips(codec.decode(text));
    var p := FirstSpace(chunk);
    assert IsSpace(chunk[|stamp|]);
    assert forall i :: 0 <= i < |stamp| ==> chunk[i] == stamp[i];
    assert p == |stamp|;
    assert !IsSpace(chunk[0]);
    assert chunk[..p] == stamp && chunk[p + 1..] == text;
  }

  // ---- a whole stream ----

  function ParseChunks(codec: Codec, chunks: seq<Bytes>, stream: nat): seq<LogLine> {
    if |chunks| == 0 then []
    else
      var rest := ParseChunks(codec, chunks[1..], stream);
      match ParseLogLine(codec, chunks[0], stream)
      case None => rest
      case Some(line) => [line] + rest
  }

  function ParseLogStream(codec: Codec, raw: Bytes, stream: nat): seq<LogLine> {
    if |raw| == 0 then [] else ParseChunks(codec, Split(raw), stream)
  }

  lemma {:induction false} ParseChunksAppend(codec: Codec, a: seq<Bytes>, b: seq<Bytes>, stream: nat)
    ensures ParseChunks(codec, a + b, stream)
         == ParseChunks(codec, a, stream) + ParseChunks(codec, b, stream)
  {
    if |a| == 0 {
      assert a + b == b;
    } else {
      assert (a + b)[1..] == a[1..] + b;
      ParseChunksAppend(codec, a[1..], b, stream);
    }
  }

  /** The pieces that are not blank, in their order. */
  function NonBlank(chunks: seq<Bytes>): seq<Bytes> {
    if |chunks| == 0 then []
    else (if Blank(chunks[0]) then [] else [chunks[0]]) + NonBlank(chunks[1..])
  }

  /** Line by line, what a stream parses to. */
  ghost predicate ReadAs(codec: Codec, chunks: seq<Bytes>, lines: seq<LogLine>, stream: nat) {
    && |lines| == |chunks|
    && forall i :: 0 <= i < |lines| ==> lines[i].stream == stream && ReadsAs(codec, chunks[i], lines[i])
  }

  lemma {:induction false} ChunksReadAs(codec: Codec, chunks: seq<Bytes>, stream: nat)
    ensures ReadAs(codec, NonBlank(chunks), ParseChunks(codec, chunks, stream), stream)
  {
    if |chunks| > 0 {
      ChunksReadAs(codec, chunks[1..], stream);
      var parsed := ParseLogLine(codec, chunks[0], stream);
      ParseLogLineIff(codec, chunks[0], stream, if parsed.Some? then parsed.value else LogLine(0, "", None));
    }
  }

  /** The pieces between newlines that are not blank, each read on its own. */
  lemma StreamReadsAs(codec: Codec, raw: Bytes, stream: nat)
    ensures ReadAs(codec, NonBlank(Split(raw)), ParseLogStream(codec, raw, stream), stream)
  {
    ChunksReadAs(codec, Split(raw), stream);
    if |raw| == 0 {
      assert NonBlank([[]]) == [];
    }
  }

  /** The unfinished last piece, unless it is blank. */
  function Flushed(raw: Bytes): seq<Bytes> {
    if Blank(Last(Split(raw))) then [] else [Last(Split(raw))]
  }

  /** Finished pieces plus the flushed tail parse to what the whole string parses to. */
  lemma FlushCompletes(codec: Codec, raw: Bytes, stream: nat)
    ensures ParseChunks(codec, Front(Split(raw)) + Flushed(raw), stream) == ParseLogStream(codec, raw, stream)
  {
    var parts, flushed := Split(raw), Flushed(raw);
    ParseChunksAppend(codec, Front(parts), flushed, stream);
    ParseChunksAppend(codec, Front(parts), [Last(parts)], stream);
    assert Front(parts) + [Last(parts)] == parts;
    var chunk := Last(parts);
    assert [chunk][1..] == [];
    assert ParseChunks(codec, flushed, stream) == ParseChunks(codec, [chunk], stream);
    if |raw| == 0 {
      assert parts == [[]];
    }
  }

  // ---- frames ----

  /** `lines` are the pieces that became complete between `before` and `after`. */
  ghost predicate Completes(before: Bytes, after: Bytes, lines: seq<Bytes>) {
    Front(Split(after)) == Front(Split(before)) + lines
  }

  lemma CompletesTrans(a: Bytes, b: Bytes, c: Bytes, first: seq<Bytes>, second: seq<Bytes>)
    requires Completes(a, b, first) && Completes(b, c, second)
    ensures Completes(a, c, first + second)
  {
    assert Front(Split(a)) + first + second == Front(Split(a)) + (first + second);
  }

  /** Holds back the tail of a frame until its newline arrives. `fed` is every
      byte received since construction or the last flush. */
  class LineBuffer {
    var remainder: Bytes
    ghost var fed: Bytes

    ghost predicate Valid()
      reads this
    {
      remainder == Last(Split(fed))
    }

    constructor ()
      ensures Valid() && fed == []
    {
      remainder := [];
      fed := [];
    }

    method Feed(frame: Bytes) returns (lines: seq<Bytes>)
      requires Valid()
      modifies this
      ensures Valid() && fed == old(fed) + frame
      ensures Completes(old(fed), fed, lines)
    {
      SplitAppend(fed, frame);
      var data := remainder + frame;
      var parts := Split(data);
      remainder := Last(parts);
      lines := Front(parts);
      fed := fed + frame;
    }

    method Flush() returns (lines: seq<Bytes>)
      requires Valid()
      modifies this
      ensures Valid() && fed == []
      ensures lines == Flushed(old(fed))
    {
      var tail := remainder;
      remainder := [];
      fed := [];
      lines := if Blank(tail) then [] else [tail];
    }
  }

  /** The buffer outlives a broken stream without a flush, so what was left over is joined to
      the first line of the next stream. The lines that one gives, once flushed, are those of
      the joined bytes. They are the lines it has on its own exactly when its first piece
      parses the same with the leftover before it: always for an empty leftover, and before a
      blank first piece for a blank leftover alone. */
  lemma LeftoverJoinsNextStream(codec: Codec, fed: Bytes, next: Bytes, lines: seq<Bytes>, stream: nat)
    requires Completes(fed, fed + next, lines)
    ensures var leftover, first := Last(Split(fed)), Split(next)[0];
      var seen, own := ParseChunks(codec, lines + Flushed(fed + next), stream), ParseLogStream(codec, next, stream);
      && seen == ParseLogStream(codec, leftover + next, stream)
      && (seen == own <==> ParseLogLine(codec, leftover + first, stream) == ParseLogLine(codec, first, stream))
      && (leftover == [] ==> seen == own)
      && (Blank(first) ==> (seen == own <==> Blank(leftover)))
  {
    var leftover, first := Last(Split(fed)), Split(next)[0];
    CompletedOfJoined(fed, next, lines);
    FlushCompletes(codec, leftover + next, stream);
    PrefixJoinsFirst(leftover, next);
    ParseFirst(codec, leftover + next, stream);
    ParseFirst(codec, next, stream);
    FirstDecides(ParseLogLine(codec, leftover + first, stream), ParseLogLine(codec, first, stream),
      ParseChunks(codec, Split(next)[1..], stream));
    BlankJoined(leftover, first);
    assert leftover == [] ==> leftover + first == first;
  }

  lemma CompletedOfJoined(fed: Bytes, next: Bytes, lines: seq<Bytes>)
    requires Completes(fed, fed + next, lines)
    ensures var leftover := Last(Split(fed));
      NEWLINE !in leftover && lines == Front(Split(leftover + next)) && Flushed(fed + next) == Flushed(leftover + next)
  {
    var early, late := Front(Split(fed)), Split(Last(Split(fed)) + next);
    SplitAppend(fed, next);
    assert Front(early + late) == early + Front(late) && Last(early + late) == Last(late);
    assert lines == (early + lines)[|early|..];
    assert Front(late) == (early + Front(late))[|early|..];
    SplitJoins(fed);
  }

  lemma FirstDecides(a: Option<LogLine>, b: Option<LogLine>, rest: seq<LogLine>)
    ensures OptionalFirst(a, rest) == OptionalFirst(b, rest) <==> a == b
  {
    if a.Some? && b.Some? {
      assert OptionalFirst(a, rest)[0] == a.value && OptionalFirst(b, rest)[0] == b.value;
    } else if a.Some? || b.Some? {
      assert |OptionalFirst(a, rest)| != |OptionalFirst(b, rest)|;
    }
  }

  function OptionalFirst(a: Option<LogLine>, rest: seq<LogLine>): seq<LogLine> {
    match a
    case None => rest
    case Some(line) => [line] + rest
  }

  lemma {:induction false} PrefixJoinsFirst(prefix: Bytes, data: Bytes)
    requires NEWLINE !in prefix
    ensures Split(prefix + data)[0] == prefix + Split(data)[0] && Split(prefix + data)[1..] == Split(data)[1..]
  {
    if |prefix| == 0 {
      assert prefix + data == data && prefix + Split(data)[0] == Split(data)[0];
    } else {
      assert prefix == Front(prefix) + [Last(prefix)];
      PrefixJoinsFirst(Front(prefix), [Last(prefix)] + data);
      LastByteJoins(Front(prefix), Last(prefix), data);
    }
  }

  lemma LastByteJoins(front: Bytes, x: byte, data: Bytes)
    requires x != NEWLINE
    requires Split(front + ([x] + data))[0] == front + Split([x] + data)[0]
    requires Split(front + ([x] + data))[1..] == Split([x] + data)[1..]
    ensures Split(front + [x] + data)[0] == front + [x] + Split(data)[0]
    ensures Split(front + [x] + data)[1..] == Split(data)[1..]
  {
    OneMoreJoins(x, data);
    Regroup(front, [x], data);
    Regroup(front, [x], Split(data)[0]);
  }

  lemma Regroup(a: Bytes, b: Bytes, c: Bytes)
    ensures a + b + c == a + (b + c)
  {
  }

  lemma OneMoreJoins(x: byte, data: Bytes)
    requires x != NEWLINE
    ensures Split([x] + data)[0] == [x] + Split(data)[0] && Split([x] + data)[1..] == Split(data)[1..]
  {
    SplitCons(x, data);
  }

  lemma ParseFirst(codec: Codec, raw: Bytes, stream: nat)
    ensures ParseLogStream(codec, raw, stream)
         == OptionalFirst(ParseLogLine(codec, Split(raw)[0], stream), ParseChunks(codec, Split(raw)[1..], stream))
  {
  }

  lemma BlankJoined(a: Bytes, b: Bytes)
    ensures Blank(a + b) <==> Blank(a) && Blank(b)
  {
    assert forall i :: 0 <= i < |a| ==> (a + b)[i] == a[i];
    assert forall i :: 0 <= i < |b| ==> (a + b)[|a| + i] == b[i];
  }
}
