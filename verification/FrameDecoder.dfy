/** The incremental decoder of LSP's Content-Length framing. */
module FrameDecoder {
  import opened Wrappers
  import opened Bytes

  const MAX_HEADER_BYTES := 64 * 1024
  const CR: byte := 13
  const LF: byte := 10
  const TERMINATOR: seq<byte> := [CR, LF, CR, LF]

  datatype FrameError =
    | HeaderTooLarge
    | FrameTooLarge
    | DuplicateLength
    | InvalidLength
    | MissingLength

  // ---------- Headers ----------

  predicate TerminatorAt(b: seq<byte>, i: int) {
    0 <= i && i + 4 <= |b| && b[i] == CR && b[i + 1] == LF && b[i + 2] == CR && b[i + 3] == LF
  }

  /** Offset of the first header terminator at or after `from`. */
  function IndexOfTerminator(b: seq<byte>, from: nat): (r: Option<nat>)
    ensures r.Some? ==> from <= r.value && TerminatorAt(b, r.value)
    ensures r.Some? ==> forall j :: from <= j < r.value ==> !TerminatorAt(b, j)
    ensures r.None? ==> forall j :: from <= j ==> !TerminatorAt(b, j)
    decreases |b| - from
  {
    if from + 4 > |b| then None
    else if TerminatorAt(b, from) then Some(from)
    else IndexOfTerminator(b, from + 1)
  }

  /** Node's "ascii" decoding clears the top bit of every byte. */
  function Ascii(b: seq<byte>): (s: string)
    ensures |s| == |b| && forall i :: 0 <= i < |b| ==> s[i] as int == if b[i] < 128 then b[i] else b[i] - 128
  {
    seq(|b|, i requires 0 <= i < |b| => (b[i] % 128) as char)
  }

  predicate CrlfAt(s: string, i: int) {
    0 <= i && i + 2 <= |s| && s[i] == '\r' && s[i + 1] == '\n'
  }

  function IndexOfCrlf(s: string, from: nat): (r: Option<nat>)
    ensures r.Some? ==> from <= r.value && CrlfAt(s, r.value)
    ensures r.Some? ==> forall j :: from <= j < r.value ==> !CrlfAt(s, j)
    ensures r.None? ==> forall j :: from <= j ==> !CrlfAt(s, j)
    decreases |s| - from
  {
    if from + 2 > |s| then None
    else if CrlfAt(s, from) then Some(from)
    else IndexOfCrlf(s, from + 1)
  }

  function SplitLines(s: string): (lines: seq<string>)
    ensures lines != []
    decreases |s|
  {
    match IndexOfCrlf(s, 0)
    case None => [s]
    case Some(i) => [s[..i]] + SplitLines(s[i + 2..])
  }

  predicate IsDigit(c: char) { '0' <= c <= '9' }

  /** The characters below 128 that a regular expression's \s matches. */
  predicate IsSpace(c: char) { c == ' ' || 9 as char <= c <= 13 as char }

  function Lower(c: char): char {
    if 'A' <= c <= 'Z' then (c as int + 32) as char else c
  }

  function LowerAll(s: string): string {
    seq(|s|, i requires 0 <= i < |s| => Lower(s[i]))
  }

  function SkipSpaces(s: string): string {
    if s != [] && IsSpace(s[0]) then SkipSpaces(s[1..]) else s
  }

  /** Number of leading digits. */
  function DigitRun(s: string): (n: nat)
    ensures n <= |s|
    ensures forall i :: 0 <= i < n ==> IsDigit(s[i])
  {
    if s != [] && IsDigit(s[0]) then 1 + DigitRun(s[1..]) else 0
  }

  function DecimalValue(s: string): nat
    requires forall i :: 0 <= i < |s| ==> IsDigit(s[i])
  {
    if s == [] then 0
    else
      assert IsDigit(s[|s| - 1]);
      10 * DecimalValue(s[..|s| - 1]) + (s[|s| - 1] as int - '0' as int)
  }

  const FIELD := "content-length:"

  /** The value of a line that has the form `Content-Length: n`, whatever the letter case. */
  function LengthField(line: string): Option<nat> {
    if |line| < |FIELD| || LowerAll(line[..|FIELD|]) != FIELD then None
    else
      var rest := SkipSpaces(line[|FIELD|..]);
      var n := DigitRun(rest);
      if n == 0 || SkipSpaces(rest[n..]) != [] then None
      else Some(DecimalValue(rest[..n]))
  }

  /** The length a header declares once `seen` has been read from the lines before. */
  function ContentLength(lines: seq<string>, seen: Option<nat>): Result<nat, FrameError> {
    if lines == [] then
      if seen.Some? then Success(seen.value) else Failure(MissingLength)
    else match LengthField(lines[0])
      case None => ContentLength(lines[1..], seen)
      case Some(n) =>
        if seen.Some? then Failure(DuplicateLength)
        else if n > MAX_SAFE_INTEGER then Failure(InvalidLength)
        else ContentLength(lines[1..], Some(n))
  }

  /** A header is accepted exactly when one single line declares a length, and that length is safe. */
  lemma {:induction false} ContentLengthUnique(lines: seq<string>, n: nat)
    ensures ContentLength(lines, None) == Success(n) <==>
              n <= MAX_SAFE_INTEGER &&
              exists k :: 0 <= k < |lines| && LengthField(lines[k]) == Some(n) &&
                          forall j :: 0 <= j < |lines| && j != k ==> LengthField(lines[j]) == None
  {
    if lines != [] {
      ContentLengthUnique(lines[1..], n);
      match LengthField(lines[0])
      case Some(m) =>
        ContentLengthSeen(lines[1..], m);
        if ContentLength(lines, None) == Success(n) {
          assert forall j :: 0 <= j < |lines| && j != 0 ==> lines[j] == lines[1..][j - 1];
          assert LengthField(lines[0]) == Some(n);
        }
        assert forall j :: 0 <= j < |lines[1..]| ==> lines[1..][j] == lines[j + 1];
      case None =>
        assert forall j :: 0 <= j < |lines[1..]| ==> lines[1..][j] == lines[j + 1];
        if ContentLength(lines, None) == Success(n) {
          var k :| 0 <= k < |lines[1..]| && LengthField(lines[1..][k]) == Some(n) &&
                   forall j :: 0 <= j < |lines[1..]| && j != k ==> LengthField(lines[1..][j]) == None;
          assert LengthField(lines[k + 1]) == Some(n);
          forall j | 0 <= j < |lines| && j != k + 1
            ensures LengthField(lines[j]) == None
          {
            if j > 0 { assert lines[j] == lines[1..][j - 1]; }
          }
        }
    }
  }

  lemma {:induction false} ContentLengthSeen(lines: seq<string>, m: nat)
    ensures ContentLength(lines, Some(m)).Success? <==> forall j :: 0 <= j < |lines| ==> LengthField(lines[j]) == None
    ensures ContentLength(lines, Some(m)).Success? ==> ContentLength(lines, Some(m)).value == m
  {
    if lines != [] {
      ContentLengthSeen(lines[1..], m);
      assert forall j :: 0 <= j < |lines[1..]| ==> lines[1..][j] == lines[j + 1];
      assert forall j :: 0 < j < |lines| ==> lines[j] == lines[1..][j - 1];
    }
  }

  method ParseContentLength(header: seq<byte>) returns (r: Result<nat, FrameError>)
    ensures r == ContentLength(SplitLines(Ascii(header)), None)
  {
    var lines := SplitLines(Ascii(header));
    var length: Option<nat> := None;
    var i := 0;
    while i < |lines|
      invariant 0 <= i <= |lines|
      invariant ContentLength(lines, None) == ContentLength(lines[i..], length)
    {
      var parsed := LengthField(lines[i]);
      if parsed.Some? {
        if length.Some? { return Failure(DuplicateLength); }
        if parsed.value > MAX_SAFE_INTEGER { return Failure(InvalidLength); }
        length := parsed;
      }
      i := i + 1;
    }
    return if length.Some? then Success(length.value) else Failure(MissingLength);
  }

  // ---------- Decoding ----------

  /** What the front of the buffer holds: nothing complete yet, an error, or a body at [start, end). */
  datatype Front = Incomplete | Bad(error: FrameError) | Frame(start: nat, end: nat)

  function FrontOf(buf: seq<byte>, maxFrameBytes: nat): (f: Front)
    ensures f.Frame? ==> 4 <= f.start <= f.end <= |buf|
  {
    match IndexOfTerminator(buf, 0)
    case None => if |buf| > MAX_HEADER_BYTES then Bad(HeaderTooLarge) else Incomplete
    case Some(headerEnd) =>
      match ContentLength(SplitLines(Ascii(buf[..headerEnd])), None)
      case Failure(e) => Bad(e)
      case Success(n) =>
        if n > maxFrameBytes then Bad(FrameTooLarge)
        else if |buf| < headerEnd + 4 + n then Incomplete
        else Frame(headerEnd + 4, headerEnd + 4 + n)
  }

  /** Frames cut from a buffer, the bytes left in it, and the error that stopped the cutting. */
  datatype Decoded = Decoded(frames: seq<seq<byte>>, rest: seq<byte>, error: Option<FrameError>)

  function Drain(buf: seq<byte>, maxFrameBytes: nat): Decoded
    decreases |buf|
  {
    match FrontOf(buf, maxFrameBytes)
    case Incomplete => Decoded([], buf, None)
    case Bad(e) => Decoded([], buf, Some(e))
    case Frame(s, e) =>
      var d := Drain(buf[e..], maxFrameBytes);
      Decoded([buf[s..e]] + d.frames, d.rest, d.error)
  }

  lemma DrainStep(buf: seq<byte>, maxFrameBytes: nat)
    ensures var f := FrontOf(buf, maxFrameBytes);
            && (f.Incomplete? ==> Drain(buf, maxFrameBytes) == Decoded([], buf, None))
            && (f.Bad? ==> Drain(buf, maxFrameBytes) == Decoded([], buf, Some(f.error)))
            && (f.Frame? ==>
                  var d := Drain(buf[f.end..], maxFrameBytes);
                  Drain(buf, maxFrameBytes) == Decoded([buf[f.start..f.end]] + d.frames, d.rest, d.error))
  {
    hide FrontOf;
  }

  class LspFrameDecoder {
    var buffer: seq<byte>
    const maxFrameBytes: nat

    constructor (maxFrameBytes: nat)
      ensures buffer == [] && this.maxFrameBytes == maxFrameBytes
    {
      this.buffer := [];
      this.maxFrameBytes := maxFrameBytes;
    }

    /** Appends a chunk and cuts every complete frame; a thrown error drops the frames cut by this call. */
    method Push(chunk: seq<byte>) returns (r: Result<seq<seq<byte>>, FrameError>)
      modifies this
      ensures var d := Drain(old(buffer) + chunk, maxFrameBytes);
              buffer == d.rest &&
              r == if d.error.None? then Success(d.frames) else Failure(d.error.value)
    {
      hide ContentLength, SplitLines, IndexOfTerminator, Drain;
      ghost var all := buffer + chunk;
      if |chunk| > 0 {
        buffer := if |buffer| == 0 then chunk else buffer + chunk;
      }
      assert buffer == all;
      var frames := [];
      while true
        invariant var d := Drain(buffer, maxFrameBytes);
                  Drain(all, maxFrameBytes) == Decoded(frames + d.frames, d.rest, d.error)
        decreases |buffer|
      {
        DrainStep(buffer, maxFrameBytes);
        var headerEnd := IndexOfTerminator(buffer, 0);
        if headerEnd.None? {
          if |buffer| > MAX_HEADER_BYTES { return Failure(HeaderTooLarge); }
          break;
        }
        var contentLength := ParseContentLength(buffer[..headerEnd.value]);
        if contentLength.Failure? { return Failure(contentLength.error); }
        if contentLength.value > maxFrameBytes { return Failure(FrameTooLarge); }
        var bodyStart := headerEnd.value + 4;
        var bodyEnd := bodyStart + contentLength.value;
        if |buffer| < bodyEnd { break; }
        ghost var d := Drain(buffer[bodyEnd..], maxFrameBytes);
        assert frames + ([buffer[bodyStart..bodyEnd]] + d.frames) == (frames + [buffer[bodyStart..bodyEnd]]) + d.frames;
        frames := frames + [buffer[bodyStart..bodyEnd]];
        buffer := buffer[bodyEnd..];
      }
      assert frames + [] == frames;
      return Success(frames);
    }

    method Reset()
      modifies this
      ensures buffer == []
    {
      buffer := [];
    }
  }

  // ---------- What the frames mean ----------

  /** The terminator behind the header h is the first one. */
  ghost predicate FreeOfTerminator(h: seq<byte>) {
    forall j :: 0 <= j < |h| ==> !TerminatorAt(h + TERMINATOR, j)
  }

  /** `stream` is a run of headers, each announcing the length of the body behind it, and then `rest`. */
  ghost predicate Framing(stream: seq<byte>, headers: seq<seq<byte>>, frames: seq<seq<byte>>, rest: seq<byte>)
    decreases |frames|
  {
    if headers == [] || frames == [] then headers == [] && frames == [] && stream == rest
    else
      var h, f := headers[0], frames[0];
      && FreeOfTerminator(h)
      && ContentLength(SplitLines(Ascii(h)), None) == Success(|f|)
      && |h| + 4 + |f| <= |stream|
      && stream[..|h| + 4 + |f|] == h + TERMINATOR + f
      && Framing(stream[|h| + 4 + |f|..], headers[1..], frames[1..], rest)
  }

  /** The front frame is a header free of terminators, a terminator, and as many bytes as the header says. */
  lemma FrontIsHeaderAndBody(buf: seq<byte>, maxFrameBytes: nat)
    requires FrontOf(buf, maxFrameBytes).Frame?
    ensures var Frame(s, e) := FrontOf(buf, maxFrameBytes);
            && buf[..e] == buf[..s - 4] + TERMINATOR + buf[s..e]
            && FreeOfTerminator(buf[..s - 4])
            && ContentLength(SplitLines(Ascii(buf[..s - 4])), None) == Success(e - s)
            && e - s <= maxFrameBytes
  {
    hide ContentLength, SplitLines, IndexOfTerminator;
    var Frame(s, e) := FrontOf(buf, maxFrameBytes);
    var h := buf[..s - 4];
    assert buf[s - 4..s] == TERMINATOR;
    assert h + TERMINATOR == buf[..s];
    assert forall j :: 0 <= j < s - 4 ==> TerminatorAt(buf[..s], j) ==> TerminatorAt(buf, j);
  }

  /** Every byte taken from the buffer belongs to a header or to a frame; none is lost or invented. */
  lemma {:induction false} DrainSound(buf: seq<byte>, maxFrameBytes: nat) returns (headers: seq<seq<byte>>)
    ensures var d := Drain(buf, maxFrameBytes);
            && Framing(buf, headers, d.frames, d.rest)
            && (forall k :: 0 <= k < |d.frames| ==> |d.frames[k]| <= maxFrameBytes)
            && !FrontOf(d.rest, maxFrameBytes).Frame?
    decreases |buf|
  {
    hide FrontOf, ContentLength, SplitLines, Ascii, FreeOfTerminator;
    match FrontOf(buf, maxFrameBytes)
    case Incomplete => headers := [];
    case Bad(_) => headers := [];
    case Frame(s, e) =>
      FrontIsHeaderAndBody(buf, maxFrameBytes);
      var h, f := buf[..s - 4], buf[s..e];
      var d := Drain(buf[e..], maxFrameBytes);
      var tail := DrainSound(buf[e..], maxFrameBytes);
      headers := [h] + tail;
      assert headers[1..] == tail && ([f] + d.frames)[1..] == d.frames;
      assert |h| + 4 + |f| == e;
  }

  /** A complete frame at the front stays the same frame however many bytes follow. */
  lemma FrontExtends(buf: seq<byte>, more: seq<byte>, maxFrameBytes: nat)
    ensures IndexOfTerminator(buf, 0).Some? ==> IndexOfTerminator(buf + more, 0) == IndexOfTerminator(buf, 0)
    ensures FrontOf(buf, maxFrameBytes).Frame? ==> FrontOf(buf + more, maxFrameBytes) == FrontOf(buf, maxFrameBytes)
    ensures FrontOf(buf, maxFrameBytes).Bad? && FrontOf(buf, maxFrameBytes).error != HeaderTooLarge ==>
              FrontOf(buf + more, maxFrameBytes) == FrontOf(buf, maxFrameBytes)
  {
    var at := IndexOfTerminator(buf, 0);
    if at.Some? {
      var i := at.value;
      assert forall j {:trigger TerminatorAt(buf + more, j)} :: 0 <= j <= i ==>
          TerminatorAt(buf + more, j) == TerminatorAt(buf, j);
      var both := IndexOfTerminator(buf + more, 0);
      assert TerminatorAt(buf + more, i);
      assert both.Some? && both.value == i;
      assert (buf + more)[..i] == buf[..i];
    }
  }

  /** Decoding in two steps equals decoding at once, as long as the first step does not throw. */
  lemma {:induction false} DrainSplit(buf: seq<byte>, more: seq<byte>, maxFrameBytes: nat)
    ensures var d := Drain(buf, maxFrameBytes);
            d.error.None? ==>
              var e := Drain(d.rest + more, maxFrameBytes);
              Drain(buf + more, maxFrameBytes) == Decoded(d.frames + e.frames, e.rest, e.error)
    decreases |buf|
  {
    hide FrontOf, IndexOfTerminator;
    match FrontOf(buf, maxFrameBytes)
    case Bad(_) =>
    case Incomplete =>
      var e := Drain(buf + more, maxFrameBytes);
      assert [] + e.frames == e.frames;
    case Frame(s, t) =>
      FrontExtends(buf, more, maxFrameBytes);
      DrainSplit(buf[t..], more, maxFrameBytes);
      assert (buf + more)[t..] == buf[t..] + more;
      assert (buf + more)[s..t] == buf[s..t];
      var d := Drain(buf[t..], maxFrameBytes);
      if d.error.None? {
        var e := Drain(d.rest + more, maxFrameBytes);
        assert [buf[s..t]] + (d.frames + e.frames) == ([buf[s..t]] + d.frames) + e.frames;
      }
  }

  /** An error other than an over-long header is there to stay. */
  lemma {:induction false} DrainErrorPersists(buf: seq<byte>, more: seq<byte>, maxFrameBytes: nat)
    requires Drain(buf, maxFrameBytes).error.Some?
    requires Drain(buf, maxFrameBytes).error != Some(HeaderTooLarge)
    ensures Drain(buf + more, maxFrameBytes).error == Drain(buf, maxFrameBytes).error
    ensures Drain(buf + more, maxFrameBytes).frames == Drain(buf, maxFrameBytes).frames
    decreases |buf|
  {
    hide FrontOf, IndexOfTerminator;
    FrontExtends(buf, more, maxFrameBytes);
    match FrontOf(buf, maxFrameBytes)
    case Bad(_) =>
    case Frame(s, t) =>
      DrainErrorPersists(buf[t..], more, maxFrameBytes);
      assert (buf + more)[t..] == buf[t..] + more;
      assert (buf + more)[s..t] == buf[s..t];
  }

  // ---------- Chunking ----------

  /** Successive pushes, up to the first one that throws. */
  function PushAll(buf: seq<byte>, chunks: seq<seq<byte>>, maxFrameBytes: nat): Decoded
    decreases |chunks|
  {
    if chunks == [] then Decoded([], buf, None)
    else
      var d := Drain(buf + chunks[0], maxFrameBytes);
      if d.error.Some? then d
      else
        var e := PushAll(d.rest, chunks[1..], maxFrameBytes);
        Decoded(d.frames + e.frames, e.rest, e.error)
  }

  /** At the boundary behind chunk k the bytes still held exceed the header bound without a terminator. */
  predicate OverlongAt(chunks: seq<seq<byte>>, k: nat, maxFrameBytes: nat)
    requires k <= |chunks|
  {
    Drain(Concat(chunks[..k]), maxFrameBytes).error == Some(HeaderTooLarge)
  }

  /** What a decoder that has read `before` and holds the leftover of it does with more chunks. */
  lemma {:induction false} PushAllFrom(before: seq<byte>, chunks: seq<seq<byte>>, maxFrameBytes: nat)
    requires Drain(before, maxFrameBytes).error.None?
    ensures var d := Drain(before, maxFrameBytes);
            var p := PushAll(d.rest, chunks, maxFrameBytes);
            && (p.error.None? ==>
                  Drain(before + Concat(chunks), maxFrameBytes) == Decoded(d.frames + p.frames, p.rest, None))
            && (p.error.None? <==>
                  forall k :: 0 <= k <= |chunks| ==> Drain(before + Concat(chunks[..k]), maxFrameBytes).error.None?)
    decreases |chunks|
  {
    hide FrontOf, Drain;
    var d := Drain(before, maxFrameBytes);
    if chunks == [] {
      assert before + Concat(chunks) == before;
      assert d.frames + [] == d.frames;
      DrainRestStable(before, maxFrameBytes);
      assert forall k :: 0 <= k <= |chunks| ==> before + Concat(chunks[..k]) == before;
    } else {
      var c := chunks[0];
      DrainSplit(before, c, maxFrameBytes);
      var e := Drain(d.rest + c, maxFrameBytes);
      var next := before + c;
      assert before + Concat(chunks[..1]) == next by { assert chunks[..1] == [c]; assert Concat([c]) == c + []; }
      if e.error.Some? {
        assert Drain(before + Concat(chunks[..1]), maxFrameBytes).error.Some?;
      } else {
        PushAllFrom(next, chunks[1..], maxFrameBytes);
        var p := PushAll(e.rest, chunks[1..], maxFrameBytes);
        assert Drain(next, maxFrameBytes) == Decoded(d.frames + e.frames, e.rest, None);
        assert next + Concat(chunks[1..]) == before + Concat(chunks);
        assert (d.frames + e.frames) + p.frames == d.frames + (e.frames + p.frames);
        forall k | 0 <= k <= |chunks|
          ensures k > 0 ==> before + Concat(chunks[..k]) == next + Concat(chunks[1..][..k - 1])
          ensures k == 0 ==> before + Concat(chunks[..k]) == before
        {
          if k > 0 { assert chunks[..k][1..] == chunks[1..][..k - 1]; }
        }
        assert forall k :: 0 <= k <= |chunks[1..]| ==>
          next + Concat(chunks[1..][..k]) == before + Concat(chunks[..k + 1]);
      }
    }
  }

  lemma DrainRestStable(buf: seq<byte>, maxFrameBytes: nat)
    ensures var d := Drain(buf, maxFrameBytes);
            d.error.None? ==> Drain(d.rest, maxFrameBytes) == Decoded([], d.rest, None)
    decreases |buf|
  {
    match FrontOf(buf, maxFrameBytes)
    case Frame(s, e) => DrainRestStable(buf[e..], maxFrameBytes);
    case _ =>
  }

  lemma DrainNothing(maxFrameBytes: nat)
    ensures Drain([], maxFrameBytes) == Decoded([], [], None)
  {
  }

  /** A chunked run that does not throw yields the frames and the leftover of one push of the whole
      stream; it does not throw exactly when the whole push does not, and no chunk boundary leaves
      more than 64 KiB without a terminator. */
  lemma ChunkInvariance(chunks: seq<seq<byte>>, maxFrameBytes: nat)
    ensures var p := PushAll([], chunks, maxFrameBytes);
            var whole := Drain(Concat(chunks), maxFrameBytes);
            && (p.error.None? ==> p == whole)
            && (p.error.None? <==>
               whole.error.None? && forall k :: 0 <= k <= |chunks| ==> !OverlongAt(chunks, k, maxFrameBytes))
  {
    hide FrontOf, Drain;
    var none: seq<byte> := [];
    DrainNothing(maxFrameBytes);
    PushAllFrom(none, chunks, maxFrameBytes);
    var p := PushAll(none, chunks, maxFrameBytes);
    assert forall k :: 0 <= k <= |chunks| ==> none + Concat(chunks[..k]) == Concat(chunks[..k]);
    assert chunks[..|chunks|] == chunks;
    assert [] + p.frames == p.frames;
    if Drain(Concat(chunks), maxFrameBytes).error.None? {
      forall k | 0 <= k <= |chunks| && !OverlongAt(chunks, k, maxFrameBytes)
        ensures Drain(Concat(chunks[..k]), maxFrameBytes).error.None?
      {
        assert chunks == chunks[..k] + chunks[k..];
        ConcatAppend(chunks[..k], chunks[k..]);
        if Drain(Concat(chunks[..k]), maxFrameBytes).error.Some? {
          DrainErrorPersists(Concat(chunks[..k]), Concat(chunks[k..]), maxFrameBytes);
        }
      }
    }
  }

  // ---------- Encoding ----------

  function Decimal(n: nat): string {
    var digit := ('0' as int + n % 10) as char;
    if n < 10 then [digit] else Decimal(n / 10) + [digit]
  }

  predicate IsAscii(s: string) {
    forall i :: 0 <= i < |s| ==> s[i] as int < 128
  }

  function AsciiBytes(s: string): seq<byte>
    requires IsAscii(s)
  {
    seq(|s|, i requires 0 <= i < |s| => s[i] as int)
  }

  function HeaderText(n: nat): (s: string)
    ensures IsAscii(s)
  {
    DecimalDigits(n);
    "Content-Length: " + Decimal(n)
  }

  /** The frame the LSP client writes for a message body. */
  function Encode(body: seq<byte>): seq<byte> {
    AsciiBytes(HeaderText(|body|)) + TERMINATOR + body
  }

  function EncodeAll(bodies: seq<seq<byte>>): seq<byte> {
    if bodies == [] then [] else Encode(bodies[0]) + EncodeAll(bodies[1..])
  }

  predicate Sendable(body: seq<byte>, maxFrameBytes: nat) {
    |body| <= maxFrameBytes && |body| <= MAX_SAFE_INTEGER
  }

  /** Reading a printed number back gives the number. */
  lemma {:induction false} DecimalDigits(n: nat)
    ensures Decimal(n) != []
    ensures forall i :: 0 <= i < |Decimal(n)| ==> IsDigit(Decimal(n)[i])
    ensures DecimalValue(Decimal(n)) == n
  {
    if n >= 10 {
      DecimalDigits(n / 10);
      assert Decimal(n)[..|Decimal(n)| - 1] == Decimal(n / 10);
    }
  }

  function Pow10(k: nat): nat { if k == 0 then 1 else 10 * Pow10(k - 1) }

  lemma {:induction false} DecimalLength(n: nat, k: nat)
    requires k > 0 && n < Pow10(k)
    ensures |Decimal(n)| <= k
  {
    if n >= 10 { DecimalLength(n / 10, k - 1); }
  }

  lemma {:induction false} AllDigits(s: string)
    requires forall i :: 0 <= i < |s| ==> IsDigit(s[i])
    ensures DigitRun(s) == |s|
  {
    if s != [] { AllDigits(s[1..]); }
  }

  lemma HeaderLength(n: nat)
    requires n <= MAX_SAFE_INTEGER
    ensures |HeaderText(n)| <= 32
  {
    assert Pow10(8) == 100_000_000;
    assert Pow10(16) == 10_000_000_000_000_000 by {
      assert Pow10(12) == 10_000 * Pow10(8);
      assert Pow10(16) == 10_000 * Pow10(12);
    }
    DecimalLength(n, 16);
  }

  lemma OneLine(s: string)
    requires forall i :: 0 <= i < |s| ==> s[i] != '\r'
    ensures SplitLines(s) == [s]
  {
  }

  lemma TwoLines(a: string, b: string)
    requires forall i :: 0 <= i < |a| ==> a[i] != '\r'
    requires forall i :: 0 <= i < |b| ==> b[i] != '\r'
    ensures SplitLines(a + ['\r', '\n'] + b) == [a, b]
  {
    var s := a + ['\r', '\n'] + b;
    assert forall j :: 0 <= j < |a| ==> s[j] == a[j];
    assert CrlfAt(s, |a|);
    assert s[..|a|] == a && s[|a| + 2..] == b;
    OneLine(b);
  }

  lemma HeaderField(n: nat)
    ensures LengthField(HeaderText(n)) == Some(n)
  {
    var text, digits := HeaderText(n), Decimal(n);
    DecimalDigits(n);
    AllDigits(digits);
    hide DigitRun, DecimalValue, Decimal;
    assert LowerAll(text[..|FIELD|]) == FIELD;
    assert text[|FIELD|..] == [' '] + digits;
    assert ([' '] + digits)[1..] == digits;
    assert SkipSpaces([' '] + digits) == digits;
    assert digits[|digits|..] == [] && digits[..|digits|] == digits;
  }

  lemma HeaderDeclares(n: nat)
    requires n <= MAX_SAFE_INTEGER
    ensures ContentLength(SplitLines(HeaderText(n)), None) == Success(n)
  {
    var text := HeaderText(n);
    DecimalDigits(n);
    assert forall i :: 0 <= i < |text| ==> text[i] != '\r';
    OneLine(text);
    HeaderField(n);
    SingleLine(text, n);
  }

  lemma SingleLine(line: string, n: nat)
    requires LengthField(line) == Some(n) && n <= MAX_SAFE_INTEGER
    ensures ContentLength([line], None) == Success(n)
  {
    hide LengthField;
    ContentLengthUnique([line], n);
    assert [line][0] == line;
  }

  /** The decoder finds the frame that the client wrote, whatever follows it. */
  lemma FrontOfEncoded(body: seq<byte>, more: seq<byte>, maxFrameBytes: nat)
    requires Sendable(body, maxFrameBytes)
    ensures var h := |HeaderText(|body|)|;
            FrontOf(Encode(body) + more, maxFrameBytes) == Frame(h + 4, h + 4 + |body|)
  {
    hide ContentLength, SplitLines, HeaderText;
    var text := HeaderText(|body|);
    var h := AsciiBytes(text);
    HeaderFreeOfTerminator(|body|, body + more);
    assert Encode(body) + more == h + TERMINATOR + (body + more);
    assert (h + TERMINATOR + (body + more))[..|h|] == h;
    assert Ascii(h) == text;
    HeaderDeclares(|body|);
  }

  lemma HeaderFreeOfTerminator(n: nat, more: seq<byte>)
    ensures var h := AsciiBytes(HeaderText(n));
            IndexOfTerminator(h + TERMINATOR + more, 0) == Some(|h|)
  {
    var h := AsciiBytes(HeaderText(n));
    DecimalDigits(n);
    var all := h + TERMINATOR + more;
    assert forall i :: 0 <= i < |h| ==> all[i] != CR;
    assert TerminatorAt(all, |h|);
  }

  lemma {:induction false} DrainEncoded(bodies: seq<seq<byte>>, maxFrameBytes: nat)
    requires forall k :: 0 <= k < |bodies| ==> Sendable(bodies[k], maxFrameBytes)
    ensures Drain(EncodeAll(bodies), maxFrameBytes) == Decoded(bodies, [], None)
  {
    hide FrontOf, Drain, HeaderText;
    if bodies == [] {
      DrainNothing(maxFrameBytes);
    } else {
      var body, tail := bodies[0], EncodeAll(bodies[1..]);
      FrontOfEncoded(body, tail, maxFrameBytes);
      DrainStep(EncodeAll(bodies), maxFrameBytes);
      DrainEncoded(bodies[1..], maxFrameBytes);
      assert EncodeAll(bodies)[|Encode(body)|..] == tail;
      assert EncodeAll(bodies)[|Encode(body)| - |body|..|Encode(body)|] == body;
      assert [body] + bodies[1..] == bodies;
    }
  }

  /** No cut of an encoded stream leaves an over-long header behind. */
  lemma {:induction false} EncodedPrefixAccepted(bodies: seq<seq<byte>>, n: nat, maxFrameBytes: nat)
    requires forall k :: 0 <= k < |bodies| ==> Sendable(bodies[k], maxFrameBytes)
    requires n <= |EncodeAll(bodies)|
    ensures Drain(EncodeAll(bodies)[..n], maxFrameBytes).error.None?
  {
    hide FrontOf, Drain, HeaderText;
    var p := EncodeAll(bodies)[..n];
    if bodies == [] {
      assert p == [];
      DrainNothing(maxFrameBytes);
    } else {
      var front, tail := Encode(bodies[0]), EncodeAll(bodies[1..]);
      DrainStep(p, maxFrameBytes);
      if n >= |front| {
        FrontOfEncoded(bodies[0], tail[..n - |front|], maxFrameBytes);
        assert p == front + tail[..n - |front|];
        assert p[|front|..] == tail[..n - |front|];
        EncodedPrefixAccepted(bodies[1..], n - |front|, maxFrameBytes);
      } else {
        assert p == front[..n];
        PartialFrameIncomplete(bodies[0], n, maxFrameBytes);
      }
    }
  }

  lemma PartialFrameIncomplete(body: seq<byte>, n: nat, maxFrameBytes: nat)
    requires Sendable(body, maxFrameBytes) && n < |Encode(body)|
    ensures FrontOf(Encode(body)[..n], maxFrameBytes) == Incomplete
  {
    hide ContentLength, SplitLines, HeaderText;
    var h := AsciiBytes(HeaderText(|body|));
    var p := Encode(body)[..n];
    HeaderLength(|body|);
    HeaderFreeOfTerminator(|body|, body);
    assert forall j {:trigger TerminatorAt(p, j)} :: TerminatorAt(p, j) ==> TerminatorAt(Encode(body), j);
    if n >= |h| + 4 {
      assert TerminatorAt(p, |h|);
      assert p[..|h|] == h;
      assert Ascii(h) == HeaderText(|body|);
      HeaderDeclares(|body|);
    } else {
      assert IndexOfTerminator(p, 0).None?;
    }
  }

  /** Framing round trip: however the encoded bodies are cut into chunks, the decoder returns
      exactly those bodies, in order, and its buffer ends empty. */
  lemma RoundTrip(bodies: seq<seq<byte>>, chunks: seq<seq<byte>>, maxFrameBytes: nat)
    requires forall k :: 0 <= k < |bodies| ==>
               |bodies[k]| <= maxFrameBytes && |bodies[k]| <= 0x1F_FFFF_FFFF_FFFF
    requires Concat(chunks) == EncodeAll(bodies)
    ensures PushAll([], chunks, maxFrameBytes) == Decoded(bodies, [], None)
  {
    hide FrontOf, Drain, PushAll, EncodeAll;
    DrainEncoded(bodies, maxFrameBytes);
    ChunkInvariance(chunks, maxFrameBytes);
    forall k | 0 <= k <= |chunks|
      ensures !OverlongAt(chunks, k, maxFrameBytes)
    {
      assert chunks == chunks[..k] + chunks[k..];
      ConcatAppend(chunks[..k], chunks[k..]);
      var n := |Concat(chunks[..k])|;
      assert EncodeAll(bodies)[..n] == Concat(chunks[..k]);
      EncodedPrefixAccepted(bodies, n, maxFrameBytes);
    }
  }

  // ---------- The header bound is checked at chunk boundaries only ----------

  function Padding(): seq<byte> { seq(MAX_HEADER_BYTES, _ => 'X' as int) }

  function LongHeader(): seq<byte> { AsciiBytes(HeaderText(0)) + [CR, LF] + Padding() }

  lemma LongHeaderLines()
    ensures SplitLines(Ascii(LongHeader())) == [HeaderText(0), Ascii(Padding())]
  {
    var pad := Ascii(Padding());
    DecimalDigits(0);
    hide HeaderText;
    assert Ascii(LongHeader()) == HeaderText(0) + ['\r', '\n'] + pad;
    HeaderHasNoCr();
    TwoLines(HeaderText(0), pad);
  }

  lemma HeaderHasNoCr()
    ensures forall i :: 0 <= i < |HeaderText(0)| ==> HeaderText(0)[i] != '\r'
  {
    DecimalDigits(0);
  }

  lemma PaddingDeclaresNothing()
    ensures LengthField(Ascii(Padding())) == None
  {
    var pad := Ascii(Padding());
    assert LowerAll(pad[..|FIELD|])[0] == 'x';
  }

  lemma LongHeaderDeclaresZero()
    ensures ContentLength(SplitLines(Ascii(LongHeader())), None) == Success(0)
  {
    hide LengthField, Padding, HeaderText;
    var lines := [HeaderText(0), Ascii(Padding())];
    LongHeaderLines();
    PaddingDeclaresNothing();
    HeaderField(0);
    ContentLengthUnique(lines, 0);
    assert LengthField(lines[0]) == Some(0);
  }

  lemma LongHeaderFronts()
    ensures var stream := LongHeader() + TERMINATOR;
            FrontOf(stream, 0) == Frame(|stream|, |stream|) && FrontOf(LongHeader(), 0) == Bad(HeaderTooLarge)
  {
    var h := LongHeader();
    var stream := h + TERMINATOR;
    LongHeaderDeclaresZero();
    LongHeaderBytes();
    hide ContentLength, SplitLines, LongHeader, Padding;
    assert forall j :: 0 <= j < |h| ==> !TerminatorAt(stream, j);
    assert TerminatorAt(stream, |h|);
    assert forall j {:trigger TerminatorAt(h, j)} :: !TerminatorAt(h, j);
    assert stream[..|h|] == h;
  }

  lemma LongHeaderBytes()
    ensures var h := LongHeader();
            |h| > MAX_HEADER_BYTES && forall i :: 0 <= i < |h| && h[i] == CR ==> i + 2 < |h| && h[i + 2] != CR
  {
    HeaderHasNoCr();
  }

  /** The same stream decodes in one push and throws when cut before its terminator. */
  lemma HeaderBoundDependsOnChunks()
    ensures var stream := LongHeader() + TERMINATOR;
            && PushAll([], [stream], 0) == Decoded([[]], [], None)
            && PushAll([], [LongHeader(), TERMINATOR], 0).error == Some(HeaderTooLarge)
  {
    var h := LongHeader();
    var stream := h + TERMINATOR;
    LongHeaderFronts();
    hide FrontOf, LongHeader, Drain;
    DrainStep(stream, 0);
    DrainStep(h, 0);
    DrainNothing(0);
    assert [] + stream == stream && [] + h == h;
    assert stream[|stream|..] == [] && stream[|stream|..|stream|] == [];
  }
}
