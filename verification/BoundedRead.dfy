/** Windows of a text file: byte ranges that never split a character, and the paging built on them. */
module BoundedRead {
  import opened Arithmetic
  import opened Bytes
  import opened Wrappers
  import Text

  const MAX_FS_READ_BYTES := 1024 * 1024
  const STREAM_CHUNK_BYTES := 64 * 1024
  const BINARY_SAMPLE_BYTES := 1024

  datatype Encoding = Utf8 | Utf16(bigEndian: bool)

  /** An encoding together with the length of the byte-order mark that revealed it. */
  datatype Detected = Detected(encoding: Encoding, bomLength: nat)

  // ---------- Characters (RFC 3629 section 4, RFC 2781 section 2.2) ----------

  predicate In(f: seq<byte>, i: nat, lo: int, hi: int) { i < |f| && lo <= f[i] <= hi }

  predicate IsUtf8Continuation(b: byte) { 0x80 <= b <= 0xBF }

  predicate Continuations(f: seq<byte>, i: nat, n: nat) {
    i + n <= |f| && forall k :: i <= k < i + n ==> IsUtf8Continuation(f[k])
  }

  /** Width of the well-formed UTF-8 character at i; 0 when there is none. */
  function Utf8Char(f: seq<byte>, i: nat): (w: nat)
    ensures i + w <= Max(i, |f|) && w <= 4
  {
    if In(f, i, 0x00, 0x7F) then 1
    else if In(f, i, 0xC2, 0xDF) && Continuations(f, i + 1, 1) then 2
    else if In(f, i, 0xE0, 0xEF) && Continuations(f, i + 1, 2) &&
            (f[i] == 0xE0 ==> f[i + 1] >= 0xA0) && (f[i] == 0xED ==> f[i + 1] <= 0x9F) then 3
    else if In(f, i, 0xF0, 0xF4) && Continuations(f, i + 1, 3) &&
            (f[i] == 0xF0 ==> f[i + 1] >= 0x90) && (f[i] == 0xF4 ==> f[i + 1] <= 0x8F) then 4
    else 0
  }

  function CodeUnitAt(f: seq<byte>, i: nat, bigEndian: bool): (u: nat)
    requires i + 2 <= |f|
    ensures u < 0x10000
  {
    var first: int, second: int := f[i], f[i + 1];
    if bigEndian then 256 * first + second else first + 256 * second
  }

  /** Width of the well-formed UTF-16 character at i; 0 when there is none. */
  function Utf16Char(f: seq<byte>, i: nat, bigEndian: bool): (w: nat)
    ensures i + w <= Max(i, |f|) && (w == 0 || w == 2 || w == 4)
  {
    if i + 2 > |f| || Text.IsLow(CodeUnitAt(f, i, bigEndian)) then 0
    else if !Text.IsHigh(CodeUnitAt(f, i, bigEndian)) then 2
    else if i + 4 <= |f| && Text.IsLow(CodeUnitAt(f, i + 2, bigEndian)) then 4
    else 0
  }

  function CharWidth(enc: Encoding, f: seq<byte>, i: nat): (w: nat)
    ensures i + w <= Max(i, |f|) && w <= 4
  {
    if enc.Utf8? then Utf8Char(f, i) else Utf16Char(f, i, enc.bigEndian)
  }

  /** From i to the end the file is a run of well-formed characters. */
  predicate WellFormed(enc: Encoding, f: seq<byte>, i: nat)
    decreases |f| - i
  {
    i == |f| || (CharWidth(enc, f, i) > 0 && WellFormed(enc, f, i + CharWidth(enc, f, i)))
  }

  /** Walking character by character from `from` one arrives at i. */
  predicate Boundary(enc: Encoding, f: seq<byte>, from: nat, i: nat)
    decreases |f| - from
  {
    i == from || (from < i && CharWidth(enc, f, from) > 0 && Boundary(enc, f, from + CharWidth(enc, f, from), i))
  }

  /** The last character boundary at or before i. */
  function Floor(enc: Encoding, f: seq<byte>, from: nat, i: nat): (r: nat)
    requires from <= i
    ensures from <= r <= i
    ensures Boundary(enc, f, from, r)
    decreases |f| - from
  {
    var w := CharWidth(enc, f, from);
    if w == 0 || from + w > i then from else Floor(enc, f, from + w, i)
  }

  lemma {:induction false} BoundaryTransitive(enc: Encoding, f: seq<byte>, a: nat, b: nat, c: nat)
    requires Boundary(enc, f, a, b)
    ensures Boundary(enc, f, b, c) ==> Boundary(enc, f, a, c)
    ensures Boundary(enc, f, a, c) && b <= c ==> Boundary(enc, f, b, c)
    decreases |f| - a
  {
    if a != b { BoundaryTransitive(enc, f, a + CharWidth(enc, f, a), b, c); }
  }

  lemma BoundaryHere(enc: Encoding, f: seq<byte>, a: nat)
    ensures Boundary(enc, f, a, a)
  {
  }

  lemma BoundaryStep(enc: Encoding, f: seq<byte>, a: nat, b: nat)
    requires Boundary(enc, f, a, b) && CharWidth(enc, f, b) > 0
    ensures Boundary(enc, f, a, b + CharWidth(enc, f, b))
  {
    BoundaryHere(enc, f, b + CharWidth(enc, f, b));
    BoundaryTransitive(enc, f, a, b, b + CharWidth(enc, f, b));
  }

  lemma {:induction false} WellFormedFromBoundary(enc: Encoding, f: seq<byte>, a: nat, b: nat)
    requires WellFormed(enc, f, a) && Boundary(enc, f, a, b) && b <= |f|
    ensures WellFormed(enc, f, b) && Boundary(enc, f, b, |f|) && Boundary(enc, f, a, |f|)
    decreases |f| - a
  {
    if a != b { WellFormedFromBoundary(enc, f, a + CharWidth(enc, f, a), b); }
    else if b < |f| {
      var c := b + CharWidth(enc, f, b);
      WellFormedFromBoundary(enc, f, c, c);
    }
  }

  /** Nothing between the floor of i and i is a boundary. */
  lemma {:induction false} FloorIsLast(enc: Encoding, f: seq<byte>, from: nat, i: nat, j: nat)
    requires from <= i && Boundary(enc, f, from, j) && j <= i
    ensures j <= Floor(enc, f, from, i)
    decreases |f| - from
  {
    if j != from { FloorIsLast(enc, f, from + CharWidth(enc, f, from), i, j); }
  }

  lemma {:induction false} FloorNear(enc: Encoding, f: seq<byte>, from: nat, i: nat)
    requires WellFormed(enc, f, from) && from <= i <= |f|
    ensures Floor(enc, f, from, i) + 4 > i
    ensures Boundary(enc, f, from, i) <==> Floor(enc, f, from, i) == i
    decreases |f| - from
  {
    if from < |f| && from + CharWidth(enc, f, from) <= i { FloorNear(enc, f, from + CharWidth(enc, f, from), i); }
  }

  lemma {:induction false} Utf8BoundaryByte(f: seq<byte>, from: nat, i: nat)
    requires WellFormed(Utf8, f, from) && from <= i < |f|
    ensures Boundary(Utf8, f, from, i) <==> !IsUtf8Continuation(f[i])
    decreases |f| - from
  {
    var w := Utf8Char(f, from);
    if from + w <= i { Utf8BoundaryByte(f, from + w, i); }
  }

  lemma {:induction false} Utf16BoundaryEven(f: seq<byte>, be: bool, from: nat, i: nat)
    requires Boundary(Utf16(be), f, from, i)
    ensures (i - from) % 2 == 0 && from <= i
    decreases |f| - from
  {
    if i != from { Utf16BoundaryEven(f, be, from + Utf16Char(f, from, be), i); }
  }

  lemma {:induction false} FloorUnchanged(enc: Encoding, f: seq<byte>, from: nat, lo: nat, hi: nat)
    requires from <= lo <= hi
    requires forall j :: lo < j <= hi ==> !Boundary(enc, f, from, j)
    ensures Floor(enc, f, from, hi) == Floor(enc, f, from, lo)
  {
    var h := Floor(enc, f, from, hi);
    FloorIsLast(enc, f, from, hi, Floor(enc, f, from, lo));
    FloorIsLast(enc, f, from, lo, h);
  }

  // ---------- Range alignment on the retained candidate bytes ----------

  function Utf8Width(b: byte): nat {
    if b <= 0x7F then 1
    else if 0xC2 <= b <= 0xDF then 2
    else if 0xE0 <= b <= 0xEF then 3
    else if 0xF0 <= b <= 0xF4 then 4
    else 0
  }

  function ByteAt(candidate: seq<byte>, candidateStart: nat, absolute: nat): Option<byte> {
    var index := absolute - candidateStart;
    if 0 <= index < |candidate| then Some(candidate[index]) else None
  }

  /** The retained bytes: the requested window and up to four bytes on either side of it. */
  ghost predicate Retained(f: seq<byte>, candidate: seq<byte>, candidateStart: nat, offset: nat, endLimit: nat) {
    && offset <= endLimit <= |f|
    && candidateStart == Max(0, offset - 4)
    && candidate == f[candidateStart..Min(|f|, endLimit + 4)]
  }

  /** In a well-formed file the lead byte alone tells the width of its character. */
  lemma Utf8CharHere(f: seq<byte>, i: nat)
    requires WellFormed(Utf8, f, i) && i < |f|
    ensures var w := Utf8Width(f[i]);
            w == CharWidth(Utf8, f, i) > 0 && i + w <= |f| && WellFormed(Utf8, f, i + w) &&
                Continuations(f, i + 1, w - 1)
  {
  }

  /** Aligns a UTF-8 window: its start is the last boundary at or before the requested offset, its
      end the last boundary at or before the byte limit. */
  method SafeUtf8Range(candidate: seq<byte>, candidateStart: nat, offset: nat, endLimit: nat, ghost f: seq<byte>)
    returns (start: nat, end: nat)
    requires WellFormed(Utf8, f, 0) && Retained(f, candidate, candidateStart, offset, endLimit)
    ensures start == Floor(Utf8, f, 0, offset)
    ensures end == Floor(Utf8, f, start, Min(endLimit, start + (endLimit - offset)))
  {
    hide WellFormed, Boundary, CharWidth, Floor, Utf8Width;
    start := offset;
    while start > candidateStart
      invariant candidateStart <= start <= offset
      invariant forall j :: start < j <= offset ==> !Boundary(Utf8, f, 0, j)
    {
      var b := ByteAt(candidate, candidateStart, start);
      if b.None? || !IsUtf8Continuation(b.value) { break; }
      Utf8BoundaryByte(f, 0, start);
      start := start - 1;
    }
    StartIsFloor(f, candidateStart, start, offset);

    var limit := Min(endLimit, start + (endLimit - offset));
    end := limit;
    var cursor := start;
    WellFormedFromBoundary(Utf8, f, 0, start);
    BoundaryHere(Utf8, f, start);
    while cursor < end
      invariant start <= cursor <= end == limit
      invariant WellFormed(Utf8, f, cursor) && Boundary(Utf8, f, start, cursor)
    {
      var first := ByteAt(candidate, candidateStart, cursor);
      if first.None? { break; }
      var width := Utf8Width(first.value);
      Utf8CharHere(f, cursor);
      if width == 0 { cursor := cursor + 1; continue; }
      if cursor + width > end {
        StepToFloor(Utf8, f, start, cursor, end);
        end := cursor;
        return;
      }
      var valid := true;
      var i := 1;
      while i < width
        invariant 1 <= i <= width && valid
      {
        var next := ByteAt(candidate, candidateStart, cursor + i);
        assert next == Some(f[cursor + i]) && IsUtf8Continuation(f[cursor + i]);
        if next.None? || !IsUtf8Continuation(next.value) { valid := false; break; }
        i := i + 1;
      }
      assert valid;
      BoundaryStep(Utf8, f, start, cursor);
      cursor := cursor + if valid then width else 1;
    }
    FloorIsLast(Utf8, f, start, limit, cursor);
  }

  /** The first byte before the window that is no continuation byte opens the character holding `offset`. */
  lemma StartIsFloor(f: seq<byte>, candidateStart: nat, start: nat, offset: nat)
    requires WellFormed(Utf8, f, 0) && offset <= |f| && candidateStart == Max(0, offset - 4)
    requires candidateStart <= start <= offset
    requires forall j :: start < j <= offset ==> !Boundary(Utf8, f, 0, j)
    requires start == candidateStart || start == |f| || !IsUtf8Continuation(f[start])
    ensures start == Floor(Utf8, f, 0, offset)
  {
    FloorNear(Utf8, f, 0, offset);
    if start == |f| {
      WellFormedFromBoundary(Utf8, f, 0, 0);
    } else if !IsUtf8Continuation(f[start]) {
      Utf8BoundaryByte(f, 0, start);
    }
    if Boundary(Utf8, f, 0, start) { FloorIsLast(Utf8, f, 0, offset, start); }
  }

  /** A character that sticks out of the window leaves its own start as the last boundary inside. */
  lemma {:induction false} StepToFloor(enc: Encoding, f: seq<byte>, from: nat, cursor: nat, end: nat)
    requires Boundary(enc, f, from, cursor) && from <= cursor <= end < cursor + CharWidth(enc, f, cursor)
    ensures Floor(enc, f, from, end) == cursor
    decreases |f| - from
  {
    if from != cursor { StepToFloor(enc, f, from + CharWidth(enc, f, from), cursor, end); }
  }

  function ReadUtf16CodeUnit(candidate: seq<byte>, candidateStart: nat, absolute: nat, bigEndian: bool): Option<nat> {
    var first, second := ByteAt(candidate, candidateStart, absolute), ByteAt(candidate, candidateStart, absolute + 1);
    if first.None? || second.None? then None
    else
      var a: int, b: int := first.value, second.value;
      Some(if bigEndian then 256 * a + b else a + 256 * b)
  }

  /** Start of a UTF-16 window: behind the byte-order mark and on a whole code unit. */
  function Utf16Start(offset: nat): (start: nat)
    ensures start >= 2 && (start - 2) % 2 == 0 && Max(offset, 2) - 1 <= start <= Max(offset, 2)
  {
    var s := Max(offset, 2);
    if (s - 2) % 2 != 0 then s - 1 else s
  }

  lemma Utf16CharHere(f: seq<byte>, i: nat, bigEndian: bool)
    requires WellFormed(Utf16(bigEndian), f, i) && i + 2 <= |f|
    ensures var w := CharWidth(Utf16(bigEndian), f, i);
            var u := CodeUnitAt(f, i, bigEndian);
            && WellFormed(Utf16(bigEndian), f, i + w)
            && w == (if Text.IsHigh(u) then 4 else 2)
            && (Text.IsHigh(u) ==> i + 4 <= |f| && Text.IsLow(CodeUnitAt(f, i + 2, bigEndian)))
  {
  }

  /** No boundary lies an odd number of bytes behind a boundary. */
  lemma EvenFloor(f: seq<byte>, bigEndian: bool, start: nat, aligned: nat, limit: nat)
    requires start <= aligned <= limit <= aligned + 1 && (aligned - start) % 2 == 0
    ensures Floor(Utf16(bigEndian), f, start, limit) == Floor(Utf16(bigEndian), f, start, aligned)
  {
    hide Boundary, Floor;
    forall j | aligned < j <= limit ensures !Boundary(Utf16(bigEndian), f, start, j) {
      if Boundary(Utf16(bigEndian), f, start, j) { Utf16BoundaryEven(f, bigEndian, start, j); }
    }
    FloorUnchanged(Utf16(bigEndian), f, start, aligned, limit);
  }

  method SafeUtf16Range(
      candidate: seq<byte>, candidateStart: nat, offset: nat, endLimit: nat, bigEndian: bool, ghost f: seq<byte>)
    returns (start: nat, end: nat)
    requires 2 <= |f| && WellFormed(Utf16(bigEndian), f, 2) && Retained(f, candidate, candidateStart, offset, endLimit)
    ensures start == Utf16Start(offset) && start <= end <= Max(start, endLimit)
    ensures Boundary(Utf16(bigEndian), f, 2, start) ==>
              end == Floor(Utf16(bigEndian), f, start, Min(Max(start, endLimit), start + (endLimit - offset)))
    ensures start + 2 <= Min(endLimit, start + (endLimit - offset)) && !Text.IsHigh(CodeUnitAt(f, start, bigEndian)) ==>
              start + 2 <= end
    ensures Min(Max(start, endLimit), start + (endLimit - offset)) < start + 2 ==> end == start
  {
    hide WellFormed, Boundary, CharWidth, Floor;
    start := Max(offset, 2);
    if (start - 2) % 2 != 0 { start := start - 1; }
    var limit := Min(Max(start, endLimit), start + (endLimit - offset));
    end := limit;
    if (end - 2) % 2 != 0 { end := end - 1; }
    if end < start { end := start; }
    if Boundary(Utf16(bigEndian), f, 2, start) { EvenFloor(f, bigEndian, start, end, limit); }
    end := PullBackFromPair(candidate, candidateStart, start, end, bigEndian, f);
  }

  /** The scan of SafeUtf16Range: gives up the last code unit when it opens a pair the window cuts. */
  method PullBackFromPair(
      candidate: seq<byte>, candidateStart: nat, start: nat, limit: nat, bigEndian: bool, ghost f: seq<byte>)
    returns (end: nat)
    requires 2 <= |f| && WellFormed(Utf16(bigEndian), f, 2)
    requires candidateStart <= start <= limit && (limit - start) % 2 == 0
    requires candidateStart <= |f| && candidate <= f[candidateStart..]
    requires limit > start ==> limit <= |f| && candidateStart + |candidate| >= Min(|f|, limit + 4)
    ensures start <= end <= limit
    ensures Boundary(Utf16(bigEndian), f, 2, start) ==> end == Floor(Utf16(bigEndian), f, start, limit)
    ensures start < limit && !Text.IsHigh(CodeUnitAt(f, start, bigEndian)) ==> start + 2 <= end
  {
    hide WellFormed, Boundary, CharWidth, Floor;
    ghost var enc := Utf16(bigEndian);
    ghost var whole := Boundary(enc, f, 2, start) && start <= |f|;
    if whole {
      WellFormedFromBoundary(enc, f, 2, start);
      BoundaryHere(enc, f, start);
    } else if limit == start {
      BoundaryHere(enc, f, start);
      FloorIsLast(enc, f, start, limit, start);
    }
    var cursor := start;
    end := limit;
    ghost var inPair := false;
    while cursor + 1 < end
      invariant start <= cursor <= end == limit && (end - cursor) % 2 == 0
      invariant whole && !inPair ==> WellFormed(enc, f, cursor) && Boundary(enc, f, start, cursor)
      invariant whole && inPair ==>
                cursor + 2 <= end && WellFormed(enc, f, cursor + 2) && Boundary(enc, f, start, cursor + 2)
      invariant whole && inPair ==> Text.IsLow(CodeUnitAt(f, cursor, bigEndian))
      invariant start < limit && !Text.IsHigh(CodeUnitAt(f, start, bigEndian)) ==>
                cursor == start || start + 2 <= cursor
    {
      var code := ReadUtf16CodeUnit(candidate, candidateStart, cursor, bigEndian);
      if code.None? { break; }
      assert code.value == CodeUnitAt(f, cursor, bigEndian);
      if whole && !inPair { Utf16CharHere(f, cursor, bigEndian); }
      if Text.IsHigh(code.value) {
        var next := ReadUtf16CodeUnit(candidate, candidateStart, cursor + 2, bigEndian);
        if next.None? || cursor + 3 >= end {
          if whole { StepToFloor(enc, f, start, cursor, end); }
          end := cursor;
          return;
        }
      }
      if whole {
        if !inPair { BoundaryStep(enc, f, start, cursor); }
        inPair := Text.IsHigh(code.value);
      }
      cursor := cursor + 2;
    }
    if whole { FloorIsLast(enc, f, start, limit, cursor); }
  }

  // ---------- Reading one window ----------

  datatype ReadError = OutOfRange | Binary | BadEncoding

  /** A returned byte range, and the offset to ask for next unless the file ends here. */
  datatype Window = Window(start: nat, end: nat, next: Option<nat>)

  function DetectEncoding(f: seq<byte>): (d: Detected)
    ensures d.bomLength <= |f|
    ensures d.encoding.Utf16? ==> d.bomLength == 2
  {
    if |f| >= 3 && f[0] == 0xEF && f[1] == 0xBB && f[2] == 0xBF then Detected(Utf8, 3)
    else if |f| >= 2 && f[0] == 0xFE && f[1] == 0xFF then Detected(Utf16(true), 2)
    else if |f| >= 2 && f[0] == 0xFF && f[1] == 0xFE then Detected(Utf16(false), 2)
    else Detected(Utf8, 0)
  }

  function CountNul(f: seq<byte>): nat {
    if f == [] then 0 else (if f[0] == 0 then 1 else 0) + CountNul(f[1..])
  }

  /** More than one NUL in twenty bytes, and no byte-order mark. */
  predicate IsLikelyBinary(f: seq<byte>) {
    var sample := f[..Min(|f|, BINARY_SAMPLE_BYTES)];
    DetectEncoding(f).bomLength == 0 && 20 * CountNul(sample) > |sample|
  }

  /** Why a file is not read as text, if it is not. */
  function Refusal(f: seq<byte>): Option<ReadError> {
    var d := DetectEncoding(f);
    if |f| >= BINARY_SAMPLE_BYTES && IsLikelyBinary(f[..BINARY_SAMPLE_BYTES]) then Some(Binary)
    else if !WellFormed(d.encoding, f, d.bomLength) then Some(BadEncoding)
    else if |f| < BINARY_SAMPLE_BYTES && IsLikelyBinary(f) then Some(Binary)
    else None
  }

  /** Where characters start: UTF-8 counts its byte-order mark as one, UTF-16 does not. */
  function Base(enc: Encoding): nat { if enc.Utf8? then 0 else 2 }

  function PageStart(enc: Encoding, f: seq<byte>, requested: nat): nat {
    if enc.Utf8? then Floor(enc, f, 0, requested) else Utf16Start(requested)
  }

  /** The byte limit of a window, at most as far from its start as the caller allowed. */
  function PageLimit(enc: Encoding, start: nat, requested: nat, endLimit: nat): (limit: nat)
    requires requested <= endLimit && (enc.Utf8? ==> start <= requested)
    ensures start <= limit <= start + (endLimit - requested)
  {
    Min(if enc.Utf8? then endLimit else Max(start, endLimit), start + (endLimit - requested))
  }

  function NextOffset(size: nat, requested: nat, end: nat): Option<nat> {
    if end < size then Some(Min(size, Max(requested + 1, end))) else None
  }

  /** The window a request yields. Only a UTF-16 request for the middle of a surrogate pair starts off
      a boundary; it is refused unless the window is too small to hold a code unit. */
  function Page(f: seq<byte>, offset: nat, maxBytes: int): Result<Window, ReadError> {
    if !(0 < maxBytes <= MAX_FS_READ_BYTES) then Failure(OutOfRange)
    else if Refusal(f).Some? then Failure(Refusal(f).value)
    else
      var enc := DetectEncoding(f).encoding;
      var requested := Min(offset, |f|);
      var endLimit := Min(|f|, requested + maxBytes);
      var start := PageStart(enc, f, requested);
      var limit := PageLimit(enc, start, requested, endLimit);
      if Boundary(enc, f, Base(enc), start) then
        var end := Floor(enc, f, start, limit);
        Success(Window(start, end, NextOffset(|f|, requested, end)))
      else if limit < start + 2 then Success(Window(start, start, NextOffset(|f|, requested, start)))
      else Failure(BadEncoding)
  }

  /** Part of a streamed piece that falls into [start, end). */
  function Overlap(piece: seq<byte>, pieceOffset: nat, start: nat, end: nat): seq<byte> {
    var lo, hi := Max(pieceOffset, start), Min(pieceOffset + |piece|, end);
    if lo < hi then piece[lo - pieceOffset..hi - pieceOffset] else []
  }

  lemma SliceOfSlice<T>(f: seq<T>, a: nat, b: nat, c: nat, d: nat)
    requires a <= b <= |f| && c <= d <= b - a
    ensures f[a..b][c..d] == f[a + c..a + d]
  {
    var g := f[a..b];
    assert forall i :: 0 <= i < |g| ==> g[i] == f[a + i];
    assert g[c..d] == f[a + c..a + d];
  }

  lemma OverlapExtends(f: seq<byte>, position: nat, n: nat, start: nat, end: nat)
    requires position + n <= |f| && start <= end <= |f|
    ensures f[start..Max(start, Min(position, end))] + Overlap(f[position..position + n], position, start, end) ==
            f[start..Max(start, Min(position + n, end))]
  {
    hide Overlap;
    OverlapIs(f, position, n, start, end);
    var lo, hi := Max(position, start), Min(position + n, end);
    if lo < hi {
      SlicesJoin(f, start, lo, hi);
    }
  }

  lemma OverlapIs(f: seq<byte>, position: nat, n: nat, start: nat, end: nat)
    requires position + n <= |f| && start <= end <= |f|
    ensures var lo, hi := Max(position, start), Min(position + n, end);
            Overlap(f[position..position + n], position, start, end) == if lo < hi then f[lo..hi] else []
  {
    var lo, hi := Max(position, start), Min(position + n, end);
    if lo < hi { SliceOfSlice(f, position, position + n, lo - position, hi - position); }
  }

  lemma SlicesJoin<T>(f: seq<T>, a: nat, b: nat, c: nat)
    requires a <= b <= c <= |f|
    ensures f[a..b] + f[b..c] == f[a..c]
  {
  }

  /** The last part of ReadBoundedFile: choose the range, decode it strictly, say where to go on. */
  method AlignAndDecode(
      f: seq<byte>, detected: Detected, candidate: seq<byte>, candidateStart: nat, requested: nat, endLimit: nat)
    returns (r: Result<Window, ReadError>)
    requires detected == DetectEncoding(f) && WellFormed(detected.encoding, f, detected.bomLength)
    requires Retained(f, candidate, candidateStart, requested, endLimit)
    ensures var enc := detected.encoding;
            var start := PageStart(enc, f, requested);
            var limit := PageLimit(enc, start, requested, endLimit);
            var end := if Boundary(enc, f, Base(enc), start) then Floor(enc, f, start, limit) else start;
            r == if Boundary(enc, f, Base(enc), start) || limit < start + 2
                 then Success(Window(start, end, NextOffset(|f|, requested, end))) else Failure(BadEncoding)
  {
    hide WellFormed, Boundary, CharWidth, Floor, CodeUnitAt;
    var enc := detected.encoding;
    BodyIsWellFormed(f);
    var start, end;
    if enc.Utf16? {
      start, end := SafeUtf16Range(candidate, candidateStart, requested, endLimit, enc.bigEndian, f);
    } else {
      start, end := SafeUtf8Range(candidate, candidateStart, requested, endLimit, f);
    }
    ghost var limit := PageLimit(enc, start, requested, endLimit);
    var content := f[start..Max(start, Min(end, |f|))];
    if Boundary(enc, f, Base(enc), start) {
      FloorBelow(enc, f, Base(enc), start, limit);
      SliceWellFormed(enc, f, Base(enc), start, end);
      assert content == f[start..end];
    } else if limit >= start + 2 {
      MiddleOfPair(f, enc.bigEndian, start, end);
    } else {
      EmptyWellFormed(enc);
      assert content == [];
    }
    BodyDecodes(f, detected, start, content);
    if !WellFormed(enc, BodyOf(detected, start, content), 0) { return Failure(BadEncoding); }
    return Success(Window(start, end, NextOffset(|f|, requested, end)));
  }

  /** What is decoded of a window's bytes: a byte-order mark at the beginning of the file is left out. */
  function BodyOf(detected: Detected, start: nat, content: seq<byte>): seq<byte> {
    if start == 0 then content[Min(detected.bomLength, |content|)..] else content
  }

  /** Leaving the mark out does not change whether the bytes decode strictly. */
  lemma BodyDecodes(f: seq<byte>, detected: Detected, start: nat, content: seq<byte>)
    requires detected == DetectEncoding(f) && start <= |f| && content <= f[start..] &&
             (detected.encoding.Utf16? ==> start >= 2)
    requires start == 0 && content != [] ==> Boundary(detected.encoding, f, 0, |content|)
    ensures WellFormed(detected.encoding, BodyOf(detected, start, content), 0) <==>
            WellFormed(detected.encoding, content, 0)
  {
    var n := detected.bomLength;
    if start == 0 && n > 0 && content != [] {
      MarkIsCharacter(f, content);
      if WellFormed(Utf8, content, 3) {
        WellFormedFromBoundary(Utf8, content, 3, 3);
        SliceWellFormedFrom(Utf8, content, 3, |content|, 0);
        assert content[3..|content|] == content[3..];
      }
      if WellFormed(Utf8, content[3..], 0) {
        ShiftWellFormed(content, 3, 0);
      }
    } else if start == 0 {
      assert content[0..] == content;
      if content == [] { assert content[Min(n, 0)..] == content; }
    }
  }

  lemma MarkIsCharacter(f: seq<byte>, content: seq<byte>)
    requires DetectEncoding(f) == Detected(Utf8, 3) && content <= f && content != [] && Boundary(Utf8, f, 0, |content|)
    ensures |content| >= 3 && CharWidth(Utf8, content, 0) == 3
    ensures WellFormed(Utf8, content, 0) <==> WellFormed(Utf8, content, 3)
  {
    assert CharWidth(Utf8, f, 0) == 3;
    BoundaryOrder(Utf8, f, 3, |content|);
    assert forall i :: 0 <= i < 3 ==> content[i] == f[i];
  }

  lemma {:induction false} ShiftWellFormed(content: seq<byte>, n: nat, k: nat)
    requires n <= |content| && k <= |content| - n && WellFormed(Utf8, content[n..], k)
    ensures WellFormed(Utf8, content, n + k)
    decreases |content| - n - k
  {
    if k < |content| - n {
      var tail := content[n..];
      assert tail == content[n..|content|];
      assert forall i :: 0 <= i < |tail| ==> tail[i] == content[n + i];
      ShiftWidth(content, n, k);
      ShiftWellFormed(content, n, k + CharWidth(Utf8, tail, k));
    }
  }

  lemma ShiftWidth(content: seq<byte>, n: nat, k: nat)
    requires n + k < |content|
    ensures CharWidth(Utf8, content[n..], k) == CharWidth(Utf8, content, n + k)
  {
    var tail := content[n..];
    assert forall i :: 0 <= i < |tail| ==> tail[i] == content[n + i];
  }

  lemma BodyIsWellFormed(f: seq<byte>)
    requires WellFormed(DetectEncoding(f).encoding, f, DetectEncoding(f).bomLength)
    ensures WellFormed(DetectEncoding(f).encoding, f, Base(DetectEncoding(f).encoding))
  {
  }

  lemma EmptyWellFormed(enc: Encoding)
    ensures WellFormed(enc, [], 0)
  {
  }

  lemma FloorBelow(enc: Encoding, f: seq<byte>, base: nat, start: nat, limit: nat)
    requires WellFormed(enc, f, base) && Boundary(enc, f, base, start) && start <= limit && start <= |f|
    ensures Floor(enc, f, start, limit) <= |f|
  {
    WellFormedFromBoundary(enc, f, base, start);
    var r := Floor(enc, f, start, limit);
    if r > |f| { BoundaryInside(enc, f, start, r); }
  }

  lemma {:induction false} BoundaryInside(enc: Encoding, f: seq<byte>, a: nat, b: nat)
    requires Boundary(enc, f, a, b) && a <= |f|
    ensures a <= b <= |f|
    decreases |f| - a
  {
    if a != b { BoundaryInside(enc, f, a + CharWidth(enc, f, a), b); }
  }

  /** A range between two boundaries decodes strictly. */
  lemma {:induction false} SliceWellFormed(enc: Encoding, f: seq<byte>, base: nat, start: nat, end: nat)
    requires Boundary(enc, f, base, start) && Boundary(enc, f, start, end) && start <= end <= |f|
    ensures WellFormed(enc, f[start..end], 0)
  {
    SliceWellFormedFrom(enc, f, start, end, 0);
  }

  lemma {:induction false} SliceWellFormedFrom(enc: Encoding, f: seq<byte>, start: nat, end: nat, k: nat)
    requires start + k <= end <= |f| && Boundary(enc, f, start + k, end)
    ensures WellFormed(enc, f[start..end], k)
    decreases end - start - k
  {
    if start + k != end {
      var w := CharWidth(enc, f, start + k);
      BoundaryInside(enc, f[..end], 0, 0);
      BoundaryOrder(enc, f, start + k + w, end);
      SliceWidth(enc, f, start, end, k);
      SliceWellFormedFrom(enc, f, start, end, k + w);
    }
  }

  lemma {:induction false} BoundaryOrder(enc: Encoding, f: seq<byte>, a: nat, b: nat)
    requires Boundary(enc, f, a, b)
    ensures a <= b
  {
  }

  lemma SliceWidth(enc: Encoding, f: seq<byte>, start: nat, end: nat, k: nat)
    requires start + k < end <= |f| && start + k + CharWidth(enc, f, start + k) <= end &&
             CharWidth(enc, f, start + k) > 0
    ensures CharWidth(enc, f[start..end], k) == CharWidth(enc, f, start + k)
  {
    var g := f[start..end];
    assert forall i :: 0 <= i < |g| ==> g[i] == f[start + i];
    if enc.Utf16? {
      assert CodeUnitAt(g, k, enc.bigEndian) == CodeUnitAt(f, start + k, enc.bigEndian);
    }
  }

  lemma MiddleOfPair(f: seq<byte>, be: bool, start: nat, end: nat)
    requires 2 <= |f| && WellFormed(Utf16(be), f, 2) && 2 <= start && start + 2 <= |f| && (start - 2) % 2 == 0
    requires !Boundary(Utf16(be), f, 2, start)
    ensures Text.IsLow(CodeUnitAt(f, start, be))
    ensures start + 2 <= end <= |f| ==> !WellFormed(Utf16(be), f[start..end], 0)
  {
    OffBoundaryIsLow(f, be, 2, start);
    if start + 2 <= end <= |f| {
      assert CodeUnitAt(f[start..end], 0, be) == CodeUnitAt(f, start, be);
    }
  }

  lemma {:induction false} OffBoundaryIsLow(f: seq<byte>, be: bool, from: nat, i: nat)
    requires WellFormed(Utf16(be), f, from) && from <= i && i + 2 <= |f| && (i - from) % 2 == 0
    requires !Boundary(Utf16(be), f, from, i)
    ensures Text.IsLow(CodeUnitAt(f, i, be))
    decreases |f| - from
  {
    var w := Utf16Char(f, from, be);
    if from + w <= i { OffBoundaryIsLow(f, be, from + w, i); }
  }

  // ---------- Paging ----------

  lemma PageAdvances(f: seq<byte>, offset: nat, maxBytes: int)
    ensures var p := Page(f, offset, maxBytes);
            p.Success? && p.value.next.Some? ==> offset < p.value.next.value <= |f|
  {
    var p := Page(f, offset, maxBytes);
    if p.Success? && p.value.next.Some? && offset >= |f| {
      var enc := DetectEncoding(f).encoding;
      BodyIsWellFormed(f);
      WellFormedFromBoundary(enc, f, Base(enc), Base(enc));
      FloorNear(enc, f, Base(enc), |f|);
      if enc.Utf16? { Utf16BoundaryEven(f, enc.bigEndian, 2, |f|); }
    }
  }

  /** The windows met by following `nextOffset` from an offset to the end of the file. */
  function Pages(f: seq<byte>, offset: nat, maxBytes: int): Result<seq<Window>, ReadError>
    decreases |f| - offset
  {
    match Page(f, offset, maxBytes)
    case Failure(e) => Failure(e)
    case Success(w) =>
      if w.next.None? then Success([w])
      else
        PageAdvances(f, offset, maxBytes);
        match Pages(f, w.next.value, maxBytes)
        case Failure(e) => Failure(e)
        case Success(ws) => Success([w] + ws)
  }

  /** The windows lie end to end from `from` to `to`: adjacent, disjoint, nothing left out. */
  predicate Tiles(ws: seq<Window>, from: nat, to: nat) {
    && ws != []
    && ws[0].start == from
    && ws[|ws| - 1].end == to
    && (forall k :: 0 <= k < |ws| ==> ws[k].start <= ws[k].end)
    && (forall k :: 0 <= k < |ws| - 1 ==> ws[k].end == ws[k + 1].start)
  }

  /** Width of the widest character from i on. */
  function WidestChar(enc: Encoding, f: seq<byte>, i: nat): (w: nat)
    decreases |f| - i
  {
    if CharWidth(enc, f, i) == 0 then 0
    else Max(CharWidth(enc, f, i), WidestChar(enc, f, i + CharWidth(enc, f, i)))
  }

  lemma {:induction false} WidestBounds(enc: Encoding, f: seq<byte>, from: nat, i: nat)
    requires Boundary(enc, f, from, i)
    ensures CharWidth(enc, f, i) <= WidestChar(enc, f, from)
    decreases |f| - from
  {
    if i != from { WidestBounds(enc, f, from + CharWidth(enc, f, from), i); }
  }

  lemma {:induction false} WidestIsSome(enc: Encoding, f: seq<byte>, from: nat) returns (i: nat)
    ensures Boundary(enc, f, from, i) && CharWidth(enc, f, i) == WidestChar(enc, f, from)
    decreases |f| - from
  {
    var w := CharWidth(enc, f, from);
    if w == 0 || w >= WidestChar(enc, f, from + w) {
      i := from;
    } else {
      i := WidestIsSome(enc, f, from + w);
      BoundaryOrder(enc, f, from + w, i);
    }
  }

  /** A window asked for at a boundary starts there and, if wide enough, takes the next character in. */
  lemma PageAtBoundary(f: seq<byte>, offset: nat, maxBytes: int)
    requires 0 < maxBytes <= MAX_FS_READ_BYTES && Refusal(f).None?
    requires var enc := DetectEncoding(f).encoding;
             && (offset == 0 || Boundary(enc, f, Base(enc), offset)) && offset <= |f|
             && WidestChar(enc, f, Base(enc)) <= maxBytes
    ensures var enc := DetectEncoding(f).encoding;
            var p := Page(f, offset, maxBytes);
            && p.Success? && p.value.start == Max(offset, Base(enc)) <= p.value.end <= |f|
            && Boundary(enc, f, Base(enc), p.value.end)
            && (p.value.next.None? ==> p.value.end == |f|)
            && (p.value.next.Some? ==> p.value.next.value == p.value.end)
  {
    hide WellFormed, Boundary, CharWidth, Floor, WidestChar;
    var enc := DetectEncoding(f).encoding;
    var base := Base(enc);
    BodyIsWellFormed(f);
    BoundaryHere(enc, f, base);
    var at := Max(offset, base);
    WellFormedFromBoundary(enc, f, base, at);
    StartAtBoundary(enc, f, offset);
    var requested := Min(offset, |f|);
    var endLimit := Min(|f|, requested + maxBytes);
    var limit := PageLimit(enc, at, requested, endLimit);
    var end := Floor(enc, f, at, limit);
    FloorBelow(enc, f, base, at, limit);
    BoundaryTransitive(enc, f, base, at, end);
    if at < |f| && offset == at {
      WidestBounds(enc, f, base, at);
      CharFits(enc, f, at);
      BoundaryStep(enc, f, at, at);
      FloorIsLast(enc, f, at, limit, at + CharWidth(enc, f, at));
    }
  }

  lemma CharFits(enc: Encoding, f: seq<byte>, i: nat)
    requires WellFormed(enc, f, i) && i < |f|
    ensures 0 < CharWidth(enc, f, i) <= |f| - i
    ensures Boundary(enc, f, i, i)
  {
  }

  lemma StartAtBoundary(enc: Encoding, f: seq<byte>, offset: nat)
    requires WellFormed(enc, f, Base(enc)) && offset <= |f|
    requires offset == 0 || Boundary(enc, f, Base(enc), offset)
    ensures PageStart(enc, f, offset) == Max(offset, Base(enc))
  {
    if enc.Utf8? {
      FloorNear(enc, f, 0, offset);
    } else if offset != 0 {
      Utf16BoundaryEven(f, enc.bigEndian, 2, offset);
    }
  }

  lemma {:induction false} PagesTile(f: seq<byte>, offset: nat, maxBytes: int)
    requires 0 < maxBytes <= MAX_FS_READ_BYTES && Refusal(f).None?
    requires var enc := DetectEncoding(f).encoding;
             && (offset == 0 || Boundary(enc, f, Base(enc), offset)) && offset <= |f|
             && WidestChar(enc, f, Base(enc)) <= maxBytes
    ensures var p := Pages(f, offset, maxBytes);
            p.Success? && Tiles(p.value, Max(offset, Base(DetectEncoding(f).encoding)), |f|)
    decreases |f| - offset
  {
    hide WellFormed, Boundary, Floor, Page, WidestChar, CharWidth;
    PageAtBoundary(f, offset, maxBytes);
    PageAdvances(f, offset, maxBytes);
    var w := Page(f, offset, maxBytes).value;
    if w.next.Some? {
      PagesTile(f, w.next.value, maxBytes);
      var rest := Pages(f, w.next.value, maxBytes).value;
      assert Pages(f, offset, maxBytes).value == [w] + rest;
      assert Max(w.end, Base(DetectEncoding(f).encoding)) == w.end;
    }
  }

  /** What every returned window satisfies, whatever the request. */
  predicate GoodWindow(f: seq<byte>, w: Window, maxBytes: int) {
    var enc := DetectEncoding(f).encoding;
    && w.start <= w.end <= |f| && w.end - w.start <= maxBytes
    && (w.start < w.end ==> Boundary(enc, f, Base(enc), w.start) && Boundary(enc, f, w.start, w.end))
    && WellFormed(enc, f[w.start..w.end], 0)
  }

  /** A window never splits a character and never exceeds the requested size. */
  lemma PageIsAligned(f: seq<byte>, offset: nat, maxBytes: int)
    ensures Page(f, offset, maxBytes).Success? ==> GoodWindow(f, Page(f, offset, maxBytes).value, maxBytes)
  {
    hide WellFormed, Boundary, Floor, CharWidth;
    var p := Page(f, offset, maxBytes);
    if p.Success? {
      var enc := DetectEncoding(f).encoding;
      BodyIsWellFormed(f);
      var requested := Min(offset, |f|);
      var start := PageStart(enc, f, requested);
      if Boundary(enc, f, Base(enc), start) {
        FloorBelow(enc, f, Base(enc), start, PageLimit(enc, start, requested, Min(|f|, requested + maxBytes)));
        SliceWellFormed(enc, f, Base(enc), start, p.value.end);
      } else {
        assert f[start..start] == [];
        EmptyWellFormed(enc);
      }
    }
  }

  lemma {:induction false} PagesAligned(f: seq<byte>, offset: nat, maxBytes: int)
    ensures var p := Pages(f, offset, maxBytes);
            p.Success? ==> forall k :: 0 <= k < |p.value| ==> GoodWindow(f, p.value[k], maxBytes)
    decreases |f| - offset
  {
    hide Page, GoodWindow;
    PageIsAligned(f, offset, maxBytes);
    PageAdvances(f, offset, maxBytes);
    var p := Page(f, offset, maxBytes);
    if p.Success? && p.value.next.Some? { PagesAligned(f, p.value.next.value, maxBytes); }
  }

  /** In a tiling some window holds the byte at c. */
  lemma {:induction false} TileHolding(ws: seq<Window>, from: nat, to: nat, c: nat) returns (k: nat)
    requires Tiles(ws, from, to) && from <= c < to
    ensures k < |ws| && ws[k].start <= c < ws[k].end
  {
    if c < ws[0].end { return 0; }
    assert |ws| > 1;
    var k' := TileHolding(ws[1..], ws[1].start, to, c);
    k := k' + 1;
  }

  /** Paging from offset 0 returns the whole text, in adjacent windows, exactly when no character of
      the file is wider than a window. */
  lemma PagingTilesFile(f: seq<byte>, maxBytes: int)
    requires 0 < maxBytes <= MAX_FS_READ_BYTES && Refusal(f).None?
    ensures var enc := DetectEncoding(f).encoding;
            var p := Pages(f, 0, maxBytes);
            && (p.Success? && Tiles(p.value, Base(enc), |f|) <==> WidestChar(enc, f, Base(enc)) <= maxBytes)
            && (p.Success? ==> forall k :: 0 <= k < |p.value| ==> GoodWindow(f, p.value[k], maxBytes))
  {
    var enc := DetectEncoding(f).encoding;
    var base := Base(enc);
    PagesAligned(f, 0, maxBytes);
    if WidestChar(enc, f, base) <= maxBytes {
      PagesTile(f, 0, maxBytes);
    } else {
      var p := Pages(f, 0, maxBytes);
      if p.Success? && Tiles(p.value, base, |f|) {
        TilingFitsWidest(f, p.value, maxBytes);
      }
    }
  }

  lemma TilingFitsWidest(f: seq<byte>, ws: seq<Window>, maxBytes: int)
    requires maxBytes > 0 && Tiles(ws, Base(DetectEncoding(f).encoding), |f|)
    requires forall k :: 0 <= k < |ws| ==> GoodWindow(f, ws[k], maxBytes)
    ensures WidestChar(DetectEncoding(f).encoding, f, Base(DetectEncoding(f).encoding)) <= maxBytes
  {
    hide WellFormed, Boundary, Floor, CharWidth, WidestChar, Tiles;
    var enc := DetectEncoding(f).encoding;
    var c := WidestIsSome(enc, f, Base(enc));
    BoundaryOrder(enc, f, Base(enc), c);
    if CharWidth(enc, f, c) == 0 { return; }
    var k := TileHolding(ws, Base(enc), |f|, c);
    var w := ws[k];
    BoundaryTransitive(enc, f, Base(enc), w.start, c);
    BoundaryTransitive(enc, f, w.start, c, w.end);
    NextBoundary(enc, f, c, w.end);
  }

  lemma NextBoundary(enc: Encoding, f: seq<byte>, c: nat, end: nat)
    requires Boundary(enc, f, c, end) && c < end
    ensures c + CharWidth(enc, f, c) <= end
  {
    BoundaryOrder(enc, f, c + CharWidth(enc, f, c), end);
  }

  /** A window narrower than a character steps over it: a file of one character of three bytes, read two bytes at a
      time, comes in windows that are all empty. */
  lemma NarrowWindowsSkip()
    ensures var f: seq<byte> := [0xE2, 0x82, 0xAC];
            && Refusal(f).None? && WidestChar(Utf8, f, 0) == 3
            && Pages(f, 0, 2) == Success([Window(0, 0, Some(1)), Window(0, 0, Some(2)), Window(0, 0, Some(3)),
               Window(3, 3, None)])
            && !Tiles(Pages(f, 0, 2).value, 0, |f|)
  {
    var f: seq<byte> := [0xE2, 0x82, 0xAC];
    OneCharacter(f);
    assert Page(f, 0, 2) == Success(Window(0, 0, Some(1)));
    assert Page(f, 1, 2) == Success(Window(0, 0, Some(2)));
    assert Page(f, 2, 2) == Success(Window(0, 0, Some(3)));
    assert Page(f, 3, 2) == Success(Window(3, 3, None));
    hide Page;
    var a, b, c, d := Window(0, 0, Some(1)), Window(0, 0, Some(2)), Window(0, 0, Some(3)), Window(3, 3, None);
    assert Pages(f, 3, 2) == Success([d]);
    assert Pages(f, 2, 2) == Success([c] + [d]);
    assert Pages(f, 1, 2) == Success([b] + ([c] + [d]));
    assert Pages(f, 0, 2) == Success([a] + ([b] + ([c] + [d])));
    assert [a] + ([b] + ([c] + [d])) == [a, b, c, d];
    assert [a, b, c, d][2].end != [a, b, c, d][2 + 1].start;
  }

  lemma OneCharacter(f: seq<byte>)
    requires f == [0xE2, 0x82, 0xAC]
    ensures Refusal(f).None? && DetectEncoding(f) == Detected(Utf8, 0) && WidestChar(Utf8, f, 0) == 3
    ensures Boundary(Utf8, f, 0, 0) && Boundary(Utf8, f, 0, 3) && Floor(Utf8, f, 0, 3) == 3 && Floor(Utf8, f, 3, 3) == 3
    ensures Floor(Utf8, f, 0, 0) == Floor(Utf8, f, 0, 1) == Floor(Utf8, f, 0, 2) == 0
  {
    assert CharWidth(Utf8, f, 0) == 3 && CharWidth(Utf8, f, 3) == 0;
    assert WellFormed(Utf8, f, 3);
    assert CountNul(f) == 0 by {
      var g: seq<byte>, h: seq<byte> := [0x82, 0xAC], [0xAC];
      assert f[1..] == g && g[1..] == h && h[1..] == [];
      assert CountNul(h) == 0;
      assert CountNul(g) == 0;
    }
    assert f[..3] == f;
    assert WidestChar(Utf8, f, 3) == 0;
  }
}
