/** The text of a window, the line-end metadata of a file, and what the texts of successive windows add up to. */
module TextWindow {
  import opened Arithmetic
  import opened Bytes
  import opened Wrappers
  import opened Text
  import opened TextLines
  import opened BoundedRead

  const MARK: CodeUnit := 0xFEFF

  // ---------- Decoding ----------

  /** The scalar value of the UTF-8 character at i (section 3 of RFC 3629). */
  function CodePoint(f: seq<byte>, i: nat): (c: int)
    requires Utf8Char(f, i) > 0
    ensures 0 <= c < 0x110000 && (Utf8Char(f, i) == 4 <==> c >= 0x10000)
  {
    var w := Utf8Char(f, i);
    if w == 1 then f[i]
    else if w == 2 then 64 * Bits(f, i, 0xC0) + Bits(f, i + 1, 0x80)
    else if w == 3 then 4096 * Bits(f, i, 0xE0) + 64 * Bits(f, i + 1, 0x80) + Bits(f, i + 2, 0x80)
    else 262144 * Bits(f, i, 0xF0) + 4096 * Bits(f, i + 1, 0x80) + 64 * Bits(f, i + 2, 0x80) + Bits(f, i + 3, 0x80)
  }

  /** The bits of a byte that carry the character, below the given prefix. */
  function Bits(f: seq<byte>, i: nat, prefix: int): int
    requires i < |f|
  {
    f[i] as int - prefix
  }

  /** A scalar value as code units (section 2.1 of RFC 2781). */
  function Units(c: int): (t: Text)
    requires 0 <= c < 0x110000
    ensures t != []
  {
    if c < 0x10000 then [c] else [0xD800 + (c - 0x10000) / 1024, 0xDC00 + (c - 0x10000) % 1024]
  }

  /** The code units of the character at i. */
  function CharUnits(enc: Encoding, f: seq<byte>, i: nat): (t: Text)
    requires CharWidth(enc, f, i) > 0
    ensures t != []
  {
    match enc
    case Utf8 => Units(CodePoint(f, i))
    case Utf16(bigEndian) =>
      if Utf16Char(f, i, bigEndian) == 2 then [CodeUnitAt(f, i, bigEndian)]
      else [CodeUnitAt(f, i, bigEndian), CodeUnitAt(f, i + 2, bigEndian)]
  }

  /** The text of the bytes between two boundaries. */
  function DecodeRange(enc: Encoding, f: seq<byte>, a: nat, b: nat): Text
    requires Boundary(enc, f, a, b)
    decreases |f| - a
  {
    if a == b then [] else CharUnits(enc, f, a) + DecodeRange(enc, f, a + CharWidth(enc, f, a), b)
  }

  /** The text of a run of well-formed characters. */
  function Decode(enc: Encoding, bytes: seq<byte>): Text
    requires WellFormed(enc, bytes, 0)
  {
    WellFormedFromBoundary(enc, bytes, 0, 0);
    DecodeRange(enc, bytes, 0, |bytes|)
  }

  lemma {:induction false} RangesJoin(enc: Encoding, f: seq<byte>, a: nat, b: nat, c: nat)
    requires Boundary(enc, f, a, b) && Boundary(enc, f, b, c)
    ensures Boundary(enc, f, a, c)
    ensures DecodeRange(enc, f, a, c) == DecodeRange(enc, f, a, b) + DecodeRange(enc, f, b, c)
    decreases |f| - a
  {
    hide CharWidth, CharUnits;
    BoundaryTransitive(enc, f, a, b, c);
    BoundaryOrder(enc, f, b, c);
    if a != b {
      RangesJoin(enc, f, a + CharWidth(enc, f, a), b, c);
      BoundaryOrder(enc, f, a, b);
    }
  }

  /** A part of the file is decoded like the same bytes inside the file. */
  lemma {:induction false} SliceDecodes(enc: Encoding, f: seq<byte>, start: nat, end: nat, k: nat)
    requires start + k <= end <= |f| && Boundary(enc, f, start + k, end)
    ensures Boundary(enc, f[start..end], k, end - start)
    ensures DecodeRange(enc, f[start..end], k, end - start) == DecodeRange(enc, f, start + k, end)
    decreases end - start - k
  {
    hide CharWidth, CharUnits;
    if start + k != end {
      var w := CharWidth(enc, f, start + k);
      BoundaryOrder(enc, f, start + k + w, end);
      SliceWidth(enc, f, start, end, k);
      SliceUnits(enc, f, start, end, k);
      SliceDecodes(enc, f, start, end, k + w);
    }
  }

  lemma SliceUnits(enc: Encoding, f: seq<byte>, start: nat, end: nat, k: nat)
    requires start + k < end <= |f| && CharWidth(enc, f, start + k) > 0 &&
             start + k + CharWidth(enc, f, start + k) <= end
    ensures CharWidth(enc, f[start..end], k) == CharWidth(enc, f, start + k)
    ensures CharUnits(enc, f[start..end], k) == CharUnits(enc, f, start + k)
  {
    SliceWidth(enc, f, start, end, k);
    var g := f[start..end];
    assert forall i :: 0 <= i < |g| ==> g[i] == f[start + i];
  }

  // ---------- Decoding loses nothing ----------

  /** The bytes of a code unit that stands for a character by itself. */
  function EncodeUnit(enc: Encoding, c: CodeUnit): seq<byte> {
    match enc
    case Utf8 =>
      if c < 0x80 then [c]
      else if c < 0x800 then [0xC0 + c / 64, 0x80 + c % 64]
      else [0xE0 + c / 4096, 0x80 + c / 64 % 64, 0x80 + c % 64]
    case Utf16(bigEndian) => if bigEndian then [c / 256, c % 256] else [c % 256, c / 256]
  }

  function EncodePair(enc: Encoding, high: CodeUnit, low: CodeUnit): seq<byte>
    requires IsHigh(high) && IsLow(low)
  {
    if enc.Utf16? then EncodeUnit(enc, high) + EncodeUnit(enc, low)
    else
      var c := 0x10000 + 1024 * (high as int - 0xD800) + (low as int - 0xDC00);
      [0xF0 + c / 262144, 0x80 + c / 4096 % 64, 0x80 + c / 64 % 64, 0x80 + c % 64]
  }

  /** The bytes of a text. */
  function Encode(enc: Encoding, t: Text): seq<byte> {
    if t == [] then []
    else if IsHigh(t[0]) && |t| > 1 && IsLow(t[1]) then EncodePair(enc, t[0], t[1]) + Encode(enc, t[2..])
    else EncodeUnit(enc, t[0]) + Encode(enc, t[1..])
  }

  lemma Digits(a: int, b: int)
    requires 0 <= b < 64
    ensures (64 * a + b) / 64 == a && (64 * a + b) % 64 == b
  {
  }

  lemma CodePointDigits(f: seq<byte>, i: nat)
    requires Utf8Char(f, i) > 1
    ensures var c, w := CodePoint(f, i), Utf8Char(f, i);
            && 0 <= i && i + w <= |f|
            && f[i + w - 1] as int == 0x80 + c % 64
            && (w == 2 ==> f[i] as int == 0xC0 + c / 64)
            && (w > 2 ==> f[i + w - 2] as int == 0x80 + c / 64 % 64)
            && (w == 3 ==> f[i] as int == 0xE0 + c / 4096)
            && (w == 4 ==> f[i + 1] as int == 0x80 + c / 4096 % 64 && f[i] as int == 0xF0 + c / 262144)
  {
    var c, w := CodePoint(f, i), Utf8Char(f, i);
    if w == 2 {
      Digits(Bits(f, i, 0xC0), Bits(f, i + 1, 0x80));
    } else if w == 3 {
      var high := 64 * Bits(f, i, 0xE0) + Bits(f, i + 1, 0x80);
      Digits(Bits(f, i, 0xE0), Bits(f, i + 1, 0x80));
      Digits(high, Bits(f, i + 2, 0x80));
      assert c == 64 * high + Bits(f, i + 2, 0x80);
      assert c / 4096 == c / 64 / 64;
    } else {
      var top := 64 * Bits(f, i, 0xF0) + Bits(f, i + 1, 0x80);
      var high := 64 * top + Bits(f, i + 2, 0x80);
      Digits(Bits(f, i, 0xF0), Bits(f, i + 1, 0x80));
      Digits(top, Bits(f, i + 2, 0x80));
      Digits(high, Bits(f, i + 3, 0x80));
      assert c == 64 * high + Bits(f, i + 3, 0x80);
      assert c / 4096 == c / 64 / 64 && c / 262144 == c / 64 / 64 / 64;
    }
  }

  lemma Utf8Encodes(f: seq<byte>, i: nat)
    requires Utf8Char(f, i) > 0
    ensures var u, w := Units(CodePoint(f, i)), Utf8Char(f, i);
            && i + w <= |f|
            && if |u| == 2 then IsHigh(u[0]) && IsLow(u[1]) && EncodePair(Utf8, u[0], u[1]) == f[i..i + w]
               else |u| == 1 && !IsHigh(u[0]) && EncodeUnit(Utf8, u[0]) == f[i..i + w]
  {
    if Utf8Char(f, i) > 1 {
      CodePointDigits(f, i);
      NoSurrogate(f, i);
      var c, w := CodePoint(f, i), Utf8Char(f, i);
      hide Utf8Char, CodePoint;
      if w == 4 {
        PairOf(c);
        hide Units, EncodePair;
        assert f[i..i + 4] == [f[i], f[i + 1], f[i + 2], f[i + 3]];
      } else {
        assert f[i..i + w] == if w == 2 then [f[i], f[i + 1]] else [f[i], f[i + 1], f[i + 2]];
      }
    }
  }

  /** A scalar value from 0x10000 on is a surrogate pair, which is encoded by the value's digits. */
  lemma PairOf(c: int)
    requires 0x10000 <= c < 0x110000
    ensures var u := Units(c);
            && |u| == 2 && IsHigh(u[0]) && IsLow(u[1])
            && EncodePair(Utf8, u[0], u[1]) ==
               [0xF0 + c / 262144, 0x80 + c / 4096 % 64, 0x80 + c / 64 % 64, 0x80 + c % 64]
  {
    var d := c - 0x10000;
    assert 1024 * (d / 1024) + d % 1024 == d;
  }

  /** Below 0x10000 a character of UTF-8 is no surrogate, and takes two bytes below 0x800 and three from there on. */
  lemma NoSurrogate(f: seq<byte>, i: nat)
    requires Utf8Char(f, i) > 1
    ensures var c, w := CodePoint(f, i), Utf8Char(f, i);
            && !IsHigh(c) && c >= 0x80 && (w == 2 <==> c < 0x800) && (w == 4 <==> c >= 0x10000)
  {
  }

  lemma Utf16Encodes(f: seq<byte>, i: nat, bigEndian: bool)
    requires Utf16Char(f, i, bigEndian) > 0
    ensures var u, w := CharUnits(Utf16(bigEndian), f, i), Utf16Char(f, i, bigEndian);
            && i + w <= |f|
            && if |u| == 2 then IsHigh(u[0]) && IsLow(u[1]) && EncodePair(Utf16(bigEndian), u[0], u[1]) == f[i..i + w]
               else |u| == 1 && !IsHigh(u[0]) && EncodeUnit(Utf16(bigEndian), u[0]) == f[i..i + w]
  {
    UnitEncodes(f, i, bigEndian);
    if Utf16Char(f, i, bigEndian) == 4 {
      UnitEncodes(f, i + 2, bigEndian);
      assert f[i..i + 2] + f[i + 2..i + 4] == f[i..i + 4];
    }
  }

  lemma UnitEncodes(f: seq<byte>, i: nat, bigEndian: bool)
    requires i + 2 <= |f|
    ensures EncodeUnit(Utf16(bigEndian), CodeUnitAt(f, i, bigEndian)) == f[i..i + 2]
  {
  }

  lemma CharEncodes(enc: Encoding, f: seq<byte>, i: nat, rest: Text)
    requires CharWidth(enc, f, i) > 0
    ensures i + CharWidth(enc, f, i) <= |f|
    ensures Encode(enc, CharUnits(enc, f, i) + rest) == f[i..i + CharWidth(enc, f, i)] + Encode(enc, rest)
  {
    if enc.Utf8? { Utf8Encodes(f, i); } else { Utf16Encodes(f, i, enc.bigEndian); }
    var u := CharUnits(enc, f, i);
    assert |u| == 2 ==> (u + rest)[2..] == rest;
    assert |u| == 1 ==> (u + rest)[1..] == rest;
  }

  /** Encoding the text of a range gives back its bytes. */
  lemma {:induction false} DecodingLosesNothing(enc: Encoding, f: seq<byte>, a: nat, b: nat)
    requires Boundary(enc, f, a, b) && a <= |f|
    ensures a <= b <= |f| && Encode(enc, DecodeRange(enc, f, a, b)) == f[a..b]
    decreases |f| - a
  {
    hide CharUnits, Encode;
    BoundaryInside(enc, f, a, b);
    if a == b {
      NothingEncoded(enc);
    } else {
      var c := a + CharWidth(enc, f, a);
      CharEncodes(enc, f, a, DecodeRange(enc, f, c, b));
      DecodingLosesNothing(enc, f, c, b);
      assert f[a..c] + f[c..b] == f[a..b];
    }
  }

  lemma NothingEncoded(enc: Encoding)
    ensures Encode(enc, []) == []
  {
  }

  // ---------- Line ends ----------

  datatype NewlineStyle = NoNewline | Lf | Crlf | Mixed

  ghost predicate HasCrlf(t: Text) { exists i :: 0 < i < |t| && t[i] == NEWLINE && t[i - 1] == CARRIAGE_RETURN }

  ghost predicate HasLf(t: Text) {
    exists i :: 0 <= i < |t| && t[i] == NEWLINE && (i == 0 || t[i - 1] != CARRIAGE_RETURN)
  }

  ghost function NewlineOf(t: Text): NewlineStyle {
    if HasCrlf(t) && HasLf(t) then Mixed else if HasCrlf(t) then Crlf else if HasLf(t) then Lf else NoNewline
  }

  predicate EndsLine(t: Text) { t != [] && (t[|t| - 1] == NEWLINE || t[|t| - 1] == CARRIAGE_RETURN) }

  function LastOf(t: Text): Option<CodeUnit> { if t == [] then None else Some(t[|t| - 1]) }

  lemma OneMoreUnit(t: Text, c: CodeUnit)
    ensures HasCrlf(t + [c]) <==> HasCrlf(t) || (c == NEWLINE && LastOf(t) == Some(CARRIAGE_RETURN))
    ensures HasLf(t + [c]) <==> HasLf(t) || (c == NEWLINE && LastOf(t) != Some(CARRIAGE_RETURN))
  {
    var s := t + [c];
    assert forall i :: 0 <= i < |t| ==> s[i] == t[i];
    if HasCrlf(t) {
      var i :| 0 < i < |t| && t[i] == NEWLINE && t[i - 1] == CARRIAGE_RETURN;
      assert s[i] == NEWLINE && s[i - 1] == CARRIAGE_RETURN;
    }
    if HasLf(t) {
      var i :| 0 <= i < |t| && t[i] == NEWLINE && (i == 0 || t[i - 1] != CARRIAGE_RETURN);
      assert s[i] == NEWLINE && (i == 0 || s[i - 1] != CARRIAGE_RETURN);
    }
    assert s[|t|] == c;
  }

  /** Notes the line ends of a text that arrives piece by piece. */
  class TextMetadataTracker {
    var previous: Option<CodeUnit>
    var last: Option<CodeUnit>
    var sawCrlf: bool
    var sawLf: bool
    ghost var seen: Text

    ghost predicate Valid()
      reads this
    {
      previous == last == LastOf(seen) && sawCrlf == HasCrlf(seen) && sawLf == HasLf(seen)
    }

    constructor ()
      ensures Valid() && seen == []
    {
      previous, last, sawCrlf, sawLf, seen := None, None, false, false, [];
    }

    method Update(text: Text)
      requires Valid()
      modifies this
      ensures Valid() && seen == old(seen) + text
    {
      hide HasCrlf, HasLf;
      for i := 0 to |text|
        invariant Valid() && seen == old(seen) + text[..i]
      {
        var ch := text[i];
        OneMoreUnit(seen, ch);
        if ch == NEWLINE {
          if previous == Some(CARRIAGE_RETURN) { sawCrlf := true; } else { sawLf := true; }
        }
        previous, last := Some(ch), Some(ch);
        seen := seen + [ch];
        assert text[..i + 1] == text[..i] + [ch];
      }
      assert text[..|text|] == text;
    }

    method Finish() returns (newline: NewlineStyle, finalNewline: bool)
      requires Valid()
      ensures newline == NewlineOf(seen) && finalNewline == EndsLine(seen)
    {
      newline := if sawCrlf && sawLf then Mixed else if sawCrlf then Crlf else if sawLf then Lf else NoNewline;
      finalNewline := last == Some(NEWLINE) || last == Some(CARRIAGE_RETURN);
    }
  }

  // ---------- Reading ----------

  /** A decoder leaves out a mark at the beginning of what it is given. */
  function DropMark(t: Text): Text { if t != [] && t[0] == MARK then t[1..] else t }

  /** The text of a file behind the byte-order mark that reveals its encoding. */
  function FileText(f: seq<byte>): Text
    requires Refusal(f).None?
  {
    var d := DetectEncoding(f);
    BodyReachesEnd(f);
    DecodeRange(d.encoding, f, d.bomLength, |f|)
  }

  lemma BodyReachesEnd(f: seq<byte>)
    requires Refusal(f).None?
    ensures var d := DetectEncoding(f);
            Boundary(d.encoding, f, d.bomLength, |f|) && WellFormed(d.encoding, f[d.bomLength..], 0)
  {
    var d := DetectEncoding(f);
    WellFormedFromBoundary(d.encoding, f, d.bomLength, d.bomLength);
    SliceWellFormedFrom(d.encoding, f, d.bomLength, |f|, 0);
    assert f[d.bomLength..|f|] == f[d.bomLength..];
  }

  /** The bytes that are decoded for a window. */
  function WindowBody(f: seq<byte>, w: Window): seq<byte> {
    if w.start <= w.end <= |f| then BodyOf(DetectEncoding(f), w.start, f[w.start..w.end]) else []
  }

  predicate Decodes(f: seq<byte>, w: Window) { WellFormed(DetectEncoding(f).encoding, WindowBody(f, w), 0) }

  /** The text of a window, before a decoder leaves out a mark. */
  function RawText(f: seq<byte>, w: Window): Text {
    if Decodes(f, w) then Decode(DetectEncoding(f).encoding, WindowBody(f, w)) else []
  }

  function WindowText(f: seq<byte>, w: Window): Text { DropMark(RawText(f, w)) }

  datatype Reading = Reading(
    size: nat, digest: Text, detected: Detected, newline: NewlineStyle, finalNewline: bool,
    content: Text, contentBytes: int, contentOffset: nat, nextOffset: Option<nat>)

  /** A strict streaming decoder: it adds to its output, and of well-formed bytes its output is their text. */
  ghost predicate Strict(enc: Encoding, d: Decoder) {
    Streaming(d) && forall bytes :: WellFormed(enc, bytes, 0) ==> d.whole(bytes) == DropMark(Decode(enc, bytes))
  }

  /** What a successful read of a window returns: facts of the whole file, and the text of the window. */
  ghost function ReadingOf(f: seq<byte>, w: Window, hash: seq<byte> -> Text): Reading
    requires Refusal(f).None?
  {
    var text := DropMark(FileText(f));
    var endsLine := text != [] && (text[|text| - 1] == 10 || text[|text| - 1] == 13);
    Reading(|f|, hash(f), DetectEncoding(f), NewlineOf(text), endsLine, WindowText(f, w), w.end - w.start, w.start,
      w.next)
  }

  // What the streaming loop has of the file at a position.

  function SampleAt(f: seq<byte>, position: nat): seq<byte>
    requires position <= |f|
  {
    f[..Min(position, BINARY_SAMPLE_BYTES)]
  }

  function CandidateAt(f: seq<byte>, start: nat, end: nat, position: nat): seq<byte>
    requires start <= end <= |f|
  {
    f[start..Max(start, Min(position, end))]
  }

  function BodyAt(f: seq<byte>, bom: nat, position: nat): seq<byte>
    requires bom <= |f| && position <= |f|
  {
    f[bom..Max(bom, position)]
  }

  lemma AtStart(f: seq<byte>, start: nat, end: nat, bom: nat)
    requires start <= end <= |f| && bom <= |f|
    ensures SampleAt(f, 0) == [] && CandidateAt(f, start, end, 0) == [] && BodyAt(f, bom, 0) == []
  {
  }

  lemma AtEnd(f: seq<byte>, start: nat, end: nat, bom: nat)
    requires start <= end <= |f| && bom <= |f|
    ensures CandidateAt(f, start, end, |f|) == f[start..end] && BodyAt(f, bom, |f|) == f[bom..] && f[..|f|] == f
    ensures SampleAt(f, |f|) == f[..Min(|f|, BINARY_SAMPLE_BYTES)]
  {
  }

  lemma PieceStep(f: seq<byte>, start: nat, end: nat, position: nat, n: nat)
    requires start <= end <= |f| && position + n <= |f|
    ensures var piece := f[position..position + n];
            && f[..position] + piece == f[..position + n]
            && CandidateAt(f, start, end, position) + Overlap(piece, position, start, end) ==
               CandidateAt(f, start, end, position + n)
  {
    OverlapExtends(f, position, n, start, end);
  }

  lemma SampleStep(f: seq<byte>, position: nat, n: nat)
    requires position + n <= |f|
    ensures var sample, piece := SampleAt(f, position), f[position..position + n];
            if |sample| < BINARY_SAMPLE_BYTES
            then sample + piece[..Min(BINARY_SAMPLE_BYTES - |sample|, n)] == SampleAt(f, position + n)
            else sample == SampleAt(f, position + n)
  {
  }

  /** A full sample is the first kilobyte, and the rest of the file does not change it. */
  lemma FullSample(f: seq<byte>, position: nat)
    requires position <= |f|
    ensures |SampleAt(f, position)| <= BINARY_SAMPLE_BYTES
    ensures |SampleAt(f, position)| == BINARY_SAMPLE_BYTES ==>
              |f| >= BINARY_SAMPLE_BYTES && SampleAt(f, position) == f[..BINARY_SAMPLE_BYTES]
    ensures |f| >= BINARY_SAMPLE_BYTES ==> |SampleAt(f, |f|)| == BINARY_SAMPLE_BYTES
  {
  }

  /** The streaming loop: samples the file for NUL bytes, keeps only the bytes around the window, takes all bytes into
      the digest, and passes the decoded text to the tracker. */
  method Stream(
      f: seq<byte>, detected: Detected, candidateStart: nat, candidateEnd: nat, decoder: Decoder,
      metadata: TextMetadataTracker)
    returns (binary: bool, candidate: seq<byte>, hashed: seq<byte>)
    requires candidateStart <= candidateEnd <= |f| && detected.bomLength <= Min(|f|, 3)
    requires Streaming(decoder) && metadata.Valid() && metadata.seen == []
    modifies metadata
    ensures binary <==> |f| >= BINARY_SAMPLE_BYTES && IsLikelyBinary(f[..BINARY_SAMPLE_BYTES])
    ensures !binary ==> candidate == f[candidateStart..candidateEnd] && hashed == f
    ensures !binary ==> metadata.Valid() && metadata.seen == decoder.emitted(f[detected.bomLength..])
  {
    hide IsLikelyBinary, Overlap, Streaming, HasLf, HasCrlf, SampleAt, CandidateAt, BodyAt, TextMetadataTracker.Valid;
    var sample, position := [], 0;
    candidate, hashed := [], [];
    var bom := detected.bomLength;
    NothingEmitted(decoder);
    AtStart(f, candidateStart, candidateEnd, bom);
    while position < |f|
      invariant 0 <= position <= |f| && (position == 0 || position >= bom) && hashed == f[..position]
      invariant sample == SampleAt(f, position) && candidate == CandidateAt(f, candidateStart, candidateEnd, position)
      invariant |sample| == BINARY_SAMPLE_BYTES ==> !IsLikelyBinary(sample)
      invariant metadata.Valid() && metadata.seen == decoder.emitted(BodyAt(f, bom, position))
    {
      var n := Min(|f| - position, STREAM_CHUNK_BYTES);
      var piece := f[position..position + n];
      PieceStep(f, candidateStart, candidateEnd, position, n);
      candidate := candidate + Overlap(piece, position, candidateStart, candidateEnd);
      hashed := hashed + piece;
      SampleStep(f, position, n);
      FullSample(f, position);
      FullSample(f, position + n);
      if |sample| < BINARY_SAMPLE_BYTES {
        sample := sample + piece[..Min(BINARY_SAMPLE_BYTES - |sample|, |piece|)];
        if |sample| >= BINARY_SAMPLE_BYTES {
          if IsLikelyBinary(sample) { return true, [], []; }
        }
      }
      DecodePiece(f, bom, position, piece, decoder, metadata);
      position := position + n;
    }
    binary := false;
    AtEnd(f, candidateStart, candidateEnd, bom);
    FullSample(f, |f|);
  }

  /** Passes on what the decoder makes of the next piece, of which the mark at the beginning of the file is left out. */
  method DecodePiece(
      f: seq<byte>, bom: nat, position: nat, piece: seq<byte>, decoder: Decoder, metadata: TextMetadataTracker)
    requires bom <= Min(|f|, 3) && (position == 0 || position >= bom) && |piece| >= Min(|f| - position, 3)
    requires position + |piece| <= |f| && piece == f[position..position + |piece|]
    requires Streaming(decoder) && metadata.Valid() && metadata.seen == decoder.emitted(BodyAt(f, bom, position))
    modifies metadata
    ensures position + |piece| >= bom
    ensures metadata.Valid() && metadata.seen == decoder.emitted(BodyAt(f, bom, position + |piece|))
  {
    hide Streaming, HasLf, HasCrlf, BodyAt;
    BodyGrows(f, bom, position, |piece|);
    var body := if position == 0 then piece[bom..] else piece;
    var seen := BodyAt(f, bom, position);
    DecoderAdds(decoder, seen, body);
    metadata.Update(decoder.emitted(seen + body)[|decoder.emitted(seen)|..]);
  }

  lemma BodyGrows(f: seq<byte>, bom: nat, position: nat, n: nat)
    requires bom <= Min(|f|, 3) && position + n <= |f| && (position == 0 || position >= bom) &&
             n >= Min(|f| - position, 3)
    ensures position + n >= bom && (position == 0 ==> bom <= n)
    ensures var piece := f[position..position + n];
            BodyAt(f, bom, position) + (if position == 0 then piece[bom..] else piece) == BodyAt(f, bom, position + n)
  {
  }

  /** The whole read: streams the file once, aligns the requested window on the retained bytes, and decodes it. That the
      decoder throws on malformed bytes is modelled by its verdict on the whole body. */
  method ReadBoundedFile(
      f: seq<byte>, offset: nat, maxBytes: int, decoders: Encoding -> Decoder, hash: seq<byte> -> Text)
    returns (r: Result<Reading, ReadError>)
    requires forall enc :: Strict(enc, decoders(enc))
    ensures r == match Page(f, offset, maxBytes)
                 case Failure(e) => Failure(e)
                 case Success(w) => Success(ReadingOf(f, w, hash))
  {
    hide WellFormed, Boundary, CharWidth, Floor, IsLikelyBinary, FileText, RawText, NewlineOf, Streaming, Strict;
    if !(0 < maxBytes <= MAX_FS_READ_BYTES) { return Failure(OutOfRange); }
    var detected := DetectEncoding(f[..Min(|f|, 3)]);
    assert detected == DetectEncoding(f) && detected.bomLength <= Min(|f|, 3);
    var requested := Min(offset, |f|);
    var endLimit := Min(|f|, requested + maxBytes);
    var candidateStart, candidateEnd := Max(0, requested - 4), Min(|f|, endLimit + 4);
    var metadata := new TextMetadataTracker();
    var decoder := decoders(detected.encoding);
    StrictMeans(detected.encoding, decoder);
    var binary, candidate, hashed := Stream(f, detected, candidateStart, candidateEnd, decoder, metadata);
    if binary { return Failure(Binary); }
    if !WellFormed(detected.encoding, f, detected.bomLength) { return Failure(BadEncoding); }
    if |f| < BINARY_SAMPLE_BYTES && IsLikelyBinary(f) { return Failure(Binary); }
    var window := AlignAndDecode(f, detected, candidate, candidateStart, requested, endLimit);
    assert window == Page(f, offset, maxBytes);
    if window.Failure? { return Failure(window.error); }
    var reading := Conclude(f, window.value, metadata, decoder, hashed, hash);
    r := Success(reading);
  }

  /** The end of the read: the decoder's last text goes to the tracker, and the result is put together. */
  method Conclude(
      f: seq<byte>, w: Window, metadata: TextMetadataTracker, decoder: Decoder, hashed: seq<byte>,
      hash: seq<byte> -> Text)
    returns (r: Reading)
    requires Refusal(f).None? && Strict(DetectEncoding(f).encoding, decoder) && hashed == f
    requires metadata.Valid() && metadata.seen == decoder.emitted(f[DetectEncoding(f).bomLength..])
    modifies metadata
    ensures r == ReadingOf(f, w, hash)
  {
    hide WellFormed, IsLikelyBinary, FileText, RawText, NewlineOf, Streaming, Strict, DetectEncoding, Refusal, HasLf,
         HasCrlf;
    var detected := DetectEncoding(f);
    BodyDecodesWhole(f);
    var body := f[detected.bomLength..];
    StrictMeans(detected.encoding, decoder);
    DecoderEnds(decoder, body);
    metadata.Update(decoder.whole(body)[|decoder.emitted(body)|..]);
    var newline, finalNewline := metadata.Finish();
    EndsLineMeans(metadata.seen);
    hide EndsLine;
    r := Reading(|f|, hash(hashed), detected, newline, finalNewline, WindowText(f, w), w.end - w.start, w.start,
        w.next);
  }

  lemma EndsLineMeans(t: Text)
    ensures EndsLine(t) == (t != [] && (t[|t| - 1] == 10 || t[|t| - 1] == 13))
  {
  }

  lemma StrictMeans(enc: Encoding, d: Decoder)
    requires Strict(enc, d)
    ensures Streaming(d) && forall bytes :: WellFormed(enc, bytes, 0) ==> d.whole(bytes) == DropMark(Decode(enc, bytes))
  {
  }

  /** The text of the body decoded by itself is the file's text. */
  lemma BodyDecodesWhole(f: seq<byte>)
    requires Refusal(f).None?
    ensures var d := DetectEncoding(f);
            WellFormed(d.encoding, f[d.bomLength..], 0) && Decode(d.encoding, f[d.bomLength..]) == FileText(f)
  {
    hide CharUnits, IsLikelyBinary, CharWidth;
    var d := DetectEncoding(f);
    BodyReachesEnd(f);
    SliceDecodes(d.encoding, f, d.bomLength, |f|, 0);
    assert f[d.bomLength..|f|] == f[d.bomLength..];
  }

  /** The file can be had back from its text. */
  lemma FileTextLosesNothing(f: seq<byte>)
    requires Refusal(f).None?
    ensures var d := DetectEncoding(f); Encode(d.encoding, FileText(f)) == f[d.bomLength..]
  {
    hide CharUnits, Encode, IsLikelyBinary, CharWidth;
    var d := DetectEncoding(f);
    BodyReachesEnd(f);
    DecodingLosesNothing(d.encoding, f, d.bomLength, |f|);
    assert f[d.bomLength..|f|] == f[d.bomLength..];
  }

  // ---------- The texts of successive windows ----------

  function Joined(f: seq<byte>, ws: seq<Window>): Text {
    if ws == [] then [] else WindowText(f, ws[0]) + Joined(f, ws[1..])
  }

  function RawJoined(f: seq<byte>, ws: seq<Window>): Text {
    if ws == [] then [] else RawText(f, ws[0]) + RawJoined(f, ws[1..])
  }

  /** The bytes decoded for the window begin with a byte-order mark. */
  predicate OpensWithMark(f: seq<byte>, w: Window) { EncodeUnit(DetectEncoding(f).encoding, MARK) <= WindowBody(f, w) }

  /** The text of decodable bytes begins with the mark exactly when the bytes do. */
  lemma MarkInText(enc: Encoding, bytes: seq<byte>)
    requires WellFormed(enc, bytes, 0)
    ensures var t := Decode(enc, bytes); t != [] && t[0] == MARK <==> EncodeUnit(enc, MARK) <= bytes
  {
    WellFormedFromBoundary(enc, bytes, 0, 0);
    if bytes != [] {
      var w := CharWidth(enc, bytes, 0);
      CharEncodes(enc, bytes, 0, []);
      assert CharUnits(enc, bytes, 0) + [] == CharUnits(enc, bytes, 0);
      FirstIsMark(enc, bytes);
    }
  }

  lemma FirstIsMark(enc: Encoding, bytes: seq<byte>)
    requires CharWidth(enc, bytes, 0) > 0
    ensures CharUnits(enc, bytes, 0)[0] == MARK <==> EncodeUnit(enc, MARK) <= bytes
  {
    if enc.Utf8? { Utf8Encodes(bytes, 0); } else { Utf16Encodes(bytes, 0, enc.bigEndian); }
    var m := EncodeUnit(enc, MARK);
    if CharUnits(enc, bytes, 0)[0] == MARK { assert m == bytes[..|m|]; }
  }

  /** A window's text is that of its bytes in the file, apart from the byte-order mark. */
  lemma RawTextInFile(f: seq<byte>, w: Window, maxBytes: int)
    requires Refusal(f).None? && GoodWindow(f, w, maxBytes) && Base(DetectEncoding(f).encoding) <= w.start
    requires Boundary(DetectEncoding(f).encoding, f, Base(DetectEncoding(f).encoding), w.start)
    ensures var d := DetectEncoding(f); var a, b := Max(w.start, d.bomLength), Max(w.end, d.bomLength);
            && Boundary(d.encoding, f, a, b) && Decodes(f, w) && RawText(f, w) == DecodeRange(d.encoding, f, a, b)
  {
    hide WellFormed, IsLikelyBinary, CharWidth, CharUnits;
    var d := DetectEncoding(f);
    var a, b := Max(w.start, d.bomLength), Max(w.end, d.bomLength);
    BodyDecodes(f, d, w.start, f[w.start..w.end]);
    AfterMark(f, w.start);
    if w.start < w.end {
      BoundaryTransitive(d.encoding, f, Base(d.encoding), w.start, w.end);
      AfterMark(f, w.end);
      BoundaryTransitive(d.encoding, f, d.bomLength, a, b);
      SliceDecodes(d.encoding, f, a, b, 0);
    }
    assert WindowBody(f, w) == f[a..Max(a, w.end)][..Max(a, w.end) - a];
  }

  /** No boundary lies inside the byte-order mark. */
  lemma AfterMark(f: seq<byte>, i: nat)
    requires Boundary(DetectEncoding(f).encoding, f, Base(DetectEncoding(f).encoding), i)
    ensures var d := DetectEncoding(f);
            Boundary(d.encoding, f, d.bomLength, Max(i, d.bomLength)) && (i == 0 || i >= d.bomLength)
  {
    var d := DetectEncoding(f);
    if d.encoding.Utf8? && d.bomLength == 3 {
      assert CharWidth(Utf8, f, 0) == 3;
      if i != 0 { BoundaryOrder(Utf8, f, 3, i); }
    } else if d.encoding.Utf16? {
      BoundaryOrder(d.encoding, f, 2, i);
    }
  }

  /** Put together, the decoded bytes of tiling windows are the file's text. */
  lemma {:induction false} RawTextsJoin(f: seq<byte>, ws: seq<Window>, maxBytes: int)
    requires Refusal(f).None? && ws != [] && Tiles(ws, ws[0].start, |f|)
    requires forall k :: 0 <= k < |ws| ==> GoodWindow(f, ws[k], maxBytes)
    requires Base(DetectEncoding(f).encoding) <= ws[0].start
    requires Boundary(DetectEncoding(f).encoding, f, Base(DetectEncoding(f).encoding), ws[0].start)
    ensures var d := DetectEncoding(f); var a := Max(ws[0].start, d.bomLength);
            Boundary(d.encoding, f, a, |f|) && RawJoined(f, ws) == DecodeRange(d.encoding, f, a, |f|)
    ensures forall k :: 0 <= k < |ws| ==> Decodes(f, ws[k])
  {
    hide WellFormed, IsLikelyBinary, CharWidth, CharUnits, RawText, Boundary, Decodes;
    var d := DetectEncoding(f);
    var w := ws[0];
    RawTextInFile(f, w, maxBytes);
    if |ws| == 1 {
      assert RawJoined(f, ws[1..]) == [];
    } else {
      BoundaryTransitive(d.encoding, f, Base(d.encoding), w.start, w.end);
      assert ws[0].end == ws[0 + 1].start;
      RawTextsJoin(f, ws[1..], maxBytes);
      RangesJoin(d.encoding, f, Max(w.start, d.bomLength), Max(w.end, d.bomLength), |f|);
    }
  }

  /** Joining drops one unit for each window that opens with a mark. */
  lemma {:induction false} JoinedLength(f: seq<byte>, ws: seq<Window>)
    requires forall k :: 0 <= k < |ws| ==> Decodes(f, ws[k])
    ensures |Joined(f, ws)| <= |RawJoined(f, ws)|
    ensures (forall k :: 0 <= k < |ws| ==> !OpensWithMark(f, ws[k])) <==> Joined(f, ws) == RawJoined(f, ws)
  {
    hide OpensWithMark, RawText, Decodes;
    if ws != [] {
      assert ws == [ws[0]] + ws[1..];
      JoinedLength(f, ws[1..]);
      WindowMark(f, ws[0]);
      var t, rest, raw := RawText(f, ws[0]), Joined(f, ws[1..]), RawJoined(f, ws[1..]);
      if !OpensWithMark(f, ws[0]) && Joined(f, ws) == RawJoined(f, ws) {
        assert (t + rest)[|t|..] == rest && (t + raw)[|t|..] == raw;
      }
    }
  }

  lemma WindowMark(f: seq<byte>, w: Window)
    requires Decodes(f, w)
    ensures RawText(f, w) != [] && RawText(f, w)[0] == MARK <==> OpensWithMark(f, w)
  {
    MarkInText(DetectEncoding(f).encoding, WindowBody(f, w));
  }

  /** The texts of the pages add up to the file's text exactly when no page opens with a byte-order mark: what a decoder
      drops at the beginning of a page is lost, as if it were the mark of a file. */
  lemma PagedText(f: seq<byte>, maxBytes: int)
    requires 0 < maxBytes <= MAX_FS_READ_BYTES && Refusal(f).None?
    requires WidestChar(DetectEncoding(f).encoding, f, Base(DetectEncoding(f).encoding)) <= maxBytes
    ensures var p := Pages(f, 0, maxBytes);
            p.Success? && (Joined(f, p.value) == FileText(f) <==>
                             forall k :: 0 <= k < |p.value| ==> !OpensWithMark(f, p.value[k]))
  {
    hide WellFormed, IsLikelyBinary, CharWidth, CharUnits, Pages, WidestChar, OpensWithMark, RawText, Decodes;
    PagingTilesFile(f, maxBytes);
    var ws := Pages(f, 0, maxBytes).value;
    var d := DetectEncoding(f);
    BoundaryHere(d.encoding, f, Base(d.encoding));
    RawTextsJoin(f, ws, maxBytes);
    BodyReachesEnd(f);
    JoinedLength(f, ws);
  }

  // ---------- Where pages begin, told by the file and the width ----------

  /** Where the pages from a boundary on begin: each is packed with as many characters as the width holds. */
  function StartsFrom(enc: Encoding, f: seq<byte>, at: nat, width: nat): seq<nat>
    requires at <= |f|
    decreases |f| - at
  {
    var next := Floor(enc, f, at, Min(|f|, at + width));
    if next <= at || next >= |f| then [at] else [at] + StartsFrom(enc, f, next, width)
  }

  /** Where all pages begin. The first page counts a UTF-16 byte-order mark as part of its width. */
  function PageStarts(f: seq<byte>, width: nat): seq<nat> {
    var enc := DetectEncoding(f).encoding;
    var next := Floor(enc, f, Base(enc), Max(Base(enc), Min(|f|, width)));
    if next >= |f| then [Base(enc)] else [Base(enc)] + StartsFrom(enc, f, next, width)
  }

  /** A byte-order mark stands at a place, or behind the mark that reveals the encoding if that is later. */
  predicate MarkAt(f: seq<byte>, i: nat) {
    var d := DetectEncoding(f);
    Max(i, d.bomLength) <= |f| && EncodeUnit(d.encoding, MARK) <= f[Max(i, d.bomLength)..]
  }

  function Starts(ws: seq<Window>): (r: seq<nat>)
    ensures |r| == |ws| && forall k :: 0 <= k < |ws| ==> r[k] == ws[k].start
  {
    seq(|ws|, k requires 0 <= k < |ws| => ws[k].start)
  }

  /** The page at a boundary ends where the packing says. */
  lemma PageIsPacked(f: seq<byte>, offset: nat, maxBytes: int)
    requires 0 < maxBytes <= MAX_FS_READ_BYTES && Refusal(f).None?
    requires var enc := DetectEncoding(f).encoding;
             && (offset == 0 || Boundary(enc, f, Base(enc), offset)) && offset <= |f|
             && WidestChar(enc, f, Base(enc)) <= maxBytes
    ensures var enc := DetectEncoding(f).encoding;
            var p, at := Page(f, offset, maxBytes), Max(offset, Base(enc));
            && p.Success? && p.value.start == at && at <= |f|
            && p.value.end == Floor(enc, f, at, if offset == 0 then Max(at, Min(|f|, maxBytes))
               else Min(|f|, at + maxBytes))
            && p.value.next == (if p.value.end < |f| then Some(p.value.end) else None)
            && (0 < offset < |f| ==> p.value.end > at)
            && p.value.end <= |f| && Boundary(enc, f, Base(enc), p.value.end)
  {
    hide WellFormed, Boundary, CharWidth, Floor, WidestChar, IsLikelyBinary;
    PageAtBoundary(f, offset, maxBytes);
    PageAdvances(f, offset, maxBytes);
    if offset != 0 { StartsBehindBase(f, offset); }
  }

  lemma StartsBehindBase(f: seq<byte>, offset: nat)
    requires Boundary(DetectEncoding(f).encoding, f, Base(DetectEncoding(f).encoding), offset)
    ensures offset >= Base(DetectEncoding(f).encoding)
  {
    BoundaryOrder(DetectEncoding(f).encoding, f, Base(DetectEncoding(f).encoding), offset);
  }

  lemma {:induction false} PagesFromPacked(f: seq<byte>, offset: nat, maxBytes: int)
    requires 0 < maxBytes <= MAX_FS_READ_BYTES && Refusal(f).None? && 0 < offset < |f|
    requires var enc := DetectEncoding(f).encoding;
             Boundary(enc, f, Base(enc), offset) && WidestChar(enc, f, Base(enc)) <= maxBytes
    ensures var p := Pages(f, offset, maxBytes);
            p.Success? && Starts(p.value) == StartsFrom(DetectEncoding(f).encoding, f, offset, maxBytes)
    decreases |f| - offset
  {
    hide WellFormed, Boundary, CharWidth, Floor, WidestChar, IsLikelyBinary, Page;
    PageIsPacked(f, offset, maxBytes);
    StartsBehindBase(f, offset);
    var w := Page(f, offset, maxBytes).value;
    if w.next.Some? {
      PagesFromPacked(f, w.end, maxBytes);
      StartsStep(w, Pages(f, w.end, maxBytes).value);
    } else {
      StartsStep(w, []);
    }
  }

  lemma StartsStep(w: Window, ws: seq<Window>)
    ensures Starts([w] + ws) == [w.start] + Starts(ws)
  {
  }

  /** The pages begin where the packing says. */
  lemma PagesArePacked(f: seq<byte>, maxBytes: int)
    requires 0 < maxBytes <= MAX_FS_READ_BYTES && Refusal(f).None?
    requires WidestChar(DetectEncoding(f).encoding, f, Base(DetectEncoding(f).encoding)) <= maxBytes
    ensures var p := Pages(f, 0, maxBytes); p.Success? && Starts(p.value) == PageStarts(f, maxBytes)
  {
    hide WellFormed, Boundary, CharWidth, Floor, WidestChar, IsLikelyBinary, Page;
    PageIsPacked(f, 0, maxBytes);
    PageAdvances(f, 0, maxBytes);
    var w := Page(f, 0, maxBytes).value;
    if w.next.Some? {
      PagesFromPacked(f, w.end, maxBytes);
      StartsStep(w, Pages(f, w.end, maxBytes).value);
    } else {
      StartsStep(w, []);
    }
  }

  // ---------- Marks where pages begin ----------

  lemma {:induction false} TileBoundary(f: seq<byte>, ws: seq<Window>, k: nat, maxBytes: int)
    requires k < |ws| && Tiles(ws, Base(DetectEncoding(f).encoding), |f|)
    requires forall i :: 0 <= i < |ws| ==> GoodWindow(f, ws[i], maxBytes)
    ensures var enc := DetectEncoding(f).encoding; Boundary(enc, f, Base(enc), ws[k].start) && Base(enc) <= ws[k].start
  {
    hide Boundary, WellFormed, CharWidth;
    var enc := DetectEncoding(f).encoding;
    if k == 0 {
      BoundaryHere(enc, f, Base(enc));
    } else {
      TileBoundary(f, ws, k - 1, maxBytes);
      assert ws[k - 1].end == ws[k - 1 + 1].start;
      BoundaryTransitive(enc, f, Base(enc), ws[k - 1].start, ws[k - 1].end);
      BoundaryOrder(enc, f, Base(enc), ws[k].start);
    }
  }

  /** A page that is decoded to something opens with a mark exactly when one stands where the page begins. */
  lemma OpensAtStart(f: seq<byte>, w: Window, maxBytes: int)
    requires Refusal(f).None? && GoodWindow(f, w, maxBytes) && Base(DetectEncoding(f).encoding) <= w.start
    requires Boundary(DetectEncoding(f).encoding, f, Base(DetectEncoding(f).encoding), w.start)
    ensures OpensWithMark(f, w) ==> MarkAt(f, w.start)
    ensures var n := DetectEncoding(f).bomLength;
            MarkAt(f, w.start) && Max(w.start, n) < Max(w.end, n) ==> OpensWithMark(f, w)
  {
    hide WellFormed, IsLikelyBinary, CharWidth, CharUnits, Boundary, RawText, Decodes, DecodeRange;
    var d := DetectEncoding(f);
    var a, b := Max(w.start, d.bomLength), Max(w.end, d.bomLength);
    RawTextInFile(f, w, maxBytes);
    AfterMark(f, w.start);
    BodyInFile(f, w);
    var mark := EncodeUnit(d.encoding, MARK);
    if OpensWithMark(f, w) {
      assert mark == f[a..][..|mark|];
    }
    if MarkAt(f, w.start) && a < b {
      MarkIsWide(d.encoding, f, a);
      NextBoundary(d.encoding, f, a, b);
      assert f[a..][..|mark|] == f[a..b][..|mark|];
    }
  }

  lemma BodyInFile(f: seq<byte>, w: Window)
    requires w.start <= w.end <= |f| && (w.start == 0 || w.start >= DetectEncoding(f).bomLength)
    ensures var n := DetectEncoding(f).bomLength;
            WindowBody(f, w) == f[Max(w.start, n)..Max(Max(w.start, n), w.end)]
  {
  }

  /** The mark is one character. */
  lemma MarkIsWide(enc: Encoding, f: seq<byte>, a: nat)
    requires a <= |f| && EncodeUnit(enc, MARK) <= f[a..]
    ensures CharWidth(enc, f, a) == |EncodeUnit(enc, MARK)|
  {
    var mark := EncodeUnit(enc, MARK);
    assert forall i :: 0 <= i < |mark| ==> f[a + i] == f[a..][i] == mark[i];
  }

  /** A mark where a page begins opens that page, or a later one if that page is decoded to nothing. */
  lemma {:induction false} MarkIsOpened(f: seq<byte>, ws: seq<Window>, k: nat, maxBytes: int) returns (j: nat)
    requires Refusal(f).None? && k < |ws| && Tiles(ws, Base(DetectEncoding(f).encoding), |f|)
    requires forall i :: 0 <= i < |ws| ==> GoodWindow(f, ws[i], maxBytes)
    requires MarkAt(f, ws[k].start)
    ensures j < |ws| && OpensWithMark(f, ws[j])
    decreases |ws| - k
  {
    hide WellFormed, IsLikelyBinary, Boundary, OpensWithMark, GoodWindow, DetectEncoding;
    TileBoundary(f, ws, k, maxBytes);
    OpensAtStart(f, ws[k], maxBytes);
    var n := DetectEncoding(f).bomLength;
    if Max(ws[k].start, n) < Max(ws[k].end, n) {
      j := k;
    } else {
      assert k + 1 < |ws|;
      assert ws[k].end == ws[k + 1].start;
      j := MarkIsOpened(f, ws, k + 1, maxBytes);
    }
  }

  /** The texts of the pages add up to the file's text exactly when no byte-order mark stands where a page begins, and
      these places follow from the file and the width alone. */
  lemma PagedTextExactly(f: seq<byte>, maxBytes: int)
    requires 0 < maxBytes <= MAX_FS_READ_BYTES && Refusal(f).None?
    requires WidestChar(DetectEncoding(f).encoding, f, Base(DetectEncoding(f).encoding)) <= maxBytes
    ensures var p, starts := Pages(f, 0, maxBytes), PageStarts(f, maxBytes);
            p.Success? && (Joined(f, p.value) == FileText(f) <==>
                forall k :: 0 <= k < |starts| ==> !MarkAt(f, starts[k]))
  {
    hide WellFormed, IsLikelyBinary, CharWidth, Pages, PageStarts, WidestChar, OpensWithMark, MarkAt, Joined, FileText;
    hide GoodWindow, Tiles, DetectEncoding;
    PagedText(f, maxBytes);
    PagesArePacked(f, maxBytes);
    PagingTilesFile(f, maxBytes);
    var ws, starts := Pages(f, 0, maxBytes).value, PageStarts(f, maxBytes);
    forall k | 0 <= k < |ws| ensures OpensWithMark(f, ws[k]) ==> MarkAt(f, starts[k]) {
      TileBoundary(f, ws, k, maxBytes);
      OpensAtStart(f, ws[k], maxBytes);
    }
    if k :| 0 <= k < |ws| && MarkAt(f, starts[k]) {
      var j := MarkIsOpened(f, ws, k, maxBytes);
    }
  }

  /** A text without the mark is had whole by paging. */
  lemma MarklessTextIsPaged(f: seq<byte>, maxBytes: int)
    requires 0 < maxBytes <= MAX_FS_READ_BYTES && Refusal(f).None? && MARK !in FileText(f)
    requires WidestChar(DetectEncoding(f).encoding, f, Base(DetectEncoding(f).encoding)) <= maxBytes
    ensures var p := Pages(f, 0, maxBytes); p.Success? && Joined(f, p.value) == FileText(f)
  {
    hide WellFormed, IsLikelyBinary, CharWidth, CharUnits, Pages, WidestChar, OpensWithMark, RawText, Decodes;
    PagingTilesFile(f, maxBytes);
    var ws := Pages(f, 0, maxBytes).value;
    var d := DetectEncoding(f);
    BoundaryHere(d.encoding, f, Base(d.encoding));
    RawTextsJoin(f, ws, maxBytes);
    BodyReachesEnd(f);
    NothingDropped(f, ws);
  }

  lemma {:induction false} NothingDropped(f: seq<byte>, ws: seq<Window>)
    requires MARK !in RawJoined(f, ws)
    ensures Joined(f, ws) == RawJoined(f, ws)
  {
    hide RawText;
    if ws != [] {
      var t := RawText(f, ws[0]);
      assert forall i :: 0 <= i < |t| ==> RawJoined(f, ws)[i] == t[i];
      NothingDropped(f, ws[1..]);
    }
  }

  /** A mark inside a file can be lost: three letters and a mark, read three bytes at a time. */
  lemma MarkLostBetweenPages()
    ensures var f: seq<byte> := [97, 97, 97, 0xEF, 0xBB, 0xBF];
            && Refusal(f).None? && FileText(f) == [97, 97, 97, MARK]
            && Pages(f, 0, 3) == Success([Window(0, 3, Some(3)), Window(3, 6, None)])
            && Joined(f, Pages(f, 0, 3).value) == [97, 97, 97]
  {
    var f: seq<byte> := [97, 97, 97, 0xEF, 0xBB, 0xBF];
    var w, v := Window(0, 3, Some(3)), Window(3, 6, None);
    LettersAndMark(f);
    hide Floor, Boundary, CharWidth, WellFormed, Refusal, FileText, DetectEncoding, WindowText;
    assert Page(f, 0, 3) == Success(w) && Page(f, 3, 3) == Success(v);
    TwoPages(f, w, v);
    TextsOfTwo(f, w, v);
  }

  lemma TwoPages(f: seq<byte>, w: Window, v: Window)
    requires Page(f, 0, 3) == Success(w) && w.next == Some(3) && Page(f, 3, 3) == Success(v) && v.next == None &&
             |f| == 6
    ensures Pages(f, 0, 3) == Success([w, v]) && Joined(f, [w, v]) == WindowText(f, w) + WindowText(f, v)
  {
    hide Page, WindowText;
    assert Pages(f, 3, 3) == Success([v]);
    assert [w] + [v] == [w, v] && [w, v][1..] == [v] && [v][1..] == [];
    assert Joined(f, [v]) == WindowText(f, v) + [];
  }

  lemma LettersAndMark(f: seq<byte>)
    requires f == [97, 97, 97, 0xEF, 0xBB, 0xBF]
    ensures DetectEncoding(f) == Detected(Utf8, 0) && Refusal(f).None?
    ensures CharWidth(Utf8, f, 0) == CharWidth(Utf8, f, 1) == CharWidth(Utf8, f, 2) == 1 && CharWidth(Utf8, f, 3) == 3
    ensures Boundary(Utf8, f, 0, 0) && Boundary(Utf8, f, 0, 3) && Boundary(Utf8, f, 3, 6)
    ensures Floor(Utf8, f, 0, 0) == 0 && Floor(Utf8, f, 0, 3) == 3 && Floor(Utf8, f, 3, 6) == 6
  {
    assert CharWidth(Utf8, f, 0) == CharWidth(Utf8, f, 1) == CharWidth(Utf8, f, 2) == 1 && CharWidth(Utf8, f, 3) == 3;
    hide CharWidth;
    assert WellFormed(Utf8, f, 6);
    assert WellFormed(Utf8, f, 3);
    assert WellFormed(Utf8, f, 2);
    assert WellFormed(Utf8, f, 1);
    assert Floor(Utf8, f, 6, 6) == 6 && Floor(Utf8, f, 3, 3) == 3 && Floor(Utf8, f, 2, 3) == 3 &&
        Floor(Utf8, f, 1, 3) == 3;
    assert Boundary(Utf8, f, 2, 3) && Boundary(Utf8, f, 1, 3);
    NoNuls(f);
    assert f[..6] == f;
  }

  lemma {:induction false} NoNuls(f: seq<byte>)
    requires 0 !in f
    ensures CountNul(f) == 0
  {
    if f != [] { NoNuls(f[1..]); }
  }

  lemma TextsOfTwo(f: seq<byte>, w: Window, v: Window)
    requires f == [97, 97, 97, 0xEF, 0xBB, 0xBF] && w == Window(0, 3, Some(3)) && v == Window(3, 6, None)
    ensures Refusal(f).None? && FileText(f) == [97, 97, 97, MARK]
    ensures WindowText(f, w) == [97, 97, 97] && WindowText(f, v) == []
  {
    LettersAndMark(f);
    LettersText(f);
    InFile(f, w);
    InFile(f, v);
    hide Floor, Boundary, CharWidth, WellFormed, Refusal, DecodeRange, RawText, CharUnits;
    RangesJoin(Utf8, f, 0, 3, 6);
    assert [97, 97, 97] + [MARK] == [97, 97, 97, MARK];
  }

  lemma LettersText(f: seq<byte>)
    requires f == [97, 97, 97, 0xEF, 0xBB, 0xBF]
    ensures Boundary(Utf8, f, 0, 3) && DecodeRange(Utf8, f, 0, 3) == [97, 97, 97]
    ensures Boundary(Utf8, f, 3, 6) && DecodeRange(Utf8, f, 3, 6) == [MARK]
  {
    LettersAndMark(f);
    assert CharUnits(Utf8, f, 0) == CharUnits(Utf8, f, 1) == CharUnits(Utf8, f, 2) == [97];
    assert CharUnits(Utf8, f, 3) == [MARK];
    hide CharWidth, CharUnits;
    assert Boundary(Utf8, f, 2, 3) && Boundary(Utf8, f, 1, 3);
    assert DecodeRange(Utf8, f, 3, 3) == [] && DecodeRange(Utf8, f, 6, 6) == [];
    assert DecodeRange(Utf8, f, 2, 3) == [97] + [];
    assert DecodeRange(Utf8, f, 1, 3) == [97] + ([97] + []);
    assert DecodeRange(Utf8, f, 0, 3) == [97] + ([97] + ([97] + []));
    assert DecodeRange(Utf8, f, 3, 6) == [MARK] + [];
  }

  lemma InFile(f: seq<byte>, w: Window)
    requires f == [97, 97, 97, 0xEF, 0xBB, 0xBF] && (w == Window(0, 3, Some(3)) || w == Window(3, 6, None))
    ensures Boundary(Utf8, f, w.start, w.end) && RawText(f, w) == DecodeRange(Utf8, f, w.start, w.end)
  {
    LettersAndMark(f);
    hide CharWidth, Floor, Refusal;
    SliceWellFormed(Utf8, f, 0, w.start, w.end);
    RawTextInFile(f, w, 3);
  }
}
