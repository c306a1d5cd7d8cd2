/** Which files are read as text: exactly the encodings of texts, under the encoding their first bytes announce. */
module TextFiles {
  import opened Arithmetic
  import opened Bytes
  import opened Wrappers
  import opened Text
  import opened BoundedRead
  import opened TextWindow

  // ---------- Encoded characters are decoded ----------

  predicate At(f: seq<byte>, i: nat, bytes: seq<byte>) { i + |bytes| <= |f| && f[i..i + |bytes|] == bytes }

  /** Three bytes that encode a code unit from 0x800 on which is no surrogate. */
  lemma ThreeBytes(f: seq<byte>, i: nat, c: CodeUnit)
    requires c >= 0x800 && !IsHigh(c) && !IsLow(c) && At(f, i, EncodeUnit(Utf8, c))
    ensures Utf8Char(f, i) == 3 && CodePoint(f, i) == c
  {
    var e := EncodeUnit(Utf8, c);
    assert f[i] == e[0] && f[i + 1] == e[1] && f[i + 2] == e[2];
    assert c / 4096 == c / 64 / 64;
    assert Continuations(f, i + 1, 2);
  }

  lemma FourBytes(f: seq<byte>, i: nat, high: CodeUnit, low: CodeUnit)
    requires IsHigh(high) && IsLow(low) && At(f, i, EncodePair(Utf8, high, low))
    ensures Utf8Char(f, i) == 4 && CharUnits(Utf8, f, i) == [high, low]
  {
    var c := 0x10000 + 1024 * (high as int - 0xD800) + (low as int - 0xDC00);
    var e := EncodePair(Utf8, high, low);
    assert f[i] == e[0] && f[i + 1] == e[1] && f[i + 2] == e[2] && f[i + 3] == e[3];
    assert c / 4096 == c / 64 / 64 && c / 262144 == c / 64 / 64 / 64;
    assert Continuations(f, i + 1, 3);
    assert CodePoint(f, i) == c;
    assert (c - 0x10000) / 1024 == high as int - 0xD800 && (c - 0x10000) % 1024 == low as int - 0xDC00;
  }

  lemma UnitDecodes(enc: Encoding, f: seq<byte>, i: nat, c: CodeUnit)
    requires !IsHigh(c) && !IsLow(c) && At(f, i, EncodeUnit(enc, c))
    ensures CharWidth(enc, f, i) == |EncodeUnit(enc, c)| && CharUnits(enc, f, i) == [c]
  {
    var e := EncodeUnit(enc, c);
    assert forall k :: 0 <= k < |e| ==> f[i + k] == e[k];
    if enc.Utf8? && c >= 0x800 { ThreeBytes(f, i, c); }
    else if enc.Utf8? && c >= 0x80 {
      assert f[i] == e[0] && f[i + 1] == e[1];
    } else {
      assert f[i] == e[0];
      if enc.Utf16? { assert f[i + 1] == e[1]; }
    }
  }

  lemma PairDecodes(enc: Encoding, f: seq<byte>, i: nat, high: CodeUnit, low: CodeUnit)
    requires IsHigh(high) && IsLow(low) && At(f, i, EncodePair(enc, high, low))
    ensures CharWidth(enc, f, i) == |EncodePair(enc, high, low)| == 4 && CharUnits(enc, f, i) == [high, low]
  {
    if enc.Utf8? { FourBytes(f, i, high, low); }
    else {
      var e := EncodePair(enc, high, low);
      assert f[i] == e[0] && f[i + 1] == e[1] && f[i + 2] == e[2] && f[i + 3] == e[3];
    }
  }

  /** Behind any bytes, the encoding of a text is a run of characters whose text is that text. */
  lemma {:induction false} EncodingDecodes(enc: Encoding, f: seq<byte>, i: nat, t: Text)
    requires Paired(t) && i <= |f| && f[i..] == Encode(enc, t)
    ensures WellFormed(enc, f, i) && Boundary(enc, f, i, |f|) && DecodeRange(enc, f, i, |f|) == t
    decreases |t|
  {
    hide CharWidth, CharUnits, EncodeUnit, EncodePair;
    if t != [] {
      var n := if IsHigh(t[0]) then 2 else 1;
      var e := if IsHigh(t[0]) then EncodePair(enc, t[0], t[1]) else EncodeUnit(enc, t[0]);
      assert f[i..] == e + Encode(enc, t[n..]);
      assert f[i..][..|e|] == e && f[i..][|e|..] == Encode(enc, t[n..]);
      assert f[i..i + |e|] == e && f[i + |e|..] == Encode(enc, t[n..]);
      if n == 2 { PairDecodes(enc, f, i, t[0], t[1]); } else { UnitDecodes(enc, f, i, t[0]); }
      SomeBytes(enc, t);
      EncodingDecodes(enc, f, i + |e|, t[n..]);
      assert t == t[..n] + t[n..];
    }
  }

  lemma SomeBytes(enc: Encoding, t: Text)
    requires t != []
    ensures EncodeUnit(enc, t[0]) != []
    ensures |t| > 1 && IsHigh(t[0]) && IsLow(t[1]) ==> EncodePair(enc, t[0], t[1]) != []
  {
  }

  /** What is decoded has no lone surrogate. */
  lemma {:induction false} DecodedIsPaired(enc: Encoding, f: seq<byte>, a: nat, b: nat)
    requires Boundary(enc, f, a, b)
    ensures Paired(DecodeRange(enc, f, a, b))
    decreases |f| - a
  {
    hide CharUnits, CharWidth, Paired;
    if a == b { assert Paired([]) by { NothingPaired(); } }
    else {
      CharIsPaired(enc, f, a);
      DecodedIsPaired(enc, f, a + CharWidth(enc, f, a), b);
      PairedConcat(CharUnits(enc, f, a), DecodeRange(enc, f, a + CharWidth(enc, f, a), b));
    }
  }

  lemma NothingPaired()
    ensures Paired([])
  {
  }

  lemma CharIsPaired(enc: Encoding, f: seq<byte>, i: nat)
    requires CharWidth(enc, f, i) > 0
    ensures Paired(CharUnits(enc, f, i))
  {
    var u := CharUnits(enc, f, i);
    if enc.Utf8? {
      Utf8Encodes(f, i);
      if |u| == 1 && Utf8Char(f, i) > 1 { NeverLow(f, i); }
    } else { Utf16Encodes(f, i, enc.bigEndian); }
    hide CharUnits, CharWidth;
    if |u| == 1 { assert u[1..] == []; } else { assert u[2..] == []; }
  }

  lemma NeverLow(f: seq<byte>, i: nat)
    requires Utf8Char(f, i) > 1
    ensures !IsLow(CodePoint(f, i))
  {
  }

  // ---------- Detection ----------

  /** The first bytes alone name the encoding. */
  lemma DetectionExactly(f: seq<byte>)
    ensures DetectEncoding(f) == Detected(Utf8, 3) <==> [0xEF, 0xBB, 0xBF] <= f
    ensures DetectEncoding(f) == Detected(Utf16(true), 2) <==> [0xFE, 0xFF] <= f
    ensures DetectEncoding(f) == Detected(Utf16(false), 2) <==> [0xFF, 0xFE] <= f
    ensures DetectEncoding(f) == Detected(Utf8, 0) <==>
              !([0xEF, 0xBB, 0xBF] <= f) && !([0xFE, 0xFF] <= f) && !([0xFF, 0xFE] <= f)
  {
  }

  /** The byte-order mark U+FEFF in each encoding. */
  lemma MarkBytes()
    ensures Encode(Utf8, [0xFEFF]) == [0xEF, 0xBB, 0xBF]
    ensures Encode(Utf16(true), [0xFEFF]) == [0xFE, 0xFF] && Encode(Utf16(false), [0xFEFF]) == [0xFF, 0xFE]
  {
    OneUnit(Utf8, 0xFEFF);
    OneUnit(Utf16(true), 0xFEFF);
    OneUnit(Utf16(false), 0xFEFF);
  }

  lemma OneUnit(enc: Encoding, c: CodeUnit)
    ensures Encode(enc, [c]) == EncodeUnit(enc, c)
  {
    assert [c][1..] == [];
    assert Encode(enc, [c]) == EncodeUnit(enc, c) + [];
  }

  lemma MarkFirst(enc: Encoding, t: Text)
    ensures Encode(enc, [MARK] + t) == Encode(enc, [MARK]) + Encode(enc, t)
  {
    OneUnit(enc, MARK);
    assert ([MARK] + t)[1..] == t;
  }

  /** A text behind a byte-order mark is read as that text, in every encoding. */
  lemma MarkedTextIsRead(enc: Encoding, t: Text)
    requires Paired(t)
    ensures var f := Encode(enc, [0xFEFF] + t);
            && DetectEncoding(f) == Detected(enc, |Encode(enc, [0xFEFF])|)
            && Refusal(f).None? && FileText(f) == t
  {
    var f := Encode(enc, [MARK] + t);
    var mark := Encode(enc, [MARK]);
    MarkFirst(enc, t);
    MarkBytes();
    DetectionExactly(f);
    assert f[|mark|..] == Encode(enc, t);
    EncodingDecodes(enc, f, |mark|, t);
    hide Encode;
    assert |f| >= BINARY_SAMPLE_BYTES ==> DetectEncoding(f[..BINARY_SAMPLE_BYTES]) == DetectEncoding(f);
  }

  // ---------- Which files are read ----------

  /** No byte-order mark, and more than one NUL in twenty of the first 1024 bytes. */
  predicate FullOfNuls(f: seq<byte>) {
    var sample := f[..Min(|f|, 1024)];
    !([0xEF, 0xBB, 0xBF] <= f) && !([0xFE, 0xFF] <= f) && !([0xFF, 0xFE] <= f) && 20 * multiset(sample)[0] > |sample|
  }

  /** The file is a text behind the mark of the encoding, or in UTF-8 a text without a mark. */
  predicate IsTextIn(f: seq<byte>, enc: Encoding, t: Text) {
    Paired(t) && (f == Encode(enc, [0xFEFF] + t) || (enc.Utf8? && !([0xFEFF] <= t) && f == Encode(enc, t)))
  }

  lemma {:induction false} NulsCounted(f: seq<byte>)
    ensures CountNul(f) == multiset(f)[0]
  {
    if f != [] {
      NulsCounted(f[1..]);
      assert f == [f[0]] + f[1..];
    }
  }

  lemma LikelyBinaryMeans(f: seq<byte>)
    ensures |f| >= 1024 ==> (IsLikelyBinary(f[..1024]) <==> FullOfNuls(f))
    ensures |f| <= 1024 ==> (IsLikelyBinary(f) <==> FullOfNuls(f))
  {
    var sample := f[..Min(|f|, 1024)];
    NulsCounted(sample);
    DetectionExactly(f);
    DetectionExactly(sample);
    assert sample[..Min(|sample|, 1024)] == sample;
    hide CountNul;
  }

  /** The first character is the mark exactly when the first bytes are. */
  lemma MarkUpFront(t: Text)
    requires Paired(t)
    ensures [0xFEFF] <= t <==> [0xEF, 0xBB, 0xBF] <= Encode(Utf8, t)
    ensures !([0xFE, 0xFF] <= Encode(Utf8, t)) && !([0xFF, 0xFE] <= Encode(Utf8, t))
  {
    var f := Encode(Utf8, t);
    EncodingDecodes(Utf8, f, 0, t);
    if t != [] {
      WellFormedFromBoundary(Utf8, f, 0, 0);
      assert f[0..] == f;
      MarkInText(Utf8, f);
      MarkBytes();
      OneUnit(Utf8, MARK);
    }
  }

  /** A file is read as text exactly when it is the encoding of a text and not full of NULs; and it is read as that
      text, in that encoding. */
  lemma ReadExactly(f: seq<byte>, enc: Encoding, t: Text)
    ensures IsTextIn(f, enc, t) && !FullOfNuls(f) <==>
              Refusal(f).None? && DetectEncoding(f).encoding == enc && FileText(f) == t
  {
    LikelyBinaryMeans(f);
    hide WellFormed, IsLikelyBinary, FullOfNuls, IsTextIn, DecodeRange;
    if IsTextIn(f, enc, t) { TextIsReadable(f, enc, t); }
    if Readable(f) { ReadableIsText(f); }
  }

  /** The bytes behind the mark are characters throughout. */
  predicate Readable(f: seq<byte>) { WellFormed(DetectEncoding(f).encoding, f, DetectEncoding(f).bomLength) }

  /** What the bytes behind the mark say. */
  function TextOf(f: seq<byte>): Text
    requires Readable(f)
  {
    var d := DetectEncoding(f);
    WellFormedFromBoundary(d.encoding, f, d.bomLength, d.bomLength);
    DecodeRange(d.encoding, f, d.bomLength, |f|)
  }

  lemma TextIsReadable(f: seq<byte>, enc: Encoding, t: Text)
    requires IsTextIn(f, enc, t)
    ensures Readable(f) && DetectEncoding(f).encoding == enc && TextOf(f) == t
  {
    hide WellFormed, Boundary, CharWidth, Encode, IsLikelyBinary, Paired, DecodeRange;
    if f == Encode(enc, [0xFEFF] + t) { MarkedTextIsRead(enc, t); }
    else {
      MarkUpFront(t);
      DetectionExactly(f);
      assert f[0..] == f;
      EncodingDecodes(Utf8, f, 0, t);
    }
  }

  lemma ReadableIsText(f: seq<byte>)
    requires Readable(f)
    ensures IsTextIn(f, DetectEncoding(f).encoding, TextOf(f))
  {
    hide CharWidth, Encode, Paired, DecodeRange;
    var d := DetectEncoding(f);
    var t := TextOf(f);
    WellFormedFromBoundary(d.encoding, f, d.bomLength, d.bomLength);
    hide WellFormed, Boundary;
    DecodingLosesNothing(d.encoding, f, d.bomLength, |f|);
    assert f[d.bomLength..|f|] == f[d.bomLength..];
    DecodedIsPaired(d.encoding, f, d.bomLength, |f|);
    DetectionExactly(f);
    MarkBytes();
    MarkFirst(d.encoding, t);
    if d.bomLength == 0 {
      assert f[0..] == f;
      MarkUpFront(t);
    } else {
      assert f == f[..d.bomLength] + f[d.bomLength..];
    }
  }

  /** Why a file is refused: for its encoding when it is no text at all, as binary when it is full of NULs; of a file
      that is both, the size decides. */
  lemma RefusedExactly(f: seq<byte>)
    ensures var isText := exists enc, t :: IsTextIn(f, enc, t);
            && (Refusal(f) == Some(Binary) <==> FullOfNuls(f) && (isText || |f| >= 1024))
            && (Refusal(f) == Some(BadEncoding) <==> !isText && !(FullOfNuls(f) && |f| >= 1024))
            && Refusal(f) != Some(OutOfRange)
  {
    LikelyBinaryMeans(f);
    hide WellFormed, CharWidth, IsLikelyBinary, FullOfNuls, IsTextIn;
    if Readable(f) { ReadableIsText(f); }
    forall enc, t | IsTextIn(f, enc, t) ensures Readable(f) { TextIsReadable(f, enc, t); }
  }

  // ---------- Which requests are refused ----------

  /** The code unit in which the offset lies, behind the byte-order mark, is the second of a pair. */
  predicate InsidePair(f: seq<byte>, bigEndian: bool, offset: nat) {
    var at := if offset < 2 then 2 else offset - (offset - 2) % 2;
    at + 2 <= |f| && IsLow(CodeUnitAt(f, at, bigEndian))
  }

  /** The window reaches the end of the code unit in which the offset lies and is at least as wide as a code unit. */
  predicate HoldsUnit(f: seq<byte>, offset: nat, maxBytes: int) {
    var at := if offset < 2 then 2 else offset - (offset - 2) % 2;
    var last := if offset + maxBytes < |f| then offset + maxBytes else |f|;
    at + 2 <= last && offset + 2 <= last
  }

  lemma {:induction false} LowIsNoBoundary(f: seq<byte>, be: bool, from: nat, i: nat)
    requires WellFormed(Utf16(be), f, from) && i + 2 <= |f| && IsLow(CodeUnitAt(f, i, be))
    ensures !Boundary(Utf16(be), f, from, i)
    decreases |f| - from
  {
    if from != i && from < i { LowIsNoBoundary(f, be, from + CharWidth(Utf16(be), f, from), i); }
  }

  lemma InsideMeans(f: seq<byte>, be: bool, offset: nat)
    requires 2 <= |f| && WellFormed(Utf16(be), f, 2) && offset <= |f|
    ensures var start := Utf16Start(offset);
            start == (if offset < 2 then 2 else offset - (offset - 2) % 2) && start <= |f|
    ensures Boundary(Utf16(be), f, 2, Utf16Start(offset)) <==> !InsidePair(f, be, offset)
  {
    var start := Utf16Start(offset);
    hide WellFormed, Boundary, CodeUnitAt;
    WellFormedFromBoundaryHere(f, be);
    if start + 2 <= |f| {
      if IsLow(CodeUnitAt(f, start, be)) { LowIsNoBoundary(f, be, 2, start); }
      else if !Boundary(Utf16(be), f, 2, start) { OffBoundaryIsLow(f, be, 2, start); }
    } else {
      Utf16BoundaryEven(f, be, 2, |f|);
    }
  }

  lemma WellFormedFromBoundaryHere(f: seq<byte>, be: bool)
    requires 2 <= |f| && WellFormed(Utf16(be), f, 2)
    ensures Boundary(Utf16(be), f, 2, |f|)
  {
    BoundaryHere(Utf16(be), f, 2);
    WellFormedFromBoundary(Utf16(be), f, 2, 2);
  }

  /** Why a request fails: for a size that is not from one byte to one mebibyte; for the file; or, in UTF-16, because it
      begins inside a pair and its window holds the rest of it. */
  lemma PageFailsExactly(f: seq<byte>, offset: nat, maxBytes: int)
    ensures var p, sized, d := Page(f, offset, maxBytes), 1 <= maxBytes <= 1_048_576, DetectEncoding(f);
            && (p == Failure(OutOfRange) <==> !sized)
            && (p == Failure(Binary) <==> sized && Refusal(f) == Some(Binary))
            && (p == Failure(BadEncoding) <==>
                  sized && (Refusal(f) == Some(BadEncoding) ||
                            (Refusal(f).None? && d.encoding.Utf16? && offset <= |f| &&
                             InsidePair(f, d.encoding.bigEndian, offset) && HoldsUnit(f, offset, maxBytes))))
  {
    RefusedExactly(f);
    hide IsTextIn, FullOfNuls, Boundary, Floor, CodeUnitAt, WellFormed, IsLikelyBinary;
    if Refusal(f).None? {
      BodyIsWellFormed(f);
      var enc := DetectEncoding(f).encoding;
      if enc.Utf16? {
        InsideMeans(f, enc.bigEndian, Min(offset, |f|));
        if offset > |f| { WellFormedFromBoundaryHere(f, enc.bigEndian); EndIsEven(f, enc.bigEndian); }
      }
    }
  }

  lemma EndIsEven(f: seq<byte>, be: bool)
    requires 2 <= |f| && Boundary(Utf16(be), f, 2, |f|)
    ensures !InsidePair(f, be, |f|)
  {
    Utf16BoundaryEven(f, be, 2, |f|);
  }
}
