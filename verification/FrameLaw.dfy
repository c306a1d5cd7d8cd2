/** What counts as a declared length, and exactly when and why decoding stops. */
module FrameLaw {
  import opened Wrappers
  import opened Bytes
  import opened FrameDecoder

  // ---------- One header line ----------

  const NAME := "Content-Length:"

  /** The same letter, in either case. */
  predicate SameLetter(c: char, d: char) {
    c == d || ('a' <= d <= 'z' && c as int == d as int - 32) || ('A' <= d <= 'Z' && c as int == d as int + 32)
  }

  /** Blanks, tabs, line feeds, vertical tabs, form feeds and carriage returns. */
  predicate Blank(s: string) {
    forall i :: 0 <= i < |s| ==> s[i] as int == 32 || s[i] as int == 9 || s[i] as int == 10 || s[i] as int == 11 ||
                                 s[i] as int == 12 || s[i] as int == 13
  }

  predicate Digits(s: string) { s != "" && forall i :: 0 <= i < |s| ==> '0' <= s[i] <= '9' }

  /** The line is the field's name, blanks, digits, and blanks. */
  predicate IsField(line: string, name: string, blanks: string, digits: string, more: string) {
    && line == name + blanks + digits + more
    && |name| == |NAME| && (forall i :: 0 <= i < |NAME| ==> SameLetter(name[i], NAME[i]))
    && Blank(blanks) && Digits(digits) && Blank(more)
  }

  lemma NameMeans(name: string)
    requires |name| == |NAME|
    ensures LowerAll(name) == FIELD <==> forall i :: 0 <= i < |NAME| ==> SameLetter(name[i], NAME[i])
  {
    assert |NAME| == |FIELD| == 15;
    assert forall i :: 0 <= i < 15 ==> FIELD[i] == Lower(NAME[i]);
    assert forall i :: 0 <= i < 15 ==> (Lower(name[i]) == FIELD[i] <==> SameLetter(name[i], NAME[i]));
  }

  /** Skipping takes all the blanks there are. */
  lemma {:induction false} SkipMeans(s: string) returns (k: nat)
    ensures k <= |s| && Blank(s[..k]) && SkipSpaces(s) == s[k..]
    ensures k < |s| ==> !IsSpace(s[k])
  {
    if s != [] && IsSpace(s[0]) {
      var j := SkipMeans(s[1..]);
      k := j + 1;
      assert s[..k] == [s[0]] + s[1..][..j];
      assert s[1..][j..] == s[k..];
    } else {
      k := 0;
      assert s[0..] == s;
    }
  }

  lemma {:induction false} SkipBlanks(s: string, rest: string)
    requires Blank(s) && (rest == [] || !IsSpace(rest[0]))
    ensures SkipSpaces(s + rest) == rest
  {
    if s != [] {
      assert (s + rest)[1..] == s[1..] + rest;
      SkipBlanks(s[1..], rest);
    } else {
      assert s + rest == rest;
    }
  }

  lemma {:induction false} RunOfDigits(s: string, rest: string)
    requires (forall i :: 0 <= i < |s| ==> IsDigit(s[i])) && (rest == [] || !IsDigit(rest[0]))
    ensures DigitRun(s + rest) == |s|
  {
    if s != [] {
      assert (s + rest)[1..] == s[1..] + rest;
      RunOfDigits(s[1..], rest);
    } else {
      assert s + rest == rest;
    }
  }

  /** A line declares a length exactly when it is the field with this number. */
  lemma FieldExactly(line: string, n: nat)
    ensures LengthField(line) == Some(n) <==>
              exists name, blanks, digits, more ::
                IsField(line, name, blanks, digits, more) && DecimalValue(digits) == n
  {
    if LengthField(line) == Some(n) { FieldParts(line, n); }
    forall name, blanks, digits, more | IsField(line, name, blanks, digits, more) && DecimalValue(digits) == n
      ensures LengthField(line) == Some(n)
    {
      PartsOfField(line, name, blanks, digits, more);
    }
  }

  lemma FieldParts(line: string, n: nat)
    requires LengthField(line) == Some(n)
    ensures exists name, blanks, digits, more ::
              IsField(line, name, blanks, digits, more) && DecimalValue(digits) == n
  {
    var name, behind := line[..|FIELD|], line[|FIELD|..];
    NameMeans(name);
    var j := SkipMeans(behind);
    var rest := behind[j..];
    var d := DigitRun(rest);
    var digits, more := rest[..d], rest[d..];
    var k := SkipMeans(more);
    assert SkipSpaces(more) == [] && DecimalValue(digits) == n && Digits(digits);
    hide LengthField, SkipSpaces, DecimalValue, DigitRun, LowerAll, Blank, Digits, SameLetter;
    assert k == |more| && more[..k] == more;
    JoinFour(line, name, behind, j, d);
    assert IsField(line, name, behind[..j], digits, more);
  }

  lemma JoinFour(line: string, name: string, behind: string, j: nat, d: nat)
    requires line == name + behind && j <= |behind| && d <= |behind| - j
    ensures line == name + behind[..j] + behind[j..][..d] + behind[j..][d..]
  {
    var blanks, rest := behind[..j], behind[j..];
    Associate(name, blanks, rest[..d], rest[d..]);
    assert rest[..d] + rest[d..] == rest && blanks + rest == behind;
  }

  lemma Associate(a: string, b: string, c: string, d: string)
    ensures a + (b + (c + d)) == a + b + c + d
  {
  }

  lemma PartsOfField(line: string, name: string, blanks: string, digits: string, more: string)
    requires IsField(line, name, blanks, digits, more)
    ensures LengthField(line) == Some(DecimalValue(digits))
  {
    hide DecimalValue;
    NameMeans(name);
    var rest := digits + more;
    assert line == name + (blanks + rest);
    assert line[..|FIELD|] == name && line[|FIELD|..] == blanks + rest;
    SkipBlanks(blanks, rest);
    RunOfDigits(digits, more);
    SkipBlanks(more, []);
    assert more + [] == more;
    assert rest[|digits|..] == more && rest[..|digits|] == digits;
  }

  // ---------- All the lines ----------

  /** The lines with a carriage return and a line feed between each two. */
  function Joined(lines: seq<string>): string {
    if lines == [] then "" else if |lines| == 1 then lines[0] else lines[0] + "\r\n" + Joined(lines[1..])
  }

  /** Splitting gives the lines whose joining is the text, and none of them holds a line end. */
  lemma {:induction false} LinesExactly(s: string)
    ensures Joined(SplitLines(s)) == s
    ensures forall k :: 0 <= k < |SplitLines(s)| ==> forall j :: !CrlfAt(SplitLines(s)[k], j)
    decreases |s|
  {
    var i := IndexOfCrlf(s, 0);
    if i.Some? {
      var first, rest := s[..i.value], s[i.value + 2..];
      LinesExactly(rest);
      assert SplitLines(s)[1..] == SplitLines(rest);
      assert s == first + "\r\n" + rest;
      forall j ensures !CrlfAt(first, j) {
        if CrlfAt(first, j) { assert CrlfAt(s, j); }
      }
    }
  }

  /** The lines that declare a length, as they come. */
  function Declared(lines: seq<string>): seq<nat> {
    if lines == [] then []
    else (if LengthField(lines[0]).Some? then [LengthField(lines[0]).value] else []) + Declared(lines[1..])
  }

  /** What is made of a header: its one length, if it is safe. Without any length it is incomplete; a first length that
      is not safe is invalid; and otherwise a second length is one too many. */
  lemma {:induction false} HeaderVerdict(lines: seq<string>)
    ensures var d, r := Declared(lines), ContentLength(lines, None);
            && (r == Failure(MissingLength) <==> d == [])
            && (r == Failure(InvalidLength) <==> d != [] && d[0] > 0x1F_FFFF_FFFF_FFFF)
            && (r == Failure(DuplicateLength) <==> |d| > 1 && d[0] <= 0x1F_FFFF_FFFF_FFFF)
            && (r.Success? <==> |d| == 1 && d[0] <= 0x1F_FFFF_FFFF_FFFF)
            && (r.Success? ==> r.value == d[0])
  {
    hide LengthField;
    if lines != [] {
      if LengthField(lines[0]).Some? { SecondLength(lines[1..], LengthField(lines[0]).value); }
      else { HeaderVerdict(lines[1..]); }
    }
  }

  lemma {:induction false} SecondLength(lines: seq<string>, n: nat)
    ensures ContentLength(lines, Some(n)) == if Declared(lines) == [] then Success(n) else Failure(DuplicateLength)
  {
    hide LengthField;
    if lines != [] && LengthField(lines[0]).None? { SecondLength(lines[1..], n); }
  }

  // ---------- Where decoding stops ----------

  predicate BlankLineAt(b: seq<byte>, i: nat) { i + 4 <= |b| && b[i..i + 4] == [13, 10, 13, 10] }

  /** The first blank line of the bytes begins here. */
  predicate HeaderEnds(b: seq<byte>, h: nat) { BlankLineAt(b, h) && forall j: nat :: j < h ==> !BlankLineAt(b, j) }

  ghost predicate HeaderOpen(b: seq<byte>) { forall h: nat :: !BlankLineAt(b, h) }

  /** The lengths that the header declares. */
  function LengthsOf(header: seq<byte>): seq<nat> { Declared(SplitLines(Ascii(header))) }

  lemma TerminatorMeans(b: seq<byte>, i: nat)
    ensures TerminatorAt(b, i) <==> BlankLineAt(b, i)
  {
    if i + 4 <= |b| { assert b[i..i + 4] == [b[i], b[i + 1], b[i + 2], b[i + 3]]; }
  }

  lemma EndMeans(b: seq<byte>)
    ensures IndexOfTerminator(b, 0).None? <==> HeaderOpen(b)
    ensures forall h: nat :: HeaderEnds(b, h) <==> IndexOfTerminator(b, 0) == Some(h)
  {
    hide TerminatorAt, BlankLineAt;
    forall i: nat ensures TerminatorAt(b, i) <==> BlankLineAt(b, i) { TerminatorMeans(b, i); }
    var r := IndexOfTerminator(b, 0);
    hide IndexOfTerminator;
    if r.Some? { assert TerminatorAt(b, r.value); }
  }

  /** The front of the bytes cannot be decoded yet, and need not be an error. */
  ghost predicate Waits(b: seq<byte>, max: nat) {
    || (HeaderOpen(b) && |b| <= 65536)
    || (exists h: nat :: HeaderEnds(b, h) && Awaited(b, h, max))
  }

  /** The header declares one safe length within the limit, and the body is not there as a whole. */
  predicate Awaited(b: seq<byte>, h: nat, max: nat)
    requires HeaderEnds(b, h)
  {
    var l := LengthsOf(b[..h]);
    |l| == 1 && l[0] <= 0x1F_FFFF_FFFF_FFFF && l[0] <= max && |b| < h + 4 + l[0]
  }

  /** Decoding stops exactly where it has to: without an error when what is left waits for more bytes; with one when a
      header is too long, or declares no length, one that is no safe integer, a second one, or one over the limit. */
  lemma {:induction false} StopsExactly(buf: seq<byte>, max: nat)
    ensures var d := Drain(buf, max);
            && (d.error == None <==> Waits(d.rest, max))
            && (d.error == Some(HeaderTooLarge) <==> HeaderOpen(d.rest) && |d.rest| > 65536)
            && forall h: nat :: HeaderEnds(d.rest, h) ==>
                 var l := LengthsOf(d.rest[..h]);
                 && (d.error == Some(MissingLength) <==> l == [])
                 && (d.error == Some(InvalidLength) <==> l != [] && l[0] > 0x1F_FFFF_FFFF_FFFF)
                 && (d.error == Some(DuplicateLength) <==> |l| > 1 && l[0] <= 0x1F_FFFF_FFFF_FFFF)
                 && (d.error == Some(FrameTooLarge) <==> |l| == 1 && max < l[0] <= 0x1F_FFFF_FFFF_FFFF)
    decreases |buf|
  {
    hide FrontOf, LengthsOf, HeaderEnds, HeaderOpen, Waits;
    DrainStep(buf, max);
    var f := FrontOf(buf, max);
    if f.Frame? { StopsExactly(buf[f.end..], max); } else { FrontExactly(buf, max); }
  }

  lemma FrontExactly(b: seq<byte>, max: nat)
    ensures var f := FrontOf(b, max);
            && (f == Incomplete <==> Waits(b, max))
            && (f == Bad(HeaderTooLarge) <==> HeaderOpen(b) && |b| > 65536)
            && forall h: nat :: HeaderEnds(b, h) ==>
                 var l := LengthsOf(b[..h]);
                 && (f == Bad(MissingLength) <==> l == [])
                 && (f == Bad(InvalidLength) <==> l != [] && l[0] > 0x1F_FFFF_FFFF_FFFF)
                 && (f == Bad(DuplicateLength) <==> |l| > 1 && l[0] <= 0x1F_FFFF_FFFF_FFFF)
                 && (f == Bad(FrameTooLarge) <==> |l| == 1 && max < l[0] <= 0x1F_FFFF_FFFF_FFFF)
  {
    EndMeans(b);
    hide IndexOfTerminator, HeaderEnds, HeaderOpen, SplitLines, Ascii, Declared, ContentLength;
    var r := IndexOfTerminator(b, 0);
    if r.Some? {
      HeaderVerdict(SplitLines(Ascii(b[..r.value])));
      assert HeaderEnds(b, r.value);
    }
  }
}
