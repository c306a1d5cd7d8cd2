/** Texts as the program holds them: sequences of UTF-16 code units. */
module Text {

  type CodeUnit = x: int | 0 <= x < 0x10000

  type Text = seq<CodeUnit>

  const BACKSLASH: CodeUnit := 92
  const SLASH: CodeUnit := 47
  const DOT: CodeUnit := 46

  /** The text of an ASCII literal. */
  function Ascii(s: string): (r: Text)
    requires forall i :: 0 <= i < |s| ==> s[i] as int < 128
    ensures |r| == |s| && forall i :: 0 <= i < |s| ==> r[i] == s[i] as int
  {
    seq(|s|, i requires 0 <= i < |s| => s[i] as int)
  }

  predicate IsHigh(c: int) { 0xD800 <= c < 0xDC00 }

  predicate IsLow(c: int) { 0xDC00 <= c < 0xE000 }

  /** No surrogate stands alone, so the text has a UTF-8 encoding from which it can be read back. */
  predicate Paired(t: Text) {
    t == []
    || (!IsHigh(t[0]) && !IsLow(t[0]) && Paired(t[1..]))
    || (IsHigh(t[0]) && |t| > 1 && IsLow(t[1]) && Paired(t[2..]))
  }

  lemma {:induction false} PairedConcat(a: Text, b: Text)
    requires Paired(a) && Paired(b)
    ensures Paired(a + b)
  {
    if a == [] {
      assert a + b == b;
    } else if IsHigh(a[0]) {
      PairedConcat(a[2..], b);
      assert (a + b)[2..] == a[2..] + b;
    } else {
      PairedConcat(a[1..], b);
      assert (a + b)[1..] == a[1..] + b;
    }
  }

  /** Every backslash turned into a slash. */
  function ForwardSlashes(s: Text): (r: Text)
    ensures |r| == |s| && forall i :: 0 <= i < |s| ==> r[i] == if s[i] == BACKSLASH then SLASH else s[i]
  {
    seq(|s|, i requires 0 <= i < |s| => if s[i] == BACKSLASH then SLASH else s[i])
  }

  /** The parts between slashes; a text without a slash is one part. */
  function Segments(s: Text): (r: seq<Text>)
    ensures r != []
  {
    if s == [] then [[]]
    else if s[0] == SLASH then [[]] + Segments(s[1..])
    else var rest := Segments(s[1..]); [[s[0]] + rest[0]] + rest[1..]
  }
}
