/** Lines of a text that arrives piece by piece, and the decoder that delivers it. */
module TextLines {
  import opened Text
  import opened Bytes

  const NEWLINE: CodeUnit := 10
  const CARRIAGE_RETURN: CodeUnit := 13

  /** A streaming UTF-8 decoder: what it has put out after some bytes, and the text of a whole stream. */
  datatype Decoder = Decoder(emitted: seq<byte> -> Text, whole: seq<byte> -> Text)

  /** The decoder only ever adds to its output, and its output is the beginning of the whole text. */
  ghost predicate Streaming(d: Decoder) {
    && d.emitted([]) == []
    && (forall a, b :: d.emitted(a) <= d.emitted(a + b))
    && (forall a :: d.emitted(a) <= d.whole(a))
  }

  lemma NothingEmitted(d: Decoder)
    requires Streaming(d)
    ensures d.emitted([]) == []
  {
  }

  /** One chunk more adds to the output. */
  lemma DecoderAdds(d: Decoder, before: seq<byte>, chunk: seq<byte>)
    requires Streaming(d)
    ensures |d.emitted(before)| <= |d.emitted(before + chunk)|
    ensures d.emitted(before + chunk) == d.emitted(before) + d.emitted(before + chunk)[|d.emitted(before)|..]
  {
    assert d.emitted(before) <= d.emitted(before + chunk);
  }

  /** And so does the end of the stream. */
  lemma DecoderEnds(d: Decoder, all: seq<byte>)
    requires Streaming(d)
    ensures |d.emitted(all)| <= |d.whole(all)| && d.whole(all) == d.emitted(all) + d.whole(all)[|d.emitted(all)|..]
  {
    assert d.emitted(all) <= d.whole(all);
  }

  /** The decoder of bytes that are ASCII characters, each of them its own code unit. */
  const ASCII_DECODER: Decoder := Decoder(AsciiText, AsciiText)

  function AsciiText(bytes: seq<byte>): (t: Text)
    ensures |t| == |bytes| && forall i :: 0 <= i < |bytes| ==> t[i] == bytes[i]
  {
    if bytes == [] then [] else [bytes[0]] + AsciiText(bytes[1..])
  }

  lemma AsciiStreams()
    ensures Streaming(ASCII_DECODER)
  {
    forall a, b ensures AsciiText(a) <= AsciiText(a + b) {
      assert AsciiText(a + b)[..|a|] == AsciiText(a);
    }
  }

  function IndexOfNewline(t: Text): (r: nat)
    ensures r <= |t| && (r < |t| ==> t[r] == NEWLINE) && forall i :: 0 <= i < r ==> t[i] != NEWLINE
  {
    if t == [] || t[0] == NEWLINE then 0 else 1 + IndexOfNewline(t[1..])
  }

  function StripReturn(line: Text): Text {
    if line != [] && line[|line| - 1] == CARRIAGE_RETURN then line[..|line| - 1] else line
  }

  /** The lines that a newline ends, without their ends. */
  function Lines(t: Text): seq<Text>
    decreases |t|
  {
    var i := IndexOfNewline(t);
    if i == |t| then [] else [StripReturn(t[..i])] + Lines(t[i + 1..])
  }

  /** What follows the last newline. */
  function Rest(t: Text): Text
    decreases |t|
  {
    var i := IndexOfNewline(t);
    if i == |t| then t else Rest(t[i + 1..])
  }

  /** A text without a newline is all rest. */
  lemma {:induction false} RestHasNoNewline(t: Text)
    ensures NEWLINE !in Rest(t) && IndexOfNewline(Rest(t)) == |Rest(t)|
    decreases |t|
  {
    var i := IndexOfNewline(t);
    if i < |t| {
      RestHasNoNewline(t[i + 1..]);
    } else {
      assert forall k :: 0 <= k < |t| ==> t[k] != NEWLINE;
    }
  }

  lemma IndexExtends(t: Text, s: Text)
    requires IndexOfNewline(t) < |t|
    ensures IndexOfNewline(t + s) == IndexOfNewline(t)
  {
    var i, j := IndexOfNewline(t), IndexOfNewline(t + s);
    assert (t + s)[i] == NEWLINE;
    if j < i { assert (t + s)[j] == t[j]; }
  }

  lemma LinesStep(t: Text)
    ensures var i := IndexOfNewline(t);
            if i == |t| then Lines(t) == [] && Rest(t) == t
            else Lines(t) == [StripReturn(t[..i])] + Lines(t[i + 1..]) && Rest(t) == Rest(t[i + 1..])
  {
    hide StripReturn, IndexOfNewline, Lines, Rest;
    if IndexOfNewline(t) == |t| { NoLine(t); } else { OneLineMore(t); }
  }

  lemma NoLine(t: Text)
    requires IndexOfNewline(t) == |t|
    ensures Lines(t) == [] && Rest(t) == t
  {
  }

  lemma OneLineMore(t: Text)
    requires IndexOfNewline(t) < |t|
    ensures Lines(t) == [StripReturn(t[..IndexOfNewline(t)])] + Lines(t[IndexOfNewline(t) + 1..])
    ensures Rest(t) == Rest(t[IndexOfNewline(t) + 1..])
  {
    hide StripReturn, IndexOfNewline;
  }

  lemma FirstLine(t: Text, s: Text)
    requires IndexOfNewline(t) < |t|
    ensures var i := IndexOfNewline(t);
            Lines(t + s) == [StripReturn(t[..i])] + Lines(t[i + 1..] + s) && Rest(t + s) == Rest(t[i + 1..] + s)
  {
    hide Lines, Rest, StripReturn;
    var i := IndexOfNewline(t);
    IndexExtends(t, s);
    LinesStep(t + s);
    assert (t + s)[..i] == t[..i] && (t + s)[i + 1..] == t[i + 1..] + s;
  }

  /** Splitting piece by piece: the lines of what came before, then the lines of its rest with what comes. */
  lemma {:induction false} LinesConcat(t: Text, s: Text)
    ensures Lines(t + s) == Lines(t) + Lines(Rest(t) + s) && Rest(t + s) == Rest(Rest(t) + s)
    decreases |t|
  {
    hide Lines, Rest, StripReturn;
    var i := IndexOfNewline(t);
    LinesStep(t);
    if i < |t| {
      FirstLine(t, s);
      LinesConcat(t[i + 1..], s);
    } else {
      assert [] + Lines(t + s) == Lines(t + s);
    }
  }
}
