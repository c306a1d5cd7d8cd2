/** Collecting a git diff: inline lines within limits, counts, and the whole diff as an artifact when cut. */
module DiffCollector {
  import opened Wrappers
  import opened Text
  import opened Bytes
  import opened TextLines

  const INLINE_HUNK_LINES := 500
  const INLINE_HUNK_BYTES := 256 * 1024
  const MAX_GIT_DIFF_BYTES := 64 * 1024 * 1024
  const PLUS: CodeUnit := 43
  const MINUS: CodeUnit := 45

  datatype Options = Options(
    spill: bool, inlineLimit: Option<nat>, inlineBytesLimit: Option<nat>, maxOutputBytes: Option<nat>)

  /** Decoding, and the UTF-8 length of a line. */
  datatype Platform = Platform(decoder: Decoder, byteLength: Text -> nat)

  function Or(o: Option<nat>, default: nat): nat { if o.Some? then o.value else default }

  function LineLimit(o: Options): nat { Or(o.inlineLimit, INLINE_HUNK_LINES) }

  function ByteLimit(o: Options): nat { Or(o.inlineBytesLimit, INLINE_HUNK_BYTES) }

  function OutputLimit(o: Options): nat { Or(o.maxOutputBytes, MAX_GIT_DIFF_BYTES) }

  predicate IsAddition(line: Text) { [PLUS] <= line && !([PLUS, PLUS, PLUS] <= line) }

  predicate IsDeletion(line: Text) { [MINUS] <= line && !([MINUS, MINUS, MINUS] <= line) }

  /** What the collector has made of some lines. */
  datatype Tally = Tally(
    lineCount: nat, inline: seq<Text>, inlineBytes: nat, additions: nat, deletions: nat, overflow: bool)

  function Count(t: Tally, line: Text, o: Options, p: Platform): Tally {
    var lineBytes := p.byteLength(line) + 1;
    var fits := t.lineCount + 1 <= LineLimit(o) && t.inlineBytes + lineBytes <= ByteLimit(o);
    Tally(t.lineCount + 1,
          if fits then t.inline + [line] else t.inline,
          if fits then t.inlineBytes + lineBytes else t.inlineBytes,
          t.additions + (if IsAddition(line) then 1 else 0),
          t.deletions + (if IsDeletion(line) then 1 else 0),
          t.overflow || !fits)
  }

  function TallyOf(lines: seq<Text>, o: Options, p: Platform): Tally {
    if lines == [] then Tally(0, [], 0, 0, 0, false)
    else Count(TallyOf(lines[..|lines| - 1], o, p), lines[|lines| - 1], o, p)
  }

  // ---------- What a diff comes to ----------

  /** The lines of a diff; a last line that no newline ends keeps its carriage return. */
  function DiffLines(stream: seq<byte>, p: Platform): seq<Text> {
    var text := p.decoder.whole(stream);
    Lines(text) + (if Rest(text) != [] then [Rest(text)] else [])
  }

  datatype Diff = Diff(lines: seq<Text>, additions: nat, deletions: nat, truncated: bool, artifact: Option<seq<byte>>)

  /** The result for a stream, without mention of chunks. */
  function DiffOf(stream: seq<byte>, o: Options, p: Platform): Diff {
    var t := TallyOf(DiffLines(stream, p), o, p);
    var truncated := t.overflow || (o.spill && |stream| > ByteLimit(o));
    Diff(t.inline, t.additions, t.deletions, truncated, if o.spill && truncated then Some(stream) else None)
  }

  function Matching(lines: seq<Text>, test: Text -> bool): nat {
    if lines == [] then 0 else Matching(lines[..|lines| - 1], test) + (if test(lines[|lines| - 1]) then 1 else 0)
  }

  /** The first list results from the second by leaving lines out. */
  ghost predicate Subsequence(a: seq<Text>, b: seq<Text>) {
    if a == [] then true
    else b != [] && (if a[|a| - 1] == b[|b| - 1]
      then Subsequence(a[..|a| - 1], b[..|b| - 1]) || Subsequence(a, b[..|b| - 1])
                     else Subsequence(a, b[..|b| - 1]))
  }

  /** Bytes of some lines, each with its end. */
  function BytesOf(lines: seq<Text>, p: Platform): nat {
    if lines == [] then 0 else BytesOf(lines[..|lines| - 1], p) + p.byteLength(lines[|lines| - 1]) + 1
  }

  lemma BytesStep(lines: seq<Text>, line: Text, p: Platform)
    ensures BytesOf(lines + [line], p) == BytesOf(lines, p) + p.byteLength(line) + 1
  {
    assert (lines + [line])[..|lines|] == lines;
  }

  /** Lines are left out exactly when there are more than the limit, or they take more bytes than the limit. */
  lemma {:induction false} OverflowExactly(lines: seq<Text>, o: Options, p: Platform)
    ensures var t := TallyOf(lines, o, p);
            && (t.overflow <==> |lines| > LineLimit(o) || BytesOf(lines, p) > ByteLimit(o))
            && t.inlineBytes == BytesOf(t.inline, p) && t.inlineBytes <= BytesOf(lines, p)
  {
    if lines != [] {
      var init, last := lines[..|lines| - 1], lines[|lines| - 1];
      OverflowExactly(init, o, p);
      TallyMeaning(init, o, p);
      BytesStep(TallyOf(init, o, p).inline, last, p);
    }
  }

  lemma {:induction false} TallyMeaning(lines: seq<Text>, o: Options, p: Platform)
    ensures var t := TallyOf(lines, o, p);
            && t.lineCount == |lines|
            && t.additions == Matching(lines, IsAddition) && t.deletions == Matching(lines, IsDeletion)
            && Subsequence(t.inline, lines)
            && |t.inline| <= LineLimit(o) && |t.inline| <= |lines| && t.inlineBytes <= ByteLimit(o)
            && (t.overflow <==> |t.inline| < |lines|)
            && (!t.overflow ==> t.inline == lines)
  {
    if lines != [] {
      TallyMeaning(lines[..|lines| - 1], o, p);
      assert lines == lines[..|lines| - 1] + [lines[|lines| - 1]];
    }
  }

  /** The counts are those of the whole diff; the inline lines are a selection in order, complete when the result is
      not truncated; it is truncated exactly when the lines, their bytes or, with an artifact store, the stream exceed
      a limit; the artifact exists exactly when the result is truncated, and is the diff. */
  lemma DiffMeaning(stream: seq<byte>, o: Options, p: Platform)
    ensures var d := DiffOf(stream, o, p); var all := DiffLines(stream, p);
            && d.additions == Matching(all, IsAddition) && d.deletions == Matching(all, IsDeletion)
            && Subsequence(d.lines, all)
            && (!d.truncated ==> d.lines == all)
            && (d.truncated <==>
                  |all| > LineLimit(o) || BytesOf(all, p) > ByteLimit(o) || (o.spill && |stream| > ByteLimit(o)))
            && (o.spill ==> (d.artifact.Some? <==> d.truncated)) && (d.artifact.Some? ==> d.artifact.value == stream)
  {
    hide DiffLines, TallyOf, BytesOf, Matching, Subsequence;
    TallyMeaning(DiffLines(stream, p), o, p);
    OverflowExactly(DiffLines(stream, p), o, p);
  }

  /** Once a place is reached, nothing more fits: the lines before it fit, and none behind it does. */
  ghost predicate CutsAt(lines: seq<Text>, k: nat, o: Options, p: Platform) {
    && k <= |lines| && k <= LineLimit(o) && BytesOf(lines[..k], p) <= ByteLimit(o)
    && forall j :: k <= j < |lines| ==>
         j + 1 > LineLimit(o) || BytesOf(lines[..k], p) + p.byteLength(lines[j]) + 1 > ByteLimit(o)
  }

  /** Where the lines can be cut, the inline lines are those before the cut. */
  lemma {:induction false} CutGivesPrefix(lines: seq<Text>, k: nat, o: Options, p: Platform)
    requires CutsAt(lines, k, o, p)
    ensures TallyOf(lines, o, p).inline == lines[..k]
  {
    TallyMeaning(lines, o, p);
    OverflowExactly(lines, o, p);
    if k == |lines| {
      assert lines[..k] == lines;
    } else {
      var init, last := lines[..|lines| - 1], lines[|lines| - 1];
      assert init[..k] == lines[..k];
      CutGivesPrefix(init, k, o, p);
      TallyMeaning(init, o, p);
      OverflowExactly(init, o, p);
    }
  }

  /** Inline lines that are a beginning of the diff end where the lines can be cut. */
  lemma {:induction false} PrefixGivesCut(lines: seq<Text>, o: Options, p: Platform)
    requires TallyOf(lines, o, p).inline <= lines
    ensures CutsAt(lines, |TallyOf(lines, o, p).inline|, o, p)
    decreases |lines|, 1
  {
    hide CutsAt, BytesOf, TallyOf;
    if lines == [] {
      NothingCut(o, p);
    } else {
      var init, last := lines[..|lines| - 1], lines[|lines| - 1];
      var kept := TallyOf(init, o, p).inline;
      OneMoreLine(lines, o, p);
      if TallyOf(lines, o, p).inline == kept {
        assert lines[..|kept|] == kept == init[..|kept|];
        PrefixGivesCut(init, o, p);
        assert lines == init + [last];
        CutStays(init, last, |kept|, o, p);
      } else {
        LastKept(lines, o, p);
        AllKept(lines, o, p);
      }
    }
  }

  lemma OneMoreLine(lines: seq<Text>, o: Options, p: Platform)
    requires lines != []
    ensures var kept, now := TallyOf(lines[..|lines| - 1], o, p).inline, TallyOf(lines, o, p).inline;
            (now == kept || now == kept + [lines[|lines| - 1]]) && |kept| <= |lines| - 1
  {
    TallyMeaning(lines[..|lines| - 1], o, p);
  }

  lemma NothingCut(o: Options, p: Platform)
    ensures TallyOf([], o, p).inline == [] && CutsAt([], 0, o, p)
  {
    var none: seq<Text> := [];
    assert none[..0] == none;
  }

  /** The cut stays where it is when one more line does not fit. */
  lemma CutStays(init: seq<Text>, last: Text, k: nat, o: Options, p: Platform)
    requires CutsAt(init, k, o, p) && TallyOf(init, o, p).inline == init[..k]
    requires TallyOf(init + [last], o, p).inline == init[..k]
    ensures CutsAt(init + [last], k, o, p)
  {
    var lines := init + [last];
    TallyStep(init, last, o, p);
    TallyMeaning(init, o, p);
    OverflowExactly(init, o, p);
    assert lines[..k] == init[..k];
    hide TallyOf, BytesOf;
    forall j | k <= j < |lines|
      ensures j + 1 > LineLimit(o) || BytesOf(lines[..k], p) + p.byteLength(lines[j]) + 1 > ByteLimit(o)
    {
      if j < |init| { assert lines[j] == init[j]; }
    }
  }

  lemma AllKept(lines: seq<Text>, o: Options, p: Platform)
    requires TallyOf(lines, o, p).inline == lines
    ensures CutsAt(lines, |lines|, o, p)
  {
    TallyMeaning(lines, o, p);
    OverflowExactly(lines, o, p);
    assert lines[..|lines|] == lines;
  }

  /** A line equal to the first one left out does not fit either. */
  lemma LeftOutAgain(init: seq<Text>, last: Text, o: Options, p: Platform)
    requires var kept := TallyOf(init, o, p).inline;
             kept <= init && |kept| < |init| && init[|kept|] == last
    ensures TallyOf(init + [last], o, p).inline == TallyOf(init, o, p).inline
    decreases |init|, 2
  {
    TallyStep(init, last, o, p);
    TallyMeaning(init, o, p);
    OverflowExactly(init, o, p);
    PrefixGivesCut(init, o, p);
    assert init[..|TallyOf(init, o, p).inline|] == TallyOf(init, o, p).inline;
  }

  /** When the last line is kept and the result is a beginning of the lines, everything is kept. */
  lemma LastKept(lines: seq<Text>, o: Options, p: Platform)
    requires lines != []
    requires var init, last := lines[..|lines| - 1], lines[|lines| - 1];
             TallyOf(lines, o, p).inline == TallyOf(init, o, p).inline + [last]
    requires TallyOf(lines, o, p).inline <= lines
    ensures TallyOf(lines, o, p).inline == lines
    decreases |lines|, 0
  {
    var init, last := lines[..|lines| - 1], lines[|lines| - 1];
    var kept := TallyOf(init, o, p).inline;
    TallyMeaning(init, o, p);
    assert lines == init + [last];
    assert kept == lines[..|kept|] by { assert (kept + [last])[..|kept|] == kept; }
    assert lines[|kept|] == (kept + [last])[|kept|];
    hide TallyOf;
    if |kept| < |init| { LeftOutAgain(init, last, o, p); }
  }

  /** The inline lines are a beginning of the diff exactly when there is a place up to which the lines fit, and behind
      which no single line fits. */
  lemma InlineIsPrefixExactly(lines: seq<Text>, o: Options, p: Platform)
    ensures TallyOf(lines, o, p).inline <= lines <==> exists k :: CutsAt(lines, k, o, p)
  {
    if TallyOf(lines, o, p).inline <= lines {
      PrefixGivesCut(lines, o, p);
    }
    if k :| CutsAt(lines, k, o, p) {
      CutGivesPrefix(lines, k, o, p);
    }
  }

  /** The same for the result of a stream. */
  lemma DiffIsPrefixExactly(stream: seq<byte>, o: Options, p: Platform)
    ensures var all := DiffLines(stream, p);
            DiffOf(stream, o, p).lines <= all <==> exists k :: CutsAt(all, k, o, p)
  {
    InlineIsPrefixExactly(DiffLines(stream, p), o, p);
  }

  /** A platform for bytes that are ASCII characters, each of them its own code unit. */
  const ASCII: Platform := Platform(ASCII_DECODER, (t: Text) => |t|)

  /** A cut result need not be a beginning of the diff: under a bound of three bytes the first line is left out, and the
      second one kept. */
  lemma InlineIsNotAPrefix()
    ensures var stream: seq<byte> := [43, 97, 97, NEWLINE, 43, NEWLINE];
            var d := DiffOf(stream, Options(false, None, Some(3), None), ASCII);
            && DiffLines(stream, ASCII) == [[43, 97, 97], [43]]
            && d.lines == [[43]] && !(d.lines <= DiffLines(stream, ASCII)) && d.truncated
    ensures Streaming(ASCII.decoder)
  {
    AsciiStreams();
    var stream: seq<byte> := [43, 97, 97, NEWLINE, 43, NEWLINE];
    var long: Text, short: Text := [43, 97, 97], [43];
    hide Lines, Rest, TallyOf, AsciiText;
    StreamOfTwo(stream, long, short);
    LinesOfTwo(long, short);
    LongThenShort(long, short);
    assert DiffLines(stream, ASCII) == [long, short] + [];
    assert [short][0] != [long, short][0];
  }

  lemma StreamOfTwo(stream: seq<byte>, long: Text, short: Text)
    requires stream == [43, 97, 97, NEWLINE, 43, NEWLINE] && long == [43, 97, 97] && short == [43]
    ensures AsciiText(stream) == long + [NEWLINE] + short + [NEWLINE]
  {
    hide AsciiText;
  }

  lemma LongThenShort(long: Text, short: Text)
    requires |long| == 3 && |short| == 1
    ensures var t := TallyOf([long, short], Options(false, None, Some(3), None), ASCII);
            t.inline == [short] && t.overflow
  {
    var o := Options(false, None, Some(3), None);
    TallyStep([], long, o, ASCII);
    TallyStep([long], short, o, ASCII);
    assert [] + [long] == [long] && [long] + [short] == [long, short];
    assert TallyOf([long], o, ASCII).inline == [];
  }

  lemma LinesOfTwo(a: Text, b: Text)
    requires NEWLINE !in a && NEWLINE !in b && StripReturn(a) == a && StripReturn(b) == b
    ensures var t := a + [NEWLINE] + b + [NEWLINE]; Lines(t) == [a, b] && Rest(t) == []
  {
    hide Lines, Rest, StripReturn;
    assert a + [NEWLINE] + b + [NEWLINE] == a + [NEWLINE] + (b + [NEWLINE]);
    FirstLine(a, b + [NEWLINE]);
    FirstLine(b, []);
    assert b + [NEWLINE] + [] == b + [NEWLINE];
    LinesStep([]);
  }

  lemma FirstLine(a: Text, rest: Text)
    requires NEWLINE !in a
    ensures var t := a + [NEWLINE] + rest; Lines(t) == [StripReturn(a)] + Lines(rest) && Rest(t) == Rest(rest)
  {
    hide Lines, Rest, StripReturn;
    var t := a + [NEWLINE] + rest;
    var i := IndexOfNewline(t);
    assert t[|a|] == NEWLINE;
    assert forall k :: 0 <= k < |a| ==> t[k] == a[k];
    LinesStep(t);
    assert t[i + 1..] == rest && t[..i] == a;
  }

  // ---------- The collector ----------

  lemma TallyStep(lines: seq<Text>, line: Text, o: Options, p: Platform)
    ensures TallyOf(lines + [line], o, p) == Count(TallyOf(lines, o, p), line, o, p)
  {
    assert (lines + [line])[..|lines|] == lines;
  }

  class DiffCollector {
    const opts: Options
    const platform: Platform
    var rawPrefix: seq<seq<byte>>
    var rawPrefixBytes: nat
    var textBuffer: Text
    var writer: Option<seq<byte>>
    var inlineBytes: nat
    var lineCount: nat
    var outputBytes: nat
    var additions: nat
    var deletions: nat
    var inline: seq<Text>
    var truncatedValue: bool

    /** The decoder's state: the bytes it has been given. */
    var seen: seq<byte>
    ghost var lines: seq<Text>

    /** The counters are those of the lines so far, and the flag accounts for the given number of bytes. */
    ghost predicate Tallied(bytes: nat)
      reads this`lines, this`lineCount, this`inline, this`inlineBytes, this`additions, this`deletions,
            this`truncatedValue
    {
      var t := TallyOf(lines, opts, platform);
      && lineCount == t.lineCount && inline == t.inline && inlineBytes == t.inlineBytes
      && additions == t.additions && deletions == t.deletions
      && truncatedValue == (t.overflow || (opts.spill && bytes > ByteLimit(opts)))
    }

    /** Where the given bytes are: in the artifact, or all of them in the prefix that may still be needed. */
    ghost predicate Stored(bytes: seq<byte>)
      reads this`writer, this`rawPrefix, this`rawPrefixBytes
    {
      if writer.Some? then writer.value == bytes && rawPrefix == []
      else opts.spill ==> Concat(rawPrefix) == bytes && rawPrefixBytes == |bytes|
    }

    ghost predicate Valid()
      reads this
    {
      && Streaming(platform.decoder) && outputBytes == |seen|
      && lines == Lines(platform.decoder.emitted(seen)) && textBuffer == Rest(platform.decoder.emitted(seen))
      && Tallied(|seen|) && Stored(seen) && (writer.Some? <==> opts.spill && truncatedValue)
    }

    constructor (opts: Options, platform: Platform)
      requires Streaming(platform.decoder)
      ensures Valid() && this.opts == opts && this.platform == platform && seen == []
    {
      this.opts, this.platform := opts, platform;
      rawPrefix, rawPrefixBytes, textBuffer, writer := [], 0, [], None;
      inlineBytes, lineCount, outputBytes, additions, deletions, inline, truncatedValue := 0, 0, 0, 0, 0, [], false;
      seen, lines := [], [];
    }

    method StartWriter()
      requires Stored(seen) && opts.spill && truncatedValue
      modifies this`writer, this`rawPrefix, this`rawPrefixBytes
      ensures Stored(seen) && writer == Some(seen)
    {
      if writer.Some? { return; }
      writer := Some([]);
      if rawPrefix != [] {
        writer := Some(writer.value + Concat(rawPrefix));
        rawPrefix, rawPrefixBytes := [], 0;
      }
    }

    method ConsumeLine(line: Text)
      requires Tallied(|seen|)
      modifies this`lines, this`lineCount, this`additions, this`deletions, this`inline, this`inlineBytes,
               this`truncatedValue
      ensures lines == old(lines) + [line] && Tallied(|seen|) && (old(truncatedValue) ==> truncatedValue)
    {
      TallyStep(lines, line, opts, platform);
      lines := lines + [line];
      lineCount := lineCount + 1;
      if [PLUS] <= line && !([PLUS, PLUS, PLUS] <= line) { additions := additions + 1; }
      if [MINUS] <= line && !([MINUS, MINUS, MINUS] <= line) { deletions := deletions + 1; }
      var lineBytes := platform.byteLength(line) + 1;
      if lineCount > LineLimit(opts) || inlineBytes + lineBytes > ByteLimit(opts) {
        truncatedValue := true;
        return;
      }
      inline := inline + [line];
      inlineBytes := inlineBytes + lineBytes;
    }

    method ConsumeText(text: Text)
      requires Tallied(|seen|)
      modifies this`textBuffer, this`lines, this`lineCount, this`additions, this`deletions, this`inline,
               this`inlineBytes, this`truncatedValue
      ensures lines == old(lines) + Lines(old(textBuffer) + text) && textBuffer == Rest(old(textBuffer) + text)
      ensures Tallied(|seen|) && (old(truncatedValue) ==> truncatedValue)
    {
      hide TallyOf, Tallied, Lines, Rest, StripReturn;
      textBuffer := textBuffer + text;
      ghost var all, before := textBuffer, lines;
      while true
        invariant Tallied(|seen|) && (old(truncatedValue) ==> truncatedValue)
        invariant before + Lines(all) == lines + Lines(textBuffer) && Rest(textBuffer) == Rest(all)
        decreases |textBuffer|
      {
        var newline := IndexOfNewline(textBuffer);
        LinesStep(textBuffer);
        if newline == |textBuffer| { break; }
        var line := StripReturn(textBuffer[..newline]);
        ghost var rest := Lines(textBuffer[newline + 1..]);
        assert lines + ([line] + rest) == (lines + [line]) + rest;
        textBuffer := textBuffer[newline + 1..];
        ConsumeLine(line);
      }
    }

    /** Takes the next chunk; false when the output limit is exceeded, which ends the collection. */
    method Append(chunk: seq<byte>) returns (ok: bool)
      requires Valid()
      modifies this
      ensures ok <==> old(outputBytes) + |chunk| <= OutputLimit(opts)
      ensures ok ==> Valid() && seen == old(seen) + chunk
    {
      hide TallyOf, Lines, Rest, Concat, Streaming, Tallied, Stored;
      outputBytes := outputBytes + |chunk|;
      if outputBytes > OutputLimit(opts) { return false; }
      ok := true;
      var before := seen;
      seen := seen + chunk;
      StoreChunk(before, chunk);
      DecoderAdds(platform.decoder, before, chunk);
      var emitted := platform.decoder.emitted(before);
      var more := platform.decoder.emitted(seen)[|emitted|..];
      LinesConcat(emitted, more);
      ConsumeText(more);
      if writer.None? && truncatedValue && opts.spill { StartWriter(); }
    }

    /** Puts the chunk into the artifact or the prefix, starting the artifact when the prefix grows too long. */
    method StoreChunk(ghost before: seq<byte>, chunk: seq<byte>)
      requires seen == before + chunk && Stored(before) && Tallied(|before|) &&
               (writer.Some? <==> opts.spill && truncatedValue)
      modifies this`writer, this`rawPrefix, this`rawPrefixBytes, this`truncatedValue
      ensures Stored(seen) && Tallied(|seen|) && (writer.Some? <==> opts.spill && truncatedValue)
    {
      hide TallyOf;
      if writer.Some? {
        writer := Some(writer.value + chunk);
      } else if opts.spill {
        if rawPrefixBytes + |chunk| <= ByteLimit(opts) {
          ConcatAppend(rawPrefix, [chunk]);
          assert Concat([chunk]) == chunk + [];
          rawPrefix := rawPrefix + [chunk];
          rawPrefixBytes := rawPrefixBytes + |chunk|;
        } else {
          truncatedValue := true;
          writer := Some(Concat(rawPrefix));
          rawPrefix, rawPrefixBytes := [], 0;
          writer := Some(writer.value + chunk);
        }
      }
    }

    lemma StoredMeans()
      requires Stored(seen)
      ensures writer.Some? ==> writer.value == seen
    {
    }

    /** Ends the stream. */
    method Finish() returns (d: Diff)
      requires Valid()
      modifies this
      ensures d == DiffOf(seen, opts, platform) && seen == old(seen)
    {
      hide TallyOf, Lines, Rest, Concat, Streaming, Stored, Count;
      DecoderEnds(platform.decoder, seen);
      var emitted := platform.decoder.emitted(seen);
      var final := platform.decoder.whole(seen)[|emitted|..];
      LinesConcat(emitted, final);
      ConsumeText(final);
      if textBuffer != [] {
        ConsumeLine(textBuffer);
        textBuffer := [];
      }
      assert lines == DiffLines(seen, platform);
      StoredMeans();
      if truncatedValue && opts.spill { StartWriter(); }
      d := Diff(inline, additions, deletions, truncatedValue, writer);
    }
  }

  /** The whole collection: whatever the chunks, the result is that of the stream, or the stream is too long. */
  method CollectDiff(chunks: seq<seq<byte>>, opts: Options, platform: Platform) returns (r: Option<Diff>)
    requires Streaming(platform.decoder)
    ensures r == if |Concat(chunks)| <= OutputLimit(opts) then Some(DiffOf(Concat(chunks), opts, platform)) else None
  {
    assert Concat(chunks[..0]) == [];
    hide DiffCollector.Valid, DiffOf, Streaming, Concat;
    var collector := new DiffCollector(opts, platform);
    for k := 0 to |chunks|
      invariant collector.Valid() && collector.opts == opts && collector.platform == platform
      invariant collector.seen == Concat(chunks[..k]) && |Concat(chunks[..k])| <= OutputLimit(opts)
      invariant fresh(collector)
    {
      ConcatStep(chunks, k);
      var ok := collector.Append(chunks[k]);
      if !ok {
        BeginningIsShorter(chunks, k + 1);
        return None;
      }
    }
    assert chunks[..|chunks|] == chunks;
    var d := collector.Finish();
    r := Some(d);
  }

  lemma BeginningIsShorter(chunks: seq<seq<byte>>, k: nat)
    requires k <= |chunks|
    ensures |Concat(chunks[..k])| <= |Concat(chunks)|
  {
    hide Concat;
    ConcatAppend(chunks[..k], chunks[k..]);
    assert chunks[..k] + chunks[k..] == chunks;
  }
}
