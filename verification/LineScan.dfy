/** Splitting a text into lines while it arrives in pieces, with a bound on what is buffered of an unfinished line. */
module LineScan {
  import opened Text
  import opened Bytes
  import opened TextLines

  const MAX_SEARCH_LINE_BYTES := 1024 * 1024

  /** The length of a text's encoding. */
  type Measure = Text -> nat

  /** Adding to a text does not shorten its encoding. */
  ghost predicate Monotone(m: Measure) { forall a, b :: m(a) <= m(a + b) }

  predicate TooLong(t: Text, m: Measure) { m(t) > MAX_SEARCH_LINE_BYTES }

  // ---------- The scan, piece by piece ----------

  /** The lines handed on so far, and what is buffered of the unfinished one, unless it is being discarded. */
  datatype Scan = Scan(seen: seq<Text>, buffer: Text, discarding: bool)

  /** The end of a piece: an unfinished line beyond the bound is discarded. */
  function CloseScan(seen: seq<Text>, rest: Text, m: Measure): Scan {
    if TooLong(rest, m) then Scan(seen, [], true) else Scan(seen, rest, false)
  }

  /** A discarded line is handed on as an empty one when a newline ends it. */
  function AddPiece(x: Scan, piece: Text, m: Measure): Scan {
    if !x.discarding then
      var text := x.buffer + piece;
      CloseScan(x.seen + Lines(text), Rest(text), m)
    else
      var i := IndexOfNewline(piece);
      if i == |piece| then x
      else CloseScan(x.seen + [[]] + Lines(piece[i + 1..]), Rest(piece[i + 1..]), m)
  }

  function ScanOf(pieces: seq<Text>, m: Measure): Scan {
    if pieces == [] then Scan([], [], false) else AddPiece(ScanOf(pieces[..|pieces| - 1], m), pieces[|pieces| - 1], m)
  }

  // ---------- What becomes of each line, told by the text and the places where it was cut ----------

  /** A raw line without its newline. */
  datatype Span = Span(start: nat, end: nat)

  function LineEnd(t: Text, from: nat): (end: nat)
    requires from <= |t|
    ensures from <= end <= |t| && (end < |t| ==> t[end] == NEWLINE)
    ensures forall i :: from <= i < end ==> t[i] != NEWLINE
  {
    var n := IndexOfNewline(t[from..]);
    assert forall i :: from <= i < |t| ==> t[i] == t[from..][i - from];
    from + n
  }

  /** The raw lines that a newline ends. */
  function Spans(t: Text, from: nat): (r: seq<Span>)
    requires from <= |t|
    ensures forall i :: 0 <= i < |r| ==> from <= r[i].start <= r[i].end < |t|
    decreases |t| - from
  {
    var end := LineEnd(t, from);
    if end == |t| then [] else [Span(from, end)] + Spans(t, end + 1)
  }

  /** Where the line begins that no newline ends. */
  function RestStart(t: Text, from: nat): (r: nat)
    requires from <= |t|
    ensures from <= r <= |t|
    decreases |t| - from
  {
    var end := LineEnd(t, from);
    if end == |t| then from else RestStart(t, end + 1)
  }

  /** The text was cut inside the line, or at its end, at a place where more than the bound of it had come. */
  predicate CutTooLate(t: Text, a: nat, b: nat, cuts: seq<nat>, m: Measure)
    requires a <= b <= |t|
  {
    exists k :: 0 <= k < |cuts| && a <= cuts[k] <= b && TooLong(t[a..cuts[k]], m)
  }

  /** The lines handed on for those that a newline ends: empty for a line cut too late, otherwise the line itself. */
  function SeenFrom(t: Text, from: nat, cuts: seq<nat>, m: Measure): seq<Text>
    requires from <= |t|
    decreases |t| - from
  {
    var end := LineEnd(t, from);
    if end == |t| then []
    else [if CutTooLate(t, from, end, cuts, m) then [] else StripReturn(t[from..end])] + SeenFrom(t, end + 1, cuts, m)
  }

  /** What is left of the line that no newline ends. */
  function LeftOver(t: Text, cuts: seq<nat>, m: Measure): Text {
    var r := RestStart(t, 0);
    if CutTooLate(t, r, |t|, cuts, m) then [] else t[r..]
  }

  /** The places where one piece ends and the next begins, the end of the last included. */
  function Cuts(pieces: seq<Text>): (r: seq<nat>)
    ensures |r| == |pieces|
  {
    if pieces == [] then [] else Cuts(pieces[..|pieces| - 1]) + [|Concat(pieces)|]
  }

  /** Line by line. */
  lemma {:induction false} SeenAtSpans(t: Text, from: nat, cuts: seq<nat>, m: Measure)
    requires from <= |t|
    ensures |SeenFrom(t, from, cuts, m)| == |Spans(t, from)|
    ensures forall i :: 0 <= i < |Spans(t, from)| ==>
              var s := Spans(t, from)[i];
              SeenFrom(t, from, cuts, m)[i] ==
              if CutTooLate(t, s.start, s.end, cuts, m) then [] else StripReturn(t[s.start..s.end])
    decreases |t| - from
  {
    hide CutTooLate, StripReturn, Spans, SeenFrom, LineEnd;
    var end := LineEnd(t, from);
    StepFrom(t, from, cuts, m);
    if end < |t| {
      SeenAtSpans(t, end + 1, cuts, m);
      var spans, seen := Spans(t, from), SeenFrom(t, from, cuts, m);
      forall i | 0 <= i < |spans|
        ensures seen[i] ==
                if CutTooLate(t, spans[i].start, spans[i].end, cuts, m) then []
                else StripReturn(t[spans[i].start..spans[i].end])
      {
        if i > 0 {
          assert spans[i] == Spans(t, end + 1)[i - 1] && seen[i] == SeenFrom(t, end + 1, cuts, m)[i - 1];
        }
      }
    }
  }

  lemma StepFrom(t: Text, from: nat, cuts: seq<nat>, m: Measure)
    requires from <= |t|
    ensures var end := LineEnd(t, from);
            if end == |t| then Spans(t, from) == [] && SeenFrom(t, from, cuts, m) == [] && RestStart(t, from) == from
            else
              && Spans(t, from) == [Span(from, end)] + Spans(t, end + 1)
              && SeenFrom(t, from, cuts, m) ==
                 [if CutTooLate(t, from, end, cuts, m) then [] else StripReturn(t[from..end])] +
                     SeenFrom(t, end + 1, cuts, m)
              && RestStart(t, from) == RestStart(t, end + 1)
  {
    hide CutTooLate, StripReturn, LineEnd;
  }

  lemma LinesFrom(t: Text, from: nat)
    requires from <= |t|
    ensures var end := LineEnd(t, from);
            if end == |t| then Lines(t[from..]) == [] && Rest(t[from..]) == t[from..]
            else
              && Lines(t[from..]) == [StripReturn(t[from..end])] + Lines(t[end + 1..])
              && Rest(t[from..]) == Rest(t[end + 1..])
  {
    hide Lines, Rest, StripReturn;
    var end := LineEnd(t, from);
    LinesStep(t[from..]);
    if end < |t| {
      assert t[from..][end - from + 1..] == t[end + 1..] && t[from..][..end - from] == t[from..end];
    }
  }

  /** The spans are the raw lines, each with its newline behind it. */
  lemma {:induction false} SpansAreLines(t: Text, from: nat)
    requires from <= |t|
    ensures |Spans(t, from)| == |Lines(t[from..])| && t[RestStart(t, from)..] == Rest(t[from..])
    ensures forall i :: 0 <= i < |Spans(t, from)| ==>
              var s := Spans(t, from)[i];
              Lines(t[from..])[i] == StripReturn(t[s.start..s.end]) && t[s.end] == NEWLINE
    decreases |t| - from
  {
    hide Lines, Rest, StripReturn, Spans, RestStart;
    var end := LineEnd(t, from);
    StepFrom(t, from, [], x => 0);
    LinesFrom(t, from);
    if end < |t| {
      SpansAreLines(t, end + 1);
      var spans, more := Spans(t, from), Spans(t, end + 1);
      forall i | 0 <= i < |spans|
        ensures Lines(t[from..])[i] == StripReturn(t[spans[i].start..spans[i].end]) && t[spans[i].end] == NEWLINE
      {
        if i > 0 { assert spans[i] == more[i - 1] && Lines(t[from..])[i] == Lines(t[end + 1..])[i - 1]; }
      }
    }
  }

  // ---------- The scan comes to that ----------

  /** Nothing was cut from here on, except at the very end. */
  ghost predicate Uncut(t: Text, from: nat, cuts: seq<nat>) {
    forall k :: 0 <= k < |cuts| ==> cuts[k] < from || cuts[k] == |t|
  }

  lemma {:induction false} UncutLines(t: Text, from: nat, cuts: seq<nat>, m: Measure)
    requires from <= |t| && Uncut(t, from, cuts)
    ensures SeenFrom(t, from, cuts, m) == Lines(t[from..]) && t[RestStart(t, from)..] == Rest(t[from..])
    decreases |t| - from
  {
    hide Lines, Rest, StripReturn, SeenFrom, RestStart;
    StepFrom(t, from, cuts, m);
    LinesFrom(t, from);
    if LineEnd(t, from) < |t| { UncutLines(t, LineEnd(t, from) + 1, cuts, m); }
  }

  lemma LineEndExtends(t: Text, more: Text, from: nat)
    requires from <= |t|
    ensures LineEnd(t, from) < |t| ==> LineEnd(t + more, from) == LineEnd(t, from)
    ensures LineEnd(t, from) == |t| ==> LineEnd(t + more, from) == |t| + IndexOfNewline(more)
  {
    var all := t + more;
    var a, b := LineEnd(t, from), LineEnd(all, from);
    assert forall i :: 0 <= i < |t| ==> all[i] == t[i];
    assert forall i :: 0 <= i < |more| ==> all[|t| + i] == more[i];
    var n := IndexOfNewline(more);
    if a == |t| {
      assert b >= |t|;
      assert n < |more| ==> all[|t| + n] == NEWLINE;
    } else {
      assert all[a] == NEWLINE;
    }
  }

  lemma SameCut(t: Text, more: Text, a: nat, b: nat, cuts: seq<nat>, m: Measure)
    requires a <= b < |t|
    ensures CutTooLate(t + more, a, b, cuts + [|t + more|], m) == CutTooLate(t, a, b, cuts, m)
  {
    var all, now := t + more, cuts + [|t + more|];
    assert forall c :: a <= c <= |t| ==> all[a..c] == t[a..c];
    if CutTooLate(t, a, b, cuts, m) {
      var k :| 0 <= k < |cuts| && a <= cuts[k] <= b && TooLong(t[a..cuts[k]], m);
      assert now[k] == cuts[k];
    }
  }

  /** What follows does not change what becomes of finished lines. */
  lemma {:induction false} SeenExtends(t: Text, more: Text, from: nat, cuts: seq<nat>, m: Measure)
    requires from <= |t|
    ensures var all, now, r := t + more, cuts + [|t + more|], RestStart(t, from);
            && SeenFrom(all, from, now, m) == SeenFrom(t, from, cuts, m) + SeenFrom(all, r, now, m)
            && RestStart(all, from) == RestStart(all, r) && LineEnd(t, r) == |t|
    decreases |t| - from
  {
    hide CutTooLate, LineEnd, StripReturn, SeenFrom, RestStart;
    var end := LineEnd(t, from);
    LineEndExtends(t, more, from);
    StepFrom(t, from, cuts, m);
    if end < |t| {
      SameCut(t, more, from, end, cuts, m);
      assert (t + more)[from..end] == t[from..end];
      StepFrom(t + more, from, cuts + [|t + more|], m);
      SeenExtends(t, more, end + 1, cuts, m);
    }
  }

  ghost predicate Within(cuts: seq<nat>, n: nat) { forall k :: 0 <= k < |cuts| ==> cuts[k] <= n }

  /** The unfinished line was cut too late before exactly when it was when its end arrives. */
  lemma CutOnArrival(t: Text, more: Text, r: nat, end: nat, cuts: seq<nat>, m: Measure)
    requires r <= |t| <= end < |t + more| && Within(cuts, |t|)
    ensures CutTooLate(t + more, r, end, cuts + [|t + more|], m) == CutTooLate(t, r, |t|, cuts, m)
  {
    var all, now := t + more, cuts + [|t + more|];
    assert forall c :: r <= c <= |t| ==> all[r..c] == t[r..c];
    if CutTooLate(t, r, |t|, cuts, m) {
      var k :| 0 <= k < |cuts| && r <= cuts[k] <= |t| && TooLong(t[r..cuts[k]], m);
      assert now[k] == cuts[k];
    }
  }

  /** The scan has handed on the finished lines, and holds what is left of the unfinished one. */
  ghost predicate Scanned(x: Scan, t: Text, cuts: seq<nat>, m: Measure) {
    && x.seen == SeenFrom(t, 0, cuts, m)
    && x.discarding == CutTooLate(t, RestStart(t, 0), |t|, cuts, m)
    && x.buffer == LeftOver(t, cuts, m)
  }

  /** The new rest begins behind all older cuts: only the end of the piece can cut it too late. */
  lemma OnlyLastCut(t: Text, more: Text, r: nat, cuts: seq<nat>, m: Measure)
    requires r <= |t + more| && (forall k :: 0 <= k < |cuts| ==> cuts[k] < r)
    ensures CutTooLate(t + more, r, |t + more|, cuts + [|t + more|], m) == TooLong((t + more)[r..], m)
  {
    var all, now := t + more, cuts + [|t + more|];
    assert now[|cuts|] == |all| && all[r..|all|] == all[r..];
  }

  /** The rest goes on: it is cut too late when it was before, or when it is too long now. */
  lemma RestGoesOn(t: Text, more: Text, r: nat, cuts: seq<nat>, m: Measure)
    requires r <= |t| && Within(cuts, |t|)
    ensures CutTooLate(t + more, r, |t + more|, cuts + [|t + more|], m) ==
            (CutTooLate(t, r, |t|, cuts, m) || TooLong((t + more)[r..], m))
  {
    var all, now := t + more, cuts + [|t + more|];
    assert forall c :: r <= c <= |t| ==> all[r..c] == t[r..c];
    assert now[|cuts|] == |all| && all[r..|all|] == all[r..];
    if CutTooLate(t, r, |t|, cuts, m) {
      var k :| 0 <= k < |cuts| && r <= cuts[k] <= |t| && TooLong(t[r..cuts[k]], m);
      assert now[k] == cuts[k];
    }
  }

  lemma AddPieceScanned(x: Scan, t: Text, piece: Text, cuts: seq<nat>, m: Measure)
    requires Scanned(x, t, cuts, m) && Within(cuts, |t|)
    ensures Scanned(AddPiece(x, piece, m), t + piece, cuts + [|t + piece|], m)
  {
    hide CutTooLate, TooLong, Lines, Rest, StripReturn, SeenFrom, RestStart, Spans, LineEnd;
    var all, r := t + piece, RestStart(t, 0);
    SeenExtends(t, piece, 0, cuts, m);
    LineEndExtends(t, piece, r);
    assert t[r..] + piece == all[r..];
    if LineEnd(all, r) == |all| {
      GoesOn(x, t, piece, cuts, m);
    } else {
      Ends(x, t, piece, cuts, m);
    }
  }

  /** The piece ends no line. */
  lemma GoesOn(x: Scan, t: Text, piece: Text, cuts: seq<nat>, m: Measure)
    requires Scanned(x, t, cuts, m) && Within(cuts, |t|)
    requires var all, now, r := t + piece, cuts + [|t + piece|], RestStart(t, 0);
             && LineEnd(all, r) == |all| && IndexOfNewline(piece) == |piece| && t[r..] + piece == all[r..]
             && SeenFrom(all, 0, now, m) == SeenFrom(t, 0, cuts, m) + SeenFrom(all, r, now, m)
             && RestStart(all, 0) == RestStart(all, r)
    ensures Scanned(AddPiece(x, piece, m), t + piece, cuts + [|t + piece|], m)
  {
    hide CutTooLate, TooLong, Lines, Rest, StripReturn, SeenFrom, RestStart, Spans, LineEnd, IndexOfNewline;
    var all, now, r := t + piece, cuts + [|t + piece|], RestStart(t, 0);
    PieceWithoutEnd(all, r, now, m);
    RestGoesOn(t, piece, r, cuts, m);
  }

  /** The piece ends the line at hand. */
  lemma Ends(x: Scan, t: Text, piece: Text, cuts: seq<nat>, m: Measure)
    requires Scanned(x, t, cuts, m) && Within(cuts, |t|)
    requires var all, now, r := t + piece, cuts + [|t + piece|], RestStart(t, 0);
             && LineEnd(all, r) == |t| + IndexOfNewline(piece) < |all| && t[r..] + piece == all[r..]
             && SeenFrom(all, 0, now, m) == SeenFrom(t, 0, cuts, m) + SeenFrom(all, r, now, m)
             && RestStart(all, 0) == RestStart(all, r)
    ensures Scanned(AddPiece(x, piece, m), t + piece, cuts + [|t + piece|], m)
  {
    hide CutTooLate, TooLong, Lines, Rest, StripReturn, SeenFrom, RestStart, Spans, LineEnd, IndexOfNewline;
    var all, now, r := t + piece, cuts + [|t + piece|], RestStart(t, 0);
    var end := LineEnd(all, r);
    PieceWithEnd(all, r, now, m);
    CutOnArrival(t, piece, r, end, cuts, m);
    assert all[end + 1..] == piece[IndexOfNewline(piece) + 1..];
    OnlyLastCut(t, piece, RestStart(all, r), cuts, m);
    var before, first, others := x.seen, if x.discarding then [] else StripReturn(all[r..end]), Lines(all[end + 1..]);
    assert before + ([first] + others) == before + [first] + others;
  }

  lemma PieceWithoutEnd(all: Text, r: nat, cuts: seq<nat>, m: Measure)
    requires r <= |all| && LineEnd(all, r) == |all|
    ensures SeenFrom(all, r, cuts, m) == [] && RestStart(all, r) == r
    ensures Lines(all[r..]) == [] && Rest(all[r..]) == all[r..]
  {
    hide CutTooLate, StripReturn, Lines, Rest, SeenFrom, RestStart;
    StepFrom(all, r, cuts, m);
    LinesFrom(all, r);
  }

  lemma PieceWithEnd(all: Text, r: nat, cuts: seq<nat>, m: Measure)
    requires r <= |all| && LineEnd(all, r) < |all| && Uncut(all, LineEnd(all, r) + 1, cuts)
    ensures var end := LineEnd(all, r);
            && SeenFrom(all, r, cuts, m) ==
               [if CutTooLate(all, r, end, cuts, m) then [] else StripReturn(all[r..end])] + Lines(all[end + 1..])
            && RestStart(all, r) > end && all[RestStart(all, r)..] == Rest(all[end + 1..])
            && Lines(all[r..]) == [StripReturn(all[r..end])] + Lines(all[end + 1..])
            && Rest(all[r..]) == Rest(all[end + 1..])
  {
    hide CutTooLate, Lines, Rest, StripReturn, SeenFrom, RestStart;
    StepFrom(all, r, cuts, m);
    LinesFrom(all, r);
    UncutLines(all, LineEnd(all, r) + 1, cuts, m);
  }

  /** However a text is cut into pieces, the scan hands on for each line what the text and the cuts say. */
  lemma {:induction false} ScanMeaning(pieces: seq<Text>, m: Measure)
    ensures Scanned(ScanOf(pieces, m), Concat(pieces), Cuts(pieces), m) && Within(Cuts(pieces), |Concat(pieces)|)
  {
    hide Scanned, AddPiece, Concat;
    if pieces == [] {
      NothingScanned(m);
    } else {
      var n := |pieces| - 1;
      ScanMeaning(pieces[..n], m);
      ConcatStep(pieces, n);
      assert pieces[..n + 1] == pieces;
      AddPieceScanned(ScanOf(pieces[..n], m), Concat(pieces[..n]), pieces[n], Cuts(pieces[..n]), m);
    }
  }

  lemma NothingScanned(m: Measure)
    ensures Concat<CodeUnit>([]) == [] && Scanned(Scan([], [], false), [], [], m)
  {
  }

  // ---------- Lines within the bound ----------

  /** No raw line of the text, its last included, exceeds the bound. */
  predicate Bounded(t: Text, m: Measure)
    decreases |t|
  {
    var i := IndexOfNewline(t);
    !TooLong(t[..i], m) && (i < |t| ==> Bounded(t[i + 1..], m))
  }

  lemma {:induction false} BoundedPrefix(t: Text, s: Text, m: Measure)
    requires Monotone(m) && Bounded(t + s, m)
    ensures Bounded(t, m)
    decreases |t|
  {
    var i := IndexOfNewline(t);
    if i < |t| {
      IndexExtends(t, s);
      assert (t + s)[..i] == t[..i] && (t + s)[i + 1..] == t[i + 1..] + s;
      BoundedPrefix(t[i + 1..], s, m);
    } else {
      NotBefore(t, s);
      var j := IndexOfNewline(t + s);
      assert (t + s)[..j] == t + s[..j - |t|];
      assert t[..i] == t;
    }
  }

  lemma NotBefore(t: Text, s: Text)
    requires IndexOfNewline(t) == |t|
    ensures |t| <= IndexOfNewline(t + s)
  {
    assert forall i :: 0 <= i < |t| ==> (t + s)[i] == t[i];
  }

  lemma StripShortens(line: Text, m: Measure)
    requires Monotone(m)
    ensures m(StripReturn(line)) <= m(line)
  {
    if StripReturn(line) != line { assert line == StripReturn(line) + [CARRIAGE_RETURN]; }
  }

  /** With no line beyond the bound, no cut comes too late, and no line is too long. */
  lemma {:induction false} BoundedSeen(t: Text, from: nat, cuts: seq<nat>, m: Measure)
    requires from <= |t| && Monotone(m) && Bounded(t[from..], m)
    ensures SeenFrom(t, from, cuts, m) == Lines(t[from..]) && t[RestStart(t, from)..] == Rest(t[from..])
    ensures !CutTooLate(t, RestStart(t, from), |t|, cuts, m) && !TooLong(Rest(t[from..]), m)
    ensures forall line :: line in Lines(t[from..]) ==> !TooLong(line, m)
    decreases |t| - from
  {
    hide Lines, Rest, StripReturn, SeenFrom, RestStart, Monotone, CutTooLate, Bounded;
    StepFrom(t, from, cuts, m);
    LinesFrom(t, from);
    BoundedFrom(t, from, m);
    var end := LineEnd(t, from);
    NeverTooLate(t, from, end, cuts, m);
    if end < |t| {
      StripShortens(t[from..end], m);
      BoundedSeen(t, end + 1, cuts, m);
    } else {
      assert t[from..end] == t[from..];
    }
  }

  lemma BoundedFrom(t: Text, from: nat, m: Measure)
    requires from <= |t| && Bounded(t[from..], m)
    ensures var end := LineEnd(t, from); !TooLong(t[from..end], m) && (end < |t| ==> Bounded(t[end + 1..], m))
  {
    hide TooLong;
    var end := LineEnd(t, from);
    assert t[from..][..end - from] == t[from..end];
    if end < |t| { assert t[from..][end - from + 1..] == t[end + 1..]; }
  }

  lemma NeverTooLate(t: Text, a: nat, b: nat, cuts: seq<nat>, m: Measure)
    requires a <= b <= |t| && Monotone(m) && !TooLong(t[a..b], m)
    ensures !CutTooLate(t, a, b, cuts, m)
  {
    forall c | a <= c <= b ensures !TooLong(t[a..c], m) {
      assert t[a..b] == t[a..c] + t[c..b];
    }
  }

  /** The line that no newline ends is dropped exactly when it is too long at the end of the last piece, wherever else
      the text was cut. */
  lemma DroppedExactly(t: Text, cuts: seq<nat>, m: Measure)
    requires Monotone(m) && cuts != [] && cuts[|cuts| - 1] == |t|
    ensures CutTooLate(t, RestStart(t, 0), |t|, cuts, m) <==> TooLong(t[RestStart(t, 0)..], m)
  {
    hide RestStart, TooLong;
    var r := RestStart(t, 0);
    assert t[r..|t|] == t[r..];
    if !TooLong(t[r..], m) { NeverTooLate(t, r, |t|, cuts, m); }
  }
}
