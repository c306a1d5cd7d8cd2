/** Streaming a file through a line matcher, with context before and after each match. */
module FileSearch {
  import opened Arithmetic
  import opened Wrappers
  import opened Text
  import opened Bytes
  import opened TextLines
  import opened LineScan

  datatype Match = Match(
    path: Text, line: nat, column: nat, text: Text, before: Option<seq<Text>>, after: Option<seq<Text>>)

  /** A match that still collects following lines. */
  datatype Pending = Pending(index: nat, remaining: nat)

  /** The matcher gives the place of the first match in a line; the context sizes are those after capping. */
  datatype Query = Query(
    path: Text, limit: nat, before: nat, after: nat, exec: Text -> Option<nat>, byteLength: Measure)

  datatype Search = Search(
    lineNumber: nat, matches: seq<Match>, totalCount: nat, previous: seq<Text>, pending: seq<Pending>)

  // ---------- One line ----------

  function WithAfter(m: Match, line: Text): Match {
    m.(after := if m.after.Some? then Some(m.after.value + [line]) else None)
  }

  /** Every match still waiting for lines receives this one. */
  function Feed(ms: seq<Match>, ps: seq<Pending>, line: Text): (r: seq<Match>)
    ensures |r| == |ms|
  {
    if ps == [] then ms
    else
      var fed := Feed(ms, ps[1..], line);
      if ps[0].remaining > 0 && ps[0].index < |ms| then fed[ps[0].index := WithAfter(fed[ps[0].index], line)] else fed
  }

  function StillPending(ps: seq<Pending>): seq<Pending> {
    if ps == [] then []
    else (if ps[0].remaining > 0 then [Pending(ps[0].index, ps[0].remaining - 1)] else []) + StillPending(ps[1..])
  }

  function LastOf(lines: seq<Text>, n: nat): seq<Text> { if |lines| <= n then lines else lines[|lines| - n..] }

  /** What one line of acceptable length does to the search. */
  function TakeLine(s: Search, line: Text, q: Query): Search {
    var fed := Feed(s.matches, s.pending, line);
    var waiting := StillPending(s.pending);
    var hit := q.exec(line);
    var reported := hit.Some? && |s.matches| < q.limit;
    Search(
      s.lineNumber + 1,
      if reported
      then fed + [Match(q.path, s.lineNumber + 1, hit.value + 1, line,
                        if q.before > 0 then Some(s.previous) else None, if q.after > 0 then Some([]) else None)]
      else fed,
      if hit.Some? then s.totalCount + 1 else s.totalCount,
      if q.before > 0 then LastOf(s.previous + [line], q.before) else s.previous,
      if reported && q.after > 0 then waiting + [Pending(|s.matches|, q.after)] else waiting)
  }

  function TakeLines(s: Search, lines: seq<Text>, q: Query): Search {
    if lines == [] then s else TakeLine(TakeLines(s, lines[..|lines| - 1], q), lines[|lines| - 1], q)
  }

  /** A line beyond the bound is only counted. */
  function Consume(s: Search, line: Text, q: Query): Search {
    if TooLong(line, q.byteLength) then s.(lineNumber := s.lineNumber + 1) else TakeLine(s, line, q)
  }

  function ConsumeLines(s: Search, lines: seq<Text>, q: Query): Search {
    if lines == [] then s else Consume(ConsumeLines(s, lines[..|lines| - 1], q), lines[|lines| - 1], q)
  }

  // ---------- What a search reports ----------

  /** The indices of the first k lines that match, in order. */
  function Hits(lines: seq<Text>, k: nat, q: Query): (r: seq<nat>)
    requires k <= |lines|
    ensures forall h: nat :: h in r <==> h < k && q.exec(lines[h]).Some?
    ensures |r| <= k && forall i :: 0 <= i < |r| ==> r[i] < k && q.exec(lines[r[i]]).Some?
  {
    if k == 0 then []
    else Hits(lines, k - 1, q) + (if q.exec(lines[k - 1]).Some? then [k - 1] else [])
  }

  /** The report of a matching line: its number and column, the lines before it and those that follow, as far as there
      are any. */
  function Report(lines: seq<Text>, k: nat, h: nat, q: Query): Match
    requires h < k <= |lines| && q.exec(lines[h]).Some?
  {
    Match(q.path, h + 1, q.exec(lines[h]).value + 1, lines[h],
          if q.before > 0 then Some(lines[Max(0, h - q.before)..h]) else None,
          if q.after > 0 then Some(lines[h + 1..Min(k, h + 1 + q.after)]) else None)
  }

  /** The search has taken the first k lines: what it reports is told by the lines alone. */
  ghost predicate Reports(s: Search, start: seq<Match>, count: nat, lines: seq<Text>, k: nat, q: Query)
    requires k <= |lines|
  {
    var hits := Hits(lines, k, q);
    && s.lineNumber == k && s.totalCount == count + |hits|
    && |start| <= q.limit && |s.matches| == Min(q.limit, |start| + |hits|)
    && forall j :: 0 <= j < |s.matches| ==> ReportAt(s.matches[j], start, lines, k, q, j)
  }

  /** A match from before is as it was; the others are the first matching lines. */
  ghost predicate ReportAt(m: Match, start: seq<Match>, lines: seq<Text>, k: nat, q: Query, j: nat)
    requires k <= |lines|
  {
    if j < |start| then m == start[j]
    else var hits := Hits(lines, k, q); j - |start| < |hits| && m == Report(lines, k, hits[j - |start|], q)
  }

  ghost predicate DistinctIndices(ps: seq<Pending>) { forall i, j :: 0 <= i < j < |ps| ==> ps[i].index != ps[j].index }

  /** Exactly the matches that may still lack following lines are pending, each with the number it lacks. */
  ghost predicate Awaiting(s: Search, start: seq<Match>, lines: seq<Text>, k: nat, q: Query)
    requires k <= |lines|
  {
    && s.previous == (if q.before > 0 then lines[Max(0, k - q.before)..k] else [])
    && DistinctIndices(s.pending)
    && (forall p :: p in s.pending ==> Lacks(s, start, lines, k, q, p.index, p.remaining))
    && (forall j, n: nat :: Lacks(s, start, lines, k, q, j, n) ==> Pending(j, n) in s.pending)
  }

  /** The match was found so many lines ago that it lacks n more. */
  ghost predicate Lacks(s: Search, start: seq<Match>, lines: seq<Text>, k: nat, q: Query, j: nat, n: nat)
    requires k <= |lines|
  {
    var hits := Hits(lines, k, q);
    q.after > 0 && |start| <= j < |s.matches| && j - |start| < |hits| && n == q.after - (k - 1 - hits[j - |start|])
  }

  // ---------- One line keeps the report ----------

  ghost predicate Fed(ps: seq<Pending>, j: nat) { exists n: nat :: n > 0 && Pending(j, n) in ps }

  lemma DistinctTail(ps: seq<Pending>)
    requires DistinctIndices(ps) && ps != []
    ensures DistinctIndices(ps[1..]) && forall p :: p in ps[1..] ==> p.index != ps[0].index
  {
    assert forall i :: 0 <= i < |ps[1..]| ==> ps[1..][i] == ps[i + 1];
  }

  lemma DistinctCons(p: Pending, ps: seq<Pending>)
    requires DistinctIndices(ps) && forall x :: x in ps ==> x.index != p.index
    ensures DistinctIndices([p] + ps)
  {
  }

  lemma DistinctSnoc(ps: seq<Pending>, p: Pending)
    requires DistinctIndices(ps) && forall x :: x in ps ==> x.index != p.index
    ensures DistinctIndices(ps + [p])
  {
  }

  /** What feeding does to one match. */
  lemma {:induction false} FeedAt(ms: seq<Match>, ps: seq<Pending>, line: Text, j: nat)
    requires j < |ms| && DistinctIndices(ps)
    ensures Feed(ms, ps, line)[j] == if Fed(ps, j) then WithAfter(ms[j], line) else ms[j]
  {
    hide WithAfter, DistinctIndices;
    if ps != [] {
      DistinctTail(ps);
      FeedAt(ms, ps[1..], line, j);
      assert ps == [ps[0]] + ps[1..];
      if ps[0].index == j && ps[0].remaining > 0 { assert Pending(j, ps[0].remaining) in ps; }
    }
  }

  lemma {:induction false} StillPendingMembers(ps: seq<Pending>)
    requires DistinctIndices(ps)
    ensures forall j, n: nat :: Pending(j, n) in StillPending(ps) <==> Pending(j, n + 1) in ps
    ensures DistinctIndices(StillPending(ps))
  {
    hide DistinctIndices;
    if ps == [] {
      NoneDistinct();
    } else {
      DistinctTail(ps);
      var r := StillPending(ps[1..]);
      StillPendingMembers(ps[1..]);
      assert ps == [ps[0]] + ps[1..];
      forall x | x in r ensures x.index != ps[0].index {
        assert Pending(x.index, x.remaining) in r;
        assert Pending(x.index, x.remaining + 1) in ps[1..];
      }
      if ps[0].remaining > 0 {
        DistinctCons(Pending(ps[0].index, ps[0].remaining - 1), r);
      } else {
        assert [] + r == r;
      }
    }
  }

  lemma NoneDistinct()
    ensures DistinctIndices([])
  {
  }

  lemma HitsStep(lines: seq<Text>, k: nat, q: Query)
    requires k < |lines|
    ensures Hits(lines, k + 1, q) == Hits(lines, k, q) + (if q.exec(lines[k]).Some? then [k] else [])
  {
  }

  /** A line later, a report has one line more after it exactly while it lacks lines. */
  lemma ReportStep(lines: seq<Text>, k: nat, h: nat, q: Query)
    requires h < k < |lines| && q.exec(lines[h]).Some?
    ensures Report(lines, k + 1, h, q) ==
            if q.after > 0 && k - 1 - h < q.after then WithAfter(Report(lines, k, h, q), lines[k])
              else Report(lines, k, h, q)
  {
    if q.after > 0 && k - 1 - h < q.after {
      assert lines[h + 1..k + 1] == lines[h + 1..k] + [lines[k]];
    }
  }

  lemma OldReportKept(s: Search, start: seq<Match>, count: nat, lines: seq<Text>, k: nat, q: Query, j: nat)
    requires k < |lines| && j < |s.matches| && Reports(s, start, count, lines, k, q) && Awaiting(s, start, lines, k, q)
    ensures ReportAt(Feed(s.matches, s.pending, lines[k])[j], start, lines, k + 1, q, j)
  {
    hide Report, Hits, WithAfter, DistinctIndices, Feed;
    FeedAt(s.matches, s.pending, lines[k], j);
    HitsStep(lines, k, q);
    assert ReportAt(s.matches[j], start, lines, k, q, j);
    if j >= |start| {
      var h := Hits(lines, k, q)[j - |start|];
      ReportStep(lines, k, h, q);
      if q.after > 0 && k - 1 - h < q.after {
        assert Lacks(s, start, lines, k, q, j, q.after - (k - 1 - h));
      }
      assert Fed(s.pending, j) <==> q.after > 0 && k - 1 - h < q.after;
    } else {
      assert !Fed(s.pending, j);
    }
  }

  lemma NewReport(s: Search, start: seq<Match>, count: nat, lines: seq<Text>, k: nat, q: Query, m: Match)
    requires k < |lines| && Reports(s, start, count, lines, k, q) && Awaiting(s, start, lines, k, q)
    requires q.exec(lines[k]).Some? && |s.matches| < q.limit
    requires m == Match(q.path, k + 1, q.exec(lines[k]).value + 1, lines[k],
                        if q.before > 0 then Some(s.previous) else None, if q.after > 0 then Some([]) else None)
    ensures ReportAt(m, start, lines, k + 1, q, |s.matches|)
  {
    HitsStep(lines, k, q);
    assert Hits(lines, k + 1, q)[|Hits(lines, k, q)|] == k;
    ReportIsNew(lines, k, q);
    hide Lacks, DistinctIndices, Report, Hits;
  }

  lemma ReportIsNew(lines: seq<Text>, k: nat, q: Query)
    requires k < |lines| && q.exec(lines[k]).Some?
    ensures Report(lines, k + 1, k, q) ==
            Match(q.path, k + 1, q.exec(lines[k]).value + 1, lines[k],
                  if q.before > 0 then Some(lines[Max(0, k - q.before)..k]) else None,
                  if q.after > 0 then Some([]) else None)
  {
    assert lines[k + 1..Min(k + 1, k + 1 + q.after)] == [];
  }

  lemma ReportsStep(s: Search, start: seq<Match>, count: nat, lines: seq<Text>, k: nat, q: Query)
    requires k < |lines| && Reports(s, start, count, lines, k, q) && Awaiting(s, start, lines, k, q)
    ensures Reports(TakeLine(s, lines[k], q), start, count, lines, k + 1, q)
  {
    hide ReportAt, Awaiting, Hits, Feed, StillPending;
    HitsStep(lines, k, q);
    var t := TakeLine(s, lines[k], q);
    forall j | 0 <= j < |t.matches| ensures ReportAt(t.matches[j], start, lines, k + 1, q, j) {
      if j < |s.matches| {
        OldReportKept(s, start, count, lines, k, q, j);
      } else {
        NewReport(s, start, count, lines, k, q, t.matches[j]);
      }
    }
  }

  lemma PreviousStep(lines: seq<Text>, k: nat, before: nat)
    requires k < |lines| && before > 0
    ensures LastOf(lines[Max(0, k - before)..k] + [lines[k]], before) == lines[Max(0, k + 1 - before)..k + 1]
  {
  }

  lemma PendingLacks(s: Search, start: seq<Match>, lines: seq<Text>, k: nat, q: Query, j: nat, n: nat)
    requires k <= |lines| && Awaiting(s, start, lines, k, q)
    ensures Pending(j, n) in s.pending <==> Lacks(s, start, lines, k, q, j, n)
  {
    hide Lacks, DistinctIndices;
    var p := Pending(j, n);
    if p in s.pending { assert Lacks(s, start, lines, k, q, p.index, p.remaining); }
  }

  lemma AwaitingStep(s: Search, start: seq<Match>, count: nat, lines: seq<Text>, k: nat, q: Query)
    requires k < |lines| && Reports(s, start, count, lines, k, q) && Awaiting(s, start, lines, k, q)
    ensures Awaiting(TakeLine(s, lines[k], q), start, lines, k + 1, q)
  {
    hide ReportAt, Hits, Feed, DistinctIndices, StillPending, LastOf;
    var t := TakeLine(s, lines[k], q);
    HitsStep(lines, k, q);
    StillPendingMembers(s.pending);
    if q.before > 0 { PreviousStep(lines, k, q.before); }
    var waiting := StillPending(s.pending);
    forall p | p in waiting ensures p.index < |s.matches| {
      assert Pending(p.index, p.remaining) in waiting;
      PendingLacks(s, start, lines, k, q, p.index, p.remaining + 1);
    }
    DistinctSnoc(waiting, Pending(|s.matches|, q.after));
    forall j, n: nat ensures Pending(j, n) in t.pending <==> Lacks(t, start, lines, k + 1, q, j, n) {
      PendingLacks(s, start, lines, k, q, j, n + 1);
      assert Pending(j, n) in waiting <==> Pending(j, n + 1) in s.pending;
    }
    forall p | p in t.pending ensures Lacks(t, start, lines, k + 1, q, p.index, p.remaining) {
      assert Pending(p.index, p.remaining) in t.pending;
    }
  }

  /** Line by line, the search reports the first matching lines up to the limit, each with its context, and counts
      them all. */
  lemma {:induction false} SearchReports(start: seq<Match>, count: nat, lines: seq<Text>, k: nat, q: Query)
    requires k <= |lines| && |start| <= q.limit
    ensures var s := TakeLines(Search(0, start, count, [], []), lines[..k], q);
            Reports(s, start, count, lines, k, q) && Awaiting(s, start, lines, k, q)
  {
    hide Reports, Awaiting, TakeLine;
    if k == 0 {
      StartReports(start, count, lines, q);
    } else {
      SearchReports(start, count, lines, k - 1, q);
      assert lines[..k][..k - 1] == lines[..k - 1];
      var s := TakeLines(Search(0, start, count, [], []), lines[..k - 1], q);
      ReportsStep(s, start, count, lines, k - 1, q);
      AwaitingStep(s, start, count, lines, k - 1, q);
    }
  }

  lemma StartReports(start: seq<Match>, count: nat, lines: seq<Text>, q: Query)
    requires |start| <= q.limit
    ensures Reports(Search(0, start, count, [], []), start, count, lines, 0, q)
    ensures Awaiting(Search(0, start, count, [], []), start, lines, 0, q)
  {
  }

  // ---------- Lines beyond the bound ----------

  /** The lines within the bound. */
  function Kept(lines: seq<Text>, m: Measure): seq<Text> {
    if lines == [] then []
    else
      var last := lines[|lines| - 1];
      Kept(lines[..|lines| - 1], m) + (if TooLong(last, m) then [] else [last])
  }

  /** Their numbers among all lines, counted from one. */
  function Numbers(lines: seq<Text>, m: Measure): (r: seq<nat>)
    ensures |r| == |Kept(lines, m)| && forall i :: 0 <= i < |r| ==> 1 <= r[i] <= |lines|
  {
    if lines == [] then []
    else Numbers(lines[..|lines| - 1], m) + (if TooLong(lines[|lines| - 1], m) then [] else [|lines|])
  }

  /** What the search reports of lines of any length: the matches among those within the bound, with these as context,
      numbered among all lines. */
  ghost predicate ReportsKept(s: Search, start: seq<Match>, count: nat, lines: seq<Text>, q: Query) {
    var kept, numbers := Kept(lines, q.byteLength), Numbers(lines, q.byteLength);
    var hits := Hits(kept, |kept|, q);
    && s.lineNumber == |lines| && s.totalCount == count + |hits|
    && |start| <= q.limit && |s.matches| == Min(q.limit, |start| + |hits|)
    && (forall j :: 0 <= j < |start| ==> s.matches[j] == start[j])
    && forall j :: |start| <= j < |s.matches| ==>
         var h := hits[j - |start|]; s.matches[j] == Report(kept, |kept|, h, q).(line := numbers[h])
  }

  /** The first search is the second but for the numbers of the lines it found. */
  ghost predicate Renumbered(c: Search, t: Search, given: nat, numbers: seq<nat>) {
    && c.totalCount == t.totalCount && c.previous == t.previous && c.pending == t.pending
    && |c.matches| == |t.matches| >= given && t.lineNumber == |numbers|
    && forall j :: 0 <= j < |c.matches| ==> RenumberedAt(c.matches[j], t.matches[j], j < given, numbers)
  }

  ghost predicate RenumberedAt(c: Match, t: Match, fromBefore: bool, numbers: seq<nat>) {
    if fromBefore then c == t else 1 <= t.line <= |numbers| && c == t.(line := numbers[t.line - 1])
  }

  lemma {:induction false} FeedRenumbers(cs: seq<Match>, ts: seq<Match>, ps: seq<Pending>, line: Text)
    requires |cs| == |ts| && forall j :: 0 <= j < |cs| ==> cs[j] == ts[j].(line := cs[j].line)
    ensures var fed, other := Feed(cs, ps, line), Feed(ts, ps, line);
            forall j :: 0 <= j < |cs| ==>
              fed[j] == other[j].(line := fed[j].line) && fed[j].line == cs[j].line && other[j].line == ts[j].line
  {
    if ps != [] { FeedRenumbers(cs, ts, ps[1..], line); }
  }

  lemma RenumberedStep(c: Search, t: Search, given: nat, numbers: seq<nat>, line: Text, q: Query)
    requires Renumbered(c, t, given, numbers) && !TooLong(line, q.byteLength)
    ensures Renumbered(TakeLine(c, line, q), TakeLine(t, line, q), given, numbers + [c.lineNumber + 1])
  {
    hide Feed, StillPending, LastOf;
    forall j | 0 <= j < |c.matches| ensures c.matches[j] == t.matches[j].(line := c.matches[j].line) {
      assert RenumberedAt(c.matches[j], t.matches[j], j < given, numbers);
    }
    FeedRenumbers(c.matches, t.matches, c.pending, line);
    var now := numbers + [c.lineNumber + 1];
    var a, b := TakeLine(c, line, q), TakeLine(t, line, q);
    forall j | 0 <= j < |a.matches| ensures RenumberedAt(a.matches[j], b.matches[j], j < given, now) {
      if j < |c.matches| { assert RenumberedAt(c.matches[j], t.matches[j], j < given, numbers); }
    }
  }

  lemma {:induction false} ConsumeRenumbers(start: seq<Match>, count: nat, lines: seq<Text>, q: Query)
    ensures var s0 := Search(0, start, count, [], []);
            var c, t := ConsumeLines(s0, lines, q), TakeLines(s0, Kept(lines, q.byteLength), q);
            c.lineNumber == |lines| && Renumbered(c, t, |start|, Numbers(lines, q.byteLength))
  {
    hide TakeLine, Renumbered, TooLong;
    var s0 := Search(0, start, count, [], []);
    if lines == [] {
      NothingRenumbered(start, count);
    } else {
      var init, last := lines[..|lines| - 1], lines[|lines| - 1];
      ConsumeRenumbers(start, count, init, q);
      if !TooLong(last, q.byteLength) {
        var c, t := ConsumeLines(s0, init, q), TakeLines(s0, Kept(init, q.byteLength), q);
        RenumberedStep(c, t, |start|, Numbers(init, q.byteLength), last, q);
        TakeOneMore(s0, Kept(init, q.byteLength), last, q);
        TakenIsNumbered(c, last, q);
      } else {
        SkippedRenumbered(start, count, init, q);
      }
    }
  }

  lemma TakenIsNumbered(s: Search, line: Text, q: Query)
    ensures TakeLine(s, line, q).lineNumber == s.lineNumber + 1
  {
  }

  lemma SkippedRenumbered(start: seq<Match>, count: nat, init: seq<Text>, q: Query)
    requires var s0 := Search(0, start, count, [], []);
             Renumbered(ConsumeLines(s0, init, q), TakeLines(s0, Kept(init, q.byteLength), q), |start|,
               Numbers(init, q.byteLength))
    ensures var s0 := Search(0, start, count, [], []);
            var c := ConsumeLines(s0, init, q);
            Renumbered(c.(lineNumber := c.lineNumber + 1), TakeLines(s0, Kept(init, q.byteLength), q), |start|,
                       Numbers(init, q.byteLength) + [])
            && Kept(init, q.byteLength) + [] == Kept(init, q.byteLength)
  {
    hide ConsumeLines, TakeLines, RenumberedAt;
    assert Numbers(init, q.byteLength) + [] == Numbers(init, q.byteLength);
  }

  lemma NothingRenumbered(start: seq<Match>, count: nat)
    ensures Renumbered(Search(0, start, count, [], []), Search(0, start, count, [], []), |start|, [])
  {
  }

  lemma TakeOneMore(s: Search, lines: seq<Text>, line: Text, q: Query)
    ensures TakeLines(s, lines + [line], q) == TakeLine(TakeLines(s, lines, q), line, q)
  {
    hide TakeLine;
    assert (lines + [line])[..|lines|] == lines;
  }

  /** Lines of any length are reported like that. */
  lemma ConsumedReports(start: seq<Match>, count: nat, lines: seq<Text>, q: Query)
    requires |start| <= q.limit
    ensures ReportsKept(ConsumeLines(Search(0, start, count, [], []), lines, q), start, count, lines, q)
  {
    hide ConsumeLines, TakeLines, Kept, Numbers, Hits, Report, Awaiting, Renumbered, Reports;
    var kept := Kept(lines, q.byteLength);
    ConsumeRenumbers(start, count, lines, q);
    SearchReports(start, count, kept, |kept|, q);
    assert kept[..|kept|] == kept;
    RenumberedReports(ConsumeLines(Search(0, start, count, [], []), lines, q),
                      TakeLines(Search(0, start, count, [], []), kept, q), start, count, lines, q);
  }

  lemma RenumberedReports(c: Search, t: Search, start: seq<Match>, count: nat, lines: seq<Text>, q: Query)
    requires c.lineNumber == |lines| && Renumbered(c, t, |start|, Numbers(lines, q.byteLength))
    requires Reports(t, start, count, Kept(lines, q.byteLength), |Kept(lines, q.byteLength)|, q)
    ensures ReportsKept(c, start, count, lines, q)
  {
    hide Kept, Numbers, Hits;
    var kept, numbers := Kept(lines, q.byteLength), Numbers(lines, q.byteLength);
    forall j | 0 <= j < |c.matches|
      ensures ReportAt(t.matches[j], start, kept, |kept|, q, j) &&
              RenumberedAt(c.matches[j], t.matches[j], j < |start|, numbers)
    {
    }
  }

  /** With every line within the bound this is plain taking. */
  lemma {:induction false} ConsumeIsTake(s: Search, lines: seq<Text>, q: Query)
    requires forall line :: line in lines ==> !TooLong(line, q.byteLength)
    ensures ConsumeLines(s, lines, q) == TakeLines(s, lines, q)
  {
    hide TakeLine, TooLong;
    if lines != [] {
      assert lines[|lines| - 1] in lines;
      ConsumeIsTake(s, lines[..|lines| - 1], q);
    }
  }

  // ---------- A file in chunks ----------

  /** The texts that the chunks bring. */
  ghost function Pieces(chunks: seq<seq<byte>>, d: Decoder): (r: seq<Text>)
    requires Streaming(d)
    ensures |r| == |chunks|
  {
    if chunks == [] then []
    else
      var init := chunks[..|chunks| - 1];
      PieceArrives(chunks, |chunks| - 1, d);
      Pieces(init, d) + [d.emitted(Concat(chunks))[|d.emitted(Concat(init))|..]]
  }

  lemma PieceArrives(chunks: seq<seq<byte>>, k: nat, d: Decoder)
    requires k < |chunks| && Streaming(d)
    ensures var before, now := d.emitted(Concat(chunks[..k])), d.emitted(Concat(chunks[..k + 1]));
            |before| <= |now| && now == before + now[|before|..]
    ensures k + 1 == |chunks| ==> chunks[..k + 1] == chunks
  {
    hide Concat;
    ConcatStep(chunks, k);
    DecoderAdds(d, Concat(chunks[..k]), chunks[k]);
    assert k + 1 == |chunks| ==> chunks[..k + 1] == chunks;
  }

  /** How much of the text has come at the end of each chunk. */
  ghost function ChunkEnds(chunks: seq<seq<byte>>, d: Decoder): (r: seq<nat>)
    ensures |r| == |chunks|
  {
    seq(|chunks|, k requires 0 <= k < |chunks| => |d.emitted(Concat(chunks[..k + 1]))|)
  }

  lemma {:induction false} PiecesMeaning(chunks: seq<seq<byte>>, d: Decoder)
    requires Streaming(d)
    ensures Concat(Pieces(chunks, d)) == d.emitted(Concat(chunks)) && Cuts(Pieces(chunks, d)) == ChunkEnds(chunks, d)
  {
    hide Concat, Streaming;
    var pieces := Pieces(chunks, d);
    if chunks == [] {
      NothingArrives(d);
    } else {
      var n := |chunks| - 1;
      PieceArrives(chunks, n, d);
      PiecesMeaning(chunks[..n], d);
      assert pieces[..n] == Pieces(chunks[..n], d);
      ConcatStep(pieces, n);
      assert pieces[..n + 1] == pieces;
      EndsStep(chunks, d);
    }
  }

  lemma EndsStep(chunks: seq<seq<byte>>, d: Decoder)
    requires chunks != []
    ensures ChunkEnds(chunks, d) == ChunkEnds(chunks[..|chunks| - 1], d) + [|d.emitted(Concat(chunks))|]
  {
    hide Concat;
    var init := chunks[..|chunks| - 1];
    assert chunks[..|chunks|] == chunks;
    forall k | 0 <= k < |init| ensures ChunkEnds(chunks, d)[k] == ChunkEnds(init, d)[k] {
      assert init[..k + 1] == chunks[..k + 1];
    }
  }

  lemma NothingArrives(d: Decoder)
    requires Streaming(d)
    ensures Concat<CodeUnit>([]) == [] && d.emitted(Concat([])) == []
  {
  }

  /** The lines as the search sees them. Of a line that a newline ends it sees nothing but its end when a chunk ended
      inside it with more than the bound buffered. Of the last line, if that happened, it sees what the decoder still
      holds back. */
  ghost function SeenLines(chunks: seq<seq<byte>>, d: Decoder, m: Measure): seq<Text>
    requires Streaming(d)
  {
    var all := Concat(chunks);
    var text, cuts := d.emitted(all), ChunkEnds(chunks, d);
    DecoderEnds(d, all);
    var last := LeftOver(text, cuts, m) + d.whole(all)[|text|..];
    SeenFrom(text, 0, cuts, m) + (if last != [] then [StripReturn(last)] else [])
  }

  ghost function SearchOf(chunks: seq<seq<byte>>, d: Decoder, q: Query, start: seq<Match>, count: nat): Search
    requires Streaming(d)
  {
    ConsumeLines(Search(0, start, count, [], []), SeenLines(chunks, d, q.byteLength), q)
  }

  // ---------- The program ----------

  /** The loop over the pending matches, last to first, removing those that are full. */
  method FeedPending(s: Search, line: Text) returns (matches: seq<Match>, pending: seq<Pending>)
    ensures matches == Feed(s.matches, s.pending, line) && pending == StillPending(s.pending)
  {
    matches, pending := s.matches, s.pending;
    var i := |pending|;
    assert s.pending[i..] == [];
    while i > 0
      invariant 0 <= i <= |s.pending| && i <= |pending|
      invariant matches == Feed(s.matches, s.pending[i..], line)
      invariant pending == s.pending[..i] + StillPending(s.pending[i..])
    {
      i := i - 1;
      var p := pending[i];
      assert s.pending[i..] == [s.pending[i]] + s.pending[i + 1..];
      assert p == s.pending[i];
      if p.remaining == 0 {
        pending := pending[..i] + pending[i + 1..];
        continue;
      }
      if p.index < |matches| { matches := matches[p.index := WithAfter(matches[p.index], line)]; }
      pending := pending[i := Pending(p.index, p.remaining - 1)];
    }
    assert s.pending[0..] == s.pending;
  }

  method ConsumeLine(s: Search, line: Text, q: Query) returns (r: Search)
    ensures r == Consume(s, line, q)
  {
    var lineNumber := s.lineNumber + 1;
    if q.byteLength(line) > MAX_SEARCH_LINE_BYTES { return s.(lineNumber := lineNumber); }
    var matches, pending := FeedPending(s, line);
    var totalCount := s.totalCount;
    var hit := q.exec(line);
    if hit.Some? {
      totalCount := totalCount + 1;
      if |matches| < q.limit {
        var item := Match(q.path, lineNumber, hit.value + 1, line,
                          if q.before > 0 then Some(s.previous) else None, if q.after > 0 then Some([]) else None);
        if q.after > 0 { pending := pending + [Pending(|matches|, q.after)]; }
        matches := matches + [item];
      }
    }
    var previous := s.previous;
    if q.before > 0 {
      previous := previous + [line];
      while |previous| > q.before
        invariant LastOf(previous, q.before) == LastOf(s.previous + [line], q.before)
      {
        previous := previous[1..];
      }
    }
    r := Search(lineNumber, matches, totalCount, previous, pending);
  }

  lemma {:induction false} ConsumeMore(s: Search, a: seq<Text>, b: seq<Text>, q: Query)
    ensures ConsumeLines(s, a + b, q) == ConsumeLines(ConsumeLines(s, a, q), b, q)
    decreases |b|
  {
    hide Consume;
    if b == [] {
      assert a + b == a;
    } else {
      assert (a + b)[..|a + b| - 1] == a + b[..|b| - 1];
      ConsumeMore(s, a, b[..|b| - 1], q);
    }
  }

  lemma ConsumeOneMore(s: Search, lines: seq<Text>, line: Text, q: Query)
    ensures ConsumeLines(s, lines + [line], q) == Consume(ConsumeLines(s, lines, q), line, q)
  {
    hide Consume;
    assert (lines + [line])[..|lines|] == lines;
  }

  /** Takes the complete lines from the front of the buffer. */
  method ConsumeBuffer(s0: Search, buffer: Text, q: Query) returns (s: Search, rest: Text)
    ensures rest == Rest(buffer) && s == ConsumeLines(s0, Lines(buffer), q)
  {
    hide Consume, StripReturn, Lines, Rest, ConsumeLines;
    s, rest := s0, buffer;
    ghost var taken: seq<Text> := [];
    NothingConsumed(s0, q);
    while true
      invariant s == ConsumeLines(s0, taken, q)
      invariant Lines(buffer) == taken + Lines(rest) && Rest(rest) == Rest(buffer)
      decreases |rest|
    {
      var newline := IndexOfNewline(rest);
      LinesStep(rest);
      if newline == |rest| { break; }
      var line := StripReturn(rest[..newline]);
      ConsumeOneMore(s0, taken, line, q);
      assert taken + ([line] + Lines(rest[newline + 1..])) == (taken + [line]) + Lines(rest[newline + 1..]);
      rest := rest[newline + 1..];
      s := ConsumeLine(s, line, q);
      taken := taken + [line];
    }
    assert taken + [] == taken;
  }

  lemma NothingConsumed(s: Search, q: Query)
    ensures ConsumeLines(s, [], q) == s
  {
  }

  /** The lines of a file; carriage returns before line ends, and at the end, are dropped. */
  function FileLines(stream: seq<byte>, d: Decoder): seq<Text> {
    var text := d.whole(stream);
    Lines(text) + (if Rest(text) != [] then [StripReturn(Rest(text))] else [])
  }

  /** Ending the stream completes no line: the decoder only flushes an unfinished character. */
  ghost predicate FlushesWithinLine(d: Decoder) {
    forall a :: d.emitted(a) <= d.whole(a) ==> NEWLINE !in d.whole(a)[|d.emitted(a)|..]
  }

  /** One chunk more: the rest of a discarded line, if it ends now, and the lines that are complete. */
  method TakePiece(
      s0: Search, ghost x: Scan, text: Text, lineBuffer0: Text, discarding0: bool, q: Query, ghost base: Search)
    returns (s: Search, lineBuffer: Text, discarding: bool)
    requires lineBuffer0 == x.buffer && discarding0 == x.discarding && (discarding0 ==> lineBuffer0 == [])
    requires s0 == ConsumeLines(base, x.seen, q)
    ensures var y := AddPiece(x, text, q.byteLength);
            lineBuffer == y.buffer && discarding == y.discarding && s == ConsumeLines(base, y.seen, q)
    ensures discarding ==> lineBuffer == []
  {
    hide Lines, Rest, StripReturn, Consume, ConsumeLines, TooLong;
    s, lineBuffer, discarding := s0, lineBuffer0, discarding0;
    var more := text;
    ghost var seen := x.seen;
    if discarding {
      var newline := IndexOfNewline(text);
      if newline == |text| { return; }
      s := ConsumeLine(s, [], q);
      ConsumeOneMore(base, seen, [], q);
      seen := seen + [[]];
      more := text[newline + 1..];
      discarding := false;
      assert [] + more == more;
    }
    lineBuffer := lineBuffer + more;
    ConsumeMore(base, seen, Lines(lineBuffer), q);
    s, lineBuffer := ConsumeBuffer(s, lineBuffer, q);
    if q.byteLength(lineBuffer) > MAX_SEARCH_LINE_BYTES {
      assert TooLong(lineBuffer, q.byteLength) by { TooLongMeans(lineBuffer, q.byteLength); }
      lineBuffer := [];
      discarding := true;
    } else {
      TooLongMeans(lineBuffer, q.byteLength);
    }
  }

  lemma TooLongMeans(t: Text, m: Measure)
    ensures TooLong(t, m) <==> m(t) > MAX_SEARCH_LINE_BYTES
  {
  }

  /** For every file, however it is cut into chunks, the search takes the lines as it sees them, and reports those
      within the bound that match, up to the limit, with their numbers, places and context, and the count of them all.
      When no raw line exceeds the bound these are the lines of the file. */
  method SearchTextFile(chunks: seq<seq<byte>>, d: Decoder, q: Query, start: seq<Match>, count: nat) returns (s: Search)
    requires Streaming(d) && FlushesWithinLine(d) && Monotone(q.byteLength) && |start| <= q.limit
    ensures s == SearchOf(chunks, d, q, start, count)
    ensures ReportsKept(s, start, count, SeenLines(chunks, d, q.byteLength), q)
    ensures Bounded(d.whole(Concat(chunks)), q.byteLength) ==>
              var lines := FileLines(Concat(chunks), d); Reports(s, start, count, lines, |lines|, q)
  {
    hide Consume, ConsumeLines, Lines, Rest, Bounded, Reports, ReportsKept, Streaming, Monotone, StripReturn, Concat,
         FlushesWithinLine, AddPiece, SeenFrom, LeftOver, Pieces, ScanOf;
    s := Search(0, start, count, [], []);
    ghost var s0, pieces := s, Pieces(chunks, d);
    var lineBuffer: Text := [];
    var fed: seq<byte> := [];
    var discardingOversizedLine := false;
    NothingConsumed(s0, q);
    ScanStart(chunks, q.byteLength);
    for k := 0 to |chunks|
      invariant fed == Concat(chunks[..k])
      invariant var x := ScanOf(Pieces(chunks[..k], d), q.byteLength);
                lineBuffer == x.buffer && discardingOversizedLine == x.discarding && s == ConsumeLines(s0, x.seen, q)
      invariant discardingOversizedLine ==> lineBuffer == []
    {
      ConcatStep(chunks, k);
      PieceArrives(chunks, k, d);
      ScanGrows(chunks, k, d, q.byteLength);
      ghost var x := ScanOf(Pieces(chunks[..k], d), q.byteLength);
      var before := d.emitted(fed);
      fed := fed + chunks[k];
      var text := d.emitted(fed)[|before|..];
      s, lineBuffer, discardingOversizedLine := TakePiece(s, x, text, lineBuffer, discardingOversizedLine, q, s0);
    }
    assert chunks[..|chunks|] == chunks;
    DecoderEnds(d, fed);
    ScanIsSeen(chunks, d, q.byteLength);
    var final := d.whole(fed)[|d.emitted(fed)|..];
    lineBuffer := lineBuffer + final;
    ghost var seen := SeenFrom(d.emitted(fed), 0, ChunkEnds(chunks, d), q.byteLength);
    if lineBuffer != [] {
      s := ConsumeLine(s, StripReturn(lineBuffer), q);
      ConsumeOneMore(s0, seen, StripReturn(lineBuffer), q);
    } else {
      assert seen + [] == seen;
    }
    ConsumedReports(start, count, SeenLines(chunks, d, q.byteLength), q);
    if Bounded(d.whole(fed), q.byteLength) { BoundedSearch(chunks, d, q, start, count); }
  }

  lemma ScanStart(chunks: seq<seq<byte>>, m: Measure)
    ensures chunks[..0] == [] && Concat<byte>([]) == [] && ScanOf([], m) == Scan([], [], false)
    ensures forall d | Streaming(d) :: Pieces(chunks[..0], d) == []
  {
  }

  lemma ScanGrows(chunks: seq<seq<byte>>, k: nat, d: Decoder, m: Measure)
    requires k < |chunks| && Streaming(d)
    ensures var before, now := d.emitted(Concat(chunks[..k])), d.emitted(Concat(chunks[..k + 1]));
            |before| <= |now| &&
            ScanOf(Pieces(chunks[..k + 1], d), m) == AddPiece(ScanOf(Pieces(chunks[..k], d), m), now[|before|..], m)
  {
    hide AddPiece, Concat, Streaming;
    PieceArrives(chunks, k, d);
    var head := chunks[..k + 1];
    assert head[..k] == chunks[..k];
    var pieces := Pieces(head, d);
    assert pieces[..k] == Pieces(chunks[..k], d);
  }

  lemma ScanIsSeen(chunks: seq<seq<byte>>, d: Decoder, m: Measure)
    requires Streaming(d)
    ensures var x, text, cuts := ScanOf(Pieces(chunks, d), m), d.emitted(Concat(chunks)), ChunkEnds(chunks, d);
            x.seen == SeenFrom(text, 0, cuts, m) && x.buffer == LeftOver(text, cuts, m)
  {
    hide Streaming, Concat, SeenFrom, LeftOver, ScanOf;
    PiecesMeaning(chunks, d);
    ScanMeaning(Pieces(chunks, d), m);
  }

  /** With every raw line within the bound the search sees the lines of the file. */
  lemma BoundedSeenLines(chunks: seq<seq<byte>>, d: Decoder, m: Measure)
    requires Streaming(d) && FlushesWithinLine(d) && Monotone(m) && Bounded(d.whole(Concat(chunks)), m)
    ensures SeenLines(chunks, d, m) == FileLines(Concat(chunks), d)
    ensures forall line :: line in SeenLines(chunks, d, m) ==> !TooLong(line, m)
  {
    hide Streaming, Lines, Rest, Bounded, Monotone, FlushesWithinLine, StripReturn, SeenFrom, RestStart, CutTooLate;
    var all := Concat(chunks);
    var text := d.emitted(all);
    DecoderEnds(d, all);
    EndOfStream(d, all, m);
    BoundedPrefix(text, d.whole(all)[|text|..], m);
    assert text[0..] == text;
    BoundedSeen(text, 0, ChunkEnds(chunks, d), m);
    StripShortens(Rest(d.whole(all)), m);
  }

  lemma BoundedSearch(chunks: seq<seq<byte>>, d: Decoder, q: Query, start: seq<Match>, count: nat)
    requires Streaming(d) && FlushesWithinLine(d) && Monotone(q.byteLength) && |start| <= q.limit
    requires Bounded(d.whole(Concat(chunks)), q.byteLength)
    ensures var lines := FileLines(Concat(chunks), d);
            Reports(SearchOf(chunks, d, q, start, count), start, count, lines, |lines|, q)
  {
    hide Streaming, FlushesWithinLine, Monotone, Bounded, SeenLines, FileLines, Reports, Awaiting, TakeLines,
         ConsumeLines;
    BoundedSeenLines(chunks, d, q.byteLength);
    var lines := FileLines(Concat(chunks), d);
    ConsumeIsTake(Search(0, start, count, [], []), lines, q);
    SearchReports(start, count, lines, |lines|, q);
    assert lines[..|lines|] == lines;
  }

  /** At the end the flush goes to the last line. */
  lemma EndOfStream(d: Decoder, all: seq<byte>, m: Measure)
    requires Streaming(d) && FlushesWithinLine(d) && Bounded(d.whole(all), m)
    ensures |d.emitted(all)| <= |d.whole(all)|
    ensures var flush := d.whole(all)[|d.emitted(all)|..];
            && Lines(d.whole(all)) == Lines(d.emitted(all))
            && Rest(d.whole(all)) == Rest(d.emitted(all)) + flush
            && !TooLong(Rest(d.whole(all)), m)
  {
    hide Lines, Rest, Bounded, TooLong;
    var e, w := d.emitted(all), d.whole(all);
    assert e <= w;
    var flush := w[|e|..];
    assert w == e + flush;
    LinesConcat(e, flush);
    RestHasNoNewline(e);
    NoLineIn(Rest(e) + flush);
    RestBounded(w, m);
    assert Lines(e) + [] == Lines(e);
  }

  lemma {:induction false} RestBounded(t: Text, m: Measure)
    requires Bounded(t, m)
    ensures !TooLong(Rest(t), m)
    decreases |t|
  {
    var i := IndexOfNewline(t);
    if i < |t| { RestBounded(t[i + 1..], m); } else { assert t[..i] == t; }
  }

  lemma NoLineIn(t: Text)
    requires NEWLINE !in t
    ensures Lines(t) == [] && Rest(t) == t
  {
    assert IndexOfNewline(t) == |t|;
  }

  // ---------- What the chunks decide ----------

  /** The fate of each raw line, told by the file and by where its chunks end. A line with a newline is seen blank
      when a chunk ends inside it with more than the bound of it read, and is seen as it is otherwise, to be skipped
      when that is beyond the bound. A last line without a newline is dropped exactly when it is beyond the bound,
      whatever the chunks; what the decoder held back of an unfinished character is then seen in its place. */
  lemma LineFates(chunks: seq<seq<byte>>, d: Decoder, m: Measure)
    requires Streaming(d) && Monotone(m) && chunks != []
    ensures var all := Concat(chunks);
            var text, cuts, lines := d.emitted(all), ChunkEnds(chunks, d), SeenLines(chunks, d, m);
            var spans, rest := Spans(text, 0), Rest(text);
            var last := (if TooLong(rest, m) then [] else rest) + d.whole(all)[|text|..];
            && |spans| == |Lines(text)|
            && |lines| == |spans| + (if last != [] then 1 else 0)
            && (forall i :: 0 <= i < |spans| ==>
                  lines[i] == if CutTooLate(text, spans[i].start, spans[i].end, cuts, m) then [] else Lines(text)[i])
            && (last != [] ==> lines[|spans|] == StripReturn(last))
  {
    hide Streaming, Monotone, Lines, Rest, StripReturn, SeenFrom, RestStart, CutTooLate, TooLong, Spans, Concat;
    var all := Concat(chunks);
    var text, cuts := d.emitted(all), ChunkEnds(chunks, d);
    assert chunks[..|chunks|] == chunks;
    DecoderEnds(d, all);
    SeenAtSpans(text, 0, cuts, m);
    SpansAreLines(text, 0);
    assert text[0..] == text;
    DroppedExactly(text, cuts, m);
  }

  /** The lines seen are those seen in one piece exactly when no chunk ends too late inside a line with a newline. */
  lemma ChunksDecideExactly(chunks: seq<seq<byte>>, d: Decoder, m: Measure)
    requires Streaming(d) && Monotone(m) && chunks != [] && !TooLong([CARRIAGE_RETURN], m)
    ensures var text, cuts := d.emitted(Concat(chunks)), ChunkEnds(chunks, d);
            SeenLines(chunks, d, m) == SeenLines([Concat(chunks)], d, m) <==>
              forall i :: 0 <= i < |Spans(text, 0)| ==>
                !CutTooLate(text, Spans(text, 0)[i].start, Spans(text, 0)[i].end, cuts, m)
  {
    hide Streaming, Monotone, Lines, Rest, StripReturn, SeenLines, CutTooLate, TooLong, Spans, Concat, ChunkEnds;
    var all := Concat(chunks);
    var text, cuts, spans := d.emitted(all), ChunkEnds(chunks, d), Spans(d.emitted(all), 0);
    InOnePiece(all, d, m);
    LineFates(chunks, d, m);
    LineFates([all], d, m);
    var lines, whole := SeenLines(chunks, d, m), SeenLines([all], d, m);
    SpansAreLines(text, 0);
    assert text[0..] == text;
    if i :| 0 <= i < |spans| && CutTooLate(text, spans[i].start, spans[i].end, cuts, m) {
      CutLineIsNotEmpty(text, spans[i].start, spans[i].end, cuts, m);
      assert lines[i] != whole[i];
    }
  }

  /** In one piece no line with a newline is cut. */
  lemma InOnePiece(all: seq<byte>, d: Decoder, m: Measure)
    ensures Concat([all]) == all
    ensures var text := d.emitted(all);
            forall i :: 0 <= i < |Spans(text, 0)| ==>
              !CutTooLate(text, Spans(text, 0)[i].start, Spans(text, 0)[i].end, ChunkEnds([all], d), m)
  {
    hide Spans, TooLong;
    assert [all][..1] == [all];
    assert Concat([all]) == all + [];
  }

  lemma CutLineIsNotEmpty(t: Text, a: nat, b: nat, cuts: seq<nat>, m: Measure)
    requires a <= b <= |t| && Monotone(m) && !TooLong([CARRIAGE_RETURN], m) && CutTooLate(t, a, b, cuts, m)
    ensures StripReturn(t[a..b]) != []
  {
    var line := t[a..b];
    assert [] + [CARRIAGE_RETURN] == [CARRIAGE_RETURN];
    var k :| 0 <= k < |cuts| && a <= cuts[k] <= b && TooLong(t[a..cuts[k]], m);
    assert line == t[a..cuts[k]] + t[cuts[k]..b];
    assert line != [] && line != [CARRIAGE_RETURN];
  }

  // ---------- One file, two outcomes ----------

  function Letters(n: nat): (r: seq<byte>)
    ensures |r| == n && forall i :: 0 <= i < n ==> r[i] == 97
  {
    if n == 0 then [] else Letters(n - 1) + [97]
  }

  /** A search for empty lines, without context. */
  function EmptyLines(limit: nat): Query {
    Query([], limit, 0, 0, (t: Text) => if t == [] then Some(0) else None, (t: Text) => |t|)
  }

  lemma AsciiSearches(limit: nat)
    ensures Streaming(ASCII_DECODER) && FlushesWithinLine(ASCII_DECODER) && Monotone(EmptyLines(limit).byteLength)
  {
    AsciiStreams();
  }

  const NEWLINE_BYTE: seq<byte> := [10]

  /** A file of one line beyond the bound has no empty line. Read as one chunk, the line is skipped; when the chunk ends
      before the newline, an empty line is found. */
  lemma ChunksDecide(n: nat, limit: nat)
    requires n > MAX_SEARCH_LINE_BYTES && limit > 0
    ensures Streaming(ASCII_DECODER) && FlushesWithinLine(ASCII_DECODER) && Monotone(EmptyLines(limit).byteLength)
    ensures Concat([Letters(n) + NEWLINE_BYTE]) == Concat([Letters(n), NEWLINE_BYTE])
    ensures SearchOf([Letters(n) + NEWLINE_BYTE], ASCII_DECODER, EmptyLines(limit), [], 0) == Search(1, [], 0, [], [])
    ensures SearchOf([Letters(n), NEWLINE_BYTE], ASCII_DECODER, EmptyLines(limit), [], 0) ==
            Search(1, [Match([], 1, 1, [], None, None)], 1, [], [])
  {
    AsciiSearches(limit);
    var long, q := Letters(n), EmptyLines(limit);
    hide Letters, SeenLines, ConsumeLines, AsciiText, Concat, Streaming, Monotone, FlushesWithinLine;
    ConcatTwo(long, NEWLINE_BYTE);
    ConcatOne(long + NEWLINE_BYTE);
    SeenWhole(long, q.byteLength);
    SeenCut(long, q.byteLength);
    OneConsumed(AsciiText(long), q);
    OneConsumed([], q);
    Outcomes(AsciiText(long), q, limit);
  }

  lemma Outcomes(line: Text, q: Query, limit: nat)
    requires q == EmptyLines(limit) && limit > 0 && |line| > MAX_SEARCH_LINE_BYTES
    ensures Consume(Search(0, [], 0, [], []), line, q) == Search(1, [], 0, [], [])
    ensures Consume(Search(0, [], 0, [], []), [], q) == Search(1, [Match([], 1, 1, [], None, None)], 1, [], [])
  {
  }

  lemma OneConsumed(line: Text, q: Query)
    ensures var s0 := Search(0, [], 0, [], []); ConsumeLines(s0, [line], q) == Consume(s0, line, q)
  {
    hide Consume;
    assert [line][..0] == [];
    assert ConsumeLines(Search(0, [], 0, [], []), [], q) == Search(0, [], 0, [], []);
  }

  lemma EndsOfOne(all: seq<byte>)
    ensures ChunkEnds([all], ASCII_DECODER) == [|all|]
  {
    hide Concat;
    ConcatOne(all);
    assert [all][..1] == [all];
    AsciiLength(all);
    assert ChunkEnds([all], ASCII_DECODER)[0] == |all|;
  }

  lemma AsciiLength(bytes: seq<byte>)
    ensures |ASCII_DECODER.emitted(bytes)| == |bytes|
  {
  }

  lemma EndsOfTwo(x: seq<byte>, y: seq<byte>)
    ensures ChunkEnds([x, y], ASCII_DECODER) == [|x|, |x| + |y|]
  {
    hide Concat;
    ConcatOne(x);
    ConcatTwo(x, y);
    assert [x, y][..1] == [x] && [x, y][..2] == [x, y];
    AsciiLength(x);
    AsciiLength(x + y);
    var ends := ChunkEnds([x, y], ASCII_DECODER);
    assert ends[0] == |x| && ends[1] == |x| + |y|;
  }

  /** What is seen of a long line in one chunk. */
  lemma SeenWhole(long: seq<byte>, m: Measure)
    requires |long| > MAX_SEARCH_LINE_BYTES && (forall i :: 0 <= i < |long| ==> long[i] == 97)
    requires (forall t :: m(t) == |t|) && Monotone(m) && Streaming(ASCII_DECODER)
    ensures SeenLines([long + NEWLINE_BYTE], ASCII_DECODER, m) == [AsciiText(long)]
  {
    var all := long + NEWLINE_BYTE;
    hide AsciiText, Streaming, Monotone, SeenLines, Spans, Concat, ChunkEnds;
    ConcatOne(all);
    EndsOfOne(all);
    LongLine(long, m);
    LineFates([all], ASCII_DECODER, m);
    OneLineSeen([all], long, m);
  }

  /** What is seen of it when a chunk ends before its newline. */
  lemma SeenCut(long: seq<byte>, m: Measure)
    requires |long| > MAX_SEARCH_LINE_BYTES && (forall i :: 0 <= i < |long| ==> long[i] == 97)
    requires (forall t :: m(t) == |t|) && Monotone(m) && Streaming(ASCII_DECODER)
    ensures SeenLines([long, NEWLINE_BYTE], ASCII_DECODER, m) == [[]]
  {
    hide AsciiText, Streaming, Monotone, SeenLines, Spans, Concat, ChunkEnds;
    ConcatTwo(long, NEWLINE_BYTE);
    EndsOfTwo(long, NEWLINE_BYTE);
    LongLine(long, m);
    var cuts := ChunkEnds([long, NEWLINE_BYTE], ASCII_DECODER);
    assert cuts[0] == |long| && TooLong(AsciiText(long + NEWLINE_BYTE)[0..cuts[0]], m);
    OneLineSeen([long, NEWLINE_BYTE], long, m);
  }

  /** Whatever the chunks, one line is seen: the long one, or none of it. */
  lemma OneLineSeen(chunks: seq<seq<byte>>, long: seq<byte>, m: Measure)
    requires chunks != [] && Concat(chunks) == long + NEWLINE_BYTE && (forall i :: 0 <= i < |long| ==> long[i] == 97)
    requires (forall t :: m(t) == |t|) && Monotone(m) && Streaming(ASCII_DECODER)
    ensures SeenLines(chunks, ASCII_DECODER, m) ==
            [if CutTooLate(AsciiText(long + NEWLINE_BYTE), 0, |long|, ChunkEnds(chunks, ASCII_DECODER), m) then []
             else AsciiText(long)]
  {
    hide AsciiText, Streaming, Monotone, SeenLines, Spans, Concat, ChunkEnds, CutTooLate, Lines, Rest;
    LongLine(long, m);
    LineFates(chunks, ASCII_DECODER, m);
    assert AsciiText(long + NEWLINE_BYTE)[|long + NEWLINE_BYTE|..] == [];
  }

  lemma LongLine(long: seq<byte>, m: Measure)
    requires forall i :: 0 <= i < |long| ==> long[i] == 97
    ensures var text := AsciiText(long + NEWLINE_BYTE);
            Lines(text) == [AsciiText(long)] && Rest(text) == [] && Spans(text, 0) == [Span(0, |long|)]
  {
    var text, line := AsciiText(long + NEWLINE_BYTE), AsciiText(long);
    assert text == line + [NEWLINE];
    hide AsciiText, Lines, Rest, Spans;
    TextOfLine(line, m);
  }

  lemma TextOfLine(line: Text, m: Measure)
    requires forall i :: 0 <= i < |line| ==> line[i] == 97
    ensures var text := line + [NEWLINE];
            Lines(text) == [line] && Rest(text) == [] && Spans(text, 0) == [Span(0, |line|)]
  {
    hide Lines, Rest, Spans, SeenFrom, RestStart, StripReturn, CutTooLate;
    var text, n := line + [NEWLINE], |line|;
    LineEndOf(line);
    StepFrom(text, 0, [], m);
    StepFrom(text, n + 1, [], m);
    LinesFrom(text, 0);
    LinesFrom(text, n + 1);
    NothingStripped(line);
  }

  lemma LineEndOf(line: Text)
    requires forall i :: 0 <= i < |line| ==> line[i] == 97
    ensures var text, n := line + [NEWLINE], |line|;
            && LineEnd(text, 0) == n && LineEnd(text, n + 1) == n + 1
            && text[0..n] == line && text[0..] == text && text[n + 1..] == []
  {
    var text, n := line + [NEWLINE], |line|;
    assert text[n] == NEWLINE && forall i :: 0 <= i < n ==> text[i] == 97;
  }

  lemma NothingStripped(line: Text)
    requires forall i :: 0 <= i < |line| ==> line[i] == 97
    ensures StripReturn(line) == line
  {
  }
}
