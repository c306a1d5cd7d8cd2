/** Polling the event log: bounded pages, routing, and the cursor between polls. */
module Sync {
  import opened Wrappers
  import opened ContextRouter

  const DEFAULT_EVENT_LIMIT := 100
  const DEFAULT_EVENT_BYTES := 256 * 1024

  /** One poll: who asks, and the limits it names. */
  datatype Call = Call(who: Interests, maxEvents: Option<nat>, maxBytes: Option<nat>)

  datatype EventPage = EventPage(events: seq<Event>, throughSequence: nat, hasMore: bool)

  /** The store's and the router's measure of an event. */
  datatype Sizes = Sizes(stored: Size, routed: Size)

  ghost predicate RoutedIsShorter(sizes: Sizes) { forall e :: sizes.routed(e) <= sizes.stored(e) }

  /** The JSON value of an event: big integers by their digits, other leaves by the text they print as, objects as
      brackets around members. A character here is a byte of the UTF-8 text. */
  datatype Value =
    | BigInt(digits: string)
    | Leaf(text: string)
    | Member(key: string, value: Value)
    | Bracketed(open: char, parts: seq<Value>, close: char)

  /** A value as it is printed. The router prints a big integer as a text, the store marks it with an object around. */
  function Printed(v: Value, marked: bool): string
    decreases v
  {
    match v
    case BigInt(digits) =>
      if marked then "{\"__myPiBigInt\":\"" + digits + "\"}" else "\"" + digits + "\""
    case Leaf(text) => text
    case Member(key, value) => key + ":" + Printed(value, marked)
    case Bracketed(open, parts, close) => [open] + PrintedParts(parts, marked) + [close]
  }

  /** The items of an array, or the members of an object, with commas between them. */
  function PrintedParts(parts: seq<Value>, marked: bool): string
    decreases parts
  {
    if parts == [] then ""
    else Printed(parts[0], marked) + (if |parts| == 1 then "" else ",") + PrintedParts(parts[1..], marked)
  }

  /** The two measures of an event with the given value. */
  function PrintedSizes(body: Event -> Value): Sizes {
    Sizes(e => |Printed(body(e), true)|, e => |Printed(body(e), false)|)
  }

  /** How many big integers a value holds. */
  function BigInts(v: Value): nat
    decreases v
  {
    match v
    case BigInt(_) => 1
    case Leaf(_) => 0
    case Member(_, value) => BigInts(value)
    case Bracketed(_, parts, _) => BigIntsIn(parts)
  }

  function BigIntsIn(parts: seq<Value>): nat
    decreases parts
  {
    if parts == [] then 0 else BigInts(parts[0]) + BigIntsIn(parts[1..])
  }

  /** Marking adds seventeen bytes for each big integer, and nothing else. */
  lemma {:induction false} MarkingAdds(v: Value)
    ensures |Printed(v, true)| == |Printed(v, false)| + 17 * BigInts(v)
    decreases v
  {
    match v
    case Member(_, value) => MarkingAdds(value);
    case Bracketed(_, parts, _) => MarkingAddsParts(parts);
    case _ =>
  }

  lemma {:induction false} MarkingAddsParts(parts: seq<Value>)
    ensures |PrintedParts(parts, true)| == |PrintedParts(parts, false)| + 17 * BigIntsIn(parts)
    decreases parts
  {
    if parts != [] {
      MarkingAdds(parts[0]);
      MarkingAddsParts(parts[1..]);
    }
  }

  /** The store's measure exceeds the router's by seventeen bytes for each big integer, so the router's never exceeds
      the store's. */
  lemma PrintersMakeRoutedShorter(body: Event -> Value)
    ensures RoutedIsShorter(PrintedSizes(body))
    ensures forall e :: PrintedSizes(body).stored(e) == PrintedSizes(body).routed(e) + 17 * BigInts(body(e))
  {
    forall e ensures |Printed(body(e), true)| == |Printed(body(e), false)| + 17 * BigInts(body(e)) {
      MarkingAdds(body(e));
    }
  }

  function EventLimit(c: Call): nat { if c.maxEvents.Some? then c.maxEvents.value else DEFAULT_EVENT_LIMIT }

  function ByteLimit(c: Call): nat { if c.maxBytes.Some? then c.maxBytes.value else DEFAULT_EVENT_BYTES }

  predicate ValidCall(c: Call) { ValidLimits(EventLimit(c), ByteLimit(c)) }

  /** Sequences are dense from 1. */
  predicate Dense(log: seq<Event>) { forall i :: 0 <= i < |log| ==> log[i].sequence == i + 1 }

  function After(log: seq<Event>, after: nat): seq<Event> { if after <= |log| then log[after..] else [] }

  /** How many of the events fit: as many as both limits allow. */
  function Fit(events: seq<Event>, size: Size, limit: nat, maxBytes: nat, i: nat, bytes: nat): (m: nat)
    requires i <= |events| && i <= limit
    ensures i <= m <= |events| && m <= limit
    decreases |events| - i
  {
    if i == |events| || i == limit || bytes + size(events[i]) > maxBytes then i
    else Fit(events, size, limit, maxBytes, i + 1, bytes + size(events[i]))
  }

  /** The next page; None for what the store reports as an error: a limit out of bounds, or a first event that
      alone exceeds the byte limit. */
  function PageAfter(log: seq<Event>, size: Size, after: nat, limit: nat, maxBytes: nat): Option<EventPage> {
    var rest := After(log, after);
    if !ValidLimits(limit, maxBytes) || (rest != [] && size(rest[0]) > maxBytes) then None
    else
      var events := rest[..Fit(rest, size, limit, maxBytes, 0, 0)];
      Some(EventPage(events, if events != [] then events[|events| - 1].sequence else after, |events| < |rest|))
  }

  method ListEvents(log: seq<Event>, size: Size, after: nat, limit: nat, maxBytes: nat) returns (r: Option<EventPage>)
    ensures r == PageAfter(log, size, after, limit, maxBytes)
  {
    hide ValidLimits, Fit;
    if !ValidLimits(limit, maxBytes) { return None; }
    LimitsArePositive(limit, maxBytes);
    var rows := After(log, after);
    if |rows| > limit + 1 { rows := rows[..limit + 1]; }
    var events: seq<Event> := [];
    var bytes: nat := 0;
    var i := 0;
    ghost var rest := After(log, after);
    while i < |rows| && i < limit
      invariant i <= |rows| && i <= limit && events == rest[..i]
      invariant rows == rest[..|rows|] && |rows| == if |rest| > limit + 1 then limit + 1 else |rest|
      invariant rest != [] && i > 0 ==> size(rest[0]) <= maxBytes
      invariant Fit(rest, size, limit, maxBytes, 0, 0) == Fit(rest, size, limit, maxBytes, i, bytes)
      invariant events == [] ==> bytes == 0
      decreases |rows| - i
    {
      var event := rows[i];
      FitStep(rest, size, limit, maxBytes, i, bytes);
      if events == [] && size(event) > maxBytes { return None; }
      if bytes + size(event) > maxBytes { break; }
      bytes := bytes + size(event);
      events := events + [event];
      i := i + 1;
    }
    FitStep(rest, size, limit, maxBytes, i, bytes);
    r := Some(EventPage(events, if events != [] then events[|events| - 1].sequence else after, |rows| > |events|));
  }

  lemma LimitsArePositive(limit: nat, maxBytes: nat)
    requires ValidLimits(limit, maxBytes)
    ensures 1 <= limit && 1 <= maxBytes
  {
  }

  lemma FitStep(events: seq<Event>, size: Size, limit: nat, maxBytes: nat, i: nat, bytes: nat)
    requires i <= |events| && i <= limit
    ensures Fit(events, size, limit, maxBytes, i, bytes) ==
            if i == |events| || i == limit || bytes + size(events[i]) > maxBytes then i
            else Fit(events, size, limit, maxBytes, i + 1, bytes + size(events[i]))
  {
  }

  datatype SyncResult = SyncResult(
    throughSequence: int, highPriority: seq<Routed>, normalPriority: seq<Routed>, moreRemain: bool)

  /** What a poll returns; None when it fails. */
  function SyncOf(log: seq<Event>, sizes: Sizes, since: nat, c: Call): Option<SyncResult> {
    var page := PageAfter(log, sizes.stored, since, EventLimit(c), ByteLimit(c));
    if page.None? then None
    else
      var r := RouteOf(page.value.events, c.who, sizes.routed, since, EventLimit(c), ByteLimit(c));
      Some(SyncResult(r.throughSequence, r.highPriority, r.normalPriority, page.value.hasMore))
  }

  method Poll(log: seq<Event>, sizes: Sizes, since: nat, c: Call) returns (r: Option<SyncResult>)
    ensures r == SyncOf(log, sizes, since, c)
  {
    var page := ListEvents(log, sizes.stored, since, EventLimit(c), ByteLimit(c));
    if page.None? { return None; }
    var routing := Route(page.value.events, c.who, sizes.routed, since, EventLimit(c), ByteLimit(c));
    var routed := routing.value;
    r := Some(SyncResult(routed.throughSequence, routed.highPriority, routed.normalPriority, page.value.hasMore));
  }

  // ---------- One poll ----------

  lemma {:induction false} FitWithin(events: seq<Event>, size: Size, limit: nat, maxBytes: nat, i: nat, bytes: nat)
    requires i <= |events| && i <= limit && bytes == Total(events[..i], size) && bytes <= maxBytes
    ensures Total(events[..Fit(events, size, limit, maxBytes, i, bytes)], size) <= maxBytes
    decreases |events| - i
  {
    if !(i == |events| || i == limit || bytes + size(events[i]) > maxBytes) {
      TotalStep(events, size, i);
      FitWithin(events, size, limit, maxBytes, i + 1, bytes + size(events[i]));
    }
  }

  /** Exactly the numbers of events up to `Fit` are within both limits. */
  lemma {:induction false} FitIsLongest(
      events: seq<Event>, size: Size, limit: nat, maxBytes: nat, i: nat, bytes: nat, m: nat)
    requires i <= |events| && i <= limit && bytes == Total(events[..i], size) && bytes <= maxBytes && m <= |events|
    ensures m <= Fit(events, size, limit, maxBytes, i, bytes) <==> m <= limit && Total(events[..m], size) <= maxBytes
    decreases |events| - i
  {
    hide Total;
    if i < |events| { TotalStep(events, size, i); }
    if m <= i {
      assert events[..i][..m] == events[..m];
      TotalMonotone(events[..i], size, m);
    } else if i == limit || bytes + size(events[i]) > maxBytes {
      assert events[..m][..i + 1] == events[..i + 1];
      TotalMonotone(events[..m], size, i + 1);
    } else {
      FitIsLongest(events, size, limit, maxBytes, i + 1, bytes + size(events[i]), m);
    }
  }

  /** A page is the longest run of the events after the cursor that is within both limits: any number of them is within
      the limits exactly when the page holds it. */
  lemma PageIsLongest(log: seq<Event>, size: Size, after: nat, limit: nat, maxBytes: nat, m: nat)
    requires PageAfter(log, size, after, limit, maxBytes).Some? && m <= |After(log, after)|
    ensures var page := PageAfter(log, size, after, limit, maxBytes).value; var rest := After(log, after);
            && page.events <= rest
            && (m <= |page.events| <==> m <= limit && Total(rest[..m], size) <= maxBytes)
            && (page.hasMore <==> page.events != rest)
  {
    hide Fit, ValidLimits;
    var rest := After(log, after);
    assert Total(rest[..0], size) == 0;
    FitIsLongest(rest, size, limit, maxBytes, 0, 0, m);
  }

  lemma {:induction false} TotalMapped(events: seq<Event>, sizes: Sizes)
    requires RoutedIsShorter(sizes)
    ensures Total(events, sizes.routed) <= Total(events, sizes.stored)
  {
    if events != [] { TotalMapped(events[..|events| - 1], sizes); }
  }

  /** A poll delivers every deliverable event of its page and nothing else, and moves the cursor to the page's
      end: at least one event further, unless the log is read. It fails exactly when the next event is too large. */
  lemma PollDeliversPage(log: seq<Event>, sizes: Sizes, since: nat, c: Call)
    requires Dense(log) && since <= |log| && ValidCall(c) && RoutedIsShorter(sizes)
    ensures SyncOf(log, sizes, since, c).None? <==> since < |log| && sizes.stored(log[since]) > ByteLimit(c)
    ensures SyncOf(log, sizes, since, c).Some? ==>
              var r := SyncOf(log, sizes, since, c).value;
              && since <= r.throughSequence <= |log| && (since < |log| ==> since < r.throughSequence)
              && (r.moreRemain <==> r.throughSequence < |log|)
              && var page := log[since..r.throughSequence];
                 && r.highPriority == Pick(page, c.who, |page|, High)
                 && r.normalPriority == Pick(page, c.who, |page|, Normal)
    ensures SyncOf(log, sizes, since, c).Some? ==>
              SyncOf(log, sizes, since, c).value.throughSequence ==
              since + |PageAfter(log, sizes.stored, since, EventLimit(c), ByteLimit(c)).value.events|
  {
    hide StopAt, Pick;
    var rest := After(log, since);
    var limit, maxBytes := EventLimit(c), ByteLimit(c);
    if SyncOf(log, sizes, since, c).Some? {
      var m := Fit(rest, sizes.stored, limit, maxBytes, 0, 0);
      var events := rest[..m];
      assert Total(rest[..0], sizes.stored) == 0;
      FitWithin(rest, sizes.stored, limit, maxBytes, 0, 0);
      TotalMapped(events, sizes);
      assert events[..0] == [];
      NeverStopsEarly(events, c.who, sizes.routed, limit, maxBytes, 0, 0);
      assert events == log[since..since + m];
    }
  }

  /** A poll reads as far as both of its limits allow. */
  lemma PollReadsLongest(log: seq<Event>, sizes: Sizes, since: nat, c: Call, m: nat)
    requires Dense(log) && since + m <= |log| && ValidCall(c) && RoutedIsShorter(sizes)
    requires SyncOf(log, sizes, since, c).Some?
    ensures since + m <= SyncOf(log, sizes, since, c).value.throughSequence <==>
              m <= EventLimit(c) && Total(log[since..since + m], sizes.stored) <= ByteLimit(c)
  {
    PollDeliversPage(log, sizes, since, c);
    PageIsLongest(log, sizes.stored, since, EventLimit(c), ByteLimit(c), m);
    assert After(log, since)[..m] == log[since..since + m];
    hide PageAfter;
  }

  /** Which polls fail: those that ask for no or more than 1000 events, or for no bytes or more than four mebibytes, and
      those whose first event alone is larger than what they ask for. By default they ask for 100 events and 256
      kibibytes. */
  lemma PollFailsExactly(log: seq<Event>, sizes: Sizes, since: nat, c: Call)
    requires Dense(log) && since <= |log| && RoutedIsShorter(sizes)
    ensures var events := if c.maxEvents.Some? then c.maxEvents.value else 100;
            var bytes := if c.maxBytes.Some? then c.maxBytes.value else 262_144;
            SyncOf(log, sizes, since, c).None? <==>
              !(1 <= events <= 1000 && 1 <= bytes <= 4_194_304) ||
              (since < |log| && sizes.stored(log[since]) > bytes)
  {
    if ValidCall(c) { PollDeliversPage(log, sizes, since, c); }
    hide StopAt, Pick, Fit;
  }

  // ---------- Repeated polls ----------

  /** A poll against the log as it is at that time. */
  datatype Visit = Visit(log: seq<Event>, call: Call)

  /** Each poll starts where the one before ended; a failed poll leaves the cursor where it was. */
  function CursorAfter(visits: seq<Visit>, sizes: Sizes, since: nat): int {
    if visits == [] then since
    else
      var before := CursorAfter(visits[..|visits| - 1], sizes, since);
      var last := visits[|visits| - 1];
      if before < 0 then before
      else
        var r := SyncOf(last.log, sizes, before, last.call);
        if r.None? then before else r.value.throughSequence
  }

  /** The log only grows between polls, and holds at least what the first cursor refers to. */
  ghost predicate Growing(visits: seq<Visit>, since: nat, log: seq<Event>) {
    && Dense(log) && since <= |log|
    && (forall i :: 0 <= i < |visits| ==> since <= |visits[i].log| && visits[i].log <= log && ValidCall(visits[i].call))
    && (forall i, j :: 0 <= i < j < |visits| ==> visits[i].log <= visits[j].log)
  }

  lemma GrowingPrefix(visits: seq<Visit>, since: nat, log: seq<Event>, k: nat)
    requires Growing(visits, since, log) && k <= |visits|
    ensures Growing(visits[..k], since, log)
  {
  }

  lemma {:induction false} CursorInLog(visits: seq<Visit>, sizes: Sizes, since: nat, log: seq<Event>)
    requires Growing(visits, since, log) && RoutedIsShorter(sizes)
    ensures since <= CursorAfter(visits, sizes, since) <= |log|
    ensures visits != [] ==> CursorAfter(visits, sizes, since) <= |visits[|visits| - 1].log|
    ensures visits != [] ==> CursorAfter(visits[..|visits| - 1], sizes, since) <= CursorAfter(visits, sizes, since)
  {
    hide SyncOf;
    if visits != [] {
      var init, last := visits[..|visits| - 1], visits[|visits| - 1];
      GrowingPrefix(visits, since, log, |init|);
      CursorInLog(init, sizes, since, log);
      var before := CursorAfter(init, sizes, since);
      if init != [] { assert init[|init| - 1].log <= last.log; }
      assert Dense(last.log);
      PollDeliversPage(last.log, sizes, before, last.call);
    }
  }

  /** Cursors never move back. */
  lemma {:induction false} CursorsAscend(visits: seq<Visit>, sizes: Sizes, since: nat, log: seq<Event>, i: nat)
    requires Growing(visits, since, log) && RoutedIsShorter(sizes) && i <= |visits|
    ensures since <= CursorAfter(visits[..i], sizes, since) <= CursorAfter(visits, sizes, since) <= |log|
    decreases |visits|
  {
    hide SyncOf, CursorAfter, Growing;
    CursorInLog(visits, sizes, since, log);
    if i < |visits| {
      var init := visits[..|visits| - 1];
      GrowingPrefix(visits, since, log, |init|);
      assert visits[..i] == init[..i];
      CursorsAscend(init, sizes, since, log, i);
    } else {
      assert visits[..i] == visits;
    }
  }

  /** The poll whose page holds the event of a sequence. */
  ghost predicate Reads(visits: seq<Visit>, sizes: Sizes, since: nat, k: nat, s: nat)
    requires k < |visits|
  {
    CursorAfter(visits[..k], sizes, since) < s <= CursorAfter(visits[..k + 1], sizes, since)
  }

  /** Nothing is lost: each sequence between the first cursor and the last is read by some poll. */
  lemma {:induction false} EachEventIsRead(visits: seq<Visit>, sizes: Sizes, since: nat, s: nat) returns (k: nat)
    requires since < s <= CursorAfter(visits, sizes, since)
    ensures k < |visits| && Reads(visits, sizes, since, k, s)
  {
    hide SyncOf;
    var init := visits[..|visits| - 1];
    assert visits[..|visits|] == visits;
    if CursorAfter(init, sizes, since) < s {
      k := |visits| - 1;
    } else {
      k := EachEventIsRead(init, sizes, since, s);
      assert visits[..k] == init[..k] && visits[..k + 1] == init[..k + 1];
    }
  }

  /** Nothing comes twice: no two polls read the same sequence. */
  lemma NoEventReadTwice(visits: seq<Visit>, sizes: Sizes, since: nat, log: seq<Event>, s: nat, j: nat, k: nat)
    requires Growing(visits, since, log) && RoutedIsShorter(sizes)
    requires j < k < |visits| && Reads(visits, sizes, since, j, s)
    ensures !Reads(visits, sizes, since, k, s)
  {
    hide SyncOf, CursorAfter, Growing;
    GrowingPrefix(visits, since, log, k);
    CursorsAscend(visits[..k], sizes, since, log, j + 1);
    assert visits[..k][..j + 1] == visits[..j + 1];
  }

  /** What the poll that reads an event hands out: its page of the log, filtered by the routing test and the
      page's own suppressions. */
  lemma ReadPageIsDelivered(visits: seq<Visit>, sizes: Sizes, since: nat, log: seq<Event>, k: nat, s: nat)
    requires Growing(visits, since, log) && RoutedIsShorter(sizes)
    requires k < |visits| && Reads(visits, sizes, since, k, s)
    ensures var from, to := CursorAfter(visits[..k], sizes, since), CursorAfter(visits[..k + 1], sizes, since);
            && 0 <= from < s <= to <= |log|
            && var r := SyncOf(visits[k].log, sizes, from, visits[k].call);
               && r.Some?
               && var page := log[from..to];
                  && r.value.highPriority == Pick(page, visits[k].call.who, |page|, High)
                  && r.value.normalPriority == Pick(page, visits[k].call.who, |page|, Normal)
  {
    hide Pick, SyncOf, CursorAfter;
    var head := visits[..k + 1];
    assert head[..k] == visits[..k] && head[|head| - 1] == visits[k];
    GrowingPrefix(visits, since, log, k);
    GrowingPrefix(visits, since, log, k + 1);
    CursorInLog(visits[..k], sizes, since, log);
    CursorInLog(head, sizes, since, log);
    var from, to := CursorAfter(visits[..k], sizes, since), CursorAfter(head, sizes, since);
    if k > 0 { assert visits[..k][k - 1].log <= visits[k].log; } else { CursorStart(sizes, since); }
    assert Dense(visits[k].log);
    PollDeliversPage(visits[k].log, sizes, from, visits[k].call);
    CursorStep(head, sizes, since);
    assert visits[k].log[from..to] == log[from..to];
  }

  lemma CursorStart(sizes: Sizes, since: nat)
    ensures CursorAfter([], sizes, since) == since
  {
  }

  lemma CursorStep(visits: seq<Visit>, sizes: Sizes, since: nat)
    requires visits != [] && CursorAfter(visits[..|visits| - 1], sizes, since) >= 0
    ensures var before := CursorAfter(visits[..|visits| - 1], sizes, since); var last := visits[|visits| - 1];
            var r := SyncOf(last.log, sizes, before, last.call);
            CursorAfter(visits, sizes, since) == if r.None? then before else r.value.throughSequence
  {
  }

  /** Polling a log whose events all fit reaches its end: at the latest after as many polls as events remain. */
  lemma {:induction false} PollingReachesEnd(visits: seq<Visit>, sizes: Sizes, since: nat, log: seq<Event>)
    requires Dense(log) && RoutedIsShorter(sizes) && since <= |log|
    requires forall i :: 0 <= i < |visits| ==> visits[i].log == log && ValidCall(visits[i].call)
    requires forall i, s :: 0 <= i < |visits| && 0 <= s < |log| ==> sizes.stored(log[s]) <= ByteLimit(visits[i].call)
    ensures since <= CursorAfter(visits, sizes, since) <= |log|
    ensures CursorAfter(visits, sizes, since) >= since + |visits| || CursorAfter(visits, sizes, since) == |log|
  {
    if visits != [] {
      var init, last := visits[..|visits| - 1], visits[|visits| - 1];
      PollingReachesEnd(init, sizes, since, log);
      PollDeliversPage(log, sizes, CursorAfter(init, sizes, since), last.call);
    }
  }
}
