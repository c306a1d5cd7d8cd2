/** Where an observed change comes from: receipts, verdicts, and the chain that consecutive verdicts form. */
module Provenance {
  import opened Text
  import opened Wrappers
  import opened Sorting

  datatype Fingerprint = Fingerprint(digest: Text, size: nat)

  datatype Version = Version(path: Text, absent: bool, fingerprint: Option<Fingerprint>)

  datatype ReceiptStatus = Applied | Rejected | Partial

  /** The parts of a receipt that provenance looks at; outputs are the output versions, or else the resources. */
  datatype Receipt = Receipt(
    id: nat, projectId: nat, worktreeId: nat, status: ReceiptStatus, verified: bool,
    inputVersions: seq<Version>, outputs: seq<Version>, completedAt: Text)

  datatype Observation = Observation(
    projectId: nat, worktreeId: nat, path: Text, previous: Option<Version>, current: Option<Version>, changed: bool)

  datatype Status = Managed | Unmanaged | StaleLineage | Unknown | Exempt

  datatype Reason =
    | VerifiedReceiptOutput | ReceiptMissing | ReceiptInvalid | ReceiptScopeMismatch | InputLineageMismatch
    | InsufficientFingerprint | ConfiguredExemption | UnchangedFingerprint | ReceiptOutputMismatch | InvalidPath

  datatype Verdict = Verdict(path: Text, status: Status, reason: Reason, receipt: Option<Receipt>)

  /** Receipt verification, the configured exemptions, and the collation of timestamps. */
  datatype Options = Options(verify: Receipt -> bool, exempt: Text -> bool, collate: Text -> Text)

  // ---------- Paths and versions ----------

  function NormalizePath(value: Text): Option<Text> {
    var slashed := ForwardSlashes(value);
    var normalized := if [DOT, SLASH] <= slashed then slashed[2..] else slashed;
    if normalized == [] || normalized[0] == SLASH || [DOT, DOT] in Segments(normalized) then None else Some(normalized)
  }

  predicate AtPath(v: Version, path: Text) { NormalizePath(v.path) == Some(path) }

  predicate Usable(v: Option<Version>) { v.Some? && (v.value.absent || v.value.fingerprint.Some?) }

  predicate SameVersion(a: Option<Version>, b: Option<Version>) {
    && a.Some? && b.Some? && NormalizePath(a.value.path) == NormalizePath(b.value.path)
    && if a.value.absent || b.value.absent then a.value.absent == b.value.absent
       else a.value.fingerprint.Some? && a.value.fingerprint == b.value.fingerprint
  }

  lemma SameVersionTransitive(a: Option<Version>, b: Option<Version>, c: Option<Version>)
    requires SameVersion(a, b) && SameVersion(b, c)
    ensures SameVersion(a, c) && SameVersion(b, a)
  {
    hide NormalizePath;
  }

  // ---------- Receipts ----------

  predicate Concerns(r: Receipt, path: Text) { exists v :: v in r.outputs && AtPath(v, path) }

  predicate InScope(r: Receipt, o: Observation) { r.projectId == o.projectId && r.worktreeId == o.worktreeId }

  predicate IsValid(r: Receipt, opts: Options) { r.status == Applied && r.verified && opts.verify(r) }

  predicate Produces(r: Receipt, path: Text, current: Option<Version>) {
    exists v :: v in r.outputs && AtPath(v, path) && SameVersion(Some(v), current)
  }

  function TimeOf(opts: Options): Receipt -> Text { (r: Receipt) => opts.collate(r.completedAt) }

  /** Latest first; receipts of one time keep their order. */
  function InsertLatest(r: Receipt, rs: seq<Receipt>, time: Receipt -> Text): seq<Receipt> {
    if rs == [] || AtMost(time(rs[0]), time(r)) then [r] + rs else [rs[0]] + InsertLatest(r, rs[1..], time)
  }

  function LatestFirst(rs: seq<Receipt>, time: Receipt -> Text): seq<Receipt> {
    if rs == [] then [] else InsertLatest(rs[0], LatestFirst(rs[1..], time), time)
  }

  function Find(rs: seq<Receipt>, test: Receipt -> bool): (r: Option<Receipt>)
    ensures r.Some? ==> r.value in rs && test(r.value)
    ensures r.None? <==> forall x :: x in rs ==> !test(x)
  {
    if rs == [] then None else if test(rs[0]) then Some(rs[0]) else Find(rs[1..], test)
  }

  function FindVersion(vs: seq<Version>, path: Text): (r: Option<Version>)
    ensures r.Some? ==> r.value in vs && AtPath(r.value, path)
    ensures r.None? <==> forall v :: v in vs ==> !AtPath(v, path)
  {
    if vs == [] then None else if AtPath(vs[0], path) then Some(vs[0]) else FindVersion(vs[1..], path)
  }

  function AtSamePath(rs: seq<Receipt>, path: Text): seq<Receipt> { Filter(rs, (r: Receipt) => Concerns(r, path)) }

  function LatestProducer(valid: seq<Receipt>, path: Text, current: Option<Version>, opts: Options): Option<Receipt> {
    Find(LatestFirst(valid, TimeOf(opts)), (r: Receipt) => Produces(r, path, current))
  }

  /** The receipts for the path in the observation's own project and worktree. */
  function ScopedOf(o: Observation, path: Text, receipts: seq<Receipt>): seq<Receipt> {
    Filter(AtSamePath(receipts, path), (r: Receipt) => InScope(r, o))
  }

  /** Those of them that can be trusted. */
  function ValidOf(o: Observation, path: Text, receipts: seq<Receipt>, opts: Options): seq<Receipt> {
    Filter(ScopedOf(o, path, receipts), (r: Receipt) => IsValid(r, opts))
  }

  /** The verdict when there are trusted receipts. */
  function OnReceipt(o: Observation, path: Text, valid: seq<Receipt>, opts: Options): Verdict {
    var ordered := LatestFirst(valid, TimeOf(opts));
    var matching := LatestProducer(valid, path, o.current, opts);
    if matching.None? then
      Verdict(path, Unmanaged, ReceiptOutputMismatch, if ordered == [] then None else Some(ordered[0]))
    else
      var input := FindVersion(matching.value.inputVersions, path);
      if !Usable(input) then Verdict(path, Unknown, InsufficientFingerprint, matching)
      else if o.previous.Some? && !SameVersion(input, o.previous)
        then Verdict(path, StaleLineage, InputLineageMismatch, matching)
      else Verdict(path, Managed, VerifiedReceiptOutput, matching)
  }

  function Classify(o: Observation, receipts: seq<Receipt>, opts: Options): Verdict {
    var p := NormalizePath(o.path);
    if p.None? then Verdict(o.path, Unknown, InvalidPath, None)
    else
      var path := p.value;
      if opts.exempt(path) then Verdict(path, Exempt, ConfiguredExemption, None)
      else if !o.changed then Verdict(path, Unknown, UnchangedFingerprint, None)
      else if !Usable(o.current) then Verdict(path, Unknown, InsufficientFingerprint, None)
      else
        var scoped := ScopedOf(o, path, receipts);
        var valid := ValidOf(o, path, receipts, opts);
        if valid != [] then OnReceipt(o, path, valid, opts)
        else if scoped != [] then Verdict(path, Unknown, ReceiptInvalid, None)
        else if AtSamePath(receipts, path) != [] then Verdict(path, Unmanaged, ReceiptScopeMismatch, None)
        else Verdict(path, Unmanaged, ReceiptMissing, None)
  }

  // ---------- What a verdict means ----------

  lemma {:induction false} InsertLatestKeeps(r: Receipt, rs: seq<Receipt>, time: Receipt -> Text)
    ensures forall x :: x in InsertLatest(r, rs, time) <==> x == r || x in rs
  {
    if !(rs == [] || AtMost(time(rs[0]), time(r))) {
      InsertLatestKeeps(r, rs[1..], time);
      assert rs == [rs[0]] + rs[1..];
    }
  }

  /** No receipt is preceded by an earlier one. */
  ghost predicate Descending(rs: seq<Receipt>, time: Receipt -> Text) {
    forall i, j :: 0 <= i < j < |rs| ==> AtMost(time(rs[j]), time(rs[i]))
  }

  lemma {:induction false} InsertLatestDescending(r: Receipt, rs: seq<Receipt>, time: Receipt -> Text)
    requires Descending(rs, time)
    ensures Descending(InsertLatest(r, rs, time), time)
  {
    if rs == [] {
    } else if AtMost(time(rs[0]), time(r)) {
      forall j | 0 <= j < |rs| ensures AtMost(time(rs[j]), time(r)) {
        if j > 0 && time(rs[j]) != time(rs[0]) && time(rs[0]) != time(r) {
          LessTransitive(time(rs[j]), time(rs[0]), time(r));
        }
      }
    } else {
      var tail := rs[1..];
      LessTrichotomy(time(rs[0]), time(r));
      assert forall i :: 0 <= i < |tail| ==> tail[i] == rs[i + 1];
      InsertLatestDescending(r, tail, time);
      InsertLatestKeeps(r, tail, time);
      var all := InsertLatest(r, tail, time);
      forall j | 0 <= j < |all| ensures AtMost(time(all[j]), time(rs[0])) {
        assert all[j] in all;
        if all[j] != r { var k :| 0 <= k < |tail| && tail[k] == all[j]; }
      }
    }
  }

  lemma {:induction false} LatestFirstMeans(rs: seq<Receipt>, time: Receipt -> Text)
    ensures Descending(LatestFirst(rs, time), time) && forall x :: x in LatestFirst(rs, time) <==> x in rs
  {
    if rs != [] {
      LatestFirstMeans(rs[1..], time);
      InsertLatestDescending(rs[0], LatestFirst(rs[1..], time), time);
      InsertLatestKeeps(rs[0], LatestFirst(rs[1..], time), time);
      assert rs == [rs[0]] + rs[1..];
    }
  }

  lemma {:induction false} FindIsLatest(rs: seq<Receipt>, test: Receipt -> bool, time: Receipt -> Text)
    requires Descending(rs, time) && Find(rs, test).Some?
    ensures forall x :: x in rs && test(x) ==> AtMost(time(x), time(Find(rs, test).value))
  {
    if !test(rs[0]) {
      assert forall i :: 0 <= i < |rs[1..]| ==> rs[1..][i] == rs[i + 1];
      FindIsLatest(rs[1..], test, time);
    }
  }

  /** A verified, applied receipt of the same project and worktree that turned the previous version into the current
      one. */
  ghost predicate Explains(r: Receipt, o: Observation, path: Text, opts: Options) {
    && Produces(r, path, o.current) && InScope(r, o) && IsValid(r, opts)
    && var input := FindVersion(r.inputVersions, path);
       Usable(input) && (o.previous.Some? ==> SameVersion(input, o.previous))
  }

  predicate Assessable(o: Observation, opts: Options) {
    NormalizePath(o.path).Some? && !opts.exempt(NormalizePath(o.path).value) && o.changed && Usable(o.current)
  }

  /** Managed exactly when the change can be assessed and, of the receipts that produced the current version,
      the latest explains it. */
  lemma ManagedExactly(o: Observation, receipts: seq<Receipt>, opts: Options)
    ensures var v := Classify(o, receipts, opts);
            v.status == Managed <==>
              && Assessable(o, opts)
              && v.receipt.Some? && v.receipt.value in receipts
              && Explains(v.receipt.value, o, NormalizePath(o.path).value, opts)
              && forall r ::
                   r in receipts && InScope(r, o) && IsValid(r, opts) &&
                   Produces(r, NormalizePath(o.path).value, o.current) ==>
                     AtMost(TimeOf(opts)(r), TimeOf(opts)(v.receipt.value))
  {
    hide NormalizePath, SameVersion, AtMost, Concerns, Produces, InScope, IsValid, LatestFirst, LatestProducer, TimeOf,
         Usable, ScopedOf, ValidOf, AtSamePath;
    if Assessable(o, opts) {
      var path := NormalizePath(o.path).value;
      ValidMembers(o, path, receipts, opts);
      ProducersConcern(receipts, path, o.current);
      LatestProducerMeans(ValidOf(o, path, receipts, opts), path, o.current, opts);
    }
  }

  /** The other verdicts. Exempt: the path is exempt. Stale: the latest producer started from another version than the
      recorded one. Unmanaged: nothing produced the current version, and the path has no receipts in scope or some
      valid one. */
  lemma OtherVerdictsExactly(o: Observation, receipts: seq<Receipt>, opts: Options)
    ensures var v := Classify(o, receipts, opts);
            && (v.status == Exempt <==> NormalizePath(o.path).Some? && opts.exempt(NormalizePath(o.path).value))
            && (v.status == StaleLineage <==>
                  && Assessable(o, opts) && v.receipt.Some? && v.receipt.value in receipts
                  && Produces(v.receipt.value, NormalizePath(o.path).value, o.current)
                  && InScope(v.receipt.value, o) && IsValid(v.receipt.value, opts)
                  && var input := FindVersion(v.receipt.value.inputVersions, NormalizePath(o.path).value);
                     Usable(input) && o.previous.Some? && !SameVersion(input, o.previous))
            && (v.status == Unmanaged <==>
                  && Assessable(o, opts)
                  && var path := NormalizePath(o.path).value;
                     && (forall r :: r in receipts && InScope(r, o) && IsValid(r, opts) ==>
                        !Produces(r, path, o.current))
                     && ((forall r :: r in receipts && Concerns(r, path) ==> !InScope(r, o)) ||
                         (exists r :: r in receipts && Concerns(r, path) && InScope(r, o) && IsValid(r, opts))))
  {
    hide NormalizePath, SameVersion, AtMost, Concerns, Produces, InScope, IsValid, LatestFirst, LatestProducer, TimeOf,
         Usable;
    if Assessable(o, opts) {
      var path := NormalizePath(o.path).value;
      var scoped, valid := ScopedOf(o, path, receipts), ValidOf(o, path, receipts, opts);
      ValidMembers(o, path, receipts, opts);
      assert scoped != [] ==> scoped[0] in scoped;
      assert valid != [] ==> valid[0] in valid;
      ProducersConcern(receipts, path, o.current);
      LatestProducerMeans(valid, path, o.current, opts);
    }
  }

  lemma ValidMembers(o: Observation, path: Text, receipts: seq<Receipt>, opts: Options)
    ensures forall r :: r in ScopedOf(o, path, receipts) <==> r in receipts && Concerns(r, path) && InScope(r, o)
    ensures forall r :: r in ValidOf(o, path, receipts, opts) <==>
                        r in receipts && Concerns(r, path) && InScope(r, o) && IsValid(r, opts)
  {
    hide Concerns;
  }

  lemma ProducersConcern(rs: seq<Receipt>, path: Text, current: Option<Version>)
    ensures forall r :: r in rs && Produces(r, path, current) ==> Concerns(r, path)
  {
    hide SameVersion, AtPath;
  }

  lemma LatestProducerMeans(valid: seq<Receipt>, path: Text, current: Option<Version>, opts: Options)
    ensures var m := LatestProducer(valid, path, current, opts);
            && (m.None? <==> forall r :: r in valid ==> !Produces(r, path, current))
            && (m.Some? ==> m.value in valid && Produces(m.value, path, current))
            && (m.Some? ==> forall r :: r in valid && Produces(r, path, current) ==>
               AtMost(TimeOf(opts)(r), TimeOf(opts)(m.value)))
  {
    hide Produces, AtMost, LatestFirst, TimeOf;
    var ordered := LatestFirst(valid, TimeOf(opts));
    LatestFirstMeans(valid, TimeOf(opts));
    var test := (r: Receipt) => Produces(r, path, current);
    if Find(ordered, test).Some? { FindIsLatest(ordered, test, TimeOf(opts)); }
  }

  // ---------- Runs ----------

  datatype Key = Key(projectId: nat, worktreeId: nat, path: Text)

  /** An observation as it was made: what was recorded before, what was seen, the receipts then registered, the
      verdict. */
  datatype Record = Record(key: Key, observation: Observation, receipts: seq<Receipt>, verdict: Verdict)

  datatype State = State(previous: map<Key, Option<Version>>, receipts: seq<Receipt>, history: seq<Record>)

  datatype Op =
    | RegisterReceipt(receipt: Receipt)
    | Observe(projectId: nat, worktreeId: nat, path: Text, current: Option<Version>)

  function CanonicalPath(path: Text): Text { if NormalizePath(path).Some? then NormalizePath(path).value else path }

  function ObservationOf(s: State, op: Op): Observation
    requires op.Observe?
  {
    var path := CanonicalPath(op.path);
    var key := Key(op.projectId, op.worktreeId, path);
    var previous := if key in s.previous then s.previous[key] else None;
    Observation(op.projectId, op.worktreeId, path, previous, op.current, !SameVersion(previous, op.current))
  }

  function Next(s: State, op: Op, opts: Options): State {
    if op.RegisterReceipt? then s.(receipts := SortBy(s.receipts + [op.receipt], TimeOf(opts)))
    else
      var o := ObservationOf(s, op);
      var key := Key(op.projectId, op.worktreeId, o.path);
      State(s.previous[key := op.current], s.receipts,
            s.history + [Record(key, o, s.receipts, Classify(o, s.receipts, opts))])
  }

  function Run(ops: seq<Op>, opts: Options): State {
    if ops == [] then State(map[], [], []) else Next(Run(ops[..|ops| - 1], opts), ops[|ops| - 1], opts)
  }

  /** What the last observation under a key saw. */
  function LastSeen(history: seq<Record>, key: Key): Option<Version> {
    if history == [] then None
    else
      var last := history[|history| - 1];
      if last.key == key then last.observation.current else LastSeen(history[..|history| - 1], key)
  }

  /** Each record was judged against what the record before it under the same key had seen. */
  ghost predicate Recorded(h: seq<Record>, i: nat, opts: Options)
    requires i < |h|
  {
    var o := h[i].observation;
    && h[i].verdict == Classify(o, h[i].receipts, opts)
    && o.previous == LastSeen(h[..i], h[i].key)
    && o.changed == !SameVersion(o.previous, o.current)
    && h[i].key == Key(o.projectId, o.worktreeId, o.path)
  }

  ghost predicate Inv(s: State, registered: set<Receipt>, opts: Options) {
    && (forall key :: (if key in s.previous then s.previous[key] else None) == LastSeen(s.history, key))
    && (forall r :: r in s.receipts ==> r in registered)
    && (forall i: nat :: i < |s.history| ==> Recorded(s.history, i, opts) && forall r :: r in s.history[i].receipts ==>
       r in registered)
  }

  function Registered(ops: seq<Op>): set<Receipt> { set op | op in ops && op.RegisterReceipt? :: op.receipt }

  lemma RegisterKeepsInv(s: State, r: Receipt, registered: set<Receipt>, opts: Options)
    requires Inv(s, registered, opts)
    ensures Inv(Next(s, RegisterReceipt(r), opts), registered + {r}, opts)
  {
    hide Recorded, LastSeen, TimeOf;
    SortMembers(s.receipts + [r], TimeOf(opts));
  }

  lemma ObserveKeepsInv(s: State, op: Op, registered: set<Receipt>, opts: Options)
    requires Inv(s, registered, opts) && op.Observe?
    ensures Inv(Next(s, op, opts), registered, opts)
  {
    hide Classify, SameVersion, NormalizePath;
    var t := Next(s, op, opts);
    assert t.history[..|s.history|] == s.history;
    forall i: nat | i < |t.history|
      ensures Recorded(t.history, i, opts) && forall r :: r in t.history[i].receipts ==> r in registered
    {
      if i < |s.history| {
        assert Recorded(s.history, i, opts);
        assert t.history[..i] == s.history[..i];
      }
    }
  }

  lemma {:induction false} RunKeepsInv(ops: seq<Op>, opts: Options)
    ensures Inv(Run(ops, opts), Registered(ops), opts)
  {
    hide Inv, Next, Registered;
    if ops == [] {
      StartInv(opts);
    } else {
      var init, op := ops[..|ops| - 1], ops[|ops| - 1];
      RunKeepsInv(init, opts);
      RegisteredStep(init, op);
      assert ops == init + [op];
      if op.RegisterReceipt? {
        RegisterKeepsInv(Run(init, opts), op.receipt, Registered(init), opts);
      } else {
        assert Registered(init) + {} == Registered(init);
        ObserveKeepsInv(Run(init, opts), op, Registered(init), opts);
      }
    }
  }

  lemma StartInv(opts: Options)
    ensures Inv(State(map[], [], []), Registered([]), opts)
  {
  }

  lemma RegisteredStep(ops: seq<Op>, op: Op)
    ensures Registered(ops + [op]) == Registered(ops) + (if op.RegisterReceipt? then {op.receipt} else {})
  {
    assert forall x :: x in ops + [op] <==> x in ops || x == op;
  }

  /** The last record under a key before the i-th. */
  ghost predicate Precedes(h: seq<Record>, j: nat, i: nat) {
    j < i < |h| && h[j].key == h[i].key && forall k :: j < k < i ==> h[k].key != h[i].key
  }

  lemma {:induction false} LastSeenIs(h: seq<Record>, key: Key, j: nat)
    requires j < |h| && h[j].key == key && forall k :: j < k < |h| ==> h[k].key != key
    ensures LastSeen(h, key) == h[j].observation.current
    decreases |h|
  {
    if j < |h| - 1 { LastSeenIs(h[..|h| - 1], key, j); }
  }

  /** In every run, a managed verdict rests on a registered receipt: verified, applied, of the same project and
      worktree, with the observed version among its outputs and, when something was observed there before,
      with that version as its input. */
  lemma ManagedRestsOnReceipt(ops: seq<Op>, opts: Options, i: nat)
    requires var h := Run(ops, opts).history; i < |h| && h[i].verdict.status == Managed
    ensures var x := Run(ops, opts).history[i];
            && x.verdict.receipt.Some? && x.verdict.receipt.value in Registered(ops)
            && NormalizePath(x.observation.path).Some?
            && Explains(x.verdict.receipt.value, x.observation, NormalizePath(x.observation.path).value, opts)
  {
    hide Explains, Classify, NormalizePath, Registered;
    RunKeepsInv(ops, opts);
    var h := Run(ops, opts).history;
    assert Recorded(h, i, opts);
    ManagedExactly(h[i].observation, h[i].receipts, opts);
  }

  /** Consecutive managed verdicts on a path link up: the later receipt starts from the version the earlier one
      produced. */
  lemma ManagedVerdictsChain(ops: seq<Op>, opts: Options, j: nat, i: nat)
    requires var h := Run(ops, opts).history;
             Precedes(h, j, i) && h[j].verdict.status == Managed && h[i].verdict.status == Managed
    ensures var h := Run(ops, opts).history;
            var path := CanonicalPath(h[i].observation.path);
            && h[j].verdict.receipt.Some? && h[i].verdict.receipt.Some?
            && exists output :: output in h[j].verdict.receipt.value.outputs && AtPath(output, path) &&
                 SameVersion(FindVersion(h[i].verdict.receipt.value.inputVersions, path), Some(output))
  {
    hide SameVersion, NormalizePath, Classify;
    var h := Run(ops, opts).history;
    ManagedRestsOnReceipt(ops, opts, j);
    ManagedRestsOnReceipt(ops, opts, i);
    RunKeepsInv(ops, opts);
    assert Recorded(h, i, opts) && Recorded(h, j, opts);
    LastSeenIs(h[..i], h[i].key, j);
    var path := CanonicalPath(h[i].observation.path);
    var seen := h[j].observation.current;
    assert h[i].observation.previous == seen;
    var r := h[j].verdict.receipt.value;
    assert Produces(r, path, seen);
    var output :| output in r.outputs && AtPath(output, path) && SameVersion(Some(output), seen);
    var input := FindVersion(h[i].verdict.receipt.value.inputVersions, path);
    SameIsPresent(Some(output), seen);
    SameVersionTransitive(Some(output), seen, Some(output));
    SameVersionTransitive(input, seen, Some(output));
  }

  lemma SameIsPresent(a: Option<Version>, b: Option<Version>)
    requires SameVersion(a, b)
    ensures a.Some? && b.Some? && SameVersion(b, a)
  {
    hide NormalizePath;
  }

  /** Seeing the same version again is never a managed change. */
  lemma UnchangedIsNotManaged(ops: seq<Op>, opts: Options, i: nat)
    requires var h := Run(ops, opts).history;
             i < |h| && SameVersion(h[i].observation.previous, h[i].observation.current)
    ensures Run(ops, opts).history[i].verdict.status != Managed
  {
    hide SameVersion, NormalizePath;
    RunKeepsInv(ops, opts);
    assert Recorded(Run(ops, opts).history, i, opts);
  }

  /** Normalising again changes nothing exactly when the path did not start with "./" twice. */
  lemma NormalizeAgain(value: Text)
    requires NormalizePath(value).Some?
    ensures var r := NormalizePath(value).value;
            && (NormalizePath(r) == Some(r) <==> !([DOT, SLASH] <= r))
            && (NormalizePath(r) == Some(r) <==> !([DOT, SLASH, DOT, SLASH] <= ForwardSlashes(value)))
  {
    var slashed, r := ForwardSlashes(value), NormalizePath(value).value;
    assert ForwardSlashes(r) == r;
    if [DOT, SLASH] <= slashed {
      assert slashed == [DOT, SLASH] + r;
    }
    if [DOT, SLASH] <= r { assert |r[2..]| < |r|; }
    if [DOT, SLASH, DOT, SLASH] <= slashed { assert slashed[2..4] == [DOT, SLASH]; }
    if [DOT, SLASH] <= slashed && [DOT, SLASH] <= r { assert slashed[..4] == [DOT, SLASH, DOT, SLASH]; }
  }

  /** The key of an observation is its path normalised once, the verdict reports it normalised twice. */
  lemma KeyAndReportedPath(o: Op, s: State, opts: Options)
    requires o.Observe? && NormalizePath(o.path).Some?
    ensures var x := Next(s, o, opts).history[|s.history|];
            x.verdict.path == x.key.path <==>
              !([DOT, SLASH, DOT, SLASH] <= ForwardSlashes(o.path)) || NormalizePath(x.key.path).None?
  {
    NormalizeAgain(o.path);
    ReportedPath(ObservationOf(s, o), s.receipts, opts);
    hide Classify, NormalizePath;
  }

  lemma ReportedPath(o: Observation, receipts: seq<Receipt>, opts: Options)
    ensures Classify(o, receipts, opts).path == CanonicalPath(o.path)
  {
    hide NormalizePath, LatestFirst, LatestProducer, Usable, SameVersion;
  }

  /** Three spellings: one leading "./" is taken off, not all. */
  lemma NormalizeIsNotIdempotent()
    ensures NormalizePath([DOT, SLASH, DOT, SLASH, 97]) == Some([DOT, SLASH, 97])
    ensures NormalizePath([DOT, SLASH, 97]) == Some([97]) && NormalizePath([97]) == Some([97])
  {
    var a: Text := [DOT, SLASH, DOT, SLASH, 97];
    var b: Text := [DOT, SLASH, 97];
    var c: Text := [97];
    assert ForwardSlashes(a) == a && a[2..] == b;
    assert ForwardSlashes(b) == b && b[2..] == c && ForwardSlashes(c) == c;
    assert c[1..] == [];
    assert Segments([]) == [[]];
    assert Segments(c) == [[97] + []] + [];
    assert b[1..] == [SLASH, 97] && b[1..][1..] == c;
    assert Segments(b[1..]) == [[]] + Segments(c);
    assert Segments(b) == [[DOT] + []] + Segments(c);
  }

  /** So the chain is one of keys, not of reported paths: two spellings of a path are recorded under two keys and
      reported as one path, and the second observation does not see the first. */
  lemma TwoKeysOnePath(project: nat, worktree: nat, first: Option<Version>, second: Option<Version>, opts: Options)
    ensures var h := Run([Observe(project, worktree, [DOT, SLASH, DOT, SLASH, 97], first),
            Observe(project, worktree, [97], second)],
                         opts).history;
            && |h| == 2 && h[0].key != h[1].key && h[0].verdict.path == h[1].verdict.path == [97]
            && h[1].observation.previous == None
  {
    var one, two := Observe(project, worktree, [DOT, SLASH, DOT, SLASH, 97], first),
        Observe(project, worktree, [97], second);
    NormalizeIsNotIdempotent();
    assert [one, two][..1] == [one] && [one][..0] == [];
    hide Classify, NormalizePath, SameVersion, Next;
    var s := Run([one], opts);
    assert Run([one][..0], opts) == State(map[], [], []);
    assert s == Next(State(map[], [], []), one, opts);
    ObserveTwice(one, two, s, opts);
  }

  lemma ObserveTwice(one: Op, two: Op, s: State, opts: Options)
    requires one.Observe? && two.Observe? && s == Next(State(map[], [], []), one, opts)
    requires CanonicalPath(one.path) != CanonicalPath(two.path)
    ensures var h := Next(s, two, opts).history;
            && |h| == 2 && h[0].key.path == CanonicalPath(one.path) && h[1].key.path == CanonicalPath(two.path)
            && h[0].verdict.path == CanonicalPath(h[0].key.path) && h[1].verdict.path == CanonicalPath(h[1].key.path)
            && h[1].observation.previous == None
  {
    hide Classify, NormalizePath, SameVersion;
    ReportedPath(ObservationOf(State(map[], [], []), one), [], opts);
    ReportedPath(ObservationOf(s, two), s.receipts, opts);
  }

  // ---------- The reconciler ----------

  class ProvenanceReconciler {
    const options: Options
    var previous: map<Key, Option<Version>>
    var latest: map<Key, Verdict>
    var receipts: seq<Receipt>
    ghost var history: seq<Record>

    ghost function Model(): State
      reads this
    {
      State(previous, receipts, history)
    }

    constructor (options: Options)
      ensures Model() == State(map[], [], []) && this.options == options && latest == map[]
    {
      this.options := options;
      previous, latest, receipts, history := map[], map[], [], [];
    }

    method Register(receipt: Receipt)
      modifies this`receipts
      ensures Model() == Next(old(Model()), Op.RegisterReceipt(receipt), options)
      ensures Sorted(receipts, TimeOf(options)) && multiset(receipts) == multiset(old(receipts)) + multiset{receipt}
    {
      SortIsSorted(receipts + [receipt], TimeOf(options));
      SortContents(receipts + [receipt], TimeOf(options));
      receipts := SortBy(receipts + [receipt], TimeOf(options));
    }

    method Judge(projectId: nat, worktreeId: nat, path: Text, current: Option<Version>) returns (verdict: Verdict)
      modifies this
      ensures Model() == Next(old(Model()), Op.Observe(projectId, worktreeId, path, current), options)
      ensures verdict == history[|history| - 1].verdict
      ensures latest == old(latest)[Key(projectId, worktreeId, CanonicalPath(path)) := verdict]
    {
      var canonical := if NormalizePath(path).Some? then NormalizePath(path).value else path;
      var key := Key(projectId, worktreeId, canonical);
      var before := if key in previous then previous[key] else None;
      var observation := Observation(projectId, worktreeId, canonical, before, current, !SameVersion(before, current));
      verdict := Classify(observation, receipts, options);
      history := history + [Record(key, observation, receipts, verdict)];
      previous := previous[key := current];
      latest := latest[key := verdict];
    }
  }
}
