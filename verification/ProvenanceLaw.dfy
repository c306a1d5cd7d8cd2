/** Why each observed change gets its verdict, told by the observation and the receipts alone. */
module ProvenanceLaw {
  import opened Text
  import opened Wrappers
  import opened Sorting
  import opened Provenance

  /** Something is known of the version: that there is no file, or what the file holds. */
  predicate Known(v: Option<Version>) { v.Some? && (v.value.absent || v.value.fingerprint.Some?) }

  /** Both are known, at one path: that there is no file, or one and the same content. */
  predicate Alike(a: Version, b: Version) {
    && NormalizePath(a.path) == NormalizePath(b.path) && a.absent == b.absent
    && (a.absent || (a.fingerprint.Some? && b.fingerprint.Some? && a.fingerprint.value == b.fingerprint.value))
  }

  predicate Lists(r: Receipt, path: Text) {
    exists i :: 0 <= i < |r.outputs| && NormalizePath(r.outputs[i].path) == Some(path)
  }

  /** A receipt for the path, of the observation's own project and worktree. */
  predicate Ours(r: Receipt, o: Observation, path: Text) {
    r.projectId == o.projectId && r.worktreeId == o.worktreeId && Lists(r, path)
  }

  /** It says so itself that the change was applied and verified, and its digest bears it out. */
  predicate Trusted(r: Receipt, o: Observation, path: Text, opts: Options) {
    Ours(r, o, path) && r.status == Applied && r.verified && opts.verify(r)
  }

  /** It left at the path what is there now. */
  predicate Left(r: Receipt, o: Observation, path: Text) {
    o.current.Some? &&
    exists i :: 0 <= i < |r.outputs| && NormalizePath(r.outputs[i].path) == Some(path) &&
                Alike(r.outputs[i], o.current.value)
  }

  /** Of the trusted receipts that left what is there now, none is later. */
  ghost predicate LatestThatLeft(r: Receipt, o: Observation, path: Text, receipts: seq<Receipt>, opts: Options) {
    && r in receipts && Trusted(r, o, path, opts) && Left(r, o, path)
    && forall x :: x in receipts && Trusted(x, o, path, opts) && Left(x, o, path) ==>
         AtMost(opts.collate(x.completedAt), opts.collate(r.completedAt))
  }

  /** The first version of the path that the receipt started from. */
  predicate StartedFrom(r: Receipt, path: Text, v: Version) {
    exists i :: 0 <= i < |r.inputVersions| && r.inputVersions[i] == v && NormalizePath(v.path) == Some(path) &&
                forall j :: 0 <= j < i ==> NormalizePath(r.inputVersions[j].path) != Some(path)
  }

  ghost predicate StartKnown(r: Receipt, path: Text) { exists v :: StartedFrom(r, path, v) && Known(Some(v)) }

  /** It started from what was recorded before, if anything was. */
  ghost predicate StartMatches(r: Receipt, o: Observation, path: Text) {
    o.previous.Some? ==> exists v :: StartedFrom(r, path, v) && Alike(v, o.previous.value)
  }

  /** The verdict that goes with a reason. */
  function StatusFor(reason: Reason): Status {
    match reason
    case VerifiedReceiptOutput => Managed
    case InputLineageMismatch => StaleLineage
    case ConfiguredExemption => Exempt
    case ReceiptMissing => Unmanaged
    case ReceiptScopeMismatch => Unmanaged
    case ReceiptOutputMismatch => Unmanaged
    case ReceiptInvalid => Unknown
    case InsufficientFingerprint => Unknown
    case UnchangedFingerprint => Unknown
    case InvalidPath => Unknown
  }

  // ---------- The program's predicates ----------

  lemma AlikeMeans(a: Version, b: Option<Version>)
    ensures SameVersion(Some(a), b) <==> b.Some? && Alike(a, b.value)
  {
    hide NormalizePath;
  }

  lemma ListsMeans(r: Receipt, o: Observation, path: Text)
    ensures Concerns(r, path) <==> Lists(r, path)
    ensures Produces(r, path, o.current) <==> Left(r, o, path)
  {
    hide NormalizePath, SameVersion, Alike;
    forall v ensures SameVersion(Some(v), o.current) <==> o.current.Some? && Alike(v, o.current.value) {
      AlikeMeans(v, o.current);
    }
    if v :| v in r.outputs && AtPath(v, path) {
      var i :| 0 <= i < |r.outputs| && r.outputs[i] == v;
      assert NormalizePath(r.outputs[i].path) == Some(path);
    }
    if i :| 0 <= i < |r.outputs| && NormalizePath(r.outputs[i].path) == Some(path) {
      assert AtPath(r.outputs[i], path);
    }
  }

  lemma {:induction false} StartMeans(vs: seq<Version>, path: Text)
    ensures FindVersion(vs, path).Some? ==>
              exists i :: 0 <= i < |vs| && vs[i] == FindVersion(vs, path).value &&
                          NormalizePath(vs[i].path) == Some(path) &&
                          forall j :: 0 <= j < i ==> NormalizePath(vs[j].path) != Some(path)
  {
    hide NormalizePath;
    if vs != [] && !AtPath(vs[0], path) {
      StartMeans(vs[1..], path);
      if FindVersion(vs, path).Some? {
        var i :| 0 <= i < |vs[1..]| && vs[1..][i] == FindVersion(vs[1..], path).value &&
                 NormalizePath(vs[1..][i].path) == Some(path) &&
                 forall j :: 0 <= j < i ==> NormalizePath(vs[1..][j].path) != Some(path);
        assert vs[i + 1] == vs[1..][i] && forall j :: 0 < j < i + 1 ==> vs[j] == vs[1..][j - 1];
      }
    }
  }

  lemma StartIs(r: Receipt, path: Text, v: Version)
    ensures FindVersion(r.inputVersions, path) == Some(v) <==> StartedFrom(r, path, v)
  {
    hide NormalizePath;
    StartMeans(r.inputVersions, path);
    var f := FindVersion(r.inputVersions, path);
    if StartedFrom(r, path, v) {
      var i :| 0 <= i < |r.inputVersions| && r.inputVersions[i] == v && NormalizePath(v.path) == Some(path) &&
               forall j :: 0 <= j < i ==> NormalizePath(r.inputVersions[j].path) != Some(path);
      assert r.inputVersions[i] in r.inputVersions && AtPath(v, path);
    }
  }

  lemma StartsMean(r: Receipt, o: Observation, path: Text)
    ensures var input := FindVersion(r.inputVersions, path);
            && (Usable(input) <==> StartKnown(r, path))
            && (Usable(input) ==> (o.previous.None? || SameVersion(input, o.previous) <==> StartMatches(r, o, path)))
  {
    hide NormalizePath, SameVersion, Alike, StartedFrom, FindVersion;
    forall v ensures FindVersion(r.inputVersions, path) == Some(v) <==> StartedFrom(r, path, v) {
      StartIs(r, path, v);
    }
    forall v ensures SameVersion(Some(v), o.previous) <==> o.previous.Some? && Alike(v, o.previous.value) {
      AlikeMeans(v, o.previous);
    }
  }

  // ---------- Every reason ----------

  /** The change can be judged by receipts at all. */
  predicate Judged(o: Observation, path: Text, opts: Options) { !opts.exempt(path) && o.changed && Known(o.current) }

  ghost predicate SomeTrusted(o: Observation, path: Text, receipts: seq<Receipt>, opts: Options) {
    exists r :: r in receipts && Trusted(r, o, path, opts)
  }

  ghost predicate SomeLeft(o: Observation, path: Text, receipts: seq<Receipt>, opts: Options) {
    exists r :: r in receipts && Trusted(r, o, path, opts) && Left(r, o, path)
  }

  /** What a verdict without a receipt rests on. */
  ghost predicate Grounds(reason: Reason, o: Observation, path: Text, receipts: seq<Receipt>, opts: Options) {
    match reason
    case ConfiguredExemption => opts.exempt(path)
    case UnchangedFingerprint => !opts.exempt(path) && !o.changed
    case InsufficientFingerprint => !opts.exempt(path) && o.changed && !Known(o.current)
    case ReceiptMissing => Judged(o, path, opts) && forall r :: r in receipts ==> !Lists(r, path)
    case ReceiptScopeMismatch =>
      Judged(o, path, opts) && (exists r :: r in receipts && Lists(r, path)) &&
      forall r :: r in receipts ==> !Ours(r, o, path)
    case ReceiptInvalid =>
      Judged(o, path, opts) && (exists r :: r in receipts && Ours(r, o, path)) && !SomeTrusted(o, path, receipts, opts)
    case _ => false
  }

  /** What a verdict on a receipt rests on. */
  ghost predicate GroundsOn(
      reason: Reason, r: Receipt, o: Observation, path: Text, receipts: seq<Receipt>, opts: Options)
  {
    && Judged(o, path, opts)
    && match reason
       case ReceiptOutputMismatch =>
         && r in receipts && Trusted(r, o, path, opts) && !SomeLeft(o, path, receipts, opts)
         && forall x :: x in receipts && Trusted(x, o, path, opts) ==>
              AtMost(opts.collate(x.completedAt), opts.collate(r.completedAt))
       case InsufficientFingerprint => LatestThatLeft(r, o, path, receipts, opts) && !StartKnown(r, path)
       case InputLineageMismatch =>
         LatestThatLeft(r, o, path, receipts, opts) && StartKnown(r, path) && !StartMatches(r, o, path)
       case VerifiedReceiptOutput =>
         LatestThatLeft(r, o, path, receipts, opts) && StartKnown(r, path) && StartMatches(r, o, path)
       case _ => false
  }

  /** What every verdict rests on: the reason decides the status, and holds of the observation, the receipts, and the
      receipt that is named. */
  lemma VerdictRestsOn(o: Observation, receipts: seq<Receipt>, opts: Options)
    ensures var v := Classify(o, receipts, opts);
            && v.status == StatusFor(v.reason)
            && (NormalizePath(o.path).None? <==> v.reason == InvalidPath)
            && (v.reason == InvalidPath ==> v.path == o.path && v.receipt == None)
            && (v.reason != InvalidPath ==>
                  && NormalizePath(o.path) == Some(v.path)
                  && if v.receipt.None? then Grounds(v.reason, o, v.path, receipts, opts)
                     else GroundsOn(v.reason, v.receipt.value, o, v.path, receipts, opts))
  {
    var p := NormalizePath(o.path);
    if p.Some? && !opts.exempt(p.value) && o.changed && Usable(o.current) { JudgedVerdict(o, p.value, receipts, opts); }
  }

  lemma Members(o: Observation, path: Text, receipts: seq<Receipt>, opts: Options)
    ensures forall r :: r in AtSamePath(receipts, path) <==> r in receipts && Lists(r, path)
    ensures forall r :: r in ScopedOf(o, path, receipts) <==> r in receipts && Ours(r, o, path)
    ensures forall r :: r in ValidOf(o, path, receipts, opts) <==> r in receipts && Trusted(r, o, path, opts)
  {
    hide Lists, Concerns;
    forall r ensures Concerns(r, path) <==> Lists(r, path) { ListsMeans(r, o, path); }
  }

  /** The verdict on a change that can be judged, without the checks that come first. */
  lemma JudgedForm(o: Observation, path: Text, receipts: seq<Receipt>, opts: Options)
    requires NormalizePath(o.path) == Some(path) && Judged(o, path, opts)
    ensures var v, valid := Classify(o, receipts, opts), ValidOf(o, path, receipts, opts);
            && (valid == [] ==>
                  v == (if ScopedOf(o, path, receipts) != [] then Verdict(path, Unknown, ReceiptInvalid, None)
                        else if AtSamePath(receipts, path) != []
                          then Verdict(path, Unmanaged, ReceiptScopeMismatch, None)
                        else Verdict(path, Unmanaged, ReceiptMissing, None)))
            && (valid != [] ==> v == OnReceipt(o, path, valid, opts))
  {
    hide NormalizePath, ScopedOf, ValidOf, AtSamePath, OnReceipt;
  }

  lemma WithoutReceipt(o: Observation, path: Text, receipts: seq<Receipt>, opts: Options)
    requires Judged(o, path, opts) && ValidOf(o, path, receipts, opts) == []
    ensures Grounds(if ScopedOf(o, path, receipts) != [] then ReceiptInvalid
                    else if AtSamePath(receipts, path) != [] then ReceiptScopeMismatch
                    else ReceiptMissing, o, path, receipts, opts)
  {
    Members(o, path, receipts, opts);
    hide Lists, Ours, Trusted, ScopedOf, ValidOf, AtSamePath, Judged;
    assert forall r :: r !in ValidOf(o, path, receipts, opts);
    SomeMember(AtSamePath(receipts, path));
    SomeMember(ScopedOf(o, path, receipts));
  }

  lemma WithReceipt(o: Observation, path: Text, receipts: seq<Receipt>, opts: Options)
    requires Judged(o, path, opts) && ValidOf(o, path, receipts, opts) != []
    ensures var v := OnReceipt(o, path, ValidOf(o, path, receipts, opts), opts);
            v.receipt.Some? && GroundsOn(v.reason, v.receipt.value, o, path, receipts, opts) &&
            v.status == StatusFor(v.reason) && v.path == path
  {
    var valid := ValidOf(o, path, receipts, opts);
    Members(o, path, receipts, opts);
    LatestLeft(o, path, receipts, valid, opts);
    LatestOf(valid, opts);
    hide AtMost, Left, Trusted, StartKnown, StartMatches, Judged, ValidOf, FindVersion, LatestFirst, LatestProducer,
         SameVersion, Usable, SomeLeft, LatestThatLeft, AtSamePath, ScopedOf, Ours, Lists;
    var m := LatestProducer(valid, path, o.current, opts);
    if m.None? { NothingLeft(o, path, receipts, valid, opts); } else { SomethingLeft(o, path, receipts, valid, opts); }
  }

  lemma SomethingLeft(o: Observation, path: Text, receipts: seq<Receipt>, valid: seq<Receipt>, opts: Options)
    requires Judged(o, path, opts) && LatestProducer(valid, path, o.current, opts).Some?
    requires LatestThatLeft(LatestProducer(valid, path, o.current, opts).value, o, path, receipts, opts)
    ensures var v := OnReceipt(o, path, valid, opts);
            v.receipt.Some? && GroundsOn(v.reason, v.receipt.value, o, path, receipts, opts) &&
            v.status == StatusFor(v.reason) && v.path == path
  {
    hide LatestProducer, LatestThatLeft, StartKnown, StartMatches, Judged, Usable, FindVersion, SameVersion, SomeLeft,
         LatestFirst, Trusted, AtMost;
    StartsMean(LatestProducer(valid, path, o.current, opts).value, o, path);
  }

  lemma NothingLeft(o: Observation, path: Text, receipts: seq<Receipt>, valid: seq<Receipt>, opts: Options)
    requires valid != [] && Judged(o, path, opts) && !SomeLeft(o, path, receipts, opts)
    requires forall r :: r in valid <==> r in receipts && Trusted(r, o, path, opts)
    ensures GroundsOn(ReceiptOutputMismatch, LatestFirst(valid, TimeOf(opts))[0], o, path, receipts, opts)
  {
    LatestOf(valid, opts);
    hide AtMost, Trusted, Judged, LatestFirst, SomeLeft;
  }

  lemma JudgedVerdict(o: Observation, path: Text, receipts: seq<Receipt>, opts: Options)
    requires NormalizePath(o.path) == Some(path) && Judged(o, path, opts)
    ensures var v := Classify(o, receipts, opts);
            && v.status == StatusFor(v.reason) && v.path == path && v.reason != InvalidPath
            && if v.receipt.None? then Grounds(v.reason, o, path, receipts, opts)
               else GroundsOn(v.reason, v.receipt.value, o, path, receipts, opts)
  {
    JudgedForm(o, path, receipts, opts);
    hide Classify, NormalizePath, Judged, ValidOf, ScopedOf, AtSamePath, OnReceipt, Grounds;
    if ValidOf(o, path, receipts, opts) == [] { WithoutReceipt(o, path, receipts, opts); }
    else { WithReceipt(o, path, receipts, opts); }
  }

  lemma SomeMember<T>(xs: seq<T>)
    ensures xs != [] ==> exists x :: x in xs
  {
    if xs != [] { assert xs[0] in xs; }
  }

  /** The first of the ordered receipts is the latest. */
  lemma LatestOf(valid: seq<Receipt>, opts: Options)
    requires valid != []
    ensures var ordered := LatestFirst(valid, TimeOf(opts));
            && ordered != [] && ordered[0] in valid
            && forall x :: x in valid ==> AtMost(opts.collate(x.completedAt), opts.collate(ordered[0].completedAt))
  {
    hide AtMost, LatestFirst;
    LatestFirstMeans(valid, TimeOf(opts));
    var ordered := LatestFirst(valid, TimeOf(opts));
    assert valid[0] in ordered;
    forall x | x in valid ensures AtMost(opts.collate(x.completedAt), opts.collate(ordered[0].completedAt)) {
      var i :| 0 <= i < |ordered| && ordered[i] == x;
      if i == 0 { SameAtMost(opts.collate(x.completedAt)); }
      else { assert AtMost(TimeOf(opts)(ordered[i]), TimeOf(opts)(ordered[0])); }
    }
  }

  lemma SameAtMost(t: Text)
    ensures AtMost(t, t)
  {
  }

  lemma LatestLeft(o: Observation, path: Text, receipts: seq<Receipt>, valid: seq<Receipt>, opts: Options)
    requires forall r :: r in valid <==> r in receipts && Trusted(r, o, path, opts)
    ensures var m := LatestProducer(valid, path, o.current, opts);
            && (m.None? <==> !SomeLeft(o, path, receipts, opts))
            && (m.Some? ==> LatestThatLeft(m.value, o, path, receipts, opts))
  {
    LatestProducerMeans(valid, path, o.current, opts);
    hide AtMost, Left, Trusted, Produces, LatestProducer;
    forall r ensures Produces(r, path, o.current) <==> Left(r, o, path) { ListsMeans(r, o, path); }
    assert forall r :: TimeOf(opts)(r) == opts.collate(r.completedAt);
  }
}
