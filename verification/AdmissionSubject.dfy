/** The canonical admission subject of a set of changes, and its digest. */
module AdmissionSubject {
  import opened Text
  import opened Wrappers
  import opened Sorting
  import opened Json
  import opened Receipt

  const SCHEMA_VERSION := Ascii("my-pi/admission-subject/v1")
  const MAX_PATH := 4_096
  const MAX_REPOSITORY_IDENTITY := 2_048

  datatype ChangeStatus = Added | Modified | Deleted | Renamed | Copied | TypeChanged

  datatype ChangeInput = ChangeInput(
    status: ChangeStatus, path: Text, previousPath: Option<Text>, mode: Text, blobOid: Option<Text>, absent: bool)

  datatype ChangeResult = Blob(oid: Text) | Absent

  datatype CanonicalChange = CanonicalChange(
    status: ChangeStatus, path: Text, previousPath: Option<Text>, mode: Text, result: ChangeResult)

  datatype SubjectInput = SubjectInput(
    repositoryIdentity: Text, baseCommit: Text, headCommit: Option<Text>, changes: seq<ChangeInput>)

  datatype Subject = Subject(
    repositoryIdentity: Text, baseCommit: Text, headCommit: Option<Text>, changes: seq<CanonicalChange>,
    canonical: Text, subjectDigest: Text)

  /** What the program takes from its platform: Unicode normalisation, the English collation given by
      its sort keys, and the digest. */
  datatype Platform = Platform(nfc: Text -> Text, collate: Text -> Text, hash: Hash)

  /** Rejected stands for a thrown error, Dropped for a change under the provenance directory. */
  datatype Outcome = RejectedChange | Dropped | Kept(change: CanonicalChange)

  // ---------- One change ----------

  function StatusName(s: ChangeStatus): Text {
    match s
    case Added => Ascii("added")
    case Modified => Ascii("modified")
    case Deleted => Ascii("deleted")
    case Renamed => Ascii("renamed")
    case Copied => Ascii("copied")
    case TypeChanged => Ascii("type_changed")
  }

  predicate IsHexUnit(c: CodeUnit) { 48 <= c <= 57 || 65 <= c <= 70 || 97 <= c <= 102 }

  predicate IsObjectId(s: Text) { 40 <= |s| <= 64 && forall i :: 0 <= i < |s| ==> IsHexUnit(s[i]) }

  function LowerUnit(c: CodeUnit): CodeUnit { if 65 <= c <= 90 then c + 32 else c }

  function Lower(s: Text): (r: Text)
    ensures |r| == |s| && forall i :: 0 <= i < |s| ==> r[i] == LowerUnit(s[i])
  {
    seq(|s|, i requires 0 <= i < |s| => LowerUnit(s[i]))
  }

  predicate IsMode(s: Text) { |s| == 6 && forall i :: 0 <= i < |s| ==> 48 <= s[i] <= 55 }

  predicate CleanSegment(s: Text) { s != [] && s != [DOT] && s != [DOT, DOT] }

  function NormalizeGitPath(value: Text, nfc: Text -> Text): Option<Text> {
    if value == [] || |value| > MAX_PATH then None
    else
      var normalized := ForwardSlashes(nfc(value));
      if (normalized != [] && normalized[0] == SLASH) || 0 in normalized then None
      else if exists s :: s in Segments(normalized) && !CleanSegment(s) then None
      else Some(normalized)
  }

  const PROVENANCE := Ascii(".my-pi/provenance")

  predicate IsProvenancePath(path: Text) { path == PROVENANCE || PROVENANCE + [SLASH] <= path }

  function NormalizeChange(input: ChangeInput, nfc: Text -> Text): Outcome {
    var path := NormalizeGitPath(input.path, nfc);
    var previousPath := if input.previousPath.None? then Some(None) else
                          var p := NormalizeGitPath(input.previousPath.value, nfc);
                          if p.None? then None else Some(p);
    if path.None? || previousPath.None? then RejectedChange
    else if IsProvenancePath(path.value) || (previousPath.value.Some? && IsProvenancePath(previousPath.value.value))
      then Dropped
    else if !IsMode(input.mode) then RejectedChange
    else if (input.status == Renamed) != previousPath.value.Some? then RejectedChange
    else if input.absent then
      if input.blobOid.Some? then RejectedChange
      else Kept(CanonicalChange(input.status, path.value, previousPath.value, input.mode, Absent))
    else if input.blobOid.None? || !IsObjectId(input.blobOid.value) then RejectedChange
    else Kept(CanonicalChange(input.status, path.value, previousPath.value, input.mode,
      Blob(Lower(input.blobOid.value))))
  }

  /** A path that is accepted: relative, forward slashes only, no NUL, no empty, dot or dot-dot part. */
  predicate CleanPath(p: Text) {
    && BACKSLASH !in p && 0 !in p && (p != [] ==> p[0] != SLASH)
    && forall s :: s in Segments(p) ==> CleanSegment(s)
  }

  predicate IsLowerHex(s: Text) { forall i :: 0 <= i < |s| ==> 48 <= s[i] <= 57 || 97 <= s[i] <= 102 }

  /** What a change of a subject can be relied on for. */
  predicate CleanChange(c: CanonicalChange) {
    && CleanPath(c.path) && !IsProvenancePath(c.path) && IsMode(c.mode)
    && (c.previousPath.Some? <==> c.status == Renamed)
    && (c.previousPath.Some? ==> CleanPath(c.previousPath.value) && !IsProvenancePath(c.previousPath.value))
    && (c.result.Blob? ==> 40 <= |c.result.oid| <= 64 && IsLowerHex(c.result.oid))
  }

  lemma KeptIsClean(input: ChangeInput, nfc: Text -> Text)
    ensures NormalizeChange(input, nfc).Kept? ==>
              var c := NormalizeChange(input, nfc).change; CleanChange(c) && (c.result.Absent? <==> input.absent)
  {
    hide Segments, CleanSegment;
  }

  // ---------- Ordering and encoding ----------

  function ResultJson(r: ChangeResult): Json {
    if r.Blob? then Obj(TextMember(Ascii("blobOid"), r.oid)) else Obj([Entry(Ascii("absent"), Bool(true))])
  }

  function SortKey(c: CanonicalChange): Text {
    c.path + [0] + (if c.previousPath.Some? then c.previousPath.value else []) + [0] + StatusName(c.status) + [0]
    + c.mode + [0] + StableJson(ResultJson(c.result))
  }

  function CollationKey(p: Platform): CanonicalChange -> Text { c => p.collate(SortKey(c)) }

  function PathOf(c: CanonicalChange): Text { c.path }

  function IsKept(o: Outcome): bool { o.Kept? }

  function ChangeOf(o: Outcome): CanonicalChange {
    if o.Kept? then o.change else CanonicalChange(Added, [], None, [], Absent)
  }

  function Outcomes(cs: seq<ChangeInput>, p: Platform): seq<Outcome> {
    Mapped(cs, c => NormalizeChange(c, p.nfc))
  }

  /** The canonical changes, in the order of the input; the placeholder of ChangeOf is never among them. */
  function KeptChanges(cs: seq<ChangeInput>, p: Platform): seq<CanonicalChange> {
    Mapped(Filter(Outcomes(cs, p), IsKept), ChangeOf)
  }

  function ChangeJson(c: CanonicalChange): Json {
    Obj(TextMember(Ascii("status"), StatusName(c.status))
        + TextMember(Ascii("path"), c.path)
        + OptionalMember(Ascii("previousPath"), c.previousPath)
        + TextMember(Ascii("mode"), c.mode)
        + [Entry(Ascii("result"), ResultJson(c.result))])
  }

  function Payload(
      repositoryIdentity: Text, baseCommit: Text, headCommit: Option<Text>, changes: seq<CanonicalChange>): Json
  {
    Obj(TextMember(Ascii("schemaVersion"), SCHEMA_VERSION)
        + TextMember(Ascii("repositoryIdentity"), repositoryIdentity)
        + TextMember(Ascii("baseCommit"), baseCommit)
        + OptionalMember(Ascii("headCommit"), headCommit)
        + [Entry(Ascii("changes"), Arr(Mapped(changes, ChangeJson)))])
  }

  function SubjectOf(
      repositoryIdentity: Text, baseCommit: Text, headCommit: Option<Text>, changes: seq<CanonicalChange>,
      hash: Hash): Subject
  {
    var canonical := StableJson(Payload(repositoryIdentity, baseCommit, headCommit, changes));
    Subject(repositoryIdentity, baseCommit, headCommit, changes, canonical, hash(canonical))
  }

  predicate ValidIdentifiers(input: SubjectInput) {
    && 1 <= |input.repositoryIdentity| <= MAX_REPOSITORY_IDENTITY
    && IsObjectId(input.baseCommit)
    && (input.headCommit.Some? ==> IsObjectId(input.headCommit.value))
  }

  /** The canonical subject; None when the program throws. */
  function Canonicalize(input: SubjectInput, p: Platform): Option<Subject> {
    if !ValidIdentifiers(input) || RejectedChange in Outcomes(input.changes, p) then None
    else
      var changes := SortBy(KeptChanges(input.changes, p), CollationKey(p));
      if !UniqueKeys(changes, PathOf) then None
      else Some(SubjectOf(input.repositoryIdentity, Lower(input.baseCommit),
                          if input.headCommit.Some? then Some(Lower(input.headCommit.value))
                            else None, changes, p.hash))
  }

  method CanonicalizeAdmissionSubject(input: SubjectInput, p: Platform) returns (r: Option<Subject>)
    ensures r == Canonicalize(input, p)
  {
    hide NormalizeChange, SortBy, StableJson, CollationKey;
    if !ValidIdentifiers(input) { return None; }
    var outcomes := Outcomes(input.changes, p);
    if RejectedChange in outcomes { return None; }
    var changes := SortBy(Mapped(Filter(outcomes, IsKept), ChangeOf), CollationKey(p));
    var seen: set<Text> := {};
    for i := 0 to |changes|
      invariant seen == set j | 0 <= j < i :: changes[j].path
      invariant forall j, k :: 0 <= j < k < i ==> changes[j].path != changes[k].path
    {
      if changes[i].path in seen { return None; }
      seen := seen + {changes[i].path};
    }
    assert UniqueKeys(changes, PathOf);
    r := Some(SubjectOf(input.repositoryIdentity, Lower(input.baseCommit),
                        if input.headCommit.Some? then Some(Lower(input.headCommit.value)) else None, changes, p.hash));
  }

  // ---------- Order of the changes ----------

  lemma KeptMultiset(a: seq<ChangeInput>, b: seq<ChangeInput>, p: Platform)
    requires multiset(a) == multiset(b)
    ensures RejectedChange in Outcomes(a, p) <==> RejectedChange in Outcomes(b, p)
    ensures multiset(KeptChanges(a, p)) == multiset(KeptChanges(b, p))
  {
    hide NormalizeChange, Filter, Mapped;
    MappedMultiset(a, b, c => NormalizeChange(c, p.nfc));
    MultisetMembers(Outcomes(a, p), Outcomes(b, p));
    FilterMultiset(Outcomes(a, p), Outcomes(b, p), IsKept);
    MappedMultiset(Filter(Outcomes(a, p), IsKept), Filter(Outcomes(b, p), IsKept), ChangeOf);
  }

  /** No two of the changes collate as equals. */
  ghost predicate Separated(cs: seq<CanonicalChange>, p: Platform) { UniqueKeys(cs, CollationKey(p)) }

  /** Listing the changes in another order gives the same subject. */
  ghost predicate OrderFree(input: SubjectInput, p: Platform) {
    forall cs | multiset(cs) == multiset(input.changes) ::
        Canonicalize(input.(changes := cs), p) == Canonicalize(input, p)
  }

  /** The elements with a given key. */
  function WithKey<T(!new)>(xs: seq<T>, key: T -> Text, k: Text): (r: seq<T>) { Filter(xs, x => key(x) == k) }

  lemma {:induction false} InsertStable<T(!new)>(x: T, xs: seq<T>, key: T -> Text, k: Text)
    ensures WithKey(Insert(x, xs, key), key, k) == (if key(x) == k then [x] else []) + WithKey(xs, key, k)
  {
    if !(xs == [] || AtMost(key(x), key(xs[0]))) {
      InsertStable(x, xs[1..], key, k);
      assert Insert(x, xs, key)[1..] == Insert(x, xs[1..], key);
    } else {
      assert ([x] + xs)[1..] == xs;
    }
  }

  /** Elements that compare equal stay in the order of the input. */
  lemma {:induction false} SortStable<T(!new)>(xs: seq<T>, key: T -> Text, k: Text)
    ensures WithKey(SortBy(xs, key), key, k) == WithKey(xs, key, k)
  {
    if xs != [] {
      SortStable(xs[1..], key, k);
      InsertStable(xs[0], SortBy(xs[1..], key), key, k);
    }
  }

  lemma SortedPathsUnique(a: seq<CanonicalChange>, b: seq<CanonicalChange>, p: Platform)
    requires multiset(a) == multiset(b)
    ensures UniqueKeys(SortBy(a, CollationKey(p)), PathOf) <==> UniqueKeys(SortBy(b, CollationKey(p)), PathOf)
  {
    SortContents(a, CollationKey(p));
    SortContents(b, CollationKey(p));
    var x, y := SortBy(a, CollationKey(p)), SortBy(b, CollationKey(p));
    if UniqueKeys(x, PathOf) { UniqueOfMultiset(x, y, PathOf); }
    if UniqueKeys(y, PathOf) { UniqueOfMultiset(y, x, PathOf); }
  }

  lemma RejectionIsOrderFree(input: SubjectInput, p: Platform, cs: seq<ChangeInput>)
    requires multiset(cs) == multiset(input.changes)
    ensures Canonicalize(input.(changes := cs), p).Some? <==> Canonicalize(input, p).Some?
  {
    hide SortBy, Outcomes, KeptChanges, CollationKey, SubjectOf, UniqueKeys;
    KeptMultiset(cs, input.changes, p);
    SortedPathsUnique(KeptChanges(cs, p), KeptChanges(input.changes, p), p);
  }

  lemma SeparatedIsOrderFree(input: SubjectInput, p: Platform, cs: seq<ChangeInput>)
    requires multiset(cs) == multiset(input.changes) && Separated(KeptChanges(input.changes, p), p)
    ensures Canonicalize(input.(changes := cs), p) == Canonicalize(input, p)
  {
    hide SortBy, Outcomes, KeptChanges, CollationKey, SubjectOf, UniqueKeys;
    KeptMultiset(cs, input.changes, p);
    SortCanonical(KeptChanges(input.changes, p), KeptChanges(cs, p), CollationKey(p));
  }

  /** A kept change comes from one of the inputs. */
  lemma KeptSource(cs: seq<ChangeInput>, p: Platform, c: CanonicalChange) returns (a: nat)
    requires c in KeptChanges(cs, p)
    ensures a < |cs| && NormalizeChange(cs[a], p.nfc) == Kept(c)
  {
    hide NormalizeChange;
    var kept := Filter(Outcomes(cs, p), IsKept);
    var i :| 0 <= i < |kept| && ChangeOf(kept[i]) == c;
    assert kept[i] in kept;
    var j :| 0 <= j < |cs| && Outcomes(cs, p)[j] == kept[i];
    a := j;
  }

  lemma KeptOfOne(c: ChangeInput, rest: seq<ChangeInput>, p: Platform)
    requires NormalizeChange(c, p.nfc).Kept?
    ensures KeptChanges([c] + rest, p) == [NormalizeChange(c, p.nfc).change] + KeptChanges(rest, p)
  {
    hide NormalizeChange;
    var all := [c] + rest;
    assert all[1..] == rest;
    var outcomes := Outcomes(all, p);
    assert outcomes[1..] == Outcomes(rest, p);
    var kept := Filter(outcomes, IsKept);
    assert kept == [outcomes[0]] + Filter(Outcomes(rest, p), IsKept);
    assert kept[1..] == Filter(Outcomes(rest, p), IsKept);
  }

  lemma StillThere<T>(xs: seq<T>, a: nat, y: T)
    requires a < |xs| && y in xs && y != xs[a]
    ensures y in xs[..a] + xs[a + 1..]
  {
    var k :| 0 <= k < |xs| && xs[k] == y;
    if k < a { assert xs[..a][k] == y; } else { assert xs[a + 1..][k - a - 1] == y; }
  }

  lemma PutBack<T>(x: T, y: T, rest: seq<T>)
    ensures multiset([x, y] + rest) == multiset{x} + (multiset{y} + multiset(rest))
    ensures multiset([y, x] + rest) == multiset{x} + (multiset{y} + multiset(rest))
  {
  }

  lemma TakeOut<T>(xs: seq<T>, i: nat)
    requires i < |xs|
    ensures multiset(xs) == multiset{xs[i]} + multiset(xs[..i] + xs[i + 1..])
  {
    assert xs == xs[..i] + [xs[i]] + xs[i + 1..];
  }

  lemma PullToFront<T>(xs: seq<T>, a: nat, y: T) returns (rest: seq<T>)
    requires a < |xs| && y in xs && y != xs[a]
    ensures multiset([xs[a], y] + rest) == multiset(xs) && multiset([y, xs[a]] + rest) == multiset(xs)
  {
    var others := xs[..a] + xs[a + 1..];
    StillThere(xs, a, y);
    TakeOut(xs, a);
    rest := PullOut(others, y);
    PutBack(xs[a], y, rest);
  }

  lemma PullOut<T>(xs: seq<T>, y: T) returns (rest: seq<T>)
    requires y in xs
    ensures multiset(xs) == multiset{y} + multiset(rest)
  {
    var b :| 0 <= b < |xs| && xs[b] == y;
    TakeOut(xs, b);
    rest := xs[..b] + xs[b + 1..];
  }

  /** Two orders of a tied pair lead to two different subjects. */
  lemma TieShows(front: seq<CanonicalChange>, x: CanonicalChange, y: CanonicalChange, p: Platform)
    requires CollationKey(p)(x) == CollationKey(p)(y) && x != y
    ensures SortBy([x, y] + front, CollationKey(p)) != SortBy([y, x] + front, CollationKey(p))
  {
    var key := CollationKey(p);
    hide CollationKey;
    SortStable([x, y] + front, key, key(x));
    SortStable([y, x] + front, key, key(x));
    TiedFirst(x, y, front, key);
    TiedFirst(y, x, front, key);
  }

  lemma TiedFirst<T(!new)>(x: T, y: T, rest: seq<T>, key: T -> Text)
    ensures var r := WithKey([x, y] + rest, key, key(x)); r != [] && r[0] == x
  {
  }

  /** Order independence holds exactly when the program throws or no two kept changes collate as equals. */
  lemma OrderFreeExactly(input: SubjectInput, p: Platform)
    ensures OrderFree(input, p) <==> Canonicalize(input, p).None? || Separated(KeptChanges(input.changes, p), p)
  {
    hide Canonicalize, Separated, KeptChanges;
    if Canonicalize(input, p).None? {
      forall cs | multiset(cs) == multiset(input.changes)
        ensures Canonicalize(input.(changes := cs), p) == Canonicalize(input, p)
      {
        RejectionIsOrderFree(input, p, cs);
      }
    } else if Separated(KeptChanges(input.changes, p), p) {
      forall cs | multiset(cs) == multiset(input.changes)
        ensures Canonicalize(input.(changes := cs), p) == Canonicalize(input, p)
      {
        SeparatedIsOrderFree(input, p, cs);
      }
    } else {
      TiesAreOrdered(input, p);
    }
  }

  /** The changes of a subject: each of them clean, the canonical forms of exactly those inputs that are kept, no path
      twice, in the order of the collation. */
  lemma KeptContents(input: SubjectInput, p: Platform)
    requires Canonicalize(input, p).Some?
    ensures var changes := Canonicalize(input, p).value.changes;
            && (forall c :: c in changes ==> CleanChange(c))
            && (forall c :: c in changes <==> exists i :: i in input.changes && NormalizeChange(i, p.nfc) == Kept(c))
            && UniqueKeys(changes, PathOf) && Sorted(changes, CollationKey(p))
            && |changes| == |KeptChanges(input.changes, p)|
  {
    hide NormalizeChange, CleanChange, CollationKey, KeptChanges;
    CanonicalChanges(input, p);
    var changes := Canonicalize(input, p).value.changes;
    SortIsSorted(KeptChanges(input.changes, p), CollationKey(p));
    SortMembers(KeptChanges(input.changes, p), CollationKey(p));
    KeptMembers(input.changes, p);
    forall c | c in changes ensures CleanChange(c) {
      var i :| i in input.changes && NormalizeChange(i, p.nfc) == Kept(c);
      KeptIsClean(i, p.nfc);
    }
    UniqueChanges(input, p);
  }

  lemma UniqueChanges(input: SubjectInput, p: Platform)
    requires Canonicalize(input, p).Some?
    ensures UniqueKeys(Canonicalize(input, p).value.changes, PathOf)
  {
    hide NormalizeChange, SortBy, StableJson, CollationKey, KeptChanges, UniqueKeys;
  }

  lemma KeptMembers(cs: seq<ChangeInput>, p: Platform)
    ensures forall c :: c in KeptChanges(cs, p) <==> exists i :: i in cs && NormalizeChange(i, p.nfc) == Kept(c)
  {
    hide NormalizeChange;
    var outcomes := Outcomes(cs, p);
    var kept := Filter(outcomes, IsKept);
    forall c | c in KeptChanges(cs, p) ensures exists i :: i in cs && NormalizeChange(i, p.nfc) == Kept(c) {
      var k :| 0 <= k < |kept| && ChangeOf(kept[k]) == c;
      assert kept[k] in outcomes;
      var j :| 0 <= j < |outcomes| && outcomes[j] == kept[k];
      assert cs[j] in cs && NormalizeChange(cs[j], p.nfc) == Kept(c);
    }
    forall i | i in cs && NormalizeChange(i, p.nfc).Kept?
      ensures NormalizeChange(i, p.nfc).change in KeptChanges(cs, p)
    {
      var j :| 0 <= j < |cs| && cs[j] == i;
      assert outcomes[j] in kept;
      var k :| 0 <= k < |kept| && kept[k] == outcomes[j];
      assert KeptChanges(cs, p)[k] == ChangeOf(kept[k]);
    }
  }

  // ---------- Two changes that collate as equals ----------

  /** A collation that takes no notice of control characters. */
  function DropControls(t: Text): Text {
    if t == [] then [] else (if t[0] >= 32 then [t[0]] else []) + DropControls(t[1..])
  }

  lemma DropStep(c: CodeUnit, t: Text)
    ensures DropControls([c] + t) == (if c >= 32 then [c] else []) + DropControls(t)
  {
    assert ([c] + t)[1..] == t;
  }

  const FILE_MODE: Text := [49, 48, 48, 54, 52, 52]

  const COMMIT := Ascii("0123456789012345678901234567890123456789")

  function Deletion(path: Text): ChangeInput { ChangeInput(Deleted, path, None, FILE_MODE, None, true) }

  function DeletionOf(path: Text): CanonicalChange { CanonicalChange(Deleted, path, None, FILE_MODE, Absent) }

  lemma {:induction false} PlainSegment(s: Text)
    requires SLASH !in s
    ensures Segments(s) == [s]
  {
    if s != [] {
      PlainSegment(s[1..]);
      assert [s[0]] + s[1..] == s;
    }
  }

  lemma DeletionKept(path: Text, nfc: Text -> Text)
    requires (path == [97] || path == [97, 1]) && nfc(path) == path
    ensures NormalizeChange(Deletion(path), nfc) == Kept(DeletionOf(path))
  {
    assert ForwardSlashes(path) == path;
    PlainSegment(path);
    hide Segments;
    assert NormalizeGitPath(path, nfc) == Some(path);
    assert PROVENANCE[0] == 46;
  }

  /** What follows the path in the sort key of a deletion. */
  function KeyTail(): Text { [0, 0] + StatusName(Deleted) + [0] + FILE_MODE + [0] + StableJson(ResultJson(Absent)) }

  lemma DeletionKey(path: Text)
    ensures SortKey(DeletionOf(path)) == path + KeyTail()
  {
    hide StableJson, StatusName;
    var a, b := StatusName(Deleted), StableJson(ResultJson(Absent));
    FlatKey(path, a, FILE_MODE, b);
  }

  lemma FlatKey(path: Text, a: Text, b: Text, c: Text)
    ensures path + [0] + [] + [0] + a + [0] + b + [0] + c == path + ([0, 0] + a + [0] + b + [0] + c)
  {
  }

  /** A platform with that collation, for names that Unicode normalisation leaves as they are. */
  function ControlBlind(hash: Hash): Platform { Platform(t => t, DropControls, hash) }

  lemma SameCollation(hash: Hash)
    ensures var key := CollationKey(ControlBlind(hash)); key(DeletionOf([97])) == key(DeletionOf([97, 1]))
  {
    var rest := KeyTail();
    hide SortKey, DropControls, KeyTail;
    DeletionKey([97]);
    DeletionKey([97, 1]);
    assert [97, 1] + rest == [97] + ([1] + rest);
    DropStep(97, rest);
    DropStep(97, [1] + rest);
    DropStep(1, rest);
  }

  lemma SortedTie(x: CanonicalChange, y: CanonicalChange, key: CanonicalChange -> Text)
    requires key(x) == key(y)
    ensures SortBy([x, y], key) == [x, y]
  {
    assert [x, y][1..] == [y] && [y][1..] == [];
    assert SortBy([y], key) == [y];
  }

  lemma KeptTwo(a: Text, b: Text, p: Platform)
    requires NormalizeChange(Deletion(a), p.nfc) == Kept(DeletionOf(a)) &&
             NormalizeChange(Deletion(b), p.nfc) == Kept(DeletionOf(b))
    ensures KeptChanges([Deletion(a), Deletion(b)], p) == [DeletionOf(a), DeletionOf(b)]
    ensures RejectedChange !in Outcomes([Deletion(a), Deletion(b)], p)
  {
    hide NormalizeChange;
    KeptOfTwo(Deletion(a), Deletion(b), [], p);
    assert [Deletion(a), Deletion(b)] + [] == [Deletion(a), Deletion(b)];
    assert KeptChanges([], p) == [];
  }

  lemma CommitIsObjectId()
    ensures IsObjectId(COMMIT)
  {
  }

  /** The subject of two deletions whose changes collate as equals lists them as the input does. */
  lemma TwoDeletions(a: Text, b: Text, p: Platform)
    requires a != b && NormalizeChange(Deletion(a), p.nfc) == Kept(DeletionOf(a)) &&
             NormalizeChange(Deletion(b), p.nfc) == Kept(DeletionOf(b))
    requires CollationKey(p)(DeletionOf(a)) == CollationKey(p)(DeletionOf(b))
    ensures var s := Canonicalize(TwoOf(a, b), p); s.Some? && s.value.changes == [DeletionOf(a), DeletionOf(b)]
  {
    hide NormalizeChange, KeptChanges, SortBy, CollationKey, SubjectOf, Outcomes, IsObjectId;
    KeptTwo(a, b, p);
    SortedTie(DeletionOf(a), DeletionOf(b), CollationKey(p));
    CommitIsObjectId();
    assert Canonicalize(TwoOf(a, b), p).Some?;
    CanonicalChanges(TwoOf(a, b), p);
  }

  function TwoOf(a: Text, b: Text): SubjectInput { SubjectInput([114], COMMIT, None, [Deletion(a), Deletion(b)]) }

  /** The subject, and with it its digest, can depend on the order of the changes: the names "a" and "a" with a control
      character collate as equals, and so stay in the order in which they are listed. */
  lemma OrderMatters(hash: Hash)
    requires Collisionless(hash)
    ensures var one, two := TwoOf([97], [97, 1]), TwoOf([97, 1], [97]);
            var s, t := Canonicalize(one, ControlBlind(hash)), Canonicalize(two, ControlBlind(hash));
            && multiset(one.changes) == multiset(two.changes)
            && s.Some? && t.Some? && s.value.subjectDigest != t.value.subjectDigest
  {
    var p := ControlBlind(hash);
    var a: Text, b: Text := [97], [97, 1];
    DeletionKept(a, p.nfc);
    DeletionKept(b, p.nfc);
    SameCollation(hash);
    hide NormalizeChange, Canonicalize, CollationKey, DropControls, SortKey, Collisionless;
    TwoDeletions(a, b, p);
    TwoDeletions(b, a, p);
    hide TwoOf, DeletionOf, ControlBlind;
    DifferentDigests(a, b, p);
    Swapped(a, b);
  }

  lemma Swapped(a: Text, b: Text)
    ensures multiset(TwoOf(a, b).changes) == multiset(TwoOf(b, a).changes)
  {
  }

  lemma DifferentDigests(a: Text, b: Text, p: Platform)
    requires a != b && Collisionless(p.hash)
    requires var s := Canonicalize(TwoOf(a, b), p); s.Some? && s.value.changes == [DeletionOf(a), DeletionOf(b)]
    requires var t := Canonicalize(TwoOf(b, a), p); t.Some? && t.value.changes == [DeletionOf(b), DeletionOf(a)]
    ensures Canonicalize(TwoOf(a, b), p).value.subjectDigest != Canonicalize(TwoOf(b, a), p).value.subjectDigest
  {
    hide Canonicalize, Collisionless, TwoOf;
    assert [DeletionOf(a), DeletionOf(b)][0].path != [DeletionOf(b), DeletionOf(a)][0].path;
    DigestIdentifiesSubject(TwoOf(a, b), TwoOf(b, a), p);
  }

  lemma TiesAreOrdered(input: SubjectInput, p: Platform)
    requires Canonicalize(input, p).Some? && !Separated(KeptChanges(input.changes, p), p)
    ensures !OrderFree(input, p)
  {
    hide Canonicalize, KeptChanges, NormalizeChange, CollationKey;
    var cs := input.changes;
    var kept := KeptChanges(cs, p);
    var i, j :| 0 <= i < j < |kept| && CollationKey(p)(kept[i]) == CollationKey(p)(kept[j]);
    var x, y := kept[i], kept[j];
    KeptPathsUnique(input, p);
    assert PathOf(x) != PathOf(y);
    var a := KeptSource(cs, p, x);
    var b := KeptSource(cs, p, y);
    var rest := PullToFront(cs, a, cs[b]);
    var one, two := [cs[a], cs[b]] + rest, [cs[b], cs[a]] + rest;
    KeptOfTwo(cs[a], cs[b], rest, p);
    KeptOfTwo(cs[b], cs[a], rest, p);
    TieShows(KeptChanges(rest, p), x, y, p);
    RejectionIsOrderFree(input, p, one);
    RejectionIsOrderFree(input, p, two);
    CanonicalChanges(input.(changes := one), p);
    CanonicalChanges(input.(changes := two), p);
    assert Canonicalize(input.(changes := one), p) != Canonicalize(input.(changes := two), p);
  }

  lemma KeptOfTwo(c: ChangeInput, d: ChangeInput, rest: seq<ChangeInput>, p: Platform)
    requires NormalizeChange(c, p.nfc).Kept? && NormalizeChange(d, p.nfc).Kept?
    ensures KeptChanges([c, d] + rest, p) == [NormalizeChange(c, p.nfc).change, NormalizeChange(d, p.nfc).change] +
            KeptChanges(rest, p)
  {
    hide NormalizeChange, KeptChanges;
    KeptOfOne(d, rest, p);
    KeptOfOne(c, [d] + rest, p);
    assert [c] + ([d] + rest) == [c, d] + rest;
  }

  lemma CanonicalChanges(input: SubjectInput, p: Platform)
    requires Canonicalize(input, p).Some?
    ensures Canonicalize(input, p).value.changes == SortBy(KeptChanges(input.changes, p), CollationKey(p))
    ensures UniqueKeys(SortBy(KeptChanges(input.changes, p), CollationKey(p)), PathOf)
  {
    hide SortBy, KeptChanges, CollationKey, Outcomes;
  }

  lemma KeptPathsUnique(input: SubjectInput, p: Platform)
    requires Canonicalize(input, p).Some?
    ensures UniqueKeys(KeptChanges(input.changes, p), PathOf)
  {
    hide Canonicalize, KeptChanges, CollationKey;
    CanonicalChanges(input, p);
    SortContents(KeptChanges(input.changes, p), CollationKey(p));
    UniqueOfMultiset(SortBy(KeptChanges(input.changes, p), CollationKey(p)), KeptChanges(input.changes, p), PathOf);
  }

  // ---------- The digest determines the subject ----------

  /** Members under the same key of two objects that are the same up to order. */
  lemma SameMember(es: seq<Entry>, fs: seq<Entry>, i: nat, j: nat)
    requires SameJson(Obj(es), Obj(fs)) && i < |es| && j < |fs| && es[i].key == fs[j].key
    requires UniqueKeys(Keys(es), Self) && UniqueKeys(Keys(fs), Self)
    ensures SameJson(es[i].value, fs[j].value)
  {
    LookupAt(es, i);
    LookupAt(fs, j);
    assert SameUnder(es, fs, Keys(es));
  }

  lemma SameHasKey(es: seq<Entry>, fs: seq<Entry>, key: Text)
    requires SameJson(Obj(es), Obj(fs))
    ensures (exists i :: 0 <= i < |es| && es[i].key == key) <==> (exists j :: 0 <= j < |fs| && fs[j].key == key)
  {
    assert key in Keys(es) <==> key in Keys(fs);
    assert forall i :: 0 <= i < |es| ==> Keys(es)[i] == es[i].key;
    assert forall j :: 0 <= j < |fs| ==> Keys(fs)[j] == fs[j].key;
  }

  function Members(c: CanonicalChange): seq<Entry> { ChangeJson(c).entries }

  /** Where a member stands and what it holds: status 0, path 1, mode and result last, the old path between. */
  lemma MemberShape(c: CanonicalChange)
    ensures var es := Members(c); var n := |es|;
            && n == (if c.previousPath.Some? then 5 else 4)
            && es[0] == Entry(Ascii("status"), Str(StatusName(c.status)))
            && es[1] == Entry(Ascii("path"), Str(c.path))
            && es[n - 2] == Entry(Ascii("mode"), Str(c.mode))
            && es[n - 1] == Entry(Ascii("result"), ResultJson(c.result))
            && (c.previousPath.Some? ==> es[2] == Entry(Ascii("previousPath"), Str(c.previousPath.value)))
  {
    hide StatusName, ResultJson;
  }

  lemma ChangeKeys()
    ensures var a, b, c, d, e := Ascii("status"), Ascii("path"), Ascii("previousPath"), Ascii("mode"), Ascii("result");
            a[0] == 115 && b[0] == 112 && c[0] == 112 && |b| == 4 && |c| == 12 && d[0] == 109 && e[0] == 114
  {
  }

  lemma MembersUnique(c: CanonicalChange)
    ensures UniqueKeys(Keys(Members(c)), Self)
  {
    hide StatusName, ResultJson, ChangeJson, Members;
    MemberShape(c);
    ChangeKeys();
    assert forall i :: 0 <= i < |Members(c)| ==> Keys(Members(c))[i] == Members(c)[i].key;
  }

  lemma StatusNamesDiffer(a: ChangeStatus, b: ChangeStatus)
    requires StatusName(a) == StatusName(b)
    ensures a == b
  {
    assert |StatusName(Added)| == 5 && |StatusName(Modified)| == 8 && |StatusName(TypeChanged)| == 12;
    assert StatusName(Deleted)[0] == 100 && StatusName(Renamed)[0] == 114 && StatusName(Copied)[0] == 99;
    assert |StatusName(Deleted)| == 7 && |StatusName(Renamed)| == 7 && |StatusName(Copied)| == 6;
  }

  lemma ResultsDiffer(a: ChangeResult, b: ChangeResult)
    requires SameJson(ResultJson(a), ResultJson(b))
    ensures a == b
  {
    var es, fs := ResultJson(a).entries, ResultJson(b).entries;
    assert Ascii("blobOid")[0] == 98 && Ascii("absent")[0] == 97;
    SameHasKey(es, fs, es[0].key);
    assert UniqueKeys(Keys(es), Self) && UniqueKeys(Keys(fs), Self);
    if a.Blob? { SameMember(es, fs, 0, 0); }
  }

  lemma OldPathKey(c: CanonicalChange)
    ensures c.previousPath.Some? <==> exists i :: 0 <= i < |Members(c)| && Members(c)[i].key == Ascii("previousPath")
  {
    hide ChangeJson, Members, StatusName, ResultJson;
    MemberShape(c);
    ChangeKeys();
    if c.previousPath.Some? { assert Members(c)[2].key == Ascii("previousPath"); }
  }

  lemma SamePlainMembers(a: CanonicalChange, b: CanonicalChange)
    requires SameJson(ChangeJson(a), ChangeJson(b))
    ensures a.status == b.status && a.path == b.path && a.mode == b.mode && a.result == b.result
  {
    hide ChangeJson, StatusName, ResultJson, SameJson, UniqueKeys;
    var es, fs := Members(a), Members(b);
    MemberShape(a);
    MemberShape(b);
    MembersUnique(a);
    MembersUnique(b);
    ChangeIsObject(a);
    ChangeIsObject(b);
    SameMember(es, fs, 0, 0);
    SameTexts(StatusName(a.status), StatusName(b.status));
    StatusNamesDiffer(a.status, b.status);
    SameMember(es, fs, 1, 1);
    SameTexts(a.path, b.path);
    SameMember(es, fs, |es| - 2, |fs| - 2);
    SameTexts(a.mode, b.mode);
    SameMember(es, fs, |es| - 1, |fs| - 1);
    ResultsDiffer(a.result, b.result);
  }

  lemma ChangeIsObject(c: CanonicalChange)
    ensures ChangeJson(c) == Obj(Members(c))
  {
  }

  lemma SameTexts(a: Text, b: Text)
    requires SameJson(Str(a), Str(b))
    ensures a == b
  {
  }

  lemma ChangesDiffer(a: CanonicalChange, b: CanonicalChange)
    requires SameJson(ChangeJson(a), ChangeJson(b))
    ensures a == b
  {
    hide ChangeJson, SameJson, UniqueKeys, Members;
    SamePlainMembers(a, b);
    OldPathKey(a);
    OldPathKey(b);
    ChangeIsObject(a);
    ChangeIsObject(b);
    SameHasKey(Members(a), Members(b), Ascii("previousPath"));
    if a.previousPath.Some? {
      MemberShape(a);
      MemberShape(b);
      MembersUnique(a);
      MembersUnique(b);
      SameMember(Members(a), Members(b), 2, 2);
      SameTexts(a.previousPath.value, b.previousPath.value);
    }
  }

  function PayloadMembers(s: Subject): seq<Entry> {
    Payload(s.repositoryIdentity, s.baseCommit, s.headCommit, s.changes).entries
  }

  lemma PayloadShape(s: Subject)
    ensures var es := PayloadMembers(s); var n := |es|;
            && n == (if s.headCommit.Some? then 5 else 4)
            && es[0] == Entry(Ascii("schemaVersion"), Str(SCHEMA_VERSION))
            && es[1] == Entry(Ascii("repositoryIdentity"), Str(s.repositoryIdentity))
            && es[2] == Entry(Ascii("baseCommit"), Str(s.baseCommit))
            && (s.headCommit.Some? ==> es[3] == Entry(Ascii("headCommit"), Str(s.headCommit.value)))
            && es[n - 1] == Entry(Ascii("changes"), Arr(Mapped(s.changes, ChangeJson)))
  {
    hide Mapped, ChangeJson;
  }

  lemma PayloadKeys()
    ensures Ascii("schemaVersion")[0] == 115 && Ascii("repositoryIdentity")[0] == 114 && Ascii("baseCommit")[0] == 98
    ensures Ascii("headCommit")[0] == 104 && Ascii("changes")[0] == 99
  {
  }

  lemma PayloadUnique(s: Subject)
    ensures UniqueKeys(Keys(PayloadMembers(s)), Self)
  {
    hide PayloadMembers, Payload, Mapped, ChangeJson;
    PayloadShape(s);
    PayloadKeys();
    assert forall i :: 0 <= i < |PayloadMembers(s)| ==> Keys(PayloadMembers(s))[i] == PayloadMembers(s)[i].key;
  }

  lemma HeadCommitKey(s: Subject)
    ensures s.headCommit.Some? <==>
            exists i :: 0 <= i < |PayloadMembers(s)| && PayloadMembers(s)[i].key == Ascii("headCommit")
  {
    hide PayloadMembers, Payload, Mapped, ChangeJson;
    PayloadShape(s);
    PayloadKeys();
    if s.headCommit.Some? { assert PayloadMembers(s)[3].key == Ascii("headCommit"); }
  }

  /** The same payload up to key order is the same payload. */
  lemma PayloadsDiffer(a: Subject, b: Subject)
    requires SameJson(Obj(PayloadMembers(a)), Obj(PayloadMembers(b)))
    ensures a.repositoryIdentity == b.repositoryIdentity && a.baseCommit == b.baseCommit
    ensures a.headCommit == b.headCommit && a.changes == b.changes
  {
    hide PayloadMembers, Payload, SameJson, UniqueKeys, Mapped, ChangeJson;
    var es, fs := PayloadMembers(a), PayloadMembers(b);
    PayloadShape(a);
    PayloadShape(b);
    PayloadUnique(a);
    PayloadUnique(b);
    SameMember(es, fs, 1, 1);
    SameTexts(a.repositoryIdentity, b.repositoryIdentity);
    SameMember(es, fs, 2, 2);
    SameTexts(a.baseCommit, b.baseCommit);
    HeadCommitKey(a);
    HeadCommitKey(b);
    SameHasKey(es, fs, Ascii("headCommit"));
    if a.headCommit.Some? {
      SameMember(es, fs, 3, 3);
      SameTexts(a.headCommit.value, b.headCommit.value);
    }
    SameMember(es, fs, |es| - 1, |fs| - 1);
    SameChangeLists(a.changes, b.changes);
  }

  lemma SameChangeLists(a: seq<CanonicalChange>, b: seq<CanonicalChange>)
    requires SameJson(Arr(Mapped(a, ChangeJson)), Arr(Mapped(b, ChangeJson)))
    ensures a == b
  {
    hide ChangeJson;
    forall i | 0 <= i < |a| && i < |b| ensures a[i] == b[i] {
      assert SameJson(Mapped(a, ChangeJson)[i], Mapped(b, ChangeJson)[i]);
      ChangesDiffer(a[i], b[i]);
    }
  }

  lemma ChangeWellFormed(c: CanonicalChange)
    ensures WellFormed(ChangeJson(c))
  {
    MembersUnique(c);
    hide StatusName;
    assert WellFormed(ResultJson(c.result)) by { assert UniqueKeys(Keys(ResultJson(c.result).entries), Self); }
  }

  lemma PayloadWellFormed(s: Subject)
    ensures WellFormed(Obj(PayloadMembers(s)))
  {
    hide ChangeJson, UniqueKeys, PayloadMembers, Payload;
    PayloadUnique(s);
    PayloadShape(s);
    forall i | 0 <= i < |s.changes|
      ensures WellFormed(Mapped(s.changes, ChangeJson)[i])
    {
      ChangeWellFormed(s.changes[i]);
    }
    assert WellFormed(Arr(Mapped(s.changes, ChangeJson)));
  }

  /** A digest identifies its subject: canonicalisation gives equal digests only to equal subjects. */
  lemma DigestIdentifiesSubject(a: SubjectInput, b: SubjectInput, p: Platform)
    requires Collisionless(p.hash) && Canonicalize(a, p).Some? && Canonicalize(b, p).Some?
    ensures Canonicalize(a, p).value.subjectDigest == Canonicalize(b, p).value.subjectDigest <==>
            Canonicalize(a, p) == Canonicalize(b, p)
  {
    hide SameJson, WellFormed, StableJson, SortBy, Outcomes, KeptChanges, UniqueKeys, Lower, IsObjectId;
    var x, y := Canonicalize(a, p).value, Canonicalize(b, p).value;
    if x.subjectDigest == y.subjectDigest {
      var v, w := Obj(PayloadMembers(x)), Obj(PayloadMembers(y));
      assert x.canonical == StableJson(v) && y.canonical == StableJson(w);
      PayloadWellFormed(x);
      PayloadWellFormed(y);
      StableJsonPaired(v);
      StableJsonPaired(w);
      StableJsonDecides(v, w);
      PayloadsDiffer(x, y);
    }
  }
}
