/** What becomes of each change of an admission subject, and what the subject records, told by the input alone. */
module SubjectLaw {
  import opened Text
  import opened Wrappers
  import opened Sorting
  import opened Json
  import opened AdmissionSubject

  // ---------- Paths ----------

  /** The units from i to j stand between slashes or the ends of the path. */
  predicate PartAt(p: Text, i: nat, j: nat) {
    && i <= j <= |p| && (i == 0 || p[i - 1] == SLASH) && (j == |p| || p[j] == SLASH)
    && forall k :: i <= k < j ==> p[k] != SLASH
  }

  ghost predicate HasPart(p: Text, part: Text) { exists i: nat, j: nat :: PartAt(p, i, j) && p[i..j] == part }

  /** How a path is spelled in a subject: composed, and with forward slashes. */
  function Spelled(value: Text, nfc: Text -> Text): (r: Text)
    ensures |r| == |nfc(value)|
    ensures forall i :: 0 <= i < |r| ==> r[i] == if nfc(value)[i] == 92 then 47 else nfc(value)[i]
  {
    ForwardSlashes(nfc(value))
  }

  /** A path of 1 to 4096 units that stays below the root: no NUL, and no empty part, `.` or `..`. */
  ghost predicate Acceptable(value: Text, nfc: Text -> Text) {
    var p := Spelled(value, nfc);
    1 <= |value| <= 4096 && 0 !in p && !HasPart(p, []) && !HasPart(p, [46]) && !HasPart(p, [46, 46])
  }

  predicate InProvenance(p: Text) { p == Ascii(".my-pi/provenance") || Ascii(".my-pi/provenance/") <= p }

  /** Where the first part ends: the rest of the parts are those behind the first slash. */
  lemma {:induction false} FirstSlash(p: Text) returns (n: nat)
    ensures PartAt(p, 0, n) && Segments(p)[0] == p[..n]
    ensures n == |p| ==> Segments(p) == [p]
    ensures n < |p| ==> Segments(p) == [p[..n]] + Segments(p[n + 1..])
  {
    if p == [] {
      n := 0;
    } else if p[0] == SLASH {
      n := 0;
      assert p[..0] == [];
    } else {
      var k := FirstSlash(p[1..]);
      n := k + 1;
      assert p[..n] == [p[0]] + p[1..][..k];
      assert p[n..] == p[1..][k..];
      if k < |p[1..]| { assert p[n + 1..] == p[1..][k + 1..]; } else { assert p == [p[0]] + p[1..]; }
    }
  }

  /** Splitting at slashes gives exactly the parts that stand between slashes. */
  lemma {:induction false} PartsAreSegments(p: Text, part: Text)
    ensures part in Segments(p) <==> HasPart(p, part)
    decreases |p|
  {
    hide Segments;
    var n := FirstSlash(p);
    assert p[0..n] == p[..n];
    if n < |p| {
      var tail := p[n + 1..];
      PartsAreSegments(tail, part);
      if HasPart(tail, part) {
        var i: nat, j: nat :| PartAt(tail, i, j) && tail[i..j] == part;
        assert PartAt(p, n + 1 + i, n + 1 + j) && p[n + 1 + i..n + 1 + j] == part;
      }
      if HasPart(p, part) {
        var i: nat, j: nat :| PartAt(p, i, j) && p[i..j] == part;
        if i > n { PartBehind(p, n, i, j); } else { PartInFront(p, n, i, j); }
      }
    } else if HasPart(p, part) {
      var i: nat, j: nat :| PartAt(p, i, j) && p[i..j] == part;
      PartInFront(p, n, i, j);
    }
  }

  lemma PartInFront(p: Text, n: nat, i: nat, j: nat)
    requires PartAt(p, 0, n) && PartAt(p, i, j) && i <= n
    ensures i == 0 && j == n
  {
  }

  lemma PartBehind(p: Text, n: nat, i: nat, j: nat)
    requires n < |p| && p[n] == SLASH && PartAt(p, i, j) && i > n
    ensures HasPart(p[n + 1..], p[i..j])
  {
    var tail := p[n + 1..];
    var d := n + 1;
    PartAgain(p, tail, d, i, j);
  }

  lemma PartAgain(p: Text, tail: Text, d: nat, i: nat, j: nat)
    requires d <= i && d <= |p| && tail == p[d..] && PartAt(p, i, j) && (i > d ==> p[i - 1] == SLASH)
    ensures HasPart(tail, p[i..j])
  {
    assert tail[i - d..j - d] == p[i..j];
    assert PartAt(tail, i - d, j - d);
  }

  lemma PathExactly(value: Text, nfc: Text -> Text)
    ensures NormalizeGitPath(value, nfc) == if Acceptable(value, nfc) then Some(Spelled(value, nfc)) else None
  {
    hide Segments, HasPart;
    var p := Spelled(value, nfc);
    PartsAreSegments(p, []);
    PartsAreSegments(p, [DOT]);
    PartsAreSegments(p, [DOT, DOT]);
    if p != [] && p[0] == SLASH { EmptyFront(p); }
  }

  lemma EmptyFront(p: Text)
    requires p != [] && p[0] == SLASH
    ensures HasPart(p, [])
  {
    assert PartAt(p, 0, 0) && p[0..0] == [];
  }

  lemma ProvenanceExactly(p: Text)
    ensures IsProvenancePath(p) <==> InProvenance(p)
  {
    assert Ascii(".my-pi/provenance") + [SLASH] == Ascii(".my-pi/provenance/");
  }

  // ---------- One change ----------

  /** Every path the change gives is acceptable. */
  ghost predicate PathsAcceptable(c: ChangeInput, nfc: Text -> Text) {
    Acceptable(c.path, nfc) && (c.previousPath.Some? ==> Acceptable(c.previousPath.value, nfc))
  }

  /** The change is about the provenance directory. */
  predicate AboutProvenance(c: ChangeInput, nfc: Text -> Text) {
    InProvenance(Spelled(c.path, nfc)) || (c.previousPath.Some? && InProvenance(Spelled(c.previousPath.value, nfc)))
  }

  predicate SixOctalDigits(s: Text) { |s| == 6 && forall i :: 0 <= i < 6 ==> 48 <= s[i] < 56 }

  predicate FullObjectId(s: Text) {
    40 <= |s| <= 64 && forall i :: 0 <= i < |s| ==> 48 <= s[i] < 58 || 65 <= s[i] < 71 || 97 <= s[i] < 103
  }

  /** What is wrong with a change besides its paths: its mode, an old path that does not go with its status, or
      contents that are neither a full object identifier nor declared absent, or both. */
  predicate Faulty(c: ChangeInput) {
    || !SixOctalDigits(c.mode)
    || (c.previousPath.Some? && c.status != Renamed) || (c.previousPath.None? && c.status == Renamed)
    || (c.absent && c.blobOid.Some?) || (!c.absent && c.blobOid.None?)
    || (!c.absent && c.blobOid.Some? && !FullObjectId(c.blobOid.value))
  }

  /** The letters A to F as a to f, everything else as it is. */
  predicate InLowerCase(r: Text, s: Text) {
    |r| == |s| && forall i :: 0 <= i < |s| ==> r[i] == if 65 <= s[i] < 71 then s[i] + 32 else s[i]
  }

  /** The change as the subject records it. */
  ghost predicate Records(r: CanonicalChange, c: ChangeInput, nfc: Text -> Text) {
    && r.status == c.status && r.mode == c.mode && r.path == Spelled(c.path, nfc)
    && (r.previousPath.Some? <==> c.previousPath.Some?)
    && (c.previousPath.Some? ==> r.previousPath.value == Spelled(c.previousPath.value, nfc))
    && (r.result.Absent? <==> c.absent)
    && (r.result.Blob? ==> c.blobOid.Some? && InLowerCase(r.result.oid, c.blobOid.value))
  }

  ghost predicate Wanted(c: ChangeInput, nfc: Text -> Text) {
    PathsAcceptable(c, nfc) && !AboutProvenance(c, nfc) && !Faulty(c)
  }

  lemma LowerMeans(s: Text, r: Text)
    requires FullObjectId(s)
    ensures r == Lower(s) <==> InLowerCase(r, s)
  {
    if InLowerCase(r, s) { assert forall i :: 0 <= i < |s| ==> r[i] == Lower(s)[i]; }
  }

  lemma ObjectIdMeans(s: Text)
    ensures IsObjectId(s) <==> FullObjectId(s)
  {
  }

  /** What becomes of a change. It is dropped exactly when its paths are acceptable and one is about the provenance
      directory; rejected exactly when a path is not acceptable or, elsewhere than there, the change is faulty; and kept
      otherwise, as it came apart from spelling. */
  lemma ChangeFate(c: ChangeInput, nfc: Text -> Text)
    ensures var fate := NormalizeChange(c, nfc);
            && (fate == Dropped <==> PathsAcceptable(c, nfc) && AboutProvenance(c, nfc))
            && (fate == RejectedChange <==>
                !PathsAcceptable(c, nfc) || (!AboutProvenance(c, nfc) && Faulty(c)))
            && (fate.Kept? <==> Wanted(c, nfc))
            && forall r :: fate == Kept(r) <==> Wanted(c, nfc) && Records(r, c, nfc)
  {
    PathExactly(c.path, nfc);
    ProvenanceExactly(Spelled(c.path, nfc));
    if c.previousPath.Some? {
      PathExactly(c.previousPath.value, nfc);
      ProvenanceExactly(Spelled(c.previousPath.value, nfc));
    }
    if c.blobOid.Some? { ObjectIdMeans(c.blobOid.value); }
    hide Acceptable, NormalizeGitPath, IsProvenancePath, InProvenance, FullObjectId, IsObjectId;
    forall r | Wanted(c, nfc) && Records(r, c, nfc) ensures NormalizeChange(c, nfc) == Kept(r) {
      if !c.absent { LowerMeans(c.blobOid.value, r.result.oid); }
    }
    if NormalizeChange(c, nfc).Kept? && !c.absent {
      LowerMeans(c.blobOid.value, Lower(c.blobOid.value));
      assert Records(NormalizeChange(c, nfc).change, c, nfc);
    }
  }

  // ---------- The subject ----------

  predicate IdentifiersFine(input: SubjectInput) {
    && 1 <= |input.repositoryIdentity| <= 2048 && FullObjectId(input.baseCommit)
    && (input.headCommit.Some? ==> FullObjectId(input.headCommit.value))
  }

  /** Some change is rejected. */
  ghost predicate SomeRejected(cs: seq<ChangeInput>, nfc: Text -> Text) {
    exists c :: c in cs && (!PathsAcceptable(c, nfc) || (!AboutProvenance(c, nfc) && Faulty(c)))
  }

  ghost predicate SamePath(c: ChangeInput, d: ChangeInput, nfc: Text -> Text) {
    Wanted(c, nfc) && Wanted(d, nfc) && Spelled(c.path, nfc) == Spelled(d.path, nfc)
  }

  /** Two changes that are kept name the same path. */
  ghost predicate PathTwice(cs: seq<ChangeInput>, nfc: Text -> Text) {
    exists i, j :: 0 <= i < j < |cs| && SamePath(cs[i], cs[j], nfc)
  }

  lemma RejectedMeans(cs: seq<ChangeInput>, p: Platform)
    ensures RejectedChange in Outcomes(cs, p) <==> SomeRejected(cs, p.nfc)
  {
    hide NormalizeChange, PathsAcceptable, AboutProvenance, Faulty, Wanted, Records;
    forall c | c in cs
      ensures NormalizeChange(c, p.nfc) == RejectedChange <==>
              !PathsAcceptable(c, p.nfc) || (!AboutProvenance(c, p.nfc) && Faulty(c))
    {
      ChangeFate(c, p.nfc);
    }
    var outcomes := Outcomes(cs, p);
    if RejectedChange in outcomes {
      var k :| 0 <= k < |outcomes| && outcomes[k] == RejectedChange;
      assert cs[k] in cs && NormalizeChange(cs[k], p.nfc) == RejectedChange;
    }
    if SomeRejected(cs, p.nfc) {
      var c :| c in cs && (!PathsAcceptable(c, p.nfc) || (!AboutProvenance(c, p.nfc) && Faulty(c)));
      var k :| 0 <= k < |cs| && cs[k] == c;
      assert outcomes[k] == RejectedChange;
    }
  }

  /** The kept changes in the order of the input. */
  lemma {:induction false} KeptStep(cs: seq<ChangeInput>, p: Platform)
    requires cs != []
    ensures KeptChanges(cs, p) == (if NormalizeChange(cs[0], p.nfc).Kept? then [NormalizeChange(cs[0], p.nfc).change]
                                   else []) + KeptChanges(cs[1..], p)
  {
    hide NormalizeChange;
    assert cs == [cs[0]] + cs[1..];
    if NormalizeChange(cs[0], p.nfc).Kept? { KeptOfOne(cs[0], cs[1..], p); }
    else {
      assert Outcomes(cs, p)[1..] == Outcomes(cs[1..], p);
      assert Filter(Outcomes(cs, p), IsKept) == [] + Filter(Outcomes(cs[1..], p), IsKept);
    }
  }

  lemma {:induction false} KeptPathsMean(cs: seq<ChangeInput>, p: Platform)
    ensures UniqueKeys(KeptChanges(cs, p), PathOf) <==> !PathTwice(cs, p.nfc)
    decreases |cs|
  {
    hide NormalizeChange, KeptChanges, Wanted, Spelled;
    if cs == [] { NothingKept(p); }
    else {
      var c, rest, kept := cs[0], cs[1..], KeptChanges(cs[1..], p);
      KeptStep(cs, p);
      ChangeFate(c, p.nfc);
      KeptPathsMean(rest, p);
      PathTwiceStep(cs, p.nfc);
      if Wanted(c, p.nfc) {
        var r := NormalizeChange(c, p.nfc).change;
        assert r.path == Spelled(c.path, p.nfc);
        KeptWithPath(rest, p, r.path);
        UniqueStep(r, kept);
      } else { assert [] + kept == kept; }
    }
  }

  lemma NothingKept(p: Platform)
    ensures KeptChanges([], p) == []
  {
  }

  lemma UniqueStep(r: CanonicalChange, kept: seq<CanonicalChange>)
    ensures UniqueKeys([r] + kept, PathOf) <==> UniqueKeys(kept, PathOf) && forall k :: k in kept ==> k.path != r.path
  {
    var all := [r] + kept;
    if UniqueKeys(all, PathOf) {
      assert forall k :: 0 <= k < |kept| ==> all[k + 1] == kept[k];
      forall k | k in kept ensures k.path != r.path {
        var i :| 0 <= i < |kept| && kept[i] == k;
        assert PathOf(all[0]) != PathOf(all[i + 1]);
      }
      forall i, j | 0 <= i < j < |kept| ensures PathOf(kept[i]) != PathOf(kept[j]) {
        assert PathOf(all[i + 1]) != PathOf(all[j + 1]);
      }
    }
  }

  /** A kept change has the path exactly when a wanted input is spelled so. */
  lemma KeptWithPath(cs: seq<ChangeInput>, p: Platform, path: Text)
    ensures (exists k :: k in KeptChanges(cs, p) && k.path == path) <==>
            (exists c :: c in cs && Wanted(c, p.nfc) && Spelled(c.path, p.nfc) == path)
  {
    hide NormalizeChange, Wanted, Spelled;
    KeptMembers(cs, p);
    if k :| k in KeptChanges(cs, p) && k.path == path {
      var c :| c in cs && NormalizeChange(c, p.nfc) == Kept(k);
      ChangeFate(c, p.nfc);
    }
    if c :| c in cs && Wanted(c, p.nfc) && Spelled(c.path, p.nfc) == path {
      ChangeFate(c, p.nfc);
      var k := NormalizeChange(c, p.nfc).change;
      assert NormalizeChange(c, p.nfc) == Kept(k) && k in KeptChanges(cs, p);
    }
  }

  /** Another wanted change is spelled like this one. */
  ghost predicate SpelledAgain(c: ChangeInput, rest: seq<ChangeInput>, nfc: Text -> Text) {
    Wanted(c, nfc) && exists d :: d in rest && Wanted(d, nfc) && Spelled(d.path, nfc) == Spelled(c.path, nfc)
  }

  lemma PathTwiceStep(cs: seq<ChangeInput>, nfc: Text -> Text)
    requires cs != []
    ensures PathTwice(cs, nfc) <==> PathTwice(cs[1..], nfc) || SpelledAgain(cs[0], cs[1..], nfc)
  {
    hide Wanted, Spelled;
    var rest := cs[1..];
    if PathTwice(cs, nfc) {
      var i, j :| 0 <= i < j < |cs| && SamePath(cs[i], cs[j], nfc);
      assert rest[j - 1] == cs[j];
      if i > 0 { assert rest[i - 1] == cs[i]; }
    }
    if PathTwice(rest, nfc) {
      var i, j :| 0 <= i < j < |rest| && SamePath(rest[i], rest[j], nfc);
      assert SamePath(cs[i + 1], cs[j + 1], nfc);
    }
    if d :| d in rest && SamePath(cs[0], d, nfc) {
      var k :| 0 <= k < |rest| && rest[k] == d;
      assert SamePath(cs[0], cs[k + 1], nfc);
    }
  }

  /** When there is a subject: the identifiers are of the right form, no change is rejected, and no path is changed
      twice. */
  lemma CanonicalExactly(input: SubjectInput, p: Platform)
    ensures Canonicalize(input, p).Some? <==>
              IdentifiersFine(input) && !SomeRejected(input.changes, p.nfc) && !PathTwice(input.changes, p.nfc)
  {
    RejectedMeans(input.changes, p);
    KeptPathsMean(input.changes, p);
    ObjectIdMeans(input.baseCommit);
    if input.headCommit.Some? { ObjectIdMeans(input.headCommit.value); }
    hide KeptChanges, SomeRejected, PathTwice, SortBy, CollationKey, Outcomes, IsObjectId, FullObjectId, UniqueKeys;
    hide SubjectOf;
    SortContents(KeptChanges(input.changes, p), CollationKey(p));
    var kept, sorted := KeptChanges(input.changes, p), SortBy(KeptChanges(input.changes, p), CollationKey(p));
    if UniqueKeys(kept, PathOf) { UniqueOfMultiset(kept, sorted, PathOf); }
    if UniqueKeys(sorted, PathOf) { UniqueOfMultiset(sorted, kept, PathOf); }
  }

  /** The text of a change's result. */
  function ResultText(r: ChangeResult): Text {
    if r.Blob? then [OPEN_OBJECT, QUOTE] + Ascii("blobOid") + [QUOTE, COLON, QUOTE] + r.oid + [QUOTE, CLOSE_OBJECT]
    else [OPEN_OBJECT, QUOTE] + Ascii("absent") + [QUOTE, COLON] + Ascii("true") + [CLOSE_OBJECT]
  }

  function StatusWord(s: ChangeStatus): (r: string)
    ensures forall i :: 0 <= i < |r| ==> r[i] as int < 128
  {
    match s
    case Added => "added"
    case Modified => "modified"
    case Deleted => "deleted"
    case Renamed => "renamed"
    case Copied => "copied"
    case TypeChanged => "type_changed"
  }

  /** What changes are ordered by: path, old path, status, mode and result, with a NUL between each two. */
  function ComparedBy(c: CanonicalChange): Text {
    var previous := if c.previousPath.Some? then c.previousPath.value else [];
    c.path + [0] + previous + [0] + Ascii(StatusWord(c.status)) + [0] + c.mode + [0] + ResultText(c.result)
  }

  lemma {:induction false} PlainIsItself(s: Text)
    requires forall i :: 0 <= i < |s| ==> IsPlain(s[i])
    ensures Escape(s) == s
  {
    if s != [] {
      PlainIsItself(s[1..]);
      assert s == [s[0]] + s[1..];
    }
  }

  /** The text of an object with one member. */
  lemma OneMember(e: Entry)
    ensures StableJson(Obj([e])) == [OPEN_OBJECT] + (Quote(e.key) + [COLON] + StableJson(e.value)) + [CLOSE_OBJECT]
  {
    hide Quote;
    assert Keys([e]) == [e.key] by { assert [e][1..] == []; }
    assert SortedKeys([e]) == [e.key] by { assert [e.key][1..] == []; }
    assert FieldsText([e], [e.key]) == Quote(e.key) + [COLON] + StableJson(e.value) + [];
  }

  lemma QuotePlain(s: Text)
    requires forall i :: 0 <= i < |s| ==> IsPlain(s[i])
    ensures Quote(s) == [QUOTE] + s + [QUOTE]
  {
    PlainIsItself(s);
  }

  /** The text of an object with one member that is written without escapes. */
  lemma MemberText(key: Text, value: Json, text: Text)
    requires (forall i :: 0 <= i < |key| ==> IsPlain(key[i])) && StableJson(value) == text
    ensures StableJson(Obj([Entry(key, value)])) == [OPEN_OBJECT, QUOTE] + key + [QUOTE, COLON] + text + [CLOSE_OBJECT]
  {
    OneMember(Entry(key, value));
    QuotePlain(key);
    hide StableJson, Quote;
    BraceText(key, text);
  }

  lemma BraceText(key: Text, text: Text)
    ensures [OPEN_OBJECT] + ([QUOTE] + key + [QUOTE] + [COLON] + text) + [CLOSE_OBJECT] ==
            [OPEN_OBJECT, QUOTE] + key + [QUOTE, COLON] + text + [CLOSE_OBJECT]
  {
  }

  lemma ResultIsPrinted(r: ChangeResult)
    requires r.Blob? ==> IsLowerHex(r.oid)
    ensures StableJson(ResultJson(r)) == ResultText(r)
  {
    if r.Blob? {
      QuotePlain(r.oid);
      assert StableJson(Str(r.oid)) == [QUOTE] + r.oid + [QUOTE];
      MemberText(Ascii("blobOid"), Str(r.oid), [QUOTE] + r.oid + [QUOTE]);
      hide StableJson, Quote;
    } else {
      assert StableJson(Bool(true)) == Ascii("true");
      hide StableJson, Quote;
      MemberText(Ascii("absent"), Bool(true), Ascii("true"));
    }
  }

  lemma StatusIsWord(s: ChangeStatus)
    ensures StatusName(s) == Ascii(StatusWord(s))
  {
  }

  lemma SortKeyExactly(c: CanonicalChange)
    requires c.result.Blob? ==> IsLowerHex(c.result.oid)
    ensures SortKey(c) == ComparedBy(c)
  {
    ResultIsPrinted(c.result);
    StatusIsWord(c.status);
    hide StableJson, ResultText, StatusName, StatusWord, ResultJson;
  }

  /** The changes stand in the order in which the collation puts what they are compared by. */
  ghost predicate InOrder(changes: seq<CanonicalChange>, collate: Text -> Text) {
    forall i, j :: 0 <= i < j < |changes| ==> AtMost(collate(ComparedBy(changes[i])), collate(ComparedBy(changes[j])))
  }

  /** The changes of a subject: those of the input that are wanted, each as it is recorded, no path twice, in order. */
  lemma SubjectContents(input: SubjectInput, p: Platform)
    requires Canonicalize(input, p).Some?
    ensures var changes := Canonicalize(input, p).value.changes;
            && (forall r :: r in changes <==>
                            exists c :: c in input.changes && Wanted(c, p.nfc) && Records(r, c, p.nfc))
            && UniqueKeys(changes, PathOf) && InOrder(changes, p.collate)
  {
    hide NormalizeChange, CollationKey, KeptChanges, Wanted, Records, UniqueKeys, SortBy, SubjectOf, Outcomes;
    hide Canonicalize, CleanChange, SortKey, ComparedBy;
    KeptContents(input, p);
    var changes := Canonicalize(input, p).value.changes;
    forall r ensures r in changes <==> exists c :: c in input.changes && Wanted(c, p.nfc) && Records(r, c, p.nfc) {
      if c :| c in input.changes && NormalizeChange(c, p.nfc) == Kept(r) { ChangeFate(c, p.nfc); }
      if c :| c in input.changes && Wanted(c, p.nfc) && Records(r, c, p.nfc) { ChangeFate(c, p.nfc); }
    }
    forall i, j | 0 <= i < j < |changes|
      ensures AtMost(p.collate(ComparedBy(changes[i])), p.collate(ComparedBy(changes[j])))
    {
      KeyOfClean(changes[i], p);
      KeyOfClean(changes[j], p);
    }
  }

  lemma KeyOfClean(c: CanonicalChange, p: Platform)
    requires CleanChange(c)
    ensures CollationKey(p)(c) == p.collate(ComparedBy(c))
  {
    SortKeyExactly(c);
    hide SortKey, ComparedBy;
  }

  const STATUS := Ascii("status")
  const PATH := Ascii("path")
  const PREVIOUS_PATH := Ascii("previousPath")
  const MODE := Ascii("mode")
  const RESULT := Ascii("result")
  const BLOB_OID := Ascii("blobOid")
  const ABSENT := Ascii("absent")

  /** An object that says what a change is. */
  ghost predicate Describes(v: Json, c: CanonicalChange) {
    && v.Obj?
    && Has(v.entries, STATUS, Str(Ascii(StatusWord(c.status)))) && Has(v.entries, PATH, Str(c.path))
    && HasIf(v.entries, PREVIOUS_PATH, c.previousPath) && Has(v.entries, MODE, Str(c.mode))
    && Has(v.entries, RESULT,
           Obj([if c.result.Blob? then Entry(BLOB_OID, Str(c.result.oid)) else Entry(ABSENT, Bool(true))]))
    && |v.entries| == if c.previousPath.Some? then 5 else 4
  }

  const SCHEMA := Ascii("my-pi/admission-subject/v1")
  const SCHEMA_KEY := Ascii("schemaVersion")
  const REPOSITORY_IDENTITY := Ascii("repositoryIdentity")
  const BASE_COMMIT := Ascii("baseCommit")
  const HEAD_COMMIT := Ascii("headCommit")
  const CHANGES := Ascii("changes")

  /** What the canonical text of a subject is the text of. */
  ghost predicate DescribesAll(es: seq<Entry>, s: Subject) {
    && Has(es, SCHEMA_KEY, Str(SCHEMA)) && Has(es, REPOSITORY_IDENTITY, Str(s.repositoryIdentity))
    && Has(es, BASE_COMMIT, Str(s.baseCommit)) && HasIf(es, HEAD_COMMIT, s.headCommit)
    && CHANGES in Keys(es) && Lookup(es, CHANGES).Arr?
    && (var items := Lookup(es, CHANGES).items;
        |items| == |s.changes| && forall k :: 0 <= k < |items| ==> Describes(items[k], s.changes[k]))
    && |es| == if s.headCommit.Some? then 5 else 4
  }

  lemma ChangeIsDescribed(c: CanonicalChange)
    ensures Describes(ChangeJson(c), c)
  {
    MemberShape(c);
    MembersUnique(c);
    ChangeIsObject(c);
    OldPathKey(c);
    StatusIsWord(c.status);
    hide Has, ChangeJson, Members, StatusName, StatusWord, UniqueKeys, Keys;
    var es := Members(c);
    HasAt(es, 0, STATUS, Str(StatusName(c.status)));
    HasAt(es, 1, PATH, Str(c.path));
    HasAt(es, |es| - 2, MODE, Str(c.mode));
    HasAt(es, |es| - 1, RESULT, ResultJson(c.result));
    if c.previousPath.Some? {
      HasAt(es, 2, PREVIOUS_PATH, Str(c.previousPath.value));
    } else {
      HasNot(es, PREVIOUS_PATH);
    }
  }

  /** The digest is taken of a text that records the identity, the commits in lower case, and the changes in order. */
  lemma SubjectIsRecorded(input: SubjectInput, p: Platform) returns (es: seq<Entry>)
    requires Canonicalize(input, p).Some?
    ensures var s := Canonicalize(input, p).value;
            && s.repositoryIdentity == input.repositoryIdentity && InLowerCase(s.baseCommit, input.baseCommit)
            && (s.headCommit.Some? <==> input.headCommit.Some?)
            && (s.headCommit.Some? ==> InLowerCase(s.headCommit.value, input.headCommit.value))
            && DescribesAll(es, s) && s.canonical == StableJson(Obj(es)) && s.subjectDigest == p.hash(s.canonical)
  {
    CanonicalExactly(input, p);
    LowerMeans(input.baseCommit, Lower(input.baseCommit));
    if input.headCommit.Some? { LowerMeans(input.headCommit.value, Lower(input.headCommit.value)); }
    hide NormalizeChange, CollationKey, KeptChanges, SortBy, Outcomes, UniqueKeys, SomeRejected, PathTwice, Lower;
    var s := Canonicalize(input, p).value;
    es := PayloadMembers(s);
    PayloadDescribes(s);
  }

  lemma PayloadDescribes(s: Subject)
    ensures DescribesAll(PayloadMembers(s), s)
  {
    var es := PayloadMembers(s);
    PayloadShape(s);
    PayloadUnique(s);
    HeadCommitKey(s);
    hide Has, PayloadMembers, ChangeJson, Describes, UniqueKeys, Keys;
    HasAt(es, 0, SCHEMA_KEY, Str(SCHEMA));
    HasAt(es, 1, REPOSITORY_IDENTITY, Str(s.repositoryIdentity));
    HasAt(es, 2, BASE_COMMIT, Str(s.baseCommit));
    if s.headCommit.Some? { HasAt(es, 3, HEAD_COMMIT, Str(s.headCommit.value)); } else { HasNot(es, HEAD_COMMIT); }
    ChangesListed(s, es);
  }

  lemma ChangesListed(s: Subject, es: seq<Entry>)
    requires es != [] && UniqueKeys(Keys(es), Self)
    requires es[|es| - 1] == Entry(CHANGES, Arr(Mapped(s.changes, ChangeJson)))
    ensures CHANGES in Keys(es) && Lookup(es, CHANGES) == Arr(Mapped(s.changes, ChangeJson))
    ensures forall k :: 0 <= k < |s.changes| ==> Describes(Mapped(s.changes, ChangeJson)[k], s.changes[k])
  {
    hide Keys, Lookup, ChangeJson, Describes, UniqueKeys;
    LookupAt(es, |es| - 1);
    forall k | 0 <= k < |s.changes| ensures Describes(Mapped(s.changes, ChangeJson)[k], s.changes[k]) {
      ChangeIsDescribed(s.changes[k]);
    }
  }
}
