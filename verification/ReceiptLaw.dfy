/** What a receipt records, key by key. */
module ReceiptLaw {
  import opened Text
  import opened Wrappers
  import opened Json
  import opened ReceiptPrinter
  import opened Receipt
  import Sorting

  const ID := Ascii("id")
  const PROPOSAL_ID := Ascii("proposalId")
  const PROJECT_ID := Ascii("projectId")
  const WORKTREE_ID := Ascii("worktreeId")
  const AGENT_SESSION_ID := Ascii("agentSessionId")
  const PLAN_DIGEST := Ascii("planDigest")
  const STATUS := Ascii("status")
  const INPUT_VERSIONS := Ascii("inputVersions")
  const OUTPUT_VERSIONS := Ascii("outputVersions")
  const RESOURCES := Ascii("resources")
  const RESOURCE_RESULTS := Ascii("resourceResults")
  const VERIFICATION := Ascii("verification")
  const STARTED_AT := Ascii("startedAt")
  const PUBLISHED_AT := Ascii("publishedAt")
  const COMPLETED_AT := Ascii("completedAt")
  const VERIFIED := Ascii("verified")
  const DIGEST := Ascii("digest")

  // ---------- The members stand in a fixed order ----------

  /** The keys of a receipt in their order. */
  function Place(key: Text): nat {
    if key == ID then 0 else if key == PROPOSAL_ID then 1 else if key == PROJECT_ID then 2
    else if key == WORKTREE_ID then 3 else if key == AGENT_SESSION_ID then 4 else if key == PLAN_DIGEST then 5
    else if key == STATUS then 6 else if key == INPUT_VERSIONS then 7 else if key == OUTPUT_VERSIONS then 8
    else if key == RESOURCES then 9 else if key == RESOURCE_RESULTS then 10 else if key == VERIFICATION then 11
    else if key == STARTED_AT then 12 else if key == PUBLISHED_AT then 13 else if key == COMPLETED_AT then 14
    else 15
  }

  lemma KeyLengths()
    ensures |ID| == 2 && |PROPOSAL_ID| == 10 && |PROJECT_ID| == 9 && |WORKTREE_ID| == 10 && |AGENT_SESSION_ID| == 14
    ensures |PLAN_DIGEST| == 10 && |STATUS| == 6 && |INPUT_VERSIONS| == 13 && |OUTPUT_VERSIONS| == 14
    ensures |RESOURCES| == 9 && |RESOURCE_RESULTS| == 15 && |VERIFICATION| == 12 && |STARTED_AT| == 9
    ensures |PUBLISHED_AT| == 11 && |COMPLETED_AT| == 11 && |RECEIPT_DIGEST| == 13
  {
  }

  lemma KeyLetters()
    ensures PROPOSAL_ID[1] == 114 && PLAN_DIGEST[1] == 108 && WORKTREE_ID[1] == 111
    ensures PROJECT_ID[0] == 112 && RESOURCES[0] == 114 && STARTED_AT[0] == 115
    ensures AGENT_SESSION_ID[0] == 97 && OUTPUT_VERSIONS[0] == 111
    ensures INPUT_VERSIONS[0] == 105 && RECEIPT_DIGEST[0] == 114
    ensures PUBLISHED_AT[0] == 112 && COMPLETED_AT[0] == 99
  {
  }

  lemma Places()
    ensures Place(ID) == 0 && Place(PROPOSAL_ID) == 1 && Place(PROJECT_ID) == 2 && Place(WORKTREE_ID) == 3
    ensures Place(AGENT_SESSION_ID) == 4 && Place(PLAN_DIGEST) == 5 && Place(STATUS) == 6
    ensures Place(INPUT_VERSIONS) == 7 && Place(OUTPUT_VERSIONS) == 8 && Place(RESOURCES) == 9
    ensures Place(RESOURCE_RESULTS) == 10 && Place(VERIFICATION) == 11 && Place(STARTED_AT) == 12
    ensures Place(PUBLISHED_AT) == 13 && Place(COMPLETED_AT) == 14 && Place(RECEIPT_DIGEST) == 15
  {
    KeyLengths();
    KeyLetters();
  }

  /** The keys stand in order, at places from lo on and before hi. */
  predicate Placed(es: seq<Entry>, lo: nat, hi: nat) {
    && (forall i :: 0 <= i < |es| ==> lo <= Place(es[i].key) < hi)
    && forall i, j :: 0 <= i < j < |es| ==> Place(es[i].key) < Place(es[j].key)
  }

  lemma PlacedTogether(a: seq<Entry>, b: seq<Entry>, lo: nat, mid: nat, hi: nat)
    requires Placed(a, lo, mid) && Placed(b, mid, hi) && lo <= mid <= hi
    ensures Placed(a + b, lo, hi)
  {
    hide Place;
  }

  lemma PlacedUnique(es: seq<Entry>, lo: nat, hi: nat)
    requires Placed(es, lo, hi)
    ensures Sorting.UniqueKeys(Keys(es), Self)
  {
    hide Place;
    assert forall i :: 0 <= i < |es| ==> Keys(es)[i] == es[i].key;
  }

  lemma HasMember(es: seq<Entry>, lo: nat, hi: nat, e: Entry)
    requires Placed(es, lo, hi) && e in es
    ensures Has(es, e.key, e.value)
  {
    hide Place, Placed, Has;
    PlacedUnique(es, lo, hi);
    var i :| 0 <= i < |es| && es[i] == e;
    HasAt(es, i, e.key, e.value);
  }

  // ---------- Each part ----------

  lemma OnePlaced(e: Entry, n: nat)
    requires Place(e.key) == n
    ensures Placed([e], n, n + 1)
  {
    hide Place;
  }

  lemma OptionalPlaced(key: Text, value: Option<Text>, n: nat)
    requires Place(key) == n
    ensures Placed(OptionalMember(key, value), n, n + 1)
  {
    hide Place;
  }

  lemma OriginPlaced(id: Text, p: Proposal)
    ensures Placed(OriginOf(id, p), 0, 6)
  {
    Places();
    hide Place, Placed;
    OnePlaced(Entry(ID, Str(id)), 0);
    OnePlaced(Entry(PROPOSAL_ID, Str(p.id)), 1);
    OnePlaced(Entry(PROJECT_ID, Str(p.projectId)), 2);
    OptionalPlaced(WORKTREE_ID, p.worktreeId, 3);
    OptionalPlaced(AGENT_SESSION_ID, p.agentSessionId, 4);
    OptionalPlaced(PLAN_DIGEST, p.planDigest, 5);
    hide OptionalMember;
    var a := TextMember(ID, id) + TextMember(PROPOSAL_ID, p.id);
    PlacedTogether(TextMember(ID, id), TextMember(PROPOSAL_ID, p.id), 0, 1, 2);
    PlacedTogether(a, TextMember(PROJECT_ID, p.projectId), 0, 2, 3);
    var b := a + TextMember(PROJECT_ID, p.projectId);
    var c := b + OptionalMember(WORKTREE_ID, p.worktreeId);
    PlacedTogether(b, OptionalMember(WORKTREE_ID, p.worktreeId), 0, 3, 4);
    PlacedTogether(c, OptionalMember(AGENT_SESSION_ID, p.agentSessionId), 0, 4, 5);
    PlacedTogether(c + OptionalMember(AGENT_SESSION_ID, p.agentSessionId), OptionalMember(PLAN_DIGEST, p.planDigest),
      0, 5, 6);
  }

  lemma VersionsPlaced(status: Status, inputs: Json, outputs: Json, results: Option<Json>)
    ensures Placed(VersionsOf(status, inputs, outputs, results), 6, 11)
  {
    Places();
    hide Place, StatusText;
  }

  lemma VerificationPlaced(v: Json)
    ensures Placed([Entry(VERIFICATION, v)], 11, 12)
  {
    Places();
    hide Place;
  }

  lemma TimesPlaced(startedAt: Text, completedAt: Text)
    ensures Placed(TimesOf(startedAt, completedAt), 12, 15)
  {
    Places();
    hide Place;
  }

  lemma ReceiptPlaced(
      id: Text, p: Proposal, status: Status, inputs: Json, outputs: Json, startedAt: Text, completedAt: Text,
      results: Option<Json>, hash: Hash)
    ensures Placed(MakeReceipt(id, p, status, inputs, outputs, startedAt, completedAt, results, hash), 0, 16)
  {
    hide Place, Placed, OriginOf, VersionsOf, VerificationOf, TimesOf;
    var base := BaseOf(id, p, status, inputs, outputs, startedAt, completedAt, results, hash);
    OriginPlaced(id, p);
    VersionsPlaced(status, inputs, outputs, results);
    VerificationPlaced(VerificationOf(status, outputs, hash));
    TimesPlaced(startedAt, completedAt);
    var a := OriginOf(id, p) + VersionsOf(status, inputs, outputs, results);
    PlacedTogether(OriginOf(id, p), VersionsOf(status, inputs, outputs, results), 0, 6, 11);
    var b := a + [Entry(VERIFICATION, VerificationOf(status, outputs, hash))];
    PlacedTogether(a, [Entry(VERIFICATION, VerificationOf(status, outputs, hash))], 0, 11, 12);
    PlacedTogether(b, TimesOf(startedAt, completedAt), 0, 12, 15);
    DigestPlaced(ReceiptDigest(base, hash));
    PlacedTogether(base, [Entry(RECEIPT_DIGEST, Str(ReceiptDigest(base, hash)))], 0, 15, 16);
  }

  lemma DigestPlaced(digest: Text)
    ensures Placed([Entry(RECEIPT_DIGEST, Str(digest))], 15, 16)
  {
    Places();
    hide Place;
  }

  // ---------- What a receipt records ----------

  const APPLIED := Ascii("APPLIED")
  const REJECTED := Ascii("REJECTED")
  const PARTIAL := Ascii("PARTIAL")

  function StatusWord(status: Status): Text {
    match status
    case Applied => APPLIED
    case Rejected => REJECTED
    case Partial => PARTIAL
  }

  /** Where the change comes from. */
  ghost predicate TellsOrigin(r: seq<Entry>, id: Text, p: Proposal) {
    && Has(r, ID, Str(id)) && Has(r, PROPOSAL_ID, Str(p.id)) && Has(r, PROJECT_ID, Str(p.projectId))
    && HasIf(r, WORKTREE_ID, p.worktreeId) && HasIf(r, AGENT_SESSION_ID, p.agentSessionId)
    && HasIf(r, PLAN_DIGEST, p.planDigest)
  }

  /** What was found, and what was left: the outputs are given twice, and the results by resource only if there are
      any. */
  ghost predicate TellsVersions(r: seq<Entry>, status: Status, inputs: Json, outputs: Json, results: Option<Json>) {
    && Has(r, STATUS, Str(StatusWord(status)))
    && Has(r, INPUT_VERSIONS, inputs) && Has(r, OUTPUT_VERSIONS, outputs) && Has(r, RESOURCES, outputs)
    && (if results.Some? then Has(r, RESOURCE_RESULTS, results.value) else RESOURCE_RESULTS !in Keys(r))
  }

  /** Verified is said exactly of what was applied, with a digest of the outputs the receipt lists. */
  ghost predicate TellsVerification(r: seq<Entry>, status: Status, hash: Hash) {
    && VERIFICATION in Keys(r) && OUTPUT_VERSIONS in Keys(r) && Lookup(r, VERIFICATION).Obj?
    && var v := Lookup(r, VERIFICATION).entries;
       && |v| == 2 && Has(v, VERIFIED, Bool(status.Applied?))
       && Has(v, DIGEST, Str(hash(ReceiptJson(Lookup(r, OUTPUT_VERSIONS)))))
  }

  ghost predicate TellsTimes(r: seq<Entry>, startedAt: Text, completedAt: Text) {
    && Has(r, STARTED_AT, Str(startedAt))
    && Has(r, PUBLISHED_AT, Str(completedAt)) && Has(r, COMPLETED_AT, Str(completedAt))
  }

  /** The members of a receipt are those of its parts, in a fixed order. */
  ghost predicate Parts(r: seq<Entry>, o: seq<Entry>, v: seq<Entry>, verification: Json, t: seq<Entry>, digest: Text) {
    && Placed(r, 0, 16) && Placed(o, 0, 6) && Placed(v, 6, 11) && Placed(t, 12, 15)
    && forall e :: e in r <==>
                     e in o || e in v || e == Entry(VERIFICATION, verification) || e in t ||
                     e == Entry(RECEIPT_DIGEST, Str(digest))
  }

  lemma PartsOfReceipt(
      id: Text, p: Proposal, status: Status, inputs: Json, outputs: Json, startedAt: Text, completedAt: Text,
      results: Option<Json>, hash: Hash)
    ensures var r := MakeReceipt(id, p, status, inputs, outputs, startedAt, completedAt, results, hash);
            && RECEIPT_DIGEST !in Keys(BaseOf(id, p, status, inputs, outputs, startedAt, completedAt, results, hash))
            && Parts(r, OriginOf(id, p), VersionsOf(status, inputs, outputs, results),
                     VerificationOf(status, outputs, hash), TimesOf(startedAt, completedAt),
                     hash(ReceiptJson(Obj(Unsealed(r)))))
  {
    hide OriginOf, VersionsOf, VerificationOf, TimesOf, ReceiptJson, Placed, Unsealed, Keys;
    var base := BaseOf(id, p, status, inputs, outputs, startedAt, completedAt, results, hash);
    ReceiptPlaced(id, p, status, inputs, outputs, startedAt, completedAt, results, hash);
    OriginPlaced(id, p);
    VersionsPlaced(status, inputs, outputs, results);
    TimesPlaced(startedAt, completedAt);
    BaseHasNoDigest(id, p, status, inputs, outputs, startedAt, completedAt, results, hash);
    UnsealedSeal(base, hash);
  }

  /** Taking the digest off again leaves what was sealed. */
  lemma UnsealedSeal(base: seq<Entry>, hash: Hash)
    requires RECEIPT_DIGEST !in Keys(base)
    ensures Unsealed(Seal(base, hash)) == base
  {
    var last := Entry(RECEIPT_DIGEST, Str(ReceiptDigest(base, hash)));
    UnsealedConcat(base, [last]);
    UnsealedBase(base);
    assert Unsealed([last]) == [];
    assert base + [] == base;
  }

  lemma OriginMembers(id: Text, p: Proposal)
    ensures var o := OriginOf(id, p);
            && Entry(ID, Str(id)) in o && Entry(PROPOSAL_ID, Str(p.id)) in o && Entry(PROJECT_ID, Str(p.projectId)) in o
            && (p.worktreeId.Some? ==> Entry(WORKTREE_ID, Str(p.worktreeId.value)) in o)
            && (p.agentSessionId.Some? ==> Entry(AGENT_SESSION_ID, Str(p.agentSessionId.value)) in o)
            && (p.planDigest.Some? ==> Entry(PLAN_DIGEST, Str(p.planDigest.value)) in o)
            && (p.worktreeId.None? ==> forall e :: e in o ==> Place(e.key) != 3)
            && (p.agentSessionId.None? ==> forall e :: e in o ==> Place(e.key) != 4)
            && (p.planDigest.None? ==> forall e :: e in o ==> Place(e.key) != 5)
  {
    Places();
    hide Place;
  }

  lemma VersionsMembers(status: Status, inputs: Json, outputs: Json, results: Option<Json>)
    ensures var v := VersionsOf(status, inputs, outputs, results);
            && Entry(STATUS, Str(StatusWord(status))) in v
            && Entry(INPUT_VERSIONS, inputs) in v && Entry(OUTPUT_VERSIONS, outputs) in v &&
               Entry(RESOURCES, outputs) in v
            && (results.Some? ==> Entry(RESOURCE_RESULTS, results.value) in v)
            && (results.None? ==> forall e :: e in v ==> Place(e.key) != 10)
  {
    Places();
    hide Place;
  }

  lemma VerificationMembers(status: Status, outputs: Json, hash: Hash)
    ensures var v := VerificationOf(status, outputs, hash);
            && v.Obj? && |v.entries| == 2 && Has(v.entries, VERIFIED, Bool(status.Applied?))
            && Has(v.entries, DIGEST, Str(hash(ReceiptJson(outputs))))
  {
    assert VERIFIED[0] == 118 && DIGEST[0] == 100;
    hide ReceiptJson, Has;
    var es := VerificationOf(status, outputs, hash).entries;
    assert forall i :: 0 <= i < 2 ==> Keys(es)[i] == es[i].key;
    HasAt(es, 0, VERIFIED, Bool(status.Applied?));
    HasAt(es, 1, DIGEST, Str(hash(ReceiptJson(outputs))));
  }

  lemma TimesMembers(startedAt: Text, completedAt: Text)
    ensures var t := TimesOf(startedAt, completedAt);
            Entry(STARTED_AT, Str(startedAt)) in t && Entry(PUBLISHED_AT, Str(completedAt)) in t &&
            Entry(COMPLETED_AT, Str(completedAt)) in t
  {
    var t := TimesOf(startedAt, completedAt);
    assert t[0] == Entry(STARTED_AT, Str(startedAt)) && t[1].key == PUBLISHED_AT && t[2].key == COMPLETED_AT;
  }

  lemma AbsentKey(r: seq<Entry>, key: Text)
    requires forall e :: e in r ==> Place(e.key) != Place(key)
    ensures HasIf(r, key, None)
  {
    hide Place;
    assert forall i :: 0 <= i < |r| ==> r[i] in r;
    HasNot(r, key);
  }

  lemma RecordsOrigin(
      r: seq<Entry>, id: Text, p: Proposal, v: seq<Entry>, verification: Json, t: seq<Entry>, digest: Text)
    requires Parts(r, OriginOf(id, p), v, verification, t, digest)
    ensures TellsOrigin(r, id, p)
  {
    Places();
    OriginMembers(id, p);
    hide Place, OriginOf, Has, HasIf;
    if p.worktreeId.None? { AbsentKey(r, WORKTREE_ID); } else { HasText(r, WORKTREE_ID, p.worktreeId.value); }
    if p.agentSessionId.None? { AbsentKey(r, AGENT_SESSION_ID); }
    else { HasText(r, AGENT_SESSION_ID, p.agentSessionId.value); }
    if p.planDigest.None? { AbsentKey(r, PLAN_DIGEST); } else { HasText(r, PLAN_DIGEST, p.planDigest.value); }
    hide Placed;
    HasMember(r, 0, 16, Entry(ID, Str(id)));
    HasMember(r, 0, 16, Entry(PROPOSAL_ID, Str(p.id)));
    HasMember(r, 0, 16, Entry(PROJECT_ID, Str(p.projectId)));
  }

  lemma HasText(r: seq<Entry>, key: Text, value: Text)
    requires Placed(r, 0, 16) && Entry(key, Str(value)) in r
    ensures HasIf(r, key, Some(value))
  {
    hide Place, Placed, Has;
    HasMember(r, 0, 16, Entry(key, Str(value)));
  }

  lemma RecordsVersions(
      r: seq<Entry>, o: seq<Entry>, status: Status, inputs: Json, outputs: Json, results: Option<Json>,
      verification: Json, t: seq<Entry>, digest: Text)
    requires Parts(r, o, VersionsOf(status, inputs, outputs, results), verification, t, digest)
    ensures TellsVersions(r, status, inputs, outputs, results)
  {
    Places();
    VersionsMembers(status, inputs, outputs, results);
    hide Place, VersionsOf, Has, HasIf;
    if results.None? {
      AbsentKey(r, RESOURCE_RESULTS);
      NoKey(r, RESOURCE_RESULTS);
    } else { HasMember(r, 0, 16, Entry(RESOURCE_RESULTS, results.value)); }
    hide Placed;
    HasMember(r, 0, 16, Entry(STATUS, Str(StatusWord(status))));
    HasMember(r, 0, 16, Entry(INPUT_VERSIONS, inputs));
    HasMember(r, 0, 16, Entry(OUTPUT_VERSIONS, outputs));
    HasMember(r, 0, 16, Entry(RESOURCES, outputs));
  }

  lemma NoKey(r: seq<Entry>, key: Text)
    requires HasIf(r, key, None)
    ensures key !in Keys(r)
  {
  }

  lemma RecordsVerification(
      r: seq<Entry>, o: seq<Entry>, v: seq<Entry>, status: Status, outputs: Json, t: seq<Entry>, digest: Text,
      hash: Hash)
    requires Parts(r, o, v, VerificationOf(status, outputs, hash), t, digest) && Entry(OUTPUT_VERSIONS, outputs) in v
    ensures TellsVerification(r, status, hash)
  {
    VerificationMembers(status, outputs, hash);
    hide Place, Placed, VerificationOf, Lookup, Keys, ReceiptJson;
    HasMember(r, 0, 16, Entry(VERIFICATION, VerificationOf(status, outputs, hash)));
    HasMember(r, 0, 16, Entry(OUTPUT_VERSIONS, outputs));
  }

  lemma RecordsTimes(
      r: seq<Entry>, o: seq<Entry>, v: seq<Entry>, verification: Json, startedAt: Text, completedAt: Text, digest: Text)
    requires Parts(r, o, v, verification, TimesOf(startedAt, completedAt), digest)
    ensures TellsTimes(r, startedAt, completedAt)
  {
    TimesMembers(startedAt, completedAt);
    hide Place, Placed, Has, TimesOf;
    HasMember(r, 0, 16, Entry(STARTED_AT, Str(startedAt)));
    HasMember(r, 0, 16, Entry(PUBLISHED_AT, Str(completedAt)));
    HasMember(r, 0, 16, Entry(COMPLETED_AT, Str(completedAt)));
  }

  /** Every key is one of the fifteen or that of the digest, and no key stands twice. */
  ghost predicate OnlyKnownKeys(r: seq<Entry>) {
    (forall e :: e in r ==> Place(e.key) < 15 || e.key == RECEIPT_DIGEST) && Sorting.UniqueKeys(Keys(r), Self)
  }

  lemma NothingElse(r: seq<Entry>, o: seq<Entry>, v: seq<Entry>, verification: Json, t: seq<Entry>, digest: Text)
    requires Parts(r, o, v, verification, t, digest)
    ensures OnlyKnownKeys(r)
  {
    Places();
    PlacedUnique(r, 0, 16);
    hide Place;
  }

  /** What a made receipt records: each argument under its key and an optional one only if it is given, the status and
      what follows from it, and the digest of everything else. */
  lemma ReceiptRecords(
      id: Text, p: Proposal, status: Status, inputs: Json, outputs: Json, startedAt: Text, completedAt: Text,
      results: Option<Json>, hash: Hash)
    ensures var r := MakeReceipt(id, p, status, inputs, outputs, startedAt, completedAt, results, hash);
            && TellsOrigin(r, id, p) && TellsVersions(r, status, inputs, outputs, results)
            && TellsVerification(r, status, hash) && TellsTimes(r, startedAt, completedAt)
            && Has(r, RECEIPT_DIGEST, Str(hash(ReceiptJson(Obj(Unsealed(r))))))
            && OnlyKnownKeys(r)
  {
    var r := MakeReceipt(id, p, status, inputs, outputs, startedAt, completedAt, results, hash);
    var o, v, t := OriginOf(id, p), VersionsOf(status, inputs, outputs, results), TimesOf(startedAt, completedAt);
    var verification, digest := VerificationOf(status, outputs, hash), hash(ReceiptJson(Obj(Unsealed(r))));
    PartsOfReceipt(id, p, status, inputs, outputs, startedAt, completedAt, results, hash);
    VersionsMembers(status, inputs, outputs, results);
    hide MakeReceipt, OriginOf, VersionsOf, VerificationOf, TimesOf, ReceiptJson, Has, Unsealed, Place, Placed;
    hide TellsOrigin, TellsVersions, TellsVerification, TellsTimes, OnlyKnownKeys;
    NothingElse(r, o, v, verification, t, digest);
    RecordsOrigin(r, id, p, v, verification, t, digest);
    RecordsVersions(r, o, status, inputs, outputs, results, verification, t, digest);
    RecordsVerification(r, o, v, status, outputs, t, digest, hash);
    RecordsTimes(r, o, v, verification, startedAt, completedAt, digest);
    HasMember(r, 0, 16, Entry(RECEIPT_DIGEST, Str(digest)));
  }
}
