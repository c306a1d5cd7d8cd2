/** Change receipts: how they are sealed, and what a sealed receipt can be trusted for. */
module Receipt {
  import opened Text
  import opened Wrappers
  import opened Json
  import opened ReceiptPrinter
  import Sorting

  /** SHA-256 of the UTF-8 encoding, in hexadecimal, taken to be injective on texts that have such an encoding. */
  type Hash = Text -> Text

  ghost predicate Collisionless(hash: Hash) {
    && (forall a :: hash(a) != [])
    && (forall a, b :: Paired(a) && Paired(b) && hash(a) == hash(b) ==> a == b)
  }

  datatype Status = Applied | Rejected | Partial

  /** What a receipt takes over from its proposal. */
  datatype Proposal = Proposal(
    id: Text, projectId: Text, worktreeId: Option<Text>, agentSessionId: Option<Text>, planDigest: Option<Text>)

  const RECEIPT_DIGEST := Ascii("receiptDigest")

  function StatusText(s: Status): Text {
    match s
    case Applied => Ascii("APPLIED")
    case Rejected => Ascii("REJECTED")
    case Partial => Ascii("PARTIAL")
  }

  function TextMember(key: Text, value: Text): seq<Entry> { [Entry(key, Str(value))] }

  function OptionalMember(key: Text, value: Option<Text>): seq<Entry> {
    if value.Some? then TextMember(key, value.value) else []
  }

  function OriginOf(id: Text, proposal: Proposal): seq<Entry> {
    TextMember(Ascii("id"), id)
    + TextMember(Ascii("proposalId"), proposal.id)
    + TextMember(Ascii("projectId"), proposal.projectId)
    + OptionalMember(Ascii("worktreeId"), proposal.worktreeId)
    + OptionalMember(Ascii("agentSessionId"), proposal.agentSessionId)
    + OptionalMember(Ascii("planDigest"), proposal.planDigest)
  }

  function VersionsOf(
      status: Status, inputVersions: Json, outputVersions: Json, resourceResults: Option<Json>): seq<Entry>
  {
    TextMember(Ascii("status"), StatusText(status))
    + [Entry(Ascii("inputVersions"), inputVersions), Entry(Ascii("outputVersions"), outputVersions),
        Entry(Ascii("resources"), outputVersions)]
    + (if resourceResults.Some? then [Entry(Ascii("resourceResults"), resourceResults.value)] else [])
  }

  function VerificationOf(status: Status, outputVersions: Json, hash: Hash): Json {
    Obj([Entry(Ascii("verified"), Bool(status == Applied)),
      Entry(Ascii("digest"), Str(hash(ReceiptJson(outputVersions))))])
  }

  function TimesOf(startedAt: Text, completedAt: Text): seq<Entry> {
    TextMember(Ascii("startedAt"), startedAt)
    + TextMember(Ascii("publishedAt"), completedAt)
    + TextMember(Ascii("completedAt"), completedAt)
  }

  /** The members of a receipt before it is sealed. */
  function BaseOf(
      id: Text, proposal: Proposal, status: Status, inputVersions: Json, outputVersions: Json,
      startedAt: Text, completedAt: Text, resourceResults: Option<Json>, hash: Hash): seq<Entry>
  {
    OriginOf(id, proposal)
    + VersionsOf(status, inputVersions, outputVersions, resourceResults)
    + [Entry(Ascii("verification"), VerificationOf(status, outputVersions, hash))]
    + TimesOf(startedAt, completedAt)
  }

  function ReceiptDigest(base: seq<Entry>, hash: Hash): Text { hash(ReceiptJson(Obj(base))) }

  /** Adds the digest of all the other members. */
  function Seal(base: seq<Entry>, hash: Hash): seq<Entry> {
    base + [Entry(RECEIPT_DIGEST, Str(ReceiptDigest(base, hash)))]
  }

  function MakeReceipt(
      id: Text, proposal: Proposal, status: Status, inputVersions: Json, outputVersions: Json,
      startedAt: Text, completedAt: Text, resourceResults: Option<Json>, hash: Hash): seq<Entry>
  {
    Seal(BaseOf(id, proposal, status, inputVersions, outputVersions, startedAt, completedAt, resourceResults, hash),
      hash)
  }

  /** The members other than the digest. */
  function Unsealed(receipt: seq<Entry>): (r: seq<Entry>)
    ensures forall e :: e in r <==> e in receipt && e.key != RECEIPT_DIGEST
  {
    if receipt == [] then []
    else (if receipt[0].key == RECEIPT_DIGEST then [] else [receipt[0]]) + Unsealed(receipt[1..])
  }

  function DigestMember(receipt: seq<Entry>): Json {
    if RECEIPT_DIGEST in Keys(receipt) then Lookup(receipt, RECEIPT_DIGEST) else Undefined
  }

  /** An absent, empty or non-text digest never verifies. */
  predicate VerifyReceipt(receipt: seq<Entry>, hash: Hash) {
    var digest := DigestMember(receipt);
    digest.Str? && digest.text != [] && ReceiptDigest(Unsealed(receipt), hash) == digest.text
  }

  // ---------- Sealing and verifying ----------

  lemma {:induction false} KeysConcat(a: seq<Entry>, b: seq<Entry>)
    ensures Keys(a + b) == Keys(a) + Keys(b)
  {
    hide Keys;
  }

  lemma {:induction false} UnsealedConcat(a: seq<Entry>, b: seq<Entry>)
    ensures Unsealed(a + b) == Unsealed(a) + Unsealed(b)
  {
    if a == [] {
      assert a + b == b;
    } else {
      assert (a + b)[1..] == a[1..] + b;
      UnsealedConcat(a[1..], b);
    }
  }

  lemma {:induction false} UnsealedBase(base: seq<Entry>)
    requires RECEIPT_DIGEST !in Keys(base)
    ensures Unsealed(base) == base
  {
    if base != [] {
      assert base[0].key in Keys(base);
      UnsealedBase(base[1..]);
      assert base == [base[0]] + base[1..];
    }
  }

  lemma {:induction false} LookupLast(base: seq<Entry>, e: Entry)
    requires e.key !in Keys(base)
    ensures e.key in Keys(base + [e]) && Lookup(base + [e], e.key) == e.value
  {
    KeysConcat(base, [e]);
    assert Keys([e]) == [e.key];
    if base != [] {
      assert (base + [e])[1..] == base[1..] + [e];
      LookupLast(base[1..], e);
    }
  }

  /** Whatever is sealed verifies. */
  lemma SealVerifies(base: seq<Entry>, hash: Hash)
    requires Collisionless(hash) && RECEIPT_DIGEST !in Keys(base)
    ensures VerifyReceipt(Seal(base, hash), hash)
  {
    var last := Entry(RECEIPT_DIGEST, Str(ReceiptDigest(base, hash)));
    UnsealedConcat(base, [last]);
    UnsealedBase(base);
    LookupLast(base, last);
    assert Unsealed([last]) == [];
    assert base + [] == base;
  }

  /** A receipt the runtime makes verifies. */
  lemma MadeReceiptVerifies(
      id: Text, proposal: Proposal, status: Status, inputVersions: Json, outputVersions: Json,
      startedAt: Text, completedAt: Text, resourceResults: Option<Json>, hash: Hash)
    requires Collisionless(hash)
    ensures VerifyReceipt(MakeReceipt(id, proposal, status, inputVersions, outputVersions, startedAt, completedAt,
            resourceResults, hash), hash)
  {
    var base := BaseOf(id, proposal, status, inputVersions, outputVersions, startedAt, completedAt, resourceResults,
        hash);
    BaseHasNoDigest(id, proposal, status, inputVersions, outputVersions, startedAt, completedAt, resourceResults, hash);
    SealVerifies(base, hash);
  }

  predicate NoDigest(es: seq<Entry>) { forall i :: 0 <= i < |es| ==> es[i].key != RECEIPT_DIGEST }

  lemma NoDigestConcat(a: seq<Entry>, b: seq<Entry>)
    requires NoDigest(a) && NoDigest(b)
    ensures NoDigest(a + b)
  {
  }

  lemma DigestKeyUnits()
    ensures |RECEIPT_DIGEST| == 13 && RECEIPT_DIGEST[0] == 114 && RECEIPT_DIGEST[2] == 99
  {
  }

  lemma OriginHasNoDigest(id: Text, proposal: Proposal)
    ensures NoDigest(OriginOf(id, proposal))
  {
    DigestKeyUnits();
  }

  lemma VersionsHaveNoDigest(status: Status, inputVersions: Json, outputVersions: Json, resourceResults: Option<Json>)
    ensures NoDigest(VersionsOf(status, inputVersions, outputVersions, resourceResults))
  {
    hide StatusText;
    DigestKeyUnits();
    assert Ascii("inputVersions")[0] == 105;
  }

  lemma TimesHaveNoDigest(startedAt: Text, completedAt: Text)
    ensures NoDigest(TimesOf(startedAt, completedAt))
  {
    DigestKeyUnits();
  }

  lemma BaseHasNoDigest(
      id: Text, proposal: Proposal, status: Status, inputVersions: Json, outputVersions: Json,
      startedAt: Text, completedAt: Text, resourceResults: Option<Json>, hash: Hash)
    ensures RECEIPT_DIGEST !in Keys(BaseOf(id, proposal, status, inputVersions, outputVersions, startedAt, completedAt,
            resourceResults, hash))
  {
    hide OriginOf, VersionsOf, TimesOf, VerificationOf, NoDigest;
    OriginHasNoDigest(id, proposal);
    VersionsHaveNoDigest(status, inputVersions, outputVersions, resourceResults);
    TimesHaveNoDigest(startedAt, completedAt);
    var v := VerificationOf(status, outputVersions, hash);
    VerificationKey(v);
    var a := OriginOf(id, proposal) + VersionsOf(status, inputVersions, outputVersions, resourceResults);
    NoDigestConcat(OriginOf(id, proposal), VersionsOf(status, inputVersions, outputVersions, resourceResults));
    NoDigestConcat(a, [Entry(Ascii("verification"), v)]);
    NoDigestConcat(a + [Entry(Ascii("verification"), v)], TimesOf(startedAt, completedAt));
    NoDigestKeys(a + [Entry(Ascii("verification"), v)] + TimesOf(startedAt, completedAt));
  }

  lemma VerificationKey(v: Json)
    ensures NoDigest([Entry(Ascii("verification"), v)])
  {
    DigestKeyUnits();
    assert Ascii("verification")[0] == 118;
  }

  lemma NoDigestKeys(es: seq<Entry>)
    requires NoDigest(es)
    ensures RECEIPT_DIGEST !in Keys(es)
  {
  }

  lemma UnsealedDefined(receipt: seq<Entry>)
    requires Defined(Obj(receipt))
    ensures Defined(Obj(Unsealed(receipt)))
  {
    forall i | 0 <= i < |Unsealed(receipt)| ensures Defined(Unsealed(receipt)[i].value) {
      assert Unsealed(receipt)[i] in receipt;
    }
  }

  lemma UnsealedWellFormed(receipt: seq<Entry>)
    requires WellFormed(Obj(receipt))
    ensures WellFormed(Obj(Unsealed(receipt)))
  {
    UnsealedUnique(receipt);
    forall i | 0 <= i < |Unsealed(receipt)| ensures WellFormed(Unsealed(receipt)[i].value) {
      assert Unsealed(receipt)[i] in receipt;
    }
  }

  lemma KeyPosition(receipt: seq<Entry>, e: Entry)
    requires receipt != [] && Sorting.UniqueKeys(Keys(receipt), Self) && e in receipt[1..]
    ensures e.key != receipt[0].key
  {
    var k :| 0 <= k < |receipt[1..]| && receipt[1..][k] == e;
    assert Keys(receipt)[k + 1] == e.key && Keys(receipt)[0] == receipt[0].key;
  }

  lemma UniqueTail(receipt: seq<Entry>)
    requires receipt != [] && Sorting.UniqueKeys(Keys(receipt), Self)
    ensures Sorting.UniqueKeys(Keys(receipt[1..]), Self)
  {
    var tail := receipt[1..];
    assert forall i :: 0 <= i < |tail| ==> Keys(tail)[i] == Keys(receipt)[i + 1];
  }

  lemma UniqueCons(e: Entry, es: seq<Entry>)
    requires Sorting.UniqueKeys(Keys(es), Self) && forall x :: x in es ==> x.key != e.key
    ensures Sorting.UniqueKeys(Keys([e] + es), Self)
  {
    var all := [e] + es;
    assert forall i :: 0 < i < |all| ==> Keys(all)[i] == Keys(es)[i - 1] && es[i - 1] in es;
  }

  lemma {:induction false} UnsealedUnique(receipt: seq<Entry>)
    requires Sorting.UniqueKeys(Keys(receipt), Self)
    ensures Sorting.UniqueKeys(Keys(Unsealed(receipt)), Self)
  {
    hide Sorting.UniqueKeys, Keys;
    if receipt != [] {
      UniqueTail(receipt);
      UnsealedUnique(receipt[1..]);
      var r := Unsealed(receipt[1..]);
      forall e | e in r ensures e.key != receipt[0].key { KeyPosition(receipt, e); }
      UniqueCons(receipt[0], r);
      assert [] + r == r;
    } else {
      assert Unsealed(receipt) == receipt;
    }
  }

  /** A receipt that carries a verified receipt's digest verifies exactly when its other members are
      the same, up to their order: any altered, added or removed member is rejected. */
  lemma TamperingIsRejected(receipt: seq<Entry>, other: seq<Entry>, hash: Hash)
    requires Collisionless(hash)
    requires WellFormed(Obj(receipt)) && WellFormed(Obj(other)) && Defined(Obj(receipt)) && Defined(Obj(other))
    requires VerifyReceipt(receipt, hash) && DigestMember(other) == DigestMember(receipt)
    ensures VerifyReceipt(other, hash) <==> SameJson(Obj(Unsealed(receipt)), Obj(Unsealed(other)))
  {
    hide ReceiptJson, StableJson, SameJson, WellFormed, Defined;
    var a, b := Obj(Unsealed(receipt)), Obj(Unsealed(other));
    UnsealedWellFormed(receipt);
    UnsealedWellFormed(other);
    UnsealedDefined(receipt);
    UnsealedDefined(other);
    PrintersAgreeExactly(a);
    PrintersAgreeExactly(b);
    StableJsonDecides(a, b);
    StableJsonPaired(a);
    StableJsonPaired(b);
  }
}
