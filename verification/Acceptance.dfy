/** When the recorded results of a run amount to acceptance. */
module Acceptance {
  import opened Contracts

  datatype Standing = Met | Failing | Open

  /** The results a criterion is judged by: those a registered evaluator produced. */
  function Trusted(results: set<StoredResult>, criterionId: string): set<StoredResult> {
    set r | r in results && r.input.criterionId == criterionId && r.provenance.VerifiedProvider?
  }

  predicate Stale(r: StoredResult, target: string) {
    exists e :: e in r.input.evidence && e.targetStateRef != target
  }

  function StandingOf(c: EvaluationCriterion, target: string, results: set<StoredResult>): Standing {
    var trusted := Trusted(results, c.id);
    if !c.required then Met
    else if trusted == {} then Open
    else if exists r :: r in trusted && r.input.outcome.Fail? then Failing
    else if exists r :: r in trusted && r.input.evidence == [] then Open
    else if exists r :: r in trusted && Stale(r, target) then Open
    else if exists r :: r in trusted && !r.input.outcome.Pass? then Open
    else Met
  }

  /** The criteria with a given standing, in the order of the specification. */
  function WithStanding(
      cs: seq<EvaluationCriterion>, target: string, results: set<StoredResult>, s: Standing): seq<string>
  {
    if cs == [] then []
    else
      var n := |cs| - 1;
      WithStanding(cs[..n], target, results, s) + if StandingOf(cs[n], target, results) == s then [cs[n].id] else []
  }

  function Decide(spec: EvaluationSpec, target: string, results: set<StoredResult>): DecisionKind {
    if WithStanding(spec.criteria, target, results, Failing) != [] then DecisionRejected
    else if WithStanding(spec.criteria, target, results, Open) != [] then DecisionInconclusive
    else DecisionAccepted
  }

  /** Every required criterion has a verified result, and all its verified results pass with
      evidence bound to the target state. */
  ghost predicate Satisfied(spec: EvaluationSpec, target: string, results: set<StoredResult>) {
    forall c :: c in spec.criteria && c.required ==>
      && (exists r :: r in Trusted(results, c.id))
      && (forall r :: r in Trusted(results, c.id) ==> Passes(r, target))
  }

  /** The result passes, and rests on evidence that is all of the target state. */
  ghost predicate Passes(r: StoredResult, target: string) {
    r.input.outcome.Pass? && r.input.evidence != [] &&
    forall e :: e in r.input.evidence ==> e.targetStateRef == target
  }

  /** Some required criterion has a verified result that failed. */
  ghost predicate Refuted(spec: EvaluationSpec, results: set<StoredResult>) {
    exists c, r :: c in spec.criteria && c.required && r in Trusted(results, c.id) && r.input.outcome.Fail?
  }

  lemma {:induction false} WithStandingEmpty(
      cs: seq<EvaluationCriterion>, target: string, results: set<StoredResult>, s: Standing)
    ensures WithStanding(cs, target, results, s) == [] <==> forall c :: c in cs ==> StandingOf(c, target, results) != s
  {
    if cs != [] {
      var n := |cs| - 1;
      WithStandingEmpty(cs[..n], target, results, s);
      assert cs == cs[..n] + [cs[n]];
    }
  }

  lemma MetMeans(c: EvaluationCriterion, target: string, results: set<StoredResult>)
    requires c.required
    ensures StandingOf(c, target, results) == Met <==>
              (exists r :: r in Trusted(results, c.id)) &&
              (forall r :: r in Trusted(results, c.id) ==> Passes(r, target))
    ensures StandingOf(c, target, results) == Failing <==>
              exists r :: r in Trusted(results, c.id) && r.input.outcome.Fail?
  {
  }

  /** The decision is acceptance exactly when every required criterion is satisfied, and rejection
      exactly when some required criterion has failed. */
  lemma DecisionMeaning(spec: EvaluationSpec, target: string, results: set<StoredResult>)
    ensures Decide(spec, target, results) == DecisionAccepted <==> Satisfied(spec, target, results)
    ensures Decide(spec, target, results) == DecisionRejected <==> Refuted(spec, results)
    ensures Decide(spec, target, results) == DecisionInconclusive <==>
            !Satisfied(spec, target, results) && !Refuted(spec, results)
  {
    hide StandingOf;
    WithStandingEmpty(spec.criteria, target, results, Failing);
    WithStandingEmpty(spec.criteria, target, results, Open);
    forall c | c in spec.criteria && c.required
      ensures StandingOf(c, target, results) == Met <==>
                (exists r :: r in Trusted(results, c.id)) &&
                (forall r :: r in Trusted(results, c.id) ==> Passes(r, target))
      ensures StandingOf(c, target, results) == Failing <==>
              exists r :: r in Trusted(results, c.id) && r.input.outcome.Fail?
    {
      MetMeans(c, target, results);
    }
    forall c | c in spec.criteria && !c.required ensures StandingOf(c, target, results) == Met {
      OptionalIsMet(c, target, results);
    }
  }

  lemma OptionalIsMet(c: EvaluationCriterion, target: string, results: set<StoredResult>)
    requires !c.required
    ensures StandingOf(c, target, results) == Met
  {
  }

  /** A criterion is judged by its own results alone. */
  lemma SameTrusted(own: seq<StoredResult>, results: seq<StoredResult>, c: EvaluationCriterion, target: string)
    requires forall r :: r in own ==> r in results
    requires forall r :: r in results && r.input.criterionId == c.id ==> r in own
    ensures StandingOf(c, target, set r | r in own) == StandingOf(c, target, set r | r in results)
  {
    assert Trusted((set r | r in own), c.id) == Trusted((set r | r in results), c.id);
  }

  method GroupByCriterion(results: seq<StoredResult>) returns (byCriterion: map<string, seq<StoredResult>>)
    ensures forall id :: id in byCriterion ==> forall r :: r in byCriterion[id] ==>
            r in results && r.input.criterionId == id
    ensures forall r :: r in results ==> r.input.criterionId in byCriterion && r in byCriterion[r.input.criterionId]
  {
    byCriterion := map[];
    var k := 0;
    while k < |results|
      invariant 0 <= k <= |results|
      invariant forall id :: id in byCriterion ==> forall r :: r in byCriterion[id] ==>
                r in results && r.input.criterionId == id
      invariant forall i :: 0 <= i < k ==>
                results[i].input.criterionId in byCriterion && results[i] in byCriterion[results[i].input.criterionId]
    {
      var id := results[k].input.criterionId;
      var list := if id in byCriterion then byCriterion[id] else [];
      byCriterion := byCriterion[id := list + [results[k]]];
      k := k + 1;
    }
  }

  /** Judges the criteria one by one and collects the failed and the inconclusive ones. */
  method EvaluateAcceptance(spec: EvaluationSpec, target: string, results: seq<StoredResult>)
    returns (decision: DecisionKind, failed: seq<string>, inconclusive: seq<string>)
    ensures var all := set r | r in results;
            && decision == Decide(spec, target, all)
            && failed == WithStanding(spec.criteria, target, all, Failing)
            && inconclusive == WithStanding(spec.criteria, target, all, Open)
  {
    hide StandingOf;
    ghost var all := set r | r in results;
    var byCriterion := GroupByCriterion(results);
    failed, inconclusive := [], [];
    var i := 0;
    while i < |spec.criteria|
      invariant 0 <= i <= |spec.criteria|
      invariant failed == WithStanding(spec.criteria[..i], target, all, Failing)
      invariant inconclusive == WithStanding(spec.criteria[..i], target, all, Open)
    {
      var c := spec.criteria[i];
      assert spec.criteria[..i + 1][..i] == spec.criteria[..i];
      var own := if c.id in byCriterion then byCriterion[c.id] else [];
      var standing := Judge(c, target, own);
      SameTrusted(own, results, c, target);
      if standing == Failing { failed := failed + [c.id]; }
      if standing == Open { inconclusive := inconclusive + [c.id]; }
      i := i + 1;
    }
    assert spec.criteria[..i] == spec.criteria;
    decision := if |failed| > 0 then DecisionRejected else if |inconclusive| > 0 then DecisionInconclusive
        else DecisionAccepted;
  }

  /** The standing of one criterion, by the chain of checks of the source. */
  method Judge(c: EvaluationCriterion, target: string, own: seq<StoredResult>) returns (s: Standing)
    ensures s == StandingOf(c, target, set r | r in own)
  {
    ghost var all := set r | r in own;
    if !c.required { return Met; }
    var trusted := [];
    var k := 0;
    while k < |own|
      invariant 0 <= k <= |own|
      invariant forall r :: r in trusted <==>
                r in own[..k] && r.input.criterionId == c.id && r.provenance.VerifiedProvider?
    {
      if own[k].input.criterionId == c.id && own[k].provenance.VerifiedProvider? { trusted := trusted + [own[k]]; }
      k := k + 1;
    }
    assert own[..k] == own;
    assert forall r :: r in trusted <==> r in Trusted(all, c.id);
    if |trusted| == 0 { return Open; }
    assert trusted[0] in Trusted(all, c.id);
    if exists i :: 0 <= i < |trusted| && trusted[i].input.outcome.Fail? { return Failing; }
    if exists i :: 0 <= i < |trusted| && trusted[i].input.evidence == [] { return Open; }
    if exists i :: 0 <= i < |trusted| && exists j ::
      0 <= j < |trusted[i].input.evidence| && trusted[i].input.evidence[j].targetStateRef != target {
      return Open;
    }
    if exists i :: 0 <= i < |trusted| && !trusted[i].input.outcome.Pass? { return Open; }
    return Met;
  }
}
