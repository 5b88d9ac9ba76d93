/** From approval to post: an approval that was granted is not stopped by the later gates for anything
    that was already decided when it was granted. */
module Delivery {
  import opened Text
  import opened Marker
  import opened Bodies
  import opened Payload
  import opened Approval
  import opened Reconcile
  import opened Finalization
  import opened Protocol

  lemma {:induction false} FindsTheItem(plan: seq<PlanItem>, item: PlanItem)
    requires ValidPlan(plan) && item in plan
    ensures Find(plan, item.id) == Some(item)
  {
    if plan[0] != item {
      assert ValidPlan(plan[1..]);
      FindsTheItem(plan[1..], item);
      var i :| 0 <= i < |plan| && plan[i] == item;
      assert plan[0].id != plan[i].id;
    }
  }

  lemma ItemPassesPreflight(plan: seq<PlanItem>, findings: Findings, item: PlanItem)
    requires ValidPlan(plan) && item in plan && ItemProblem(item, findings) == None
    ensures PlanObjection(plan, findings, item.id) == None && FindingObjection(plan, findings, item.id) == None
  {
    FindsTheItem(plan, item);
    var i :| 0 <= i < |plan| && plan[i] == item;
    assert plan[i].fingerprint != Some("");
  }

  lemma ItemsPassPreflight(plan: seq<PlanItem>, findings: Findings, items: seq<PlanItem>)
    requires ValidPlan(plan) && items != [] && Known(findings, items)
    requires forall item :: item in items ==> item in plan && ItemProblem(item, findings) == None
    requires Distinct(ItemIds(items)) && Distinct(Fingerprints(findings, items))
    ensures NoObjection(true, ItemIds(items), plan, findings)
  {
    hide PlanObjection, FindingObjection, ItemProblem, ValidPlan;
    var approved, prints := ItemIds(items), Fingerprints(findings, items);
    forall id | id in approved
      ensures PlanObjection(plan, findings, id) == None && FindingObjection(plan, findings, id) == None
    {
      var i :| 0 <= i < |approved| && approved[i] == id;
      ItemPassesPreflight(plan, findings, items[i]);
    }
    forall i, j | 0 <= i < j < |approved|
      ensures FindingFingerprint(findings, approved[i]) != FindingFingerprint(findings, approved[j])
    {
      assert prints[i] != prints[j];
    }
  }

  /** A granted approval passes the finalization preflight on the plan and findings it was given for. */
  lemma ProofPassesPreflight(h: Hashes, q: Request, ids: seq<string>)
    requires ValidPlan(q.plan) && BuildProof(h, q, ids).Approved?
    ensures NoObjection(true, BuildProof(h, q, ids).proof.ids, q.plan, q.findings)
  {
    hide BuildProof, ProofOf, Select, NoObjection, ItemProblem, ValidPlan, Distinct, ItemIds, Fingerprints, ToSet,
         IdSet;
    ProofGates(h, q, ids);
    ProofApprovesExactly(h, q, ids);
    var items := Select(q.plan, ToSet(ids), q.findings).items;
    ProofOfIds(h, q, items);
    ApprovesSomething(q, ids);
    SelectKeepsDistinct(q.plan, ToSet(ids), q.findings);
    ItemsPassPreflight(q.plan, q.findings, items);
  }

  lemma ApprovesSomething(q: Request, ids: seq<string>)
    requires ids != [] && ToSet(ids) <= IdSet(q.plan) && Select(q.plan, ToSet(ids), q.findings).Chosen?
    ensures Select(q.plan, ToSet(ids), q.findings).items != []
  {
    hide Select;
    forall id | id in ids ensures id in IdSet(q.plan) {
      assert id in ToSet(ids);
    }
    SomethingSelected(q.plan, ids, q.findings);
  }

  /** The visible text that was approved. */
  function ApprovedText(q: Request, ids: seq<string>): string {
    match Select(q.plan, ToSet(ids), q.findings)
    case Bad(_) => ""
    case Chosen(items) => RedactedBody(q.redact, q.target, q.findings, items, q.verdict, q.includeVerdict)
  }

  /** The approved payload validates exactly when no line of the approved text is itself a marker. */
  lemma ApprovedPayloadValidatesIff(h: Hashes, q: Request, ids: seq<string>)
    requires BuildProof(h, q, ids).Approved?
    ensures PayloadApproved(h, q, ids).Some?
    ensures Validate(h, PayloadApproved(h, q, ids).value).Pass? <==>
              MarkerFree(CanonicalTextBody(ApprovedText(q, ids)))
  {
    hide BuildProof, ProofOf, Select, Validate, MarkerFree, CanonicalTextBody, RedactedBody, ApprovedPayload, Build,
         RunIdPasses, IsRunId, Sort, Distinct, Fingerprints, VisibleBody;
    ProofGates(h, q, ids);
    RunIdPassesIff(q.runId);
    var items := Select(q.plan, ToSet(ids), q.findings).items;
    var prints := Fingerprints(q.findings, items);
    var visible := RedactedBody(q.redact, q.target, q.findings, items, q.verdict, q.includeVerdict);
    var passed := q.redact(VisibleBody(q.target, q.findings, items, q.verdict, q.includeVerdict)).passed;
    DistinctUnderSort(prints);
    BuiltFromRedacted(h, q, items);
    BuiltPayloadValidatesIff(h, q.runId, q.target, visible, prints, passed);
    ApprovedMeansRedacted(h, q, items);
  }

  lemma ApprovedMeansRedacted(h: Hashes, q: Request, items: seq<PlanItem>)
    requires Known(q.findings, items) && ProofOf(h, q, items).Approved?
    ensures q.redact(VisibleBody(q.target, q.findings, items, q.verdict, q.includeVerdict)).passed
  {
    hide BuildMarkerLine, FindingsHash, CanonicalTextBody, Sort, Distinct, TargetHash, VisibleBodyHash,
         FinalPayloadHash, IsStrictHash, IsMarkerLine, VisibleBody, RStripNewlines, Fingerprints, ItemIds,
         RedactedBody;
  }

  /** End to end: an attempt that rebuilds the approved payload, for the plan and findings of the
      approval, with the actor and target still good, posts exactly when the approved text holds no
      marker line, the scan reads the whole log, and the log has no trusted marker for the pair and no
      malformed trusted one. */
  lemma ApprovedAttemptPostsIff(h: Hashes, q: Request, ids: seq<string>, gate: PermissionGate, age: Option<real>,
                                maxAge: real, maxSkew: real, t: Trust, log: seq<Comment>, a: Attempt)
    requires ValidPlan(q.plan)
    requires BuildDecision(h, BuildProof(h, q, ids), gate, age, maxAge, maxSkew) == Some(a.decision)
    requires a.plan == q.plan && a.findings == q.findings && a.builder == PayloadApproved(h, q, ids)
    requires a.actorOk && a.stale.None? && a.bound.None? && Honest(t, log, Try(a))
    ensures a.builder.Some?
    ensures OutcomeOf(h, t, Try(a)) == Posted <==>
              && MarkerFree(CanonicalTextBody(ApprovedText(q, ids))) && Listed(a.source, a.limits)
              && Markers(t, a.builder.value.markerTarget, a.builder.value.markerFindings, log) == 0
              && !exists c :: c in log && Trusted(t, c) && Look(ExpectedOf(a.builder.value), c) == Malformed
  {
    hide BuildProof, PayloadApproved, Validate, NoObjection, ApprovedText, MarkerFree, CanonicalTextBody, OutcomeOf,
         Honest, Listed, Markers, Trusted, Look, TargetHash, Coherent;
    ProofPassesPreflight(h, q, ids);
    ApprovedPayloadValidatesIff(h, q, ids);
    ApprovedPayloadCoherent(h, q, ids);
    PostsIff(h, t, log, a);
  }
}
