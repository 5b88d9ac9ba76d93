/** The gates before the writer as checks in a row: exactly when each cascade passes, and what it reports of the
    first check that fails. */
module Cascades {
  import opened Text
  import opened Marker
  import opened Bodies
  import opened Payload
  import opened Approval
  import opened Reconcile
  import opened Finalization

  // ----- validating a final payload -----

  /** The last line of the body is a marker, the only one, and all its fields are those recorded. */
  predicate MarkedAsRecorded(p: FinalPayload) {
    FinalLine(p.body) == p.markerLine && MarkerLines(Lines(p.body)) == [p.markerLine]
    && ParseByRegex(p.markerLine)
         == Some(Marker(p.markerRunId, p.markerTarget, p.markerPayload, p.markerFindings))
  }

  /** A payload passes exactly when redaction passed, its marker is the recorded one, and every hash is that of the
      thing it stands for: visible text, fingerprints, body and target. */
  lemma ValidPayloadIff(h: Hashes, p: FinalPayload)
    ensures Validate(h, p).Pass? <==>
              && p.redactionPassed && MarkedAsRecorded(p)
              && p.markerPayload == p.visibleBodyHash == VisibleBodyHash(h, p.body)
              && Distinct(p.fingerprints)
              && p.findingsHash == p.markerFindings == h.sha(h.encodeList(Sort(p.fingerprints)))
              && p.finalPayloadHash == FinalPayloadHash(h, p.body) && p.markerTarget == TargetHash(h, p.target)
    ensures Validate(h, p).Pass? ==> Validate(h, p) == Pass(p.finalPayloadHash, p.markerTarget)
  {
    hide ParseByRegex, FinalLine, MarkerLines, Lines, VisibleBodyHash, FinalPayloadHash, TargetHash, Sort, Distinct;
    DistinctUnderSort(p.fingerprints);
  }

  function MarkerChecks(h: Hashes, p: FinalPayload): seq<Check<ValidationReason>> {
    [Check(FinalLine(p.body) == p.markerLine && ParseByRegex(p.markerLine).Some?
           && MarkerLines(Lines(p.body)) == [p.markerLine], MarkerNotFinalLine),
     Check(ParseByRegex(p.markerLine) == Some(Marker(p.markerRunId, p.markerTarget, p.markerPayload, p.markerFindings)),
           MarkerFieldMismatch),
     Check(p.markerPayload == p.visibleBodyHash == VisibleBodyHash(h, p.body), BodyHashMismatch)]
  }

  function HashChecks(h: Hashes, p: FinalPayload): seq<Check<ValidationReason>> {
    var findings := h.sha(h.encodeList(Sort(p.fingerprints)));
    [Check(Distinct(p.fingerprints), DuplicateFingerprints),
     Check(p.findingsHash == p.markerFindings == findings, FindingsHashMismatch),
     Check(p.finalPayloadHash == FinalPayloadHash(h, p.body), FinalPayloadHashMismatch),
     Check(p.markerTarget == TargetHash(h, p.target), TargetHashMismatch)]
  }

  /** A payload that fails is reported with the first of these that does not hold. */
  lemma InvalidPayloadNames(h: Hashes, p: FinalPayload)
    ensures Validate(h, p).Fail? ==>
      FirstFailed([Check(p.redactionPassed, RedactionNotPassed)] + MarkerChecks(h, p) + HashChecks(h, p))
      == Some(Validate(h, p).reason)
  {
    hide ParseByRegex, FinalLine, MarkerLines, Lines, VisibleBodyHash, FinalPayloadHash, TargetHash, Sort, Distinct,
         FirstFailed, ValidateMarker, MarkerChecks;
    DistinctUnderSort(p.fingerprints);
    var first, m, c := [Check(p.redactionPassed, RedactionNotPassed)], MarkerChecks(h, p), HashChecks(h, p);
    FailedConcat(first + m, c);
    FailedConcat(first, m);
    OneCheck(first[0]);
    BadMarkerNames(h, p);
    FourChecks(c[0], c[1], c[2], c[3]);
  }

  lemma BadMarkerNames(h: Hashes, p: FinalPayload)
    ensures ValidateMarker(h, p) == FirstFailed(MarkerChecks(h, p))
    ensures ValidateMarker(h, p) == None ==> p.visibleBodyHash == VisibleBodyHash(h, p.body)
  {
    hide ParseByRegex, FinalLine, MarkerLines, Lines, VisibleBodyHash, FirstFailed;
    var m := MarkerChecks(h, p);
    ThreeChecks(m[0], m[1], m[2]);
  }

  // ----- target freshness -----

  function ProbeChecks(target: ReviewTarget, approvedAt: Instant, probe: Probe): seq<Check<FreshReason>> {
    [Check(approvedAt.At?, MalformedResponse), Check(!probe.transportFailed, TransportFailed),
     Check(probe.current.Some?, UnknownFreshness), Check(probe.methodMatches, MalformedResponse)]
  }

  function TargetChecks(target: ReviewTarget, probe: Probe): seq<Check<FreshReason>> {
    [Check(probe.current.Some? && probe.current.value.mergeBaseSha.Some? && target.mergeBaseSha.Some?,
           MissingMergeBase),
     Check(probe.checkedAt.Some?, MissingCheckedAt),
     Check(probe.checkedAt.Some? && probe.checkedAt.value.At?, MalformedResponse)]
  }

  function TimeChecks(target: ReviewTarget, approvedAt: Instant, probe: Probe, evaluated: real, maxAge: real)
    : seq<Check<FreshReason>>
    requires approvedAt.At? && probe.checkedAt.Some? && probe.checkedAt.value.At?
  {
    var t := probe.checkedAt.value.t;
    [Check(evaluated <= t + maxAge, StaleTarget), Check(t <= evaluated + 60.0, FutureCheckedAt),
     Check(approvedAt.t <= t, CheckedBeforeApproval), Check(probe.current == Some(target), TargetMismatch)]
  }

  /** A target that is not fresh is reported with the first of these that does not hold. */
  lemma StaleTargetNames(target: ReviewTarget, approvedAt: Instant, probe: Probe, evaluated: real, maxAge: real)
    ensures var early := FirstFailed(ProbeChecks(target, approvedAt, probe) + TargetChecks(target, probe));
      CheckFreshness(target, approvedAt, probe, evaluated, maxAge)
      == if early.Some? then early
         else if approvedAt.At? && probe.checkedAt.Some? && probe.checkedAt.value.At?
         then FirstFailed(TimeChecks(target, approvedAt, probe, evaluated, maxAge)) else None
  {
    hide FirstFailed;
    var p, c := ProbeChecks(target, approvedAt, probe), TargetChecks(target, probe);
    FailedConcat(p, c);
    FourChecks(p[0], p[1], p[2], p[3]);
    ThreeChecks(c[0], c[1], c[2]);
    if approvedAt.At? && probe.checkedAt.Some? && probe.checkedAt.value.At? {
      var t := TimeChecks(target, approvedAt, probe, evaluated, maxAge);
      FourChecks(t[0], t[1], t[2], t[3]);
    }
  }

  // ----- the release cascade -----

  /** Not released, and closed with a reason. */
  predicate ClosedFor(f: Finalization, reason: FinalReason, scan: Option<Scan>) {
    f == Finalization(ClosedByFailure, Some(reason), None, scan, None, false)
  }

  /** What finalization makes of the first gate that is shut. */
  lemma ShutGateDecides(h: Hashes, d: Decision, objected: bool, actorOk: bool, stale: Option<FreshReason>,
                        builder: Option<FinalPayload>, reconcile: Option<FinalPayload -> Bound>)
    ensures var f := Finalize(h, d, objected, actorOk, stale, builder, reconcile);
      && (objected ==> ClosedFor(f, PreflightFailed, None))
      && (!objected && !actorOk ==> ClosedFor(f, ActorPermissionFailed, None))
      && (!objected && actorOk && stale.Some? ==> ClosedFor(f, FreshnessFailed, None))
      && (!objected && actorOk && stale.None? ==>
            && (builder.None? || (builder.value.finalPayloadHash == d.finalPayloadHash && reconcile.None?) ==>
                  f == Finalization(NotReady, Some(ReconciliationDeferred), None, None, None, false))
            && (builder.Some? && builder.value.finalPayloadHash != d.finalPayloadHash ==>
                  ClosedFor(f, PayloadRejected, None))
            && (builder.Some? && builder.value.finalPayloadHash == d.finalPayloadHash && reconcile.Some? ==>
                  ScanDecides(h, d, builder.value, reconcile.value(builder.value), f)))
  {
    hide Validate, ExpectedOf, IsStrictHash;
  }

  /** With all gates open, the validity of the payload and the scan decide. */
  predicate ScanDecides(h: Hashes, d: Decision, p: FinalPayload, b: Bound, f: Finalization) {
    if Validate(h, p).Fail? then ClosedFor(f, PayloadRejected, None)
    else if b.expected != ExpectedOf(p) || b.result.status == FailedClosed
    then ClosedFor(f, ReconciliationFailed, Some(b.result))
    else if b.result.status == ReconciledExisting
    then f == Finalization(NotReady, Some(ReconciledWithExisting), None, Some(b.result), None, false)
    else f == Finalization(Finalized, None, Some(d.actor), Some(b.result), Some(p), true)
  }

  // ----- the preflights -----

  /** The first item of the id is a public postable one with the fingerprint that its finding has now. */
  predicate Ready(plan: seq<PlanItem>, findings: Findings, id: string) {
    exists i :: 0 <= i < |plan| && plan[i].id == id && (forall j :: 0 <= j < i ==> plan[j].id != id)
      && plan[i].isPublic && plan[i].destination == ReviewBodyItem && plan[i].classification == POSTABLE
      && id in findings && findings[id].fingerprint != "" && plan[i].fingerprint == Some(findings[id].fingerprint)
  }

  lemma {:induction false} FindsFirst(plan: seq<PlanItem>, id: string) returns (i: nat)
    requires Find(plan, id).Some?
    ensures i < |plan| && plan[i].id == id && Find(plan, id).value == plan[i]
    ensures forall j :: 0 <= j < i ==> plan[j].id != id
  {
    if plan[0].id == id {
      i := 0;
    } else {
      i := FindsFirst(plan[1..], id);
      i := i + 1;
      assert forall j :: 0 < j < i ==> plan[j] == plan[1..][j - 1];
    }
  }

  predicate Unopposed(plan: seq<PlanItem>, findings: Findings, id: string) {
    PlanObjection(plan, findings, id) == None && FindingObjection(plan, findings, id) == None
  }

  lemma ReadyIff(plan: seq<PlanItem>, findings: Findings, id: string)
    ensures Ready(plan, findings, id) <==> Unopposed(plan, findings, id)
  {
    if Find(plan, id).Some? {
      var i := FindsFirst(plan, id);
      if j :| 0 <= j < |plan| && plan[j].id == id && forall k :: 0 <= k < j ==> plan[k].id != id {
        assert i == j;
      }
    } else {
      assert forall i :: 0 <= i < |plan| ==> plan[i] in plan;
    }
  }

  /** Nothing stands against an approval exactly when it approves some distinct ids, all ready to be posted, with
      different fingerprints. */
  lemma NoObjectionIff(approved: bool, ids: seq<string>, plan: seq<PlanItem>, findings: Findings)
    ensures NoObjection(approved, ids, plan, findings) <==>
              && approved && ids != [] && Distinct(ids) && (forall id :: id in ids ==> Ready(plan, findings, id))
              && forall i, j :: 0 <= i < j < |ids| && ids[i] in findings && ids[j] in findings ==>
                   findings[ids[i]].fingerprint != findings[ids[j]].fingerprint
  {
    hide PlanObjection, FindingObjection, Ready;
    forall id ensures Ready(plan, findings, id) <==> Unopposed(plan, findings, id) {
      ReadyIff(plan, findings, id);
    }
    forall id | Ready(plan, findings, id) ensures id in findings {
      ReadyHasFinding(plan, findings, id);
    }
  }

  lemma ReadyHasFinding(plan: seq<PlanItem>, findings: Findings, id: string)
    requires Ready(plan, findings, id)
    ensures id in findings
  {}

  /** What is reported of a plan item and of its finding. */
  lemma ObjectionNames(plan: seq<PlanItem>, findings: Findings, id: string)
    ensures PlanObjection(plan, findings, id) == None <==>
              && Find(plan, id).Some? && id in findings && PublicPostable(Find(plan, id).value)
              && Find(plan, id).value.fingerprint.Some? && Find(plan, id).value.fingerprint != Some("")
    ensures match Find(plan, id)
            case None => PlanObjection(plan, findings, id) == Some(UnknownId)
            case Some(item) =>
              && (PlanObjection(plan, findings, id) == Some(NonPublicItem) <==>
                    item.destination != ReviewBodyItem || item.classification != POSTABLE || !item.isPublic)
              && (PlanObjection(plan, findings, id) == Some(MissingFingerprint) <==>
                    PublicPostable(item) && item.fingerprint in {None, Some("")})
              && (id in findings ==>
                    && (FindingObjection(plan, findings, id) == Some(MissingFingerprint) <==>
                          findings[id].fingerprint == "")
                    && (FindingObjection(plan, findings, id) == Some(FingerprintMismatch) <==>
                          findings[id].fingerprint != "" && item.fingerprint != Some(findings[id].fingerprint)))
  {}

  function DescriptorChecks(plan: seq<PlanItem>, current: map<string, Descriptor>, id: string)
    : seq<Check<ItemReason>>
    requires Find(plan, id).Some?
  {
    var item := Find(plan, id).value;
    var same := id in current && current[id] == Describe(item);
    [Check(id in current, MissingCurrentItem), Check(item.isPublic, NotPublicPayloadEligible),
     Check(same && item.destination == ReviewBodyItem, WrongDestination),
     Check(item.classification == POSTABLE, WrongSourceClassification)]
  }

  /** What is reported of an approved id by the writer's preflight: the first of these that does not hold of its
      item and of the descriptor kept for it. */
  lemma DiagnosticNames(plan: seq<PlanItem>, current: map<string, Descriptor>, id: string)
    ensures ItemDiagnostic(plan, current, id)
         == match Find(plan, id)
            case None => Some(MissingCurrentItem)
            case Some(item) =>
              var first := FirstFailed(DescriptorChecks(plan, current, id));
              if first.Some? then first
              else if item.fingerprint in {None, Some("")} then Some(NoFingerprint) else None
  {
    hide FirstFailed;
    if Find(plan, id).Some? {
      var c := DescriptorChecks(plan, current, id);
      FourChecks(c[0], c[1], c[2], c[3]);
    }
  }

  /** What the writer's preflight accepts: an approval of distinct ids, each of a public postable item that is as
      described, with a fingerprint of its own. */
  lemma WriterAcceptsIff(postEnabled: bool, approved: bool, ids: seq<string>, plan: seq<PlanItem>,
                         current: map<string, Descriptor>)
    ensures WriterAccepts(postEnabled, approved, ids, plan, current) <==>
              && postEnabled && approved && Distinct(ids)
              && (forall id :: id in ids ==> Released(plan, current, id))
              && forall i, j :: 0 <= i < j < |ids| ==> PlanFingerprint(plan, ids[i]) != PlanFingerprint(plan, ids[j])
  {
    hide ItemDiagnostic, Released;
    forall id ensures Released(plan, current, id) <==> ItemDiagnostic(plan, current, id) == None {
      ReleasedIff(plan, current, id);
    }
  }

  predicate Released(plan: seq<PlanItem>, current: map<string, Descriptor>, id: string) {
    Find(plan, id).Some? && id in current
    && var item := Find(plan, id).value;
    && item.isPublic && item.destination == ReviewBodyItem && item.classification == POSTABLE
    && item.fingerprint !in {None, Some("")} && current[id] == Describe(item)
  }

  lemma ReleasedIff(plan: seq<PlanItem>, current: map<string, Descriptor>, id: string)
    ensures Released(plan, current, id) <==> ItemDiagnostic(plan, current, id) == None
  {}

  /** The diagnostics are those of all ids with something wrong, each after those of the ids before it. */
  lemma {:induction false} DiagnosticsAreAll(plan: seq<PlanItem>, current: map<string, Descriptor>, ids: seq<string>)
    ensures forall d :: d in Diagnostics(plan, current, ids) <==>
              d.0 in ids && ItemDiagnostic(plan, current, d.0) == Some(d.1)
    ensures forall n :: 0 <= n <= |ids| ==> Diagnostics(plan, current, ids[..n]) <= Diagnostics(plan, current, ids)
  {
    hide ItemDiagnostic;
    if ids != [] {
      var before := ids[..|ids| - 1];
      DiagnosticsAreAll(plan, current, before);
      assert ids == before + [Last(ids)] && ids[..|ids|] == ids;
      forall n | 0 <= n <= |before| ensures before[..n] == ids[..n] {}
    }
  }
}
