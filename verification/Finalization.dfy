/** The last gates before the writer: two independent preflights, target freshness and the
    cascade that releases writer input. */
module Finalization {
  import opened Text
  import opened Marker
  import opened Bodies
  import opened Payload
  import opened Approval
  import opened Reconcile

  // ----- looking up plan items -----

  function Find(plan: seq<PlanItem>, id: string): (r: Option<PlanItem>)
    ensures r.Some? ==> r.value in plan && r.value.id == id
    ensures r.None? ==> forall item :: item in plan ==> item.id != id
  {
    if plan == [] then None else if plan[0].id == id then Some(plan[0]) else Find(plan[1..], id)
  }

  predicate PublicPostable(item: PlanItem) {
    item.destination == ReviewBodyItem && item.classification == POSTABLE && item.isPublic
  }

  // ----- the finalization preflight -----

  datatype Objection =
    NotApproved | NothingApproved | DuplicateIds | UnknownId | NonPublicItem |
    MissingFingerprint | FingerprintMismatch | RepeatedFingerprint

  function PlanObjection(plan: seq<PlanItem>, findings: Findings, id: string): Option<Objection> {
    match Find(plan, id)
    case None => Some(UnknownId)
    case Some(item) =>
      if !PublicPostable(item) then Some(NonPublicItem)
      else if item.fingerprint.None? || item.fingerprint == Some("") then Some(MissingFingerprint)
      else if id !in findings then Some(UnknownId)
      else None
  }

  function FindingObjection(plan: seq<PlanItem>, findings: Findings, id: string): Option<Objection>
    requires id in findings && Find(plan, id).Some?
  {
    if findings[id].fingerprint == "" then Some(MissingFingerprint)
    else if Find(plan, id).value.fingerprint != Some(findings[id].fingerprint) then Some(FingerprintMismatch)
    else None
  }

  /** Collects the fingerprints of the approved findings, or the first objection to one. */
  method CollectFingerprints(plan: seq<PlanItem>, findings: Findings, ids: seq<string>)
    returns (objection: Option<Objection>, fingerprints: seq<string>)
    requires forall id :: id in ids ==> id in findings && Find(plan, id).Some?
    ensures objection.None? <==> forall id :: id in ids ==> FindingObjection(plan, findings, id) == None
    ensures objection.None? ==> |fingerprints| == |ids| && forall i :: 0 <= i < |ids| ==>
              fingerprints[i] == findings[ids[i]].fingerprint
    ensures objection.Some? ==> exists i :: 0 <= i < |ids| && FindingObjection(plan, findings, ids[i]) == objection
                                            && forall j :: 0 <= j < i ==>
                                                 FindingObjection(plan, findings, ids[j]) == None
  {
    fingerprints := [];
    for i := 0 to |ids|
      invariant |fingerprints| == i
      invariant forall j :: 0 <= j < i ==>
                FindingObjection(plan, findings, ids[j]) == None && fingerprints[j] == findings[ids[j]].fingerprint
    {
      objection := FindingObjection(plan, findings, ids[i]);
      if objection.Some? {
        return objection, [];
      }
      fingerprints := fingerprints + [findings[ids[i]].fingerprint];
    }
    return None, fingerprints;
  }

  /** Nothing stands against releasing these ids. */
  ghost predicate NoObjection(approved: bool, ids: seq<string>, plan: seq<PlanItem>, findings: Findings) {
    approved && ids != [] && Distinct(ids)
    && (forall id :: id in ids ==>
          PlanObjection(plan, findings, id) == None && FindingObjection(plan, findings, id) == None)
    && forall i, j :: 0 <= i < j < |ids| ==>
        FindingFingerprint(findings, ids[i]) != FindingFingerprint(findings, ids[j])
  }

  function FindingFingerprint(findings: Findings, id: string): string {
    if id in findings then findings[id].fingerprint else ""
  }

  /** The first objection to an id: to its plan item, or, when there is none to any item, to its finding. */
  ghost predicate FirstObjection(ids: seq<string>, plan: seq<PlanItem>, findings: Findings, objection: Objection) {
    || (exists i :: 0 <= i < |ids| && PlanObjection(plan, findings, ids[i]) == Some(objection)
                    && forall j :: 0 <= j < i ==> PlanObjection(plan, findings, ids[j]) == None)
    || ((forall id :: id in ids ==> PlanObjection(plan, findings, id) == None)
        && if forall id :: id in ids ==> FindingObjection(plan, findings, id) == None
           then objection == RepeatedFingerprint
           else exists i :: 0 <= i < |ids| && FindingObjection(plan, findings, ids[i]) == Some(objection)
                            && forall j :: 0 <= j < i ==> FindingObjection(plan, findings, ids[j]) == None)
  }

  lemma ObjectionKinds(plan: seq<PlanItem>, findings: Findings)
    ensures forall id :: PlanObjection(plan, findings, id) in
              {None, Some(UnknownId), Some(NonPublicItem), Some(MissingFingerprint)}
    ensures forall id :: id in findings && Find(plan, id).Some? ==>
              FindingObjection(plan, findings, id) in {None, Some(MissingFingerprint), Some(FingerprintMismatch)}
  {}

  method ApprovalPreflight(approved: bool, ids: seq<string>, plan: seq<PlanItem>, findings: Findings)
    returns (objection: Option<Objection>)
    ensures objection.None? <==> NoObjection(approved, ids, plan, findings)
    ensures objection == Some(NotApproved) <==> !approved
    ensures objection == Some(NothingApproved) <==> approved && ids == []
    ensures objection == Some(DuplicateIds) <==> approved && ids != [] && !Distinct(ids)
    ensures approved && ids != [] && Distinct(ids) && objection.Some? ==>
              FirstObjection(ids, plan, findings, objection.value)
  {
    hide PlanObjection, FindingObjection, Find;
    ObjectionKinds(plan, findings);
    if !approved {
      return Some(NotApproved);
    }
    if ids == [] {
      return Some(NothingApproved);
    }
    if !Distinct(ids) {
      return Some(DuplicateIds);
    }
    for i := 0 to |ids|
      invariant forall j :: 0 <= j < i ==> PlanObjection(plan, findings, ids[j]) == None
    {
      objection := PlanObjection(plan, findings, ids[i]);
      if objection.Some? {
        assert ids[i] in ids;
        return objection;
      }
    }
    forall id | id in ids ensures id in findings && Find(plan, id).Some? {
      NoPlanObjection(plan, findings, id);
    }
    var fingerprints: seq<string>;
    objection, fingerprints := CollectFingerprints(plan, findings, ids);
    if objection.Some? {
      return objection;
    }
    if !Distinct(fingerprints) {
      return Some(RepeatedFingerprint);
    }
    return None;
  }

  lemma NoPlanObjection(plan: seq<PlanItem>, findings: Findings, id: string)
    requires PlanObjection(plan, findings, id) == None
    ensures id in findings && Find(plan, id).Some?
  {}

  // ----- the writer-release preflight -----

  datatype Descriptor = Descriptor(itemId: string, classification: string, destination: Destination,
                                   isPublic: bool, hasFingerprint: bool)

  function HasFingerprint(item: PlanItem): bool { item.fingerprint.Some? && item.fingerprint.value != "" }

  function Describe(item: PlanItem): Descriptor {
    Descriptor(item.id, item.classification, item.destination, item.isPublic, HasFingerprint(item))
  }

  /** Descriptors derived from the plan itself, one per item. */
  function Descriptors(plan: seq<PlanItem>): map<string, Descriptor> {
    if plan == [] then map[] else Descriptors(plan[1..])[plan[0].id := Describe(plan[0])]
  }

  datatype ItemReason =
    MissingCurrentItem | NotPublicPayloadEligible | WrongDestination | WrongSourceClassification | NoFingerprint

  datatype WriterReason = PostDisabled | MissingApproval | RejectedApproval | DuplicateApprovedItem |
                          DuplicateApprovedFingerprint | UnknownApprovedItem | NonPublicApprovedItem

  datatype WriterPreflight = Eligible(ids: seq<string>) | NotEligible(reason: WriterReason,
                                      diagnostics: seq<(string, ItemReason)>)

  function DescriptorProblem(d: Descriptor): Option<ItemReason> {
    if !d.isPublic then Some(NotPublicPayloadEligible)
    else if d.destination != ReviewBodyItem then Some(WrongDestination)
    else if d.classification != POSTABLE then Some(WrongSourceClassification)
    else if !d.hasFingerprint then Some(NoFingerprint)
    else None
  }

  function ItemDiagnostic(plan: seq<PlanItem>, current: map<string, Descriptor>, id: string): Option<ItemReason> {
    match Find(plan, id)
    case None => Some(MissingCurrentItem)
    case Some(item) =>
      if id !in current then Some(MissingCurrentItem)
      else if current[id] != Describe(item)
          then Some(if !item.isPublic then NotPublicPayloadEligible else WrongDestination)
      else DescriptorProblem(current[id])
  }

  function PlanFingerprint(plan: seq<PlanItem>, id: string): string {
    match Find(plan, id)
    case Some(item) => if item.fingerprint.Some? then item.fingerprint.value else ""
    case None => ""
  }

  /** The first value that repeats an earlier one. */
  method DuplicateValue(values: seq<string>) returns (duplicate: Option<string>)
    ensures duplicate.None? <==> Distinct(values)
    ensures duplicate.Some? ==>
              exists j :: 0 <= j < |values| && values[j] == duplicate.value && values[j] in values[..j]
                  && Distinct(values[..j])
  {
    var seen: set<string> := {};
    for i := 0 to |values|
      invariant seen == (set j | 0 <= j < i :: values[j])
      invariant Distinct(values[..i])
    {
      if values[i] in seen {
        var j :| 0 <= j < i && values[j] == values[i];
        assert values[..i][j] == values[i];
        return Some(values[i]);
      }
      assert values[..i + 1] == values[..i] + [values[i]];
      seen := seen + {values[i]};
    }
    assert values[..|values|] == values;
    return None;
  }

  /** What the writer-release preflight lets through. */
  ghost predicate WriterAccepts(postEnabled: bool, approved: bool, ids: seq<string>, plan: seq<PlanItem>,
                                current: map<string, Descriptor>)
  {
    postEnabled && approved && Distinct(ids)
    && (forall id :: id in ids ==> ItemDiagnostic(plan, current, id) == None)
    && forall i, j :: 0 <= i < j < |ids| ==> PlanFingerprint(plan, ids[i]) != PlanFingerprint(plan, ids[j])
  }

  /** What is wrong with the ids, in order. */
  function Diagnostics(plan: seq<PlanItem>, current: map<string, Descriptor>, ids: seq<string>)
    : seq<(string, ItemReason)>
  {
    if ids == [] then []
    else
      var before, problem := Diagnostics(plan, current, ids[..|ids| - 1]), ItemDiagnostic(plan, current, Last(ids));
      if problem.Some? then before + [(Last(ids), problem.value)] else before
  }

  /** The fingerprints of the ids with nothing wrong, in order. */
  function SoundFingerprints(plan: seq<PlanItem>, current: map<string, Descriptor>, ids: seq<string>): seq<string> {
    if ids == [] then []
    else
      SoundFingerprints(plan, current, ids[..|ids| - 1])
      + (if ItemDiagnostic(plan, current, Last(ids)) == None then [PlanFingerprint(plan, Last(ids))] else [])
  }

  lemma {:induction false} NothingWrong(plan: seq<PlanItem>, current: map<string, Descriptor>, ids: seq<string>)
    ensures Diagnostics(plan, current, ids) == [] <==>
              forall id :: id in ids ==> ItemDiagnostic(plan, current, id) == None
    ensures Diagnostics(plan, current, ids) == [] ==>
              var prints := SoundFingerprints(plan, current, ids);
              |prints| == |ids| && forall i :: 0 <= i < |ids| ==> prints[i] == PlanFingerprint(plan, ids[i])
  {
    hide ItemDiagnostic, PlanFingerprint;
    if ids != [] {
      NothingWrong(plan, current, ids[..|ids| - 1]);
      assert ids == ids[..|ids| - 1] + [Last(ids)];
    }
  }

  method EvaluateWriterRelease(postEnabled: bool, approval: Option<(bool, seq<string>)>, plan: seq<PlanItem>,
                               current: map<string, Descriptor>) returns (r: WriterPreflight)
    ensures r.Eligible? <==>
              approval.Some? && WriterAccepts(postEnabled, approval.value.0, approval.value.1, plan, current)
    ensures r.Eligible? ==> r.ids == approval.value.1
    ensures r.NotEligible? && r.reason == PostDisabled <==> !postEnabled
    ensures r.NotEligible? && r.reason == MissingApproval <==> postEnabled && approval.None?
    ensures r.NotEligible? && r.reason == RejectedApproval <==> postEnabled && approval.Some? && !approval.value.0
    ensures postEnabled && approval.Some? && approval.value.0 ==>
              var ids := approval.value.1;
              var problems := Diagnostics(plan, current, ids);
              && (r.NotEligible? && r.reason == DuplicateApprovedItem <==> !Distinct(ids))
              && (r.NotEligible? && r.reason == DuplicateApprovedFingerprint <==>
                    Distinct(ids) && !Distinct(SoundFingerprints(plan, current, ids)))
              && (r.NotEligible? && r.reason in [UnknownApprovedItem, NonPublicApprovedItem] ==>
                    && problems != [] && r.diagnostics == problems
                    && (r.reason == UnknownApprovedItem <==> exists d :: d in problems && d.1 == MissingCurrentItem))
    ensures r.NotEligible? && r.reason !in [UnknownApprovedItem, NonPublicApprovedItem] ==> r.diagnostics == []
  {
    hide ItemDiagnostic, PlanFingerprint, Find;
    if !postEnabled {
      return NotEligible(PostDisabled, []);
    }
    if approval.None? {
      return NotEligible(MissingApproval, []);
    }
    var (approved, ids) := approval.value;
    if !approved {
      return NotEligible(RejectedApproval, []);
    }
    var repeated := DuplicateValue(ids);
    if repeated.Some? {
      return NotEligible(DuplicateApprovedItem, []);
    }
    var diagnostics: seq<(string, ItemReason)>, fingerprints: seq<string> := [], [];
    for i := 0 to |ids|
      invariant diagnostics == Diagnostics(plan, current, ids[..i])
      invariant fingerprints == SoundFingerprints(plan, current, ids[..i])
    {
      assert ids[..i + 1][..i] == ids[..i];
      var diagnostic := ItemDiagnostic(plan, current, ids[i]);
      if diagnostic.Some? {
        diagnostics := diagnostics + [(ids[i], diagnostic.value)];
        continue;
      }
      fingerprints := fingerprints + [PlanFingerprint(plan, ids[i])];
    }
    assert ids[..|ids|] == ids;
    NothingWrong(plan, current, ids);
    repeated := DuplicateValue(fingerprints);
    if repeated.Some? {
      return NotEligible(DuplicateApprovedFingerprint, []);
    }
    if diagnostics != [] {
      var unknown := exists d :: d in diagnostics && d.1 == MissingCurrentItem;
      return NotEligible(if unknown then UnknownApprovedItem else NonPublicApprovedItem, diagnostics);
    }
    return Eligible(ids);
  }

  // ----- the two preflights agree -----

  lemma {:induction false} DescriptorOf(plan: seq<PlanItem>, id: string)
    ensures id in Descriptors(plan) <==> Find(plan, id).Some?
    ensures Find(plan, id).Some? ==> Descriptors(plan)[id] == Describe(Find(plan, id).value)
  {
    if plan != [] {
      DescriptorOf(plan[1..], id);
    }
  }

  /** With descriptors taken from the plan, an approval passes the finalization preflight exactly
      when it passes the writer-release preflight and every approved id has a current finding with
      the fingerprint in the plan. Nothing is assumed of the plan, the ids or the findings. */
  lemma {:induction false} PreflightsAgree(approved: bool, ids: seq<string>, plan: seq<PlanItem>, findings: Findings)
    requires approved ==> ids != []
    ensures NoObjection(approved, ids, plan, findings)
       <==> WriterAccepts(true, approved, ids, plan, Descriptors(plan))
            && forall id :: id in ids ==> id in findings && findings[id].fingerprint == PlanFingerprint(plan, id)
  {
    forall id | id in ids
      ensures PlanObjection(plan, findings, id) == None && FindingObjection(plan, findings, id) == None
         <==> ItemDiagnostic(plan, Descriptors(plan), id) == None
              && id in findings && findings[id].fingerprint == PlanFingerprint(plan, id)
    {
      DescriptorOf(plan, id);
    }
  }

  // ----- target freshness -----

  datatype Instant = Unreadable | At(t: real)

  datatype Probe = Probe(transportFailed: bool, current: Option<ReviewTarget>, methodMatches: bool,
                         checkedAt: Option<Instant>)

  datatype FreshReason = MalformedResponse | TransportFailed | UnknownFreshness | MissingMergeBase | MissingCheckedAt |
                         StaleTarget | FutureCheckedAt | CheckedBeforeApproval | TargetMismatch

  const MAX_FUTURE_SKEW: real := 60.0

  function CheckFreshness(target: ReviewTarget, approvedAt: Instant, probe: Probe, evaluated: real,
                          maxAge: real): Option<FreshReason> {
    if approvedAt == Unreadable then Some(MalformedResponse)
    else if probe.transportFailed then Some(TransportFailed)
    else if probe.current.None? then Some(UnknownFreshness)
    else if !probe.methodMatches then Some(MalformedResponse)
    else
      var now := probe.current.value;
      if now.mergeBaseSha.None? || target.mergeBaseSha.None? then Some(MissingMergeBase)
      else match probe.checkedAt
        case None => Some(MissingCheckedAt)
        case Some(Unreadable) => Some(MalformedResponse)
        case Some(At(t)) =>
          if evaluated - t > maxAge then Some(StaleTarget)
          else if evaluated - t < -MAX_FUTURE_SKEW then Some(FutureCheckedAt)
          else if t < approvedAt.t then Some(CheckedBeforeApproval)
          else if target.ownerRepo != now.ownerRepo || target.prNumber != now.prNumber
              || target.baseSha != now.baseSha
                  || target.headSha != now.headSha || target.mergeBaseSha != now.mergeBaseSha
                  || target.diffBasis != now.diffBasis then Some(TargetMismatch)
          else None
  }

  /** A target is fresh exactly when the probe saw the approved target itself, with its merge base, no
      earlier than the approval and within the age window of the evaluation. */
  lemma FreshIff(target: ReviewTarget, approvedAt: Instant, probe: Probe, evaluated: real, maxAge: real)
    ensures CheckFreshness(target, approvedAt, probe, evaluated, maxAge) == None <==>
              && approvedAt.At? && !probe.transportFailed && probe.methodMatches
              && probe.current == Some(target) && target.mergeBaseSha.Some?
              && (match probe.checkedAt
                  case Some(At(t)) => approvedAt.t <= t && evaluated - maxAge <= t <= evaluated + MAX_FUTURE_SKEW
                  case _ => false)
  {}

  // ----- the release cascade -----

  datatype State = Finalized | ClosedByFailure | NotReady

  datatype FinalReason =
    PreflightFailed | ActorPermissionFailed | FreshnessFailed | PayloadRejected |
    ReconciliationFailed | ReconciledWithExisting | ReconciliationDeferred

  datatype Finalization = Finalization(
    state: State, reason: Option<FinalReason>, actor: Option<string>, reconciliation: Option<Scan>,
    payload: Option<FinalPayload>, released: bool)

  /** A scan result together with the hashes it was asked for. */
  datatype Bound = Bound(result: Scan, expected: Expected)

  function ExpectedOf(p: FinalPayload): Expected { Expected(p.markerTarget, p.markerPayload, p.markerFindings) }

  function Closed(reason: FinalReason, scan: Option<Scan>): Finalization {
    Finalization(ClosedByFailure, Some(reason), None, scan, None, false)
  }

  /** `builder` is the rebuilt payload and `reconcile` the marker scan, both optional in the source. */
  function Finalize(h: Hashes, d: Decision, objected: bool, actorOk: bool, stale: Option<FreshReason>,
                    builder: Option<FinalPayload>, reconcile: Option<FinalPayload -> Bound>): Finalization
  {
    if objected then Closed(PreflightFailed, None)
    else if !actorOk then Closed(ActorPermissionFailed, None)
    else if stale.Some? then Closed(FreshnessFailed, None)
    else if builder.None? then Finalization(NotReady, Some(ReconciliationDeferred), None, None, None, false)
    else if builder.value.finalPayloadHash != d.finalPayloadHash then Closed(PayloadRejected, None)
    else if reconcile.None? then Finalization(NotReady, Some(ReconciliationDeferred), None, None, None, false)
    else if !Validate(h, builder.value).Pass? then Closed(PayloadRejected, None)
    else
      var payload := builder.value;
      var bound := reconcile.value(payload);
      if bound.expected != ExpectedOf(payload) then Closed(ReconciliationFailed, Some(bound.result))
      else match bound.result.status
        case SafeToPost => Finalization(Finalized, None, Some(d.actor), Some(bound.result), Some(payload), true)
        case ReconciledExisting =>
          Finalization(NotReady, Some(ReconciledWithExisting), None, Some(bound.result), None, false)
        case FailedClosed => Closed(ReconciliationFailed, Some(bound.result))
  }

  /** Only the last line of a valid payload matters to its canonical text. */
  lemma {:induction false} FinalLineOfCanonical(body: string)
    requires FinalLine(body) != ""
    ensures FinalLine(CanonicalTextBody(body)) == FinalLine(body)
  {
    var n := NormalizeNewlines(body);
    NormalizedHasNoCr(body);
    CanonicalBodyIsCanonical(body);
    NormalizeFixesCrFree(CanonicalTextBody(body));
    var t := if n != "" && Last(n) == '\n' then n[..|n| - 1] else n;
    if t != "" && Last(t) == '\n' {
      NothingAfterNewline(t);
    }
    RStripStops(t);
    assert CanonicalTextBody(body) == t + "\n";
    assert (t + "\n")[..|t|] == t;
  }

  /** No collision, of digests or of encodings, among the texts that the two payloads hash. */
  ghost predicate Separates(h: Hashes, p: FinalPayload, q: FinalPayload) {
    CollisionFree(h, {CanonicalTextBody(p.body), CanonicalTextBody(q.body),
                      TARGET_DOMAIN + h.encodeTarget(p.target), TARGET_DOMAIN + h.encodeTarget(q.target),
                      h.encodeList(Sort(p.fingerprints)), h.encodeList(Sort(q.fingerprints))})
    && (h.encodeTarget(p.target) == h.encodeTarget(q.target) ==> p.target == q.target)
    && (h.encodeList(Sort(p.fingerprints)) == h.encodeList(Sort(q.fingerprints))
        ==> Sort(p.fingerprints) == Sort(q.fingerprints))
  }

  /** What a separating hash gives: equal digests mean equal bodies, targets and fingerprints. */
  lemma {:induction false} SeparatesApart(h: Hashes, p: FinalPayload, q: FinalPayload)
    requires Separates(h, p, q)
    ensures FinalPayloadHash(h, p.body) == FinalPayloadHash(h, q.body) ==>
              CanonicalTextBody(p.body) == CanonicalTextBody(q.body)
    ensures TargetHash(h, p.target) == TargetHash(h, q.target) ==> p.target == q.target
    ensures FindingsHash(h, p.fingerprints).Some?
              && FindingsHash(h, p.fingerprints) == FindingsHash(h, q.fingerprints)
        ==> multiset(p.fingerprints) == multiset(q.fingerprints)
  {
    hide IsStrictHash, CanonicalTextBody, Sort, Distinct, CollisionFree;
    var texts := {CanonicalTextBody(p.body), CanonicalTextBody(q.body),
                  TARGET_DOMAIN + h.encodeTarget(p.target), TARGET_DOMAIN + h.encodeTarget(q.target),
                  h.encodeList(Sort(p.fingerprints)), h.encodeList(Sort(q.fingerprints))};
    SameDigest(h, texts, CanonicalTextBody(p.body), CanonicalTextBody(q.body));
    SameDigest(h, texts, TARGET_DOMAIN + h.encodeTarget(p.target), TARGET_DOMAIN + h.encodeTarget(q.target));
    SameDigest(h, texts, h.encodeList(Sort(p.fingerprints)), h.encodeList(Sort(q.fingerprints)));
    SamePrefix(TARGET_DOMAIN, h.encodeTarget(p.target), h.encodeTarget(q.target));
    SortCanonical(p.fingerprints, q.fingerprints);
  }

  lemma SameDigest(h: Hashes, texts: set<string>, a: string, b: string)
    requires CollisionFree(h, texts) && a in texts && b in texts
    ensures h.sha(a) == h.sha(b) ==> a == b
  {
    hide IsStrictHash;
  }

  lemma SamePrefix(prefix: string, x: string, y: string)
    ensures prefix + x == prefix + y ==> x == y
  {
    assert (prefix + x)[|prefix|..] == x && (prefix + y)[|prefix|..] == y;
  }

  /** A payload whose recorded hashes are those of its body and whose last line is its marker. */
  ghost predicate Coherent(h: Hashes, p: FinalPayload) {
    FinalLine(p.body) == p.markerLine
    && p.finalPayloadHash == FinalPayloadHash(h, p.body)
    && FindingsHash(h, p.fingerprints) == Some(p.markerFindings)
    && ParseByRegex(p.markerLine)
        == Some(Marker(p.markerRunId, TargetHash(h, p.target), p.markerPayload, p.markerFindings))
  }

  lemma {:induction false} ValidIsCoherent(h: Hashes, p: FinalPayload)
    requires Validate(h, p).Pass?
    ensures Coherent(h, p) && p.markerTarget == TargetHash(h, p.target)
  {
    hide IsStrictHash, CanonicalVisibleBody, CanonicalTextBody, FinalLine, ParseByRegex, MarkerLines, FindingsHash,
         Lines, FinalPayloadHash, VisibleBodyHash, TargetHash;
  }

  /** Two coherent payloads with one hash are one payload in everything that is posted or scanned for. */
  lemma {:induction false} SameHashSamePayload(h: Hashes, p: FinalPayload, q: FinalPayload)
    requires Coherent(h, p) && Coherent(h, q) && Separates(h, p, q)
    requires p.finalPayloadHash == q.finalPayloadHash
    ensures CanonicalTextBody(p.body) == CanonicalTextBody(q.body)
    ensures p.target == q.target && multiset(p.fingerprints) == multiset(q.fingerprints)
    ensures p.markerLine == q.markerLine
  {
    hide IsStrictHash, CanonicalTextBody, FinalLine, ParseByRegex, FindingsHash, FinalPayloadHash, TargetHash,
         Separates;
    SeparatesApart(h, p, q);
    EmptyIsNoMarker();
    FinalLineOfCanonical(p.body);
    FinalLineOfCanonical(q.body);
  }

  /** The payload the approval was given for. */
  function PayloadApproved(h: Hashes, q: Request, ids: seq<string>): Option<FinalPayload> {
    match Select(q.plan, ToSet(ids), q.findings)
    case Bad(_) => None
    case Chosen(items) => ApprovedPayload(h, q, items)
  }

  function FingerprintsApproved(q: Request, ids: seq<string>): seq<string> {
    match Select(q.plan, ToSet(ids), q.findings)
    case Bad(_) => []
    case Chosen(items) => Fingerprints(q.findings, items)
  }

  lemma {:induction false} ApprovedPayloadCoherent(h: Hashes, q: Request, ids: seq<string>)
    requires BuildProof(h, q, ids).Approved?
    ensures PayloadApproved(h, q, ids).Some?
    ensures var a := PayloadApproved(h, q, ids).value;
      Coherent(h, a) && a.target == q.target && CanonicalTextBody(a.body) == a.body
      && BuildProof(h, q, ids).proof.finalPayloadHash == a.finalPayloadHash
      && BuildProof(h, q, ids).proof.target == q.target
      && multiset(a.fingerprints) == multiset(FingerprintsApproved(q, ids))
  {
    hide BuildProof, Build, RunIdPasses, Select, Sort, Distinct, VisibleBody, Coherent, RStripNewlines,
         IsStrictHash, Fingerprints, CanonicalTextBody, IsMarkerLine, TargetHash, VisibleBodyHash, FinalPayloadHash,
         IsRunId, ItemIds;
    ProofGates(h, q, ids);
    RunIdPassesIff(q.runId);
    var items := Select(q.plan, ToSet(ids), q.findings).items;
    var prints := Fingerprints(q.findings, items);
    var visible := RedactedBody(q.redact, q.target, q.findings, items, q.verdict, q.includeVerdict);
    var passed := q.redact(VisibleBody(q.target, q.findings, items, q.verdict, q.includeVerdict)).passed;
    BuildIsCoherent(h, q.runId, q.target, visible, prints, passed);
  }

  lemma {:induction false} BuildIsCoherent(h: Hashes, runId: string, target: ReviewTarget, visible: string,
                                           fingerprints: seq<string>, redactionPassed: bool)
    requires Build(h, runId, target, visible, fingerprints, redactionPassed).Some?
    ensures var a := Build(h, runId, target, visible, fingerprints, redactionPassed).value;
      Coherent(h, a) && a.target == target && CanonicalTextBody(a.body) == a.body
      && multiset(a.fingerprints) == multiset(fingerprints)
  {
    hide Build, IsStrictHash, CanonicalTextBody, FinalLine, ParseByRegex, FindingsHash, FinalPayloadHash,
         TargetHash, WithMarker, StoredAs, IsRunId, Distinct, VisibleBodyHash;
    var a := Build(h, runId, target, visible, fingerprints, redactionPassed).value;
    BuildSucceedsIff(h, runId, target, visible, fingerprints, redactionPassed);
    BuildHashes(h, runId, target, visible, fingerprints, redactionPassed);
    MarkerLineIsOneLine(a.markerLine);
    WithMarkerShape(visible, a.markerLine);
    StoresKeepBodies(a.body);
    FinalLineRecovered(visible, a.markerLine, a.body);
    CanonicalFixesCanonical(a.body);
    BuildKeepsRunId(h, runId, target, visible, fingerprints, redactionPassed);
  }

  lemma BuildKeepsRunId(h: Hashes, runId: string, target: ReviewTarget, visible: string,
                        fingerprints: seq<string>, redactionPassed: bool)
    requires Build(h, runId, target, visible, fingerprints, redactionPassed).Some?
    ensures Build(h, runId, target, visible, fingerprints, redactionPassed).value.markerRunId == runId
  {
    hide BuildMarkerLine, FindingsHash, CanonicalTextBody, Sort, TargetHash, VisibleBodyHash, FinalPayloadHash,
         IsStrictHash;
  }

  /** Everything that has to hold before writer input is released. */
  lemma {:induction false} ReleaseRequires(h: Hashes, d: Decision, objected: bool, actorOk: bool,
                                           stale: Option<FreshReason>,
                                           builder: Option<FinalPayload>, reconcile: Option<FinalPayload -> Bound>)
    ensures Finalize(h, d, objected, actorOk, stale, builder, reconcile).released
       <==> !objected && actorOk && stale.None? && builder.Some? && reconcile.Some?
            && builder.value.finalPayloadHash == d.finalPayloadHash && Validate(h, builder.value).Pass?
            && reconcile.value(builder.value).expected == ExpectedOf(builder.value)
            && reconcile.value(builder.value).result.status == SafeToPost
    ensures var f := Finalize(h, d, objected, actorOk, stale, builder, reconcile);
      f.released <==> f.state == Finalized
    ensures var f := Finalize(h, d, objected, actorOk, stale, builder, reconcile);
      f.released ==>
        f.payload == builder && f.actor == Some(d.actor)
        && f.reconciliation == Some(reconcile.value(builder.value).result)
  {
    hide Validate, IsStrictHash, ExpectedOf;
  }

  /** What is made of a scan that is not safe. */
  lemma UnsafeScan(h: Hashes, d: Decision, objected: bool, actorOk: bool, stale: Option<FreshReason>,
                   payload: FinalPayload, reconcile: FinalPayload -> Bound)
    ensures var f, scan := Finalize(h, d, objected, actorOk, stale, Some(payload), Some(reconcile)),
              reconcile(payload).result;
      && (scan.status == FailedClosed ==> f.state == ClosedByFailure)
      && (scan.status == ReconciledExisting ==>
            f.state == ClosedByFailure
            || f == Finalization(NotReady, Some(ReconciledWithExisting), None, Some(scan), None, false))
  {
    hide Validate, IsStrictHash, ExpectedOf;
  }

  /** Release binds to approval: when writer input is released for a decision built from a proof,
      the released body is the approved one up to line endings, for the approved target, with
      exactly the approved fingerprints, under the actor whose permission was checked. The check passed,
      for that target and its endpoint, and was in time. */
  lemma {:induction false} ReleaseBindsToApproval(
      h: Hashes, q: Request, ids: seq<string>, gate: PermissionGate, age: Option<real>, maxAge: real, maxSkew: real,
      d: Decision, objected: bool, actorOk: bool, stale: Option<FreshReason>,
      builder: Option<FinalPayload>, reconcile: Option<FinalPayload -> Bound>)
    requires BuildDecision(h, BuildProof(h, q, ids), gate, age, maxAge, maxSkew) == Some(d)
    requires Finalize(h, d, objected, actorOk, stale, builder, reconcile).released
    requires builder.Some? && PayloadApproved(h, q, ids).Some? ==>
      Separates(h, builder.value, PayloadApproved(h, q, ids).value)
    ensures var f := Finalize(h, d, objected, actorOk, stale, builder, reconcile);
      f.payload.Some? && PayloadApproved(h, q, ids).Some?
      && CanonicalTextBody(f.payload.value.body) == PayloadApproved(h, q, ids).value.body
      && f.payload.value.markerLine == PayloadApproved(h, q, ids).value.markerLine
      && f.payload.value.target == q.target
      && multiset(f.payload.value.fingerprints) == multiset(FingerprintsApproved(q, ids))
      && f.actor == Some(gate.actor)
    ensures gate.passed && gate.endpointMatches
    ensures gate.checkedTarget == q.target && gate.checkedTargetHash == TargetHash(h, q.target)
    ensures age.Some? && -maxSkew <= age.value <= maxAge
  {
    hide Validate, BuildProof, Finalize, Coherent, Separates, CanonicalTextBody, Select, PayloadApproved,
         TargetHash, IsStrictHash, FingerprintsApproved, ToSet, ExpectedOf, BuildDecision;
    DecisionIff(h, BuildProof(h, q, ids), gate, age, maxAge, maxSkew);
    ReleaseRequires(h, d, objected, actorOk, stale, builder, reconcile);
    ApprovedPayloadCoherent(h, q, ids);
    ValidIsCoherent(h, builder.value);
    SameHashSamePayload(h, builder.value, PayloadApproved(h, q, ids).value);
  }

  /** The cascade with the freshness check in its place. */
  function FinalizeProbed(h: Hashes, d: Decision, objected: bool, actorOk: bool, approvedAt: Instant, probe: Probe,
                          evaluated: real, maxProbeAge: real, builder: Option<FinalPayload>,
                          reconcile: Option<FinalPayload -> Bound>): Finalization
  {
    Finalize(h, d, objected, actorOk, CheckFreshness(d.target, approvedAt, probe, evaluated, maxProbeAge), builder,
        reconcile)
  }

  /** Release sees the approved target: what is released was checked by a probe that read the approved
      target itself, no earlier than the approval and within the age window, and is for that target. */
  lemma ReleaseSeesApprovedTarget(
      h: Hashes, q: Request, ids: seq<string>, gate: PermissionGate, age: Option<real>, maxAge: real, maxSkew: real,
      d: Decision, objected: bool, actorOk: bool, approvedAt: Instant, probe: Probe, evaluated: real,
          maxProbeAge: real,
      builder: Option<FinalPayload>, reconcile: Option<FinalPayload -> Bound>)
    requires BuildDecision(h, BuildProof(h, q, ids), gate, age, maxAge, maxSkew) == Some(d)
    requires FinalizeProbed(h, d, objected, actorOk, approvedAt, probe, evaluated, maxProbeAge, builder,
              reconcile).released
    requires builder.Some? && PayloadApproved(h, q, ids).Some? ==>
      Separates(h, builder.value, PayloadApproved(h, q, ids).value)
    ensures builder.Some? && builder.value.target == q.target
    ensures probe.current == Some(q.target) && q.target.mergeBaseSha.Some? && !probe.transportFailed
    ensures match probe.checkedAt
      case Some(At(t)) => approvedAt.At? && approvedAt.t <= t
          && evaluated - maxProbeAge <= t <= evaluated + MAX_FUTURE_SKEW
      case _ => false
  {
    hide Validate, BuildProof, Finalize, Coherent, Separates, CanonicalTextBody, Select, PayloadApproved,
         TargetHash, IsStrictHash, FingerprintsApproved, ToSet, ExpectedOf, BuildDecision, CheckFreshness;
    var stale := CheckFreshness(d.target, approvedAt, probe, evaluated, maxProbeAge);
    DecisionIff(h, BuildProof(h, q, ids), gate, age, maxAge, maxSkew);
    ReleaseRequires(h, d, objected, actorOk, stale, builder, reconcile);
    FreshIff(d.target, approvedAt, probe, evaluated, maxProbeAge);
    ApprovedPayloadCoherent(h, q, ids);
    ReleaseBindsToApproval(h, q, ids, gate, age, maxAge, maxSkew, d, objected, actorOk, stale, builder, reconcile);
  }
}
