/** Exactly when an approval proof is granted, and otherwise what is reported. */
module Granting {
  import opened Text
  import opened Marker
  import opened Bodies
  import opened Payload
  import opened Approval

  /** A public item of the review body, of a finding that may be posted. */
  predicate Postable(item: PlanItem) {
    item.isPublic && item.destination == ReviewBodyItem && item.classification == POSTABLE
  }

  /** The item names its finding and the finding's fingerprint as it is now. */
  predicate Current(item: PlanItem, findings: Findings) {
    item.id in findings && item.fingerprint == Some(findings[item.id].fingerprint)
  }

  /** The approved items in plan order. */
  function ApprovedItems(plan: seq<PlanItem>, ids: seq<string>): seq<PlanItem> {
    if plan == [] then []
    else (if plan[0].id in ids then [plan[0]] else []) + ApprovedItems(plan[1..], ids)
  }

  function ItemChecks(items: seq<PlanItem>, findings: Findings): (checks: seq<Check<ProofReason>>)
    ensures (forall i :: 0 <= i < |checks| ==> checks[i].holds)
       <==> forall i :: 0 <= i < |items| ==> Postable(items[i]) && Current(items[i], findings)
  {
    if items == [] then []
    else
      var item, rest := items[0], ItemChecks(items[1..], findings);
      var first := [Check(Postable(item), NonPublicDestination), Check(Current(item, findings), UnknownApprovedId)];
      assert forall i :: 0 <= i < |rest| ==> (first + rest)[i + 2] == rest[i];
      assert forall i :: 0 <= i < |items| - 1 ==> items[1..][i] == items[i + 1];
      assert (first + rest)[0] == first[0] && (first + rest)[1] == first[1];
      first + rest
  }

  /** The checks on the request. */
  function RequestChecks(q: Request): seq<Check<ProofReason>> {
    [Check(IsRunId(q.runId), InvalidRunId),
     Check(!(q.includeVerdict && q.verdict == Some("request_changes")), RequestChangesDeferred),
     Check(forall i :: 0 <= i < |q.plan| ==> q.plan[i].destination != SummaryItem, SummaryDeferred)]
  }

  function IdChecks(q: Request, ids: seq<string>): seq<Check<ProofReason>> {
    [Check(ids != [], EmptyApproval),
     Check(Distinct(ids), DuplicateApproved),
     Check(forall id :: id in ids ==> exists i :: 0 <= i < |q.plan| && q.plan[i].id == id, UnknownApprovedId)]
  }

  /** The redaction of the body of these items passed. */
  predicate Redacts(q: Request, items: seq<PlanItem>) {
    Known(q.findings, items) && q.redact(VisibleBody(q.target, q.findings, items, q.verdict, q.includeVerdict)).passed
  }

  predicate PrintsApart(findings: Findings, items: seq<PlanItem>) {
    Known(findings, items)
    && forall i, j :: 0 <= i < j < |items| ==> findings[items[i].id].fingerprint != findings[items[j].id].fingerprint
  }

  function BodyChecks(q: Request, items: seq<PlanItem>): seq<Check<ProofReason>> {
    [Check(PrintsApart(q.findings, items), DuplicateApproved),
     Check(q.candidateBinds, CandidateMismatch),
     Check(Redacts(q, items), FinalRedactionFailed)]
  }

  function ProofChecks(q: Request, ids: seq<string>): seq<Check<ProofReason>> {
    var items := ApprovedItems(q.plan, ids);
    RequestChecks(q) + IdChecks(q, ids) + ItemChecks(items, q.findings) + BodyChecks(q, items)
  }

  lemma {:induction false} SelectFollows(plan: seq<PlanItem>, ids: seq<string>, findings: Findings)
    ensures var items := ApprovedItems(plan, ids);
      Select(plan, ToSet(ids), findings)
      == match FirstFailed(ItemChecks(items, findings)) case None => Chosen(items) case Some(reason) => Bad(reason)
  {
    hide FirstFailed;
    if plan == [] {
      NothingFails<ProofReason>();
    } else {
      SelectFollows(plan[1..], ids, findings);
      if plan[0].id in ids {
        var rest := ApprovedItems(plan[1..], ids);
        assert ([plan[0]] + rest)[1..] == rest;
        ItemFollows(plan[0], rest, findings);
      } else {
        assert [] + ApprovedItems(plan[1..], ids) == ApprovedItems(plan[1..], ids);
      }
    }
  }

  lemma NothingFails<R>()
    ensures FirstFailed<R>([]) == None
  {}

  lemma ItemFollows(item: PlanItem, rest: seq<PlanItem>, findings: Findings)
    ensures FirstFailed(ItemChecks([item] + rest, findings))
         == if ItemProblem(item, findings).Some? then ItemProblem(item, findings)
            else FirstFailed(ItemChecks(rest, findings))
  {
    assert ([item] + rest)[0] == item && ([item] + rest)[1..] == rest;
    var first := [Check(Postable(item), NonPublicDestination), Check(Current(item, findings), UnknownApprovedId)];
    FailedConcat(first, ItemChecks(rest, findings));
    assert first[1..] == [first[1]] && [first[1]][1..] == [];
  }

  lemma RequestFollows(h: Hashes, q: Request, ids: seq<string>)
    ensures match FirstFailed(RequestChecks(q) + IdChecks(q, ids))
            case Some(reason) => BuildProof(h, q, ids) == Refused(reason)
            case None => BuildProof(h, q, ids) == match Select(q.plan, ToSet(ids), q.findings)
              case Bad(reason) => Refused(reason)
              case Chosen(items) => ProofOf(h, q, items)
  {
    hide IsRunId, RunIdPasses, Distinct, ProofOf, Select, FirstFailed, ToSet, IdSet, HasSummary;
    RunIdPassesIff(q.runId);
    KnownIds(q.plan, ids);
    FailedConcat(RequestChecks(q), IdChecks(q, ids));
    ThreeChecks(RequestChecks(q)[0], RequestChecks(q)[1], RequestChecks(q)[2]);
    ThreeChecks(IdChecks(q, ids)[0], IdChecks(q, ids)[1], IdChecks(q, ids)[2]);
  }

  lemma KnownIds(plan: seq<PlanItem>, ids: seq<string>)
    ensures ToSet(ids) <= IdSet(plan) <==> forall id :: id in ids ==> exists i :: 0 <= i < |plan| && plan[i].id == id
    ensures HasSummary(plan) <==> !forall i :: 0 <= i < |plan| ==> plan[i].destination != SummaryItem
  {
    forall id ensures id in IdSet(plan) <==> exists i :: 0 <= i < |plan| && plan[i].id == id {
      if i :| 0 <= i < |plan| && plan[i].id == id {
        assert plan[i] in plan;
      }
    }
    assert forall id :: id in ToSet(ids) <==> id in ids;
  }

  lemma BodyFollows(h: Hashes, q: Request, items: seq<PlanItem>)
    requires Known(q.findings, items) && IsRunId(q.runId)
    ensures match FirstFailed(BodyChecks(q, items))
            case Some(reason) => ProofOf(h, q, items) == Refused(reason)
            case None => ProofOf(h, q, items).Approved?
  {
    hide IsRunId, Distinct, FirstFailed, Build, VisibleBody, Sort, IsMarkerLine, TargetHash, VisibleBodyHash,
         RStripNewlines, Redacts, PrintsApart;
    var c := BodyChecks(q, items);
    ThreeChecks(c[0], c[1], c[2]);
    PrintsApartIff(q.findings, items);
    PayloadOfBody(h, q, items);
  }

  lemma PrintsApartIff(findings: Findings, items: seq<PlanItem>)
    requires Known(findings, items)
    ensures PrintsApart(findings, items) <==> Distinct(Sort(Fingerprints(findings, items)))
  {
    hide Sort;
    DistinctUnderSort(Fingerprints(findings, items));
  }

  /** The payload of distinct fingerprints is built, passes or fails redaction with its body, and has a marker. */
  lemma PayloadOfBody(h: Hashes, q: Request, items: seq<PlanItem>)
    requires Known(q.findings, items) && IsRunId(q.runId)
    ensures PrintsApart(q.findings, items) ==>
              var p := ApprovedPayload(h, q, items);
              p.Some? && IsMarkerLine(p.value.markerLine) && p.value.redactionPassed == Redacts(q, items)
  {
    hide IsRunId, Sort, IsMarkerLine, TargetHash, VisibleBodyHash, Build, VisibleBody, RStripNewlines, Distinct,
         PrintsApart, FindingsHash, FinalPayloadHash;
    PrintsApartIff(q.findings, items);
    DistinctUnderSort(Fingerprints(q.findings, items));
    var redacted := q.redact(VisibleBody(q.target, q.findings, items, q.verdict, q.includeVerdict));
    var visible, prints := RStripNewlines(redacted.text) + "\n", Fingerprints(q.findings, items);
    BuildSucceedsIff(h, q.runId, q.target, visible, prints, redacted.passed);
    if PrintsApart(q.findings, items) {
      BuiltHasOwnHashes(h, q.runId, q.target, visible, prints, redacted.passed);
      ParsesIsMarkerLine(Build(h, q.runId, q.target, visible, prints, redacted.passed).value.markerLine);
    }
  }

  lemma ParsesIsMarkerLine(line: string)
    ensures ParseByRegex(line).Some? ==> IsMarkerLine(line)
  {
    ParsersAgree(line);
  }

  /** The proof goes through the checks in this order: it is granted when all hold, and otherwise refused with
      the reason of the first that fails. */
  lemma ProofFollowsChecks(h: Hashes, q: Request, ids: seq<string>)
    ensures match FirstFailed(ProofChecks(q, ids))
            case Some(reason) => BuildProof(h, q, ids) == Refused(reason)
            case None => BuildProof(h, q, ids).Approved?
  {
    hide FirstFailed, BuildProof, ProofOf, Select, RequestChecks, IdChecks, ItemChecks, BodyChecks, IsRunId, ToSet;
    var items := ApprovedItems(q.plan, ids);
    var before := RequestChecks(q) + IdChecks(q, ids);
    FailedConcat(before + ItemChecks(items, q.findings), BodyChecks(q, items));
    FailedConcat(before, ItemChecks(items, q.findings));
    RequestFollows(h, q, ids);
    SelectFollows(q.plan, ids, q.findings);
    if FirstFailed(before) == None && FirstFailed(ItemChecks(items, q.findings)) == None {
      RunIdChecked(q, ids);
      BodyFollows(h, q, items);
    }
  }

  lemma RunIdChecked(q: Request, ids: seq<string>)
    requires FirstFailed(RequestChecks(q) + IdChecks(q, ids)) == None
    ensures IsRunId(q.runId)
  {
    hide IsRunId;
    assert (RequestChecks(q) + IdChecks(q, ids))[0].holds;
  }

  /** Exactly when a proof is granted, whatever the digest. */
  lemma ProofGrantedIff(h: Hashes, q: Request, ids: seq<string>)
    ensures BuildProof(h, q, ids).Approved? <==>
              && IsRunId(q.runId) && !(q.includeVerdict && q.verdict == Some("request_changes"))
              && (forall i :: 0 <= i < |q.plan| ==> q.plan[i].destination != SummaryItem)
              && ids != [] && Distinct(ids)
              && (forall id :: id in ids ==> exists i :: 0 <= i < |q.plan| && q.plan[i].id == id)
              && (forall i :: 0 <= i < |q.plan| && q.plan[i].id in ids ==>
                    Postable(q.plan[i]) && Current(q.plan[i], q.findings))
              && PrintsApart(q.findings, ApprovedItems(q.plan, ids))
              && q.candidateBinds && Redacts(q, ApprovedItems(q.plan, ids))
  {
    hide BuildProof, IsRunId, Postable, Current, PrintsApart, Redacts, Distinct, FirstFailed, RequestChecks, IdChecks,
         ItemChecks, BodyChecks, ApprovedItems;
    ProofFollowsChecks(h, q, ids);
    var items := ApprovedItems(q.plan, ids);
    AllHold(RequestChecks(q) + IdChecks(q, ids) + ItemChecks(items, q.findings), BodyChecks(q, items));
    AllHold(RequestChecks(q) + IdChecks(q, ids), ItemChecks(items, q.findings));
    AllHold(RequestChecks(q), IdChecks(q, ids));
    RequestHolds(q);
    IdsHold(q, ids);
    ItemsHold(q.plan, ids, q.findings);
    BodyHolds(q, items);
  }

  lemma RequestHolds(q: Request)
    ensures FirstFailed(RequestChecks(q)) == None <==>
              && IsRunId(q.runId) && !(q.includeVerdict && q.verdict == Some("request_changes"))
              && forall i :: 0 <= i < |q.plan| ==> q.plan[i].destination != SummaryItem
  {
    hide IsRunId;
    ThreeHold(RequestChecks(q));
  }

  lemma IdsHold(q: Request, ids: seq<string>)
    ensures FirstFailed(IdChecks(q, ids)) == None <==>
              && ids != [] && Distinct(ids)
              && forall id :: id in ids ==> exists i :: 0 <= i < |q.plan| && q.plan[i].id == id
  {
    hide Distinct;
    ThreeHold(IdChecks(q, ids));
  }

  lemma ItemsHold(plan: seq<PlanItem>, ids: seq<string>, findings: Findings)
    ensures FirstFailed(ItemChecks(ApprovedItems(plan, ids), findings)) == None <==>
              forall i :: 0 <= i < |plan| && plan[i].id in ids ==> Postable(plan[i]) && Current(plan[i], findings)
  {
    hide Postable, Current, FirstFailed, ItemChecks, ApprovedItems;
    ApprovedItemsAre(plan, ids);
    var items := ApprovedItems(plan, ids);
    assert forall i :: 0 <= i < |plan| && plan[i].id in ids ==> plan[i] in plan && plan[i] in items;
    assert forall i :: 0 <= i < |items| ==> items[i] in items && items[i] in plan;
  }

  lemma BodyHolds(q: Request, items: seq<PlanItem>)
    ensures FirstFailed(BodyChecks(q, items)) == None <==>
              PrintsApart(q.findings, items) && q.candidateBinds && Redacts(q, items)
  {
    hide PrintsApart, Redacts;
    ThreeHold(BodyChecks(q, items));
  }

  lemma AllHold<R>(a: seq<Check<R>>, b: seq<Check<R>>)
    ensures FirstFailed(a + b) == None <==> FirstFailed(a) == None && FirstFailed(b) == None
  {
    FailedConcat(a, b);
  }

  lemma ThreeHold<R>(checks: seq<Check<R>>)
    requires |checks| == 3
    ensures FirstFailed(checks) == None <==> checks[0].holds && checks[1].holds && checks[2].holds
  {}

  lemma {:induction false} ApprovedItemsAre(plan: seq<PlanItem>, ids: seq<string>)
    ensures forall item :: item in ApprovedItems(plan, ids) <==> item in plan && item.id in ids
  {
    if plan != [] {
      ApprovedItemsAre(plan[1..], ids);
    }
  }
}
