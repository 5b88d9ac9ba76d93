/** Approval: the selected plan items fix a body, the body fixes the hashes, and a decision
    carries those hashes to finalization. */
module Approval {
  import opened Text
  import opened Marker
  import opened Bodies
  import opened Payload

  datatype Destination = SummaryItem | ReviewBodyItem | InlineCandidate | SuggestedReply | LocalOnly

  datatype PlanItem = PlanItem(id: string, classification: string, destination: Destination,
                               isPublic: bool, fingerprint: Option<string>)

  const POSTABLE := "postable_finding"

  /** What the plan's own constructor enforces. */
  ghost predicate ValidPlan(plan: seq<PlanItem>) {
    (forall i, j :: 0 <= i < j < |plan| ==> plan[i].id != plan[j].id)
    && forall i :: 0 <= i < |plan| ==>
         plan[i].fingerprint != Some("")
         && (plan[i].isPublic ==> plan[i].destination in {SummaryItem, ReviewBodyItem})
  }

  datatype Finding = Finding(title: string, body: string, path: string, line: nat, priority: nat, fingerprint: string)

  type Findings = map<string, Finding>

  datatype Redacted = Redacted(text: string, passed: bool)

  // ----- the approved body -----

  function FindingLine(f: Finding): string {
    "- P" + Decimal(f.priority) + " " + f.title + ": " + f.body + " (" + f.path + ":" + Decimal(f.line) + ")"
  }

  predicate Known(findings: Findings, items: seq<PlanItem>) {
    forall i :: 0 <= i < |items| ==> items[i].id in findings
  }

  function FindingLines(findings: Findings, items: seq<PlanItem>): seq<string>
    requires Known(findings, items)
  {
    if items == [] then [] else [FindingLine(findings[items[0].id])] + FindingLines(findings, items[1..])
  }

  function Heading(target: ReviewTarget, verdict: Option<string>, includeVerdict: bool): seq<string> {
    ["ReviewGraph approved findings",
     "Target: " + target.ownerRepo + "#" + Decimal(target.prNumber),
     "Head: " + target.headSha,
     ""]
    + (if includeVerdict && verdict.Some? then ["Local verdict: " + verdict.value, ""] else [])
    + ["Approved findings:"]
  }

  function VisibleBody(target: ReviewTarget, findings: Findings, items: seq<PlanItem>,
                       verdict: Option<string>, includeVerdict: bool): string
    requires Known(findings, items)
  {
    RStripNewlines(Join(Heading(target, verdict, includeVerdict) + FindingLines(findings, items), '\n')) + "\n"
  }

  method ApprovedVisibleBody(target: ReviewTarget, findings: Findings, items: seq<PlanItem>,
                             verdict: Option<string>, includeVerdict: bool) returns (body: string)
    requires Known(findings, items)
    ensures body == VisibleBody(target, findings, items, verdict, includeVerdict)
  {
    var parts := Heading(target, verdict, includeVerdict);
    for i := 0 to |items|
      invariant parts + FindingLines(findings, items[i..])
             == Heading(target, verdict, includeVerdict) + FindingLines(findings, items)
    {
      assert items[i..][1..] == items[i + 1..];
      parts := parts + [FindingLine(findings[items[i].id])];
    }
    assert parts + [] == parts;
    return RStripNewlines(Join(parts, '\n')) + "\n";
  }

  function Fingerprints(findings: Findings, items: seq<PlanItem>): (r: seq<string>)
    requires Known(findings, items)
    ensures |r| == |items| && forall i :: 0 <= i < |items| ==> r[i] == findings[items[i].id].fingerprint
  {
    if items == [] then [] else [findings[items[0].id].fingerprint] + Fingerprints(findings, items[1..])
  }

  lemma {:induction false} FindingLinesAppend(findings: Findings, items: seq<PlanItem>, item: PlanItem)
    requires Known(findings, items) && item.id in findings
    ensures Known(findings, items + [item])
    ensures FindingLines(findings, items + [item]) == FindingLines(findings, items) + [FindingLine(findings[item.id])]
  {
    assert forall i :: 0 <= i < |items| ==> (items + [item])[i] == items[i];
    if items != [] {
      assert (items + [item])[1..] == items[1..] + [item];
      FindingLinesAppend(findings, items[1..], item);
    }
  }

  /** The parts of the body as they are joined: nothing at their end is a newline to strip. */
  lemma BodyIsJoined(target: ReviewTarget, findings: Findings, items: seq<PlanItem>, verdict: Option<string>,
                     includeVerdict: bool)
    requires Known(findings, items)
    ensures var parts := Heading(target, verdict, includeVerdict) + FindingLines(findings, items);
      VisibleBody(target, findings, items, verdict, includeVerdict) == Join(parts, '\n') + "\n"
  {
    hide Decimal, FindingLine;
    var heading, lines := Heading(target, verdict, includeVerdict), FindingLines(findings, items);
    var parts := heading + lines;
    var shorter, last := parts[..|parts| - 1], Last(parts);
    LastPart(target, findings, items, verdict, includeVerdict);
    assert shorter + [last] == parts;
    JoinSnoc(shorter, '\n', last);
    RStripStops(Join(parts, '\n'));
  }

  lemma LastPart(target: ReviewTarget, findings: Findings, items: seq<PlanItem>, verdict: Option<string>,
                 includeVerdict: bool)
    requires Known(findings, items)
    ensures var parts := Heading(target, verdict, includeVerdict) + FindingLines(findings, items);
      |parts| >= 2 && Last(parts) != "" && Last(Last(parts)) != '\n'
  {
    hide Decimal;
    if items != [] {
      assert items[..|items| - 1] + [Last(items)] == items;
      FindingLinesAppend(findings, items[..|items| - 1], Last(items));
    }
  }

  /** Every further item adds exactly the line of its finding at the end of the body. */
  lemma BodyGrowsByFinding(target: ReviewTarget, findings: Findings, items: seq<PlanItem>, item: PlanItem,
                           verdict: Option<string>, includeVerdict: bool)
    requires Known(findings, items) && item.id in findings
    ensures Known(findings, items + [item])
    ensures VisibleBody(target, findings, items + [item], verdict, includeVerdict)
         == VisibleBody(target, findings, items, verdict, includeVerdict) + FindingLine(findings[item.id]) + "\n"
  {
    hide FindingLine, Heading, Decimal;
    FindingLinesAppend(findings, items, item);
    BodyIsJoined(target, findings, items, verdict, includeVerdict);
    BodyIsJoined(target, findings, items + [item], verdict, includeVerdict);
    LastPart(target, findings, items, verdict, includeVerdict);
    var heading, lines := Heading(target, verdict, includeVerdict), FindingLines(findings, items);
    Assoc(heading, lines, [FindingLine(findings[item.id])]);
    JoinSnoc(heading + lines, '\n', FindingLine(findings[item.id]));
  }

  /** Read line by line, the body is the heading and then each selected finding's line in plan order,
      exactly when none of those holds a line break of its own. */
  lemma BodyReadsBackIff(target: ReviewTarget, findings: Findings, items: seq<PlanItem>, verdict: Option<string>,
                         includeVerdict: bool)
    requires Known(findings, items)
    ensures var parts := Heading(target, verdict, includeVerdict) + FindingLines(findings, items);
      Split(VisibleBody(target, findings, items, verdict, includeVerdict), '\n') == parts + [""]
      <==> forall i :: 0 <= i < |parts| ==> '\n' !in parts[i]
  {
    hide FindingLine, Heading, Decimal, VisibleBody;
    var parts := Heading(target, verdict, includeVerdict) + FindingLines(findings, items);
    var body := VisibleBody(target, findings, items, verdict, includeVerdict);
    BodyIsJoined(target, findings, items, verdict, includeVerdict);
    LastPart(target, findings, items, verdict, includeVerdict);
    assert Join(parts, '\n') + ['\n'] + "" == body;
    SplitConcat(Join(parts, '\n'), '\n', "");
    SplitPartsLackSep(body, '\n');
    if forall i :: 0 <= i < |parts| ==> '\n' !in parts[i] {
      SplitJoin(parts, '\n');
    } else {
      var i :| 0 <= i < |parts| && '\n' in parts[i];
      assert (parts + [""])[i] == parts[i];
    }
  }

  const VERDICT_LINE := "Local verdict: "

  /** A line of the body, none broken in two, tells the verdict exactly when there is one and it is to be included;
      and the body opens with the target and the commit that were reviewed. */
  lemma BodyTellsVerdictIff(target: ReviewTarget, findings: Findings, items: seq<PlanItem>, verdict: Option<string>,
                            includeVerdict: bool)
    requires Known(findings, items)
    requires var parts := Heading(target, verdict, includeVerdict) + FindingLines(findings, items);
      forall i :: 0 <= i < |parts| ==> '\n' !in parts[i]
    ensures var lines := Split(VisibleBody(target, findings, items, verdict, includeVerdict), '\n');
      && (includeVerdict && verdict.Some? ==> VERDICT_LINE + verdict.value in lines)
      && ((exists i :: 0 <= i < |lines| && VERDICT_LINE <= lines[i]) ==> includeVerdict && verdict.Some?)
      && |lines| >= 3 && lines[1] == "Target: " + target.ownerRepo + "#" + Decimal(target.prNumber)
      && lines[2] == "Head: " + target.headSha
  {
    hide Decimal, VisibleBody, FindingLine;
    BodyReadsBackIff(target, findings, items, verdict, includeVerdict);
    var heading, lines := Heading(target, verdict, includeVerdict), FindingLines(findings, items);
    var all := Split(VisibleBody(target, findings, items, verdict, includeVerdict), '\n');
    assert all == heading + lines + [""];
    LinesTellNoVerdict(findings, items);
    if includeVerdict && verdict.Some? {
      assert heading[4] == VERDICT_LINE + verdict.value && all[4] == heading[4];
    } else {
      forall i | 0 <= i < |all| ensures !(VERDICT_LINE <= all[i]) {
        if i < |heading| {
          OtherStart(heading[i]);
        } else if i < |heading| + |lines| {
          assert all[i] == lines[i - |heading|];
        }
      }
    }
  }

  lemma OtherStart(line: string)
    ensures VERDICT_LINE <= line ==> line != "" && line[0] == 'L'
  {
    assert VERDICT_LINE <= line ==> line[0] == VERDICT_LINE[0];
  }

  lemma {:induction false} LinesTellNoVerdict(findings: Findings, items: seq<PlanItem>)
    requires Known(findings, items)
    ensures forall i :: 0 <= i < |FindingLines(findings, items)| ==> !(VERDICT_LINE <= FindingLines(findings, items)[i])
  {
    if items != [] {
      LinesTellNoVerdict(findings, items[1..]);
      OtherStart(FindingLine(findings[items[0].id]));
    }
  }

  /** The visible text the payload is built from; the final body is `Build` of it. */
  function RedactedBody(redact: string -> Redacted, target: ReviewTarget, findings: Findings, items: seq<PlanItem>,
                        verdict: Option<string>, includeVerdict: bool): string
    requires Known(findings, items)
  {
    RStripNewlines(redact(VisibleBody(target, findings, items, verdict, includeVerdict)).text) + "\n"
  }

  // ----- the approval proof -----

  datatype ProofReason =
    InvalidRunId | RequestChangesDeferred | SummaryDeferred | EmptyApproval | DuplicateApproved |
    UnknownApprovedId | NonPublicDestination | CandidateMismatch | FinalRedactionFailed

  datatype Proof = Proof(ids: seq<string>, target: ReviewTarget, targetHash: string, finalPayloadHash: string,
                         visibleBodyHash: string, markerPayloadHash: string, findingsHash: string, markerLine: string)

  /** Crashed stands for a ValueError out of the payload builder. */
  datatype ProofResult = Approved(proof: Proof) | Refused(reason: ProofReason) | Crashed

  datatype Request = Request(
    runId: string, target: ReviewTarget, plan: seq<PlanItem>, findings: Findings,
    candidateBinds: bool, verdict: Option<string>, includeVerdict: bool, redact: string -> Redacted)

  datatype Selection = Chosen(items: seq<PlanItem>) | Bad(reason: ProofReason)

  function ItemProblem(item: PlanItem, findings: Findings): Option<ProofReason> {
    if !item.isPublic then Some(NonPublicDestination)
    else if item.destination != ReviewBodyItem then Some(NonPublicDestination)
    else if item.classification != POSTABLE then Some(NonPublicDestination)
    else if item.id !in findings || item.fingerprint != Some(findings[item.id].fingerprint)
    then Some(UnknownApprovedId)
    else None
  }

  /** The approved items in plan order, or the first problem among them. */
  function Select(plan: seq<PlanItem>, ids: set<string>, findings: Findings): (r: Selection)
    ensures r.Chosen? ==> Known(findings, r.items)
    ensures r.Chosen? ==> forall item :: item in r.items ==>
              item in plan && item.id in ids && ItemProblem(item, findings) == None
    ensures r.Chosen? ==> forall item :: item in plan && item.id in ids ==> item in r.items
  {
    if plan == [] then Chosen([])
    else if plan[0].id !in ids then Select(plan[1..], ids, findings)
    else match ItemProblem(plan[0], findings)
      case Some(reason) => Bad(reason)
      case None =>
        match Select(plan[1..], ids, findings)
        case Bad(reason) => Bad(reason)
        case Chosen(items) => Chosen([plan[0]] + items)
  }

  method SelectItems(plan: seq<PlanItem>, ids: set<string>, findings: Findings) returns (r: Selection)
    ensures r == Select(plan, ids, findings)
  {
    var selected: seq<PlanItem> := [];
    for i := 0 to |plan|
      invariant Select(plan, ids, findings) ==
        match Select(plan[i..], ids, findings)
        case Chosen(items) => Chosen(selected + items)
        case Bad(reason) => Bad(reason)
    {
      assert plan[i..][1..] == plan[i + 1..];
      if plan[i].id !in ids {
        continue;
      }
      var problem := ItemProblem(plan[i], findings);
      if problem.Some? {
        return Bad(problem.value);
      }
      ghost var rest := Select(plan[i + 1..], ids, findings);
      assert rest.Chosen? ==> selected + ([plan[i]] + rest.items) == (selected + [plan[i]]) + rest.items;
      selected := selected + [plan[i]];
    }
    assert selected + [] == selected;
    return Chosen(selected);
  }

  /** approval.py checks a run id by printing it into a marker of zero hashes. */
  predicate RunIdPasses(runId: string) {
    IsMarkerLine(Print(Marker(runId, ZERO_HASH, ZERO_HASH, ZERO_HASH)))
  }

  lemma {:induction false} RunIdPassesIff(runId: string)
    ensures RunIdPasses(runId) <==> IsRunId(runId)
  {
    hide IsMarkerLine, Print;
    assert IsStrictHash(ZERO_HASH);
    PrintedIsMarkerLineIff(Marker(runId, ZERO_HASH, ZERO_HASH, ZERO_HASH));
  }

  function ToSet(ids: seq<string>): set<string> {
    set id | id in ids
  }

  function IdSet(plan: seq<PlanItem>): set<string> {
    set item | item in plan :: item.id
  }

  predicate HasSummary(plan: seq<PlanItem>) {
    exists i :: 0 <= i < |plan| && plan[i].destination == SummaryItem
  }

  function BuildProof(h: Hashes, q: Request, ids: seq<string>): ProofResult {
    if !RunIdPasses(q.runId) then Refused(InvalidRunId)
    else if q.includeVerdict && q.verdict == Some("request_changes") then Refused(RequestChangesDeferred)
    else if HasSummary(q.plan) then Refused(SummaryDeferred)
    else if ids == [] then Refused(EmptyApproval)
    else if !Distinct(ids) then Refused(DuplicateApproved)
    else if !(ToSet(ids) <= IdSet(q.plan)) then Refused(UnknownApprovedId)
    else match Select(q.plan, ToSet(ids), q.findings)
      case Bad(reason) => Refused(reason)
      case Chosen(items) => ProofOf(h, q, items)
  }

  function ProofOf(h: Hashes, q: Request, items: seq<PlanItem>): ProofResult
    requires Known(q.findings, items)
  {
    if !Distinct(Sort(Fingerprints(q.findings, items))) then Refused(DuplicateApproved)
    else if !q.candidateBinds then Refused(CandidateMismatch)
    else match ApprovedPayload(h, q, items)
      case None => Crashed
      case Some(p) =>
        if !p.redactionPassed then Refused(FinalRedactionFailed)
        else if !IsMarkerLine(p.markerLine) then Refused(InvalidRunId)
        else
          var visible := RedactedBody(q.redact, q.target, q.findings, items, q.verdict, q.includeVerdict);
          Approved(Proof(ItemIds(items), q.target, TargetHash(h, q.target), p.finalPayloadHash,
                         VisibleBodyHash(h, visible), p.markerPayload, p.findingsHash, p.markerLine))
  }

  function ApprovedPayload(h: Hashes, q: Request, items: seq<PlanItem>): Option<FinalPayload>
    requires Known(q.findings, items)
  {
    var visible := VisibleBody(q.target, q.findings, items, q.verdict, q.includeVerdict);
    Build(h, q.runId, q.target, RStripNewlines(q.redact(visible).text) + "\n",
          Fingerprints(q.findings, items), q.redact(visible).passed)
  }

  function ItemIds(items: seq<PlanItem>): (r: seq<string>)
    ensures |r| == |items| && forall i :: 0 <= i < |items| ==> r[i] == items[i].id
  {
    if items == [] then [] else [items[0].id] + ItemIds(items[1..])
  }

  /** The order in which ids are approved changes neither the outcome nor any hash. */
  lemma {:induction false} ApprovalOrderIrrelevant(h: Hashes, q: Request, ids: seq<string>, ids': seq<string>)
    requires multiset(ids) == multiset(ids')
    ensures BuildProof(h, q, ids) == BuildProof(h, q, ids')
  {
    hide RunIdPasses, Select, ProofOf, HasSummary, IdSet, Distinct, ToSet;
    SameIds(ids, ids');
  }

  lemma SameIds(ids: seq<string>, ids': seq<string>)
    requires multiset(ids) == multiset(ids')
    ensures ToSet(ids) == ToSet(ids') && |ids| == |ids'| && (Distinct(ids) <==> Distinct(ids'))
  {
    hide Distinct;
    DistinctByCount(ids);
    DistinctByCount(ids');
    assert forall id :: id in ids <==> id in multiset(ids);
    assert forall id :: id in ids' <==> id in multiset(ids');
    assert ToSet(ids) == ToSet(ids');
    assert |multiset(ids)| == |ids| && |multiset(ids')| == |ids'|;
  }

  lemma {:induction false} ProofGates(h: Hashes, q: Request, ids: seq<string>)
    requires BuildProof(h, q, ids).Approved? || BuildProof(h, q, ids).Crashed?
    ensures RunIdPasses(q.runId) && ids != [] && Distinct(ids) && ToSet(ids) <= IdSet(q.plan)
    ensures Select(q.plan, ToSet(ids), q.findings).Chosen?
    ensures BuildProof(h, q, ids) == ProofOf(h, q, Select(q.plan, ToSet(ids), q.findings).items)
    ensures Distinct(Sort(Fingerprints(q.findings, Select(q.plan, ToSet(ids), q.findings).items)))
  {
    hide RunIdPasses, ApprovedPayload, RedactedBody, Distinct, Sort, HasSummary, IdSet, ToSet;
  }

  /** A passing proof approves exactly the requested ids, each a public postable finding whose
      fingerprint is current, and no two approved fingerprints are the same. */
  lemma {:induction false} ProofApprovesExactly(h: Hashes, q: Request, ids: seq<string>)
    requires ValidPlan(q.plan) && BuildProof(h, q, ids).Approved?
    ensures multiset(BuildProof(h, q, ids).proof.ids) == multiset(ids)
    ensures forall item :: item in q.plan && item.id in ids ==> ItemProblem(item, q.findings) == None
    ensures Select(q.plan, ToSet(ids), q.findings).Chosen?
    ensures Distinct(Fingerprints(q.findings, Select(q.plan, ToSet(ids), q.findings).items))
  {
    hide BuildProof, ProofOf, ItemProblem;
    ProofGates(h, q, ids);
    var items := Select(q.plan, ToSet(ids), q.findings).items;
    ProofOfIds(h, q, items);
    DistinctUnderSort(Fingerprints(q.findings, items));
    SelectKeepsDistinct(q.plan, ToSet(ids), q.findings);
    SelectedIds(q.plan, ids, q.findings);
    SameElements(ItemIds(items), ids);
  }

  lemma ProofOfIds(h: Hashes, q: Request, items: seq<PlanItem>)
    requires Known(q.findings, items) && ProofOf(h, q, items).Approved?
    ensures ProofOf(h, q, items).proof.ids == ItemIds(items)
  {
    hide IsStrictHash, ApprovedPayload, RedactedBody, IsMarkerLine, Sort, Distinct, TargetHash, VisibleBodyHash;
  }

  lemma SelectedIds(plan: seq<PlanItem>, ids: seq<string>, findings: Findings)
    requires ToSet(ids) <= IdSet(plan) && Select(plan, ToSet(ids), findings).Chosen?
    ensures forall id :: id in ItemIds(Select(plan, ToSet(ids), findings).items) <==> id in ids
  {
    hide ItemProblem;
    var items := Select(plan, ToSet(ids), findings).items;
    forall id | id in ItemIds(items) ensures id in ids {
      var i :| 0 <= i < |items| && ItemIds(items)[i] == id;
      assert items[i] in items;
    }
    forall id | id in ids ensures id in ItemIds(items) {
      assert id in IdSet(plan);
      var item :| item in plan && item.id == id;
      var i :| 0 <= i < |items| && items[i] == item;
      assert ItemIds(items)[i] == id;
    }
  }

  lemma SameElements(xs: seq<string>, ys: seq<string>)
    requires Distinct(xs) && Distinct(ys) && forall x :: x in xs <==> x in ys
    ensures multiset(xs) == multiset(ys)
  {
    DistinctByCount(xs);
    DistinctByCount(ys);
    forall x ensures multiset(xs)[x] == multiset(ys)[x] {
      assert (x in xs <==> multiset(xs)[x] > 0) && (x in ys <==> multiset(ys)[x] > 0);
    }
  }

  lemma {:induction false} SelectKeepsDistinct(plan: seq<PlanItem>, ids: set<string>, findings: Findings)
    requires ValidPlan(plan) && Select(plan, ids, findings).Chosen?
    ensures Distinct(ItemIds(Select(plan, ids, findings).items))
  {
    if plan != [] {
      assert ValidPlan(plan[1..]);
      SelectKeepsDistinct(plan[1..], ids, findings);
      if plan[0].id in ids {
        var rest := Select(plan[1..], ids, findings).items;
        forall j | 0 <= j < |rest| ensures rest[j].id != plan[0].id {
          assert rest[j] in plan[1..];
        }
      }
    }
  }

  /** The builder never raises inside a proof, and a passing proof meets every invariant its own
      result type enforces, read with the other marker parser. */
  lemma {:induction false} ProofIsSound(h: Hashes, q: Request, ids: seq<string>)
    ensures !BuildProof(h, q, ids).Crashed?
    ensures BuildProof(h, q, ids).Approved? ==>
      var p := BuildProof(h, q, ids).proof;
      p.ids != [] && p.targetHash == TargetHash(h, p.target)
      && p.visibleBodyHash == p.markerPayloadHash
      && ParseBySplit(p.markerLine) == Some(Marker(q.runId, p.targetHash, p.markerPayloadHash, p.findingsHash))
  {
    RunIdPassesIff(q.runId);
    if BuildProof(h, q, ids).Approved? || BuildProof(h, q, ids).Crashed? {
      ProofGates(h, q, ids);
      var items := Select(q.plan, ToSet(ids), q.findings).items;
      SomethingSelected(q.plan, ids, q.findings);
      ProofOfIsSound(h, q, items);
    }
  }

  lemma {:induction false} ProofOfIsSound(h: Hashes, q: Request, items: seq<PlanItem>)
    requires Known(q.findings, items) && IsRunId(q.runId)
    requires Distinct(Sort(Fingerprints(q.findings, items)))
    ensures !ProofOf(h, q, items).Crashed?
    ensures ProofOf(h, q, items).Approved? ==>
      var p := ProofOf(h, q, items).proof;
      p.ids == ItemIds(items) && p.targetHash == TargetHash(h, p.target)
      && p.visibleBodyHash == p.markerPayloadHash
      && ParseBySplit(p.markerLine) == Some(Marker(q.runId, p.targetHash, p.markerPayloadHash, p.findingsHash))
  {
    hide IsStrictHash, CanonicalTextBody, CanonicalVisibleBody, WithMarker, IsMarkerLine, Print, ParseByRegex,
         ParseBySplit, Build, VisibleBody, RedactedBody, ApprovedPayload, Sort, Distinct, IsRunId, FindingsHash,
         TargetHash, VisibleBodyHash, FinalPayloadHash, Fingerprints, ItemIds, Known;
    BuiltFromRedacted(h, q, items);
    var prints := Fingerprints(q.findings, items);
    DistinctUnderSort(prints);
    var visible := RedactedBody(q.redact, q.target, q.findings, items, q.verdict, q.includeVerdict);
    var passed := q.redact(VisibleBody(q.target, q.findings, items, q.verdict, q.includeVerdict)).passed;
    BuildSucceedsIff(h, q.runId, q.target, visible, prints, passed);
    BuildHashes(h, q.runId, q.target, visible, prints, passed);
    ParsersAgree(ApprovedPayload(h, q, items).value.markerLine);
  }

  lemma BuiltFromRedacted(h: Hashes, q: Request, items: seq<PlanItem>)
    requires Known(q.findings, items)
    ensures ApprovedPayload(h, q, items)
         == Build(h, q.runId, q.target,
             RedactedBody(q.redact, q.target, q.findings, items, q.verdict, q.includeVerdict),
                  Fingerprints(q.findings, items),
                  q.redact(VisibleBody(q.target, q.findings, items, q.verdict, q.includeVerdict)).passed)
  {
    hide Build, VisibleBody, Fingerprints;
  }

  lemma SomethingSelected(plan: seq<PlanItem>, ids: seq<string>, findings: Findings)
    requires ids != [] && forall id :: id in ids ==> id in IdSet(plan)
    requires Select(plan, ToSet(ids), findings).Chosen?
    ensures Select(plan, ToSet(ids), findings).items != []
  {
    assert ids[0] in IdSet(plan);
    var item :| item in plan && item.id == ids[0];
    assert item in Select(plan, ToSet(ids), findings).items;
  }

  // ----- the decision -----

  datatype Decision = Decision(approved: bool, ids: seq<string>, finalPayloadHash: string,
                               target: ReviewTarget, targetHash: string, actor: string)

  datatype PermissionGate = PermissionGate(passed: bool, actor: string, checkedTarget: ReviewTarget,
                                           checkedTargetHash: string, endpointMatches: bool)

  /** `age` is the proof time minus the gate's check time, None when either is malformed. */
  function BuildDecision(h: Hashes, result: ProofResult, gate: PermissionGate, age: Option<real>,
                         maxAge: real, maxSkew: real): Option<Decision>
  {
    if !result.Approved? || !gate.passed then None
    else if age.None? || age.value > maxAge || age.value < -maxSkew then None
    else
      var p := result.proof;
      if gate.checkedTarget != p.target || gate.checkedTargetHash != TargetHash(h, p.target) || !gate.endpointMatches
      then None
      else Some(Decision(true, p.ids, p.finalPayloadHash, p.target, p.targetHash, gate.actor))
  }

  /** A decision is made exactly of a passed proof and a passed permission check of the proof's own target, made
      neither too long before the proof nor too far in its future; it carries what was approved and who may post. */
  lemma DecisionIff(h: Hashes, result: ProofResult, gate: PermissionGate, age: Option<real>, maxAge: real,
                    maxSkew: real)
    ensures BuildDecision(h, result, gate, age, maxAge, maxSkew).Some?
       <==> result.Approved? && Permits(h, gate, result.proof.target) && InTime(age, maxAge, maxSkew)
    ensures BuildDecision(h, result, gate, age, maxAge, maxSkew).Some? ==>
              var d := BuildDecision(h, result, gate, age, maxAge, maxSkew).value;
              d.approved && d.ids == result.proof.ids && d.finalPayloadHash == result.proof.finalPayloadHash
              && d.target == result.proof.target && d.targetHash == result.proof.targetHash && d.actor == gate.actor
  {
    hide TargetHash, IsStrictHash;
  }

  /** The permission check passed, for this very target and its comments endpoint. */
  predicate Permits(h: Hashes, gate: PermissionGate, target: ReviewTarget) {
    && gate.passed && gate.endpointMatches
    && gate.checkedTarget == target && gate.checkedTargetHash == TargetHash(h, target)
  }

  predicate InTime(age: Option<real>, maxAge: real, maxSkew: real) {
    age.Some? && -maxSkew <= age.value <= maxAge
  }

  /** A permission check that did not pass gives no decision, whatever else is in order. */
  lemma FailedGateDecidesNothing(h: Hashes, result: ProofResult, gate: PermissionGate, age: Option<real>,
                                 maxAge: real, maxSkew: real)
    requires !gate.passed || age.None? || age.value > maxAge || age.value < -maxSkew
    ensures BuildDecision(h, result, gate, age, maxAge, maxSkew) == None
  {
    hide BuildDecision, TargetHash;
    DecisionIff(h, result, gate, age, maxAge, maxSkew);
  }
}
