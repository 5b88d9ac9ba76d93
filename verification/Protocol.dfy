/** Post-once: posting attempts over a growing comment log. Each attempt runs the preflight, scans
    the log, finalizes and then posts or reconciles; other comments arrive in between. */
module Protocol {
  import opened Text
  import opened Marker
  import opened Bodies
  import opened Payload
  import opened Approval
  import opened Reconcile
  import opened Finalization

  /** One posting attempt. `bound` replaces the hashes the scan is bound to when the reconciler
      misreports them; `stored` and `newId` are what the store makes of a posted body. */
  datatype Attempt = Attempt(
    decision: Decision, plan: seq<PlanItem>, findings: Findings, actorOk: bool, stale: Option<FreshReason>,
    builder: Option<FinalPayload>, bound: Option<Expected>, source: Source, limits: Limits,
    stored: string, newId: string, kind: string)

  datatype Event = Foreign(comment: Comment) | Try(attempt: Attempt)

  datatype Outcome = Posted | Reconciled(id: string) | NotCalled | NoAttempt

  function ScanFor(t: Trust, a: Attempt, p: FinalPayload): Scan {
    ScanOf(t, ExpectedOf(p), ReadAll(a.source, a.limits))
  }

  function Reconciler(t: Trust, a: Attempt): FinalPayload -> Bound {
    (p: FinalPayload) => Bound(ScanFor(t, a, p), if a.bound.Some? then a.bound.value else ExpectedOf(p))
  }

  ghost function FinalizeAttempt(h: Hashes, t: Trust, a: Attempt): Finalization {
    Finalize(h, a.decision, !NoObjection(a.decision.approved, a.decision.ids, a.plan, a.findings),
             a.actorOk, a.stale, a.builder, Some(Reconciler(t, a)))
  }

  /** The writer step decides from the finalization alone. */
  function WriterOutcome(f: Finalization): Outcome {
    if f.reconciliation.Some? && f.reconciliation.value.status == ReconciledExisting && f.state == NotReady
       && f.reason == Some(ReconciledWithExisting) && !f.released && f.payload.None?
    then Reconciled(if f.reconciliation.value.existingId.Some? then f.reconciliation.value.existingId.value else "")
    else if f.state != Finalized || f.reconciliation.None? || f.reconciliation.value.status != SafeToPost
            || !f.released || f.payload.None?
    then NotCalled
    else Posted
  }

  /** What the writer step requires of any finalization before it posts, and before it reports a reconciliation. */
  lemma WriterOutcomeIff(f: Finalization)
    ensures WriterOutcome(f) == Posted <==>
              && f.state == Finalized && f.released && f.payload.Some?
              && f.reconciliation.Some? && f.reconciliation.value.status == SafeToPost
    ensures WriterOutcome(f).Reconciled? <==>
              && f.state == NotReady && f.reason == Some(ReconciledWithExisting) && !f.released && f.payload.None?
              && f.reconciliation.Some? && f.reconciliation.value.status == ReconciledExisting
    ensures WriterOutcome(f).Reconciled? && f.reconciliation.value.existingId.Some? ==>
              WriterOutcome(f).id == f.reconciliation.value.existingId.value
    ensures WriterOutcome(f) != NoAttempt
  {}

  function PostedComment(a: Attempt): Comment {
    Comment(a.newId, a.stored, a.decision.actor, a.kind, "github")
  }

  ghost function OutcomeOf(h: Hashes, t: Trust, ev: Event): Outcome {
    match ev
    case Foreign(_) => NoAttempt
    case Try(a) => WriterOutcome(FinalizeAttempt(h, t, a))
  }

  ghost function Step(h: Hashes, t: Trust, log: seq<Comment>, ev: Event): seq<Comment> {
    match ev
    case Foreign(c) => log + [c]
    case Try(a) => if OutcomeOf(h, t, ev) == Posted then log + [PostedComment(a)] else log
  }

  ghost function Run(h: Hashes, t: Trust, log: seq<Comment>, events: seq<Event>): seq<Comment>
    decreases |events|
  {
    if events == [] then log else Run(h, t, Step(h, t, log, events[0]), events[1..])
  }

  /** The log only grows, and every comment of somebody else is in it. */
  lemma {:induction false} LogGrows(h: Hashes, t: Trust, log: seq<Comment>, events: seq<Event>)
    ensures log <= Run(h, t, log, events)
    ensures forall c :: Foreign(c) in events ==> c in Run(h, t, log, events)
    decreases |events|
  {
    hide OutcomeOf, PostedComment;
    if events != [] {
      var next := Step(h, t, log, events[0]);
      LogGrows(h, t, next, events[1..]);
      assert forall e :: e in events <==> e == events[0] || e in events[1..];
      assert forall c :: c in next ==> c in Run(h, t, log, events);
    }
  }

  /** Attempts are by the one approved actor, one after another, so that every whole listing of the
      comments lists the log as it is; anybody else may add anything but a trusted marker. */
  ghost predicate Honest(t: Trust, log: seq<Comment>, ev: Event) {
    match ev
    case Foreign(c) => !(Trusted(t, c) && ScanFinalLine(c.body).Some?)
    case Try(a) =>
      a.decision.actor == t.actor && t.actor != "" && a.kind != "" && t.fold(a.kind) in ["user", "bot"]
      && (forall pages :: Listing(a.source, a.limits, pages) ==> CommentsOf(pages) == log)
      && (a.builder.Some? ==> StoredLike(a.builder.value.body, a.stored))
  }

  ghost predicate HonestRun(h: Hashes, t: Trust, log: seq<Comment>, events: seq<Event>)
    decreases |events|
  {
    events == [] || (Honest(t, log, events[0]) && HonestRun(h, t, Step(h, t, log, events[0]), events[1..]))
  }

  /** A trusted comment whose marker is for this target and these findings, whatever its payload. */
  function Bears(t: Trust, target: string, findings: string): Comment -> bool {
    (c: Comment) =>
      Trusted(t, c) && ScanFinalLine(c.body).Some?
      && ScanFinalLine(c.body).value.target == target && ScanFinalLine(c.body).value.findings == findings
  }

  function Markers(t: Trust, target: string, findings: string, log: seq<Comment>): nat {
    |Filter(Bears(t, target, findings), log)|
  }

  lemma MarkersAdd(t: Trust, target: string, findings: string, log: seq<Comment>, c: Comment)
    ensures Markers(t, target, findings, log + [c])
         == Markers(t, target, findings, log) + (if Bears(t, target, findings)(c) then 1 else 0)
  {
    hide Trusted, ScanFinalLine;
    FilterConcat(Bears(t, target, findings), log, [c]);
  }

  /** The scan reports safe exactly when no trusted comment bears the pair or is malformed. */
  lemma {:induction false} SafeIff(t: Trust, e: Expected, cs: seq<Comment>, pages: nat)
    ensures Verdict(t, e, cs, pages).status == SafeToPost
       <==> Markers(t, e.target, e.findings, cs) == 0
            && !exists c :: c in cs && Trusted(t, c) && Look(e, c) == Malformed
  {
    hide Trusted, ScanFinalLine, LooksLikeMarker, CountsAsMarker;
    forall c | c in cs
      ensures Bears(t, e.target, e.findings)(c) <==> Trusted(t, c) && Look(e, c) in [Match, Conflict]
    {}
    EmptyFilter(Bears(t, e.target, e.findings), cs);
    EmptyFilter(Blocking(t, e), cs);
    EmptyFilter(Matching(t, e), cs);
  }

  lemma {:induction false} EmptyFilter(p: Comment -> bool, cs: seq<Comment>)
    ensures Filter(p, cs) == [] <==> forall c :: c in cs ==> !p(c)
  {
    if cs != [] {
      EmptyFilter(p, cs[1..]);
      assert forall c :: c in cs <==> c == cs[0] || c in cs[1..];
    }
  }

  ghost predicate GatesPass(h: Hashes, a: Attempt) {
    && NoObjection(a.decision.approved, a.decision.ids, a.plan, a.findings)
    && a.actorOk && a.stale.None? && a.builder.Some?
    && a.builder.value.finalPayloadHash == a.decision.finalPayloadHash && Validate(h, a.builder.value).Pass?
    && (a.bound.None? || a.bound == Some(ExpectedOf(a.builder.value)))
  }

  /** What the scan's status makes of an attempt. */
  lemma OutcomeFromScan(h: Hashes, t: Trust, a: Attempt)
    requires a.builder.Some?
    ensures var scan, outcome := ScanFor(t, a, a.builder.value), OutcomeOf(h, t, Try(a));
      && (outcome == Posted <==> GatesPass(h, a) && scan.status == SafeToPost)
      && (scan.status == FailedClosed ==> outcome == NotCalled && FinalizeAttempt(h, t, a).state == ClosedByFailure)
      && (scan.status == ReconciledExisting ==>
            (outcome == NotCalled && FinalizeAttempt(h, t, a).state == ClosedByFailure)
            || outcome == Reconciled(if scan.existingId.Some? then scan.existingId.value else ""))
  {
    hide Validate, NoObjection, ScanFor, IsStrictHash, ExpectedOf, Finalize;
    ReleaseRequires(h, a.decision, !NoObjection(a.decision.approved, a.decision.ids, a.plan, a.findings),
                    a.actorOk, a.stale, a.builder, Some(Reconciler(t, a)));
    UnsafeScan(h, a.decision, !NoObjection(a.decision.approved, a.decision.ids, a.plan, a.findings), a.actorOk,
               a.stale, a.builder.value, Reconciler(t, a));
  }

  /** Whenever an honest attempt reads to an end, there was a whole listing, of the log as it is. */
  lemma HonestReading(t: Trust, log: seq<Comment>, a: Attempt)
    requires Honest(t, log, Try(a))
    ensures ReadAll(a.source, a.limits).Complete? <==> Listed(a.source, a.limits)
    ensures ReadAll(a.source, a.limits).Complete? ==> ReadAll(a.source, a.limits).seen == log
  {
    hide Listing, CommentsOf, StoredLike, ReadAll;
    CompleteIffListed(a.source, a.limits);
    if Listed(a.source, a.limits) {
      var pages :| Listing(a.source, a.limits, pages);
      ListingIsRead(a.source, a.limits, pages);
    }
  }

  /** An attempt posts exactly when every gate passes, there was a whole listing to read and the log holds no
      trusted marker for its pair and no malformed trusted marker. */
  lemma {:induction false} PostsIff(h: Hashes, t: Trust, log: seq<Comment>, a: Attempt)
    requires Honest(t, log, Try(a))
    ensures OutcomeOf(h, t, Try(a)) == Posted
       <==> a.builder.Some? && GatesPass(h, a) && Listed(a.source, a.limits)
            && Markers(t, a.builder.value.markerTarget, a.builder.value.markerFindings, log) == 0
            && !exists c :: c in log && Trusted(t, c) && Look(ExpectedOf(a.builder.value), c) == Malformed
  {
    hide GatesPass, Trusted, Verdict, ReadAll, StoredLike, Look, Markers, OutcomeOf, Listed, Honest;
    HonestReading(t, log, a);
    if a.builder.Some? {
      OutcomeFromScan(h, t, a);
      var reading := ReadAll(a.source, a.limits);
      if reading.Complete? {
        SafeIff(t, ExpectedOf(a.builder.value), log, reading.pages);
      }
    } else {
      NothingBuiltNothingPosted(h, t, a);
    }
  }

  lemma NothingBuiltNothingPosted(h: Hashes, t: Trust, a: Attempt)
    requires a.builder.None?
    ensures OutcomeOf(h, t, Try(a)) != Posted
  {
    hide NoObjection, Validate, IsStrictHash, ScanFor, ExpectedOf;
  }

  /** What is posted is a trusted comment that bears exactly the pair of its payload. */
  lemma {:induction false} PostedBearsOnly(h: Hashes, t: Trust, log: seq<Comment>, a: Attempt, target: string,
                                           findings: string)
    requires Honest(t, log, Try(a)) && OutcomeOf(h, t, Try(a)) == Posted
    ensures Bears(t, target, findings)(PostedComment(a))
       <==> a.builder.Some? && a.builder.value.markerTarget == target && a.builder.value.markerFindings == findings
  {
    hide Validate, StoredLike, ScanFinalLine, OutcomeOf, NoObjection, Look, ReadAll, Markers, IsStrictHash, Listed,
         Listing;
    PostsIff(h, t, log, a);
    ValidPayloadScansBack(h, a.builder.value, a.stored);
  }

  ghost predicate PostsPair(h: Hashes, t: Trust, ev: Event, target: string, findings: string) {
    ev.Try? && OutcomeOf(h, t, ev) == Posted && ev.attempt.builder.Some?
    && ev.attempt.builder.value.markerTarget == target && ev.attempt.builder.value.markerFindings == findings
  }

  /** One step never adds a second trusted marker for a pair. */
  lemma {:induction false} StepPostsOnce(h: Hashes, t: Trust, log: seq<Comment>, ev: Event, target: string,
                                         findings: string)
    requires Honest(t, log, ev)
    ensures Markers(t, target, findings, Step(h, t, log, ev))
         == if Markers(t, target, findings, log) >= 1 then Markers(t, target, findings, log)
            else if PostsPair(h, t, ev, target, findings) then 1 else 0
  {
    hide Markers, OutcomeOf, Trusted, ScanFinalLine, Bears, PostedComment, StoredLike, ReadAll, IsStrictHash, Honest;
    match ev
    case Foreign(c) =>
      MarkersAdd(t, target, findings, log, c);
      ForeignBearsNothing(t, log, c, target, findings);
    case Try(a) =>
      if OutcomeOf(h, t, ev) == Posted {
        MarkersAdd(t, target, findings, log, PostedComment(a));
        PostedBearsOnly(h, t, log, a, target, findings);
        PostedFindsNone(h, t, log, a);
      }
  }

  lemma ForeignBearsNothing(t: Trust, log: seq<Comment>, c: Comment, target: string, findings: string)
    requires Honest(t, log, Foreign(c))
    ensures !Bears(t, target, findings)(c)
  {
    hide Trusted, ScanFinalLine;
  }

  lemma PostedFindsNone(h: Hashes, t: Trust, log: seq<Comment>, a: Attempt)
    requires Honest(t, log, Try(a)) && OutcomeOf(h, t, Try(a)) == Posted
    ensures a.builder.Some? && Markers(t, a.builder.value.markerTarget, a.builder.value.markerFindings, log) == 0
  {
    PostsIff(h, t, log, a);
  }

  /** Post-once over whole runs: for every pair, a run started with no trusted marker ends with at
      most one, and a run started with some ends with the same ones and no more. */
  lemma {:induction false} PostOnce(h: Hashes, t: Trust, log: seq<Comment>, events: seq<Event>, target: string,
                                    findings: string)
    requires HonestRun(h, t, log, events)
    ensures var before, after := Markers(t, target, findings, log),
              Markers(t, target, findings, Run(h, t, log, events));
      if before >= 1 then after == before else after <= 1
    decreases |events|
  {
    hide Markers, Step, Honest;
    if events != [] {
      StepPostsOnce(h, t, log, events[0], target, findings);
      PostOnce(h, t, Step(h, t, log, events[0]), events[1..], target, findings);
    }
  }

  /** Once a pair has its trusted marker, an attempt for the pair, with the same payload or a changed
      one, reconciles or fails closed; it reconciles only with a comment already in the log whose
      payload is its own. */
  lemma {:induction false} LaterAttemptNeverPosts(h: Hashes, t: Trust, log: seq<Comment>, a: Attempt)
    requires Honest(t, log, Try(a)) && a.builder.Some?
    requires Markers(t, a.builder.value.markerTarget, a.builder.value.markerFindings, log) >= 1
    ensures Step(h, t, log, Try(a)) == log
    ensures var outcome := OutcomeOf(h, t, Try(a));
      (outcome == NotCalled && FinalizeAttempt(h, t, a).state == ClosedByFailure)
      || (outcome.Reconciled?
          && exists c :: c in log && c.id == outcome.id && Trusted(t, c)
              && Look(ExpectedOf(a.builder.value), c) == Match)
  {
    hide Trusted, Look, ReadAll, GatesPass, Markers, Verdict, StoredLike, OutcomeOf, FinalizeAttempt, Listed, Honest;
    HonestReading(t, log, a);
    OutcomeFromScan(h, t, a);
    var reading := ReadAll(a.source, a.limits);
    if reading.Complete? {
      MarkedScan(t, ExpectedOf(a.builder.value), log, reading.pages);
    }
  }

  /** A complete scan of a log that bears the pair is never safe, and a match it names is there. */
  lemma {:induction false} MarkedScan(t: Trust, e: Expected, log: seq<Comment>, pages: nat)
    requires Markers(t, e.target, e.findings, log) >= 1
    ensures var scan := Verdict(t, e, log, pages);
      scan.status == FailedClosed
      || (scan.status == ReconciledExisting && scan.existingId.Some?
          && exists c :: c in log && c.id == scan.existingId.value && Trusted(t, c) && Look(e, c) == Match)
  {
    hide Trusted, Look, Markers, CountsAsMarker;
    SafeIff(t, e, log, pages);
    var matches := Filter(Matching(t, e), log);
    if matches != [] {
      FilterMember(Matching(t, e), log, matches[0]);
    }
  }

  /** The same over whole runs: after any honest run that contains a post for the pair, every later
      attempt for the pair leaves the log alone. */
  lemma {:induction false} AfterAPostNoSecond(h: Hashes, t: Trust, log: seq<Comment>, first: Attempt,
                                              between: seq<Event>, later: Attempt)
    requires Honest(t, log, Try(first)) && OutcomeOf(h, t, Try(first)) == Posted
    requires HonestRun(h, t, Step(h, t, log, Try(first)), between)
    requires Honest(t, Run(h, t, Step(h, t, log, Try(first)), between), Try(later))
    requires first.builder.Some? && later.builder.Some?
    requires first.builder.value.markerTarget == later.builder.value.markerTarget
    requires first.builder.value.markerFindings == later.builder.value.markerFindings
    ensures OutcomeOf(h, t, Try(later)) != Posted
    ensures var mid := Run(h, t, Step(h, t, log, Try(first)), between); Step(h, t, mid, Try(later)) == mid
  {
    hide Markers, Run, Honest, OutcomeOf;
    var p := first.builder.value;
    StepPostsOnce(h, t, log, Try(first), p.markerTarget, p.markerFindings);
    PostOnce(h, t, Step(h, t, log, Try(first)), between, p.markerTarget, p.markerFindings);
    LaterAttemptNeverPosts(h, t, Run(h, t, Step(h, t, log, Try(first)), between), later);
  }

  /** Interleaving is outside the guarantee: two attempts for one pair that both scanned the same
      log both post, and the pair ends up with two trusted markers. */
  lemma {:induction false} InterleavedAttemptsPostTwice(h: Hashes, t: Trust, log: seq<Comment>, a: Attempt,
          b: Attempt)
    requires Honest(t, log, Try(a)) && OutcomeOf(h, t, Try(a)) == Posted
    requires Honest(t, log, Try(b)) && OutcomeOf(h, t, Try(b)) == Posted
    requires a.builder.Some? && b.builder.Some?
    requires a.builder.value.markerTarget == b.builder.value.markerTarget
    requires a.builder.value.markerFindings == b.builder.value.markerFindings
    ensures Markers(t, a.builder.value.markerTarget, a.builder.value.markerFindings,
                    log + [PostedComment(a)] + [PostedComment(b)]) == 2
  {
    hide Markers, OutcomeOf, Honest, Bears, PostedComment;
    var target, findings := a.builder.value.markerTarget, a.builder.value.markerFindings;
    PostedFindsNone(h, t, log, a);
    PostedBearsOnly(h, t, log, a, target, findings);
    PostedBearsOnly(h, t, log, b, target, findings);
    MarkersAdd(t, target, findings, log, PostedComment(a));
    MarkersAdd(t, target, findings, log + [PostedComment(a)], PostedComment(b));
  }

  /** Exactly when an attempt that scanned an older log adds a marker to the log of now: when every gate
      passes, there was a whole listing to read, and the log that it scanned, not the one of now, holds no trusted
      marker for the pair and no malformed trusted marker. */
  lemma StaleScanAddsIff(h: Hashes, t: Trust, scanned: seq<Comment>, log: seq<Comment>, b: Attempt)
    requires Honest(t, scanned, Try(b)) && b.builder.Some?
    ensures var p := b.builder.value;
      var before := Markers(t, p.markerTarget, p.markerFindings, log);
      Markers(t, p.markerTarget, p.markerFindings, Step(h, t, log, Try(b)))
      == if GatesPass(h, b) && Listed(b.source, b.limits)
            && Markers(t, p.markerTarget, p.markerFindings, scanned) == 0
            && !exists c :: c in scanned && Trusted(t, c) && Look(ExpectedOf(p), c) == Malformed
         then before + 1 else before
  {
    hide Markers, OutcomeOf, Honest, Bears, PostedComment, GatesPass, Listed, Trusted, Look;
    var p := b.builder.value;
    PostsIff(h, t, scanned, b);
    if OutcomeOf(h, t, Try(b)) == Posted {
      PostedBearsOnly(h, t, scanned, b, p.markerTarget, p.markerFindings);
      MarkersAdd(t, p.markerTarget, p.markerFindings, log, PostedComment(b));
    }
  }

  // ----- the writer step on the store itself -----

  /** Finalization asks the reconciler about the built payload and nothing else. */
  lemma SameAnswerSameFinalization(h: Hashes, d: Decision, objected: bool, actorOk: bool, stale: Option<FreshReason>,
                                   builder: Option<FinalPayload>, r: FinalPayload -> Bound, r': FinalPayload -> Bound)
    requires builder.Some? ==> r(builder.value) == r'(builder.value)
    ensures Finalize(h, d, objected, actorOk, stale, builder, Some(r))
              == Finalize(h, d, objected, actorOk, stale, builder, Some(r'))
  {
    hide Validate, IsStrictHash, ExpectedOf;
  }

  class CommentStore {
    var comments: seq<Comment>

    constructor ()
      ensures comments == []
    {
      comments := [];
    }

    /** Decides from the finalization and, if it is released, calls the writer. */
    method PostOrEmit(f: Finalization, a: Attempt) returns (outcome: Outcome)
      modifies this
      ensures outcome == WriterOutcome(f)
      ensures comments == old(comments) + (if outcome == Posted then [PostedComment(a)] else [])
    {
      if f.reconciliation.Some? && f.reconciliation.value.status == ReconciledExisting && f.state == NotReady
         && f.reason == Some(ReconciledWithExisting) && !f.released && f.payload.None? {
        var existing := f.reconciliation.value.existingId;
        return Reconciled(if existing.Some? then existing.value else "");
      }
      if f.state != Finalized || f.reconciliation.None? || f.reconciliation.value.status != SafeToPost
         || !f.released || f.payload.None? {
        return NotCalled;
      }
      comments := comments + [PostedComment(a)];
      return Posted;
    }

    /** A whole attempt: preflight, scan, finalize, write. */
    method MakeAttempt(h: Hashes, t: Trust, a: Attempt) returns (outcome: Outcome)
      modifies this
      ensures outcome == OutcomeOf(h, t, Try(a))
      ensures comments == Step(h, t, old(comments), Try(a))
    {
      hide Finalize, NoObjection, ScanOf, ReadAll, WriterOutcome, ExpectedOf, IsStrictHash, Listing, Listed, Verdict;
      var objection := ApprovalPreflight(a.decision.approved, a.decision.ids, a.plan, a.findings);
      var reconcile := Reconciler(t, a);
      if a.builder.Some? {
        var scan := ReconcilePaginated(a.source, t, ExpectedOf(a.builder.value), a.limits);
        reconcile := p => Bound(scan, if a.bound.Some? then a.bound.value else ExpectedOf(p));
      }
      var f := Finalize(h, a.decision, objection.Some?, a.actorOk, a.stale, a.builder, Some(reconcile));
      SameAnswerSameFinalization(h, a.decision, objection.Some?, a.actorOk, a.stale, a.builder, reconcile,
          Reconciler(t, a));
      outcome := PostOrEmit(f, a);
    }
  }
}
