/** The live review loop as a whole: what the reviewers of a visit raise is read off their live results, and
    decides how the loop goes on. */
module LiveLoop {
  import opened Text
  import opened Stages
  import opened ReviewLoop
  import opened Visiting
  import opened Spending
  import opened Admission
  import opened ReviewerRuns
  import opened LiveRun
  import Payload

  /** What a reviewer raises, given its attempts and the number of the calls made by then, so that the replies
      are known; None is an error that ends the run. */
  type Judge = (Reviewer, Option<string>, seq<Attempt>, nat) -> Option<seq<Request>>

  /** The live state after a visit, what was raised, and how many reviewers were run. */
  datatype Heard = Heard(live: Live, raised: Option<seq<Request>>, ran: nat)

  function Said(judge: Judge, r: Reviewer, active: Option<string>, before: Live, after: Live): Option<seq<Request>> {
    if after.stopped then None
    else judge(r, active, Since(before.spend.attempts, after.spend.attempts), after.spend.calls)
  }

  function HearReviewers(c: Setup, provider: Provider, judge: Judge, rs: seq<Reviewer>, active: Option<string>,
                         st: Live): Heard
    requires c.live.timeout > 0
    decreases |rs|
  {
    if rs == [] then Heard(st, Some([]), 0)
    else
      var one := RunReviewer(c, provider, rs[0], active, st);
      match Said(judge, rs[0], active, st, one)
      case None => Heard(one, None, 1)
      case Some(raised) =>
        var rest := HearReviewers(c, provider, judge, rs[1..], active, one);
        Heard(rest.live, if rest.raised.None? then None else Some(raised + rest.raised.value), rest.ran + 1)
  }

  function HearVisit(c: Setup, provider: Provider, judge: Judge, v: Visit, st: Live): Heard
    requires c.live.timeout > 0
  {
    match Roster(c, v)
    case None => Heard(st.(stopped := true), None, 0)
    case Some(rs) =>
      var (registered, chosen) := RegisterAll(st.book, rs, ActiveOf(v));
      var a := Admit(chosen, Flat(PerReviewer(c.live)), LimitsOf(c.live), st.retained, st.planned);
      match DeferAll(registered, a.deferred, ActiveOf(v))
      case None => Heard(st.(stopped := true), None, 0)
      case Some(book) =>
        var ready := st.(book := book, retained := st.retained + |a.retained|, planned := st.planned + a.planned);
        if v == OfStage(InitialTriage) && chosen == [] then Heard(ready.(stopped := true), None, 0)
        else HearReviewers(c, provider, judge, a.retained, ActiveOf(v), ready)
  }

  /** What is active after an advance that the loop visits. */
  function VisitAt(c: Cursor): Visit {
    if c.active == Some(ClarificationReview) then OfClarification(if c.activeId.Some? then c.activeId.value else "")
    else OfStage(if c.active.Some? then c.active.value else InitialTriage)
  }

  /** One iteration runs the reviewers of what it has advanced to, unless it has just left a review. */
  function HearStep(c: Setup, provider: Provider, judge: Judge, cursor: Cursor, st: Live): Heard
    requires c.live.timeout > 0
  {
    if cursor.active == Some(ClarificationReview) then Heard(st, Some([]), 0)
    else HearVisit(c, provider, judge, VisitAt(Next(cursor)), st)
  }

  function Raises(h: Heard): Behaviour { n => h.raised }

  /** The whole loop: what each iteration raises decides how it goes on. */
  ghost function HearLoop(s: Loop, c: Setup, provider: Provider, judge: Judge, answers: set<string>, st: Live)
    : (Iteration, Live)
    requires Inv(s, answers) && "" !in answers && c.live.timeout > 0
    decreases Potential(s, answers)
  {
    PotentialBounds(s, answers);
    if s.cursor.queue == [] then (FinalAdvance(s), st)
    else
      var h := HearStep(c, provider, judge, s.cursor, st);
      IterateKeeps(s, Raises(h), answers);
      IterateSpends(s, Raises(h), answers);
      match Iterate(s, Raises(h), answers)
      case Stop(s', ending) => (Stop(s', ending), h.live)
      case Continue(s') => HearLoop(s', c, provider, judge, answers, h.live)
  }

  // ----- a heard visit is a live visit -----

  lemma {:induction false} HeardReviewersRan(c: Setup, provider: Provider, judge: Judge, rs: seq<Reviewer>,
                                             active: Option<string>, st: Live)
    requires c.live.timeout > 0 && !st.stopped
    ensures var h := HearReviewers(c, provider, judge, rs, active, st);
      && h.ran <= |rs| && h.live == RunReviewers(c, provider, rs[..h.ran], active, st)
      && (h.raised.Some? ==> h.ran == |rs| && !h.live.stopped)
    decreases |rs|
  {
    hide RunReviewer, AllowedAttempts;
    if rs != [] {
      var one := RunReviewer(c, provider, rs[0], active, st);
      if Said(judge, rs[0], active, st, one).Some? {
        HeardReviewersRan(c, provider, judge, rs[1..], active, one);
        var n := HearReviewers(c, provider, judge, rs[1..], active, one).ran;
        assert rs[..n + 1][0] == rs[0] && rs[..n + 1][1..] == rs[1..][..n];
      } else {
        assert rs[..1][0] == rs[0] && rs[..1][1..] == [];
      }
    }
  }

  lemma HeardVisitRan(c: Setup, provider: Provider, judge: Judge, v: Visit, st: Live)
    requires c.live.timeout > 0 && !st.stopped
    ensures var h := HearVisit(c, provider, judge, v, st);
      && h.live == LiveVisit(c, provider, v, Some(h.ran), st)
      && (h.raised.Some? ==> h.live == LiveVisit(c, provider, v, None, st) && !h.live.stopped)
  {
    hide RunReviewers, HearReviewers, Roster, RegisterAll, DeferAll, Admit, AllowedAttempts;
    if Roster(c, v).Some? {
      var (registered, chosen) := RegisterAll(st.book, Roster(c, v).value, ActiveOf(v));
      var a := Admit(chosen, Flat(PerReviewer(c.live)), LimitsOf(c.live), st.retained, st.planned);
      var book := DeferAll(registered, a.deferred, ActiveOf(v));
      if book.Some? {
        var ready := st.(book := book.value, retained := st.retained + |a.retained|,
                         planned := st.planned + a.planned);
        HeardReviewersRan(c, provider, judge, a.retained, ActiveOf(v), ready);
        assert a.retained[..|a.retained|] == a.retained;
      }
    }
  }

  // ----- what a visit has raised -----

  /** The state after the first reviewers of a visit. */
  function After(c: Setup, provider: Provider, rs: seq<Reviewer>, active: Option<string>, st: Live, n: nat): Live
    requires c.live.timeout > 0 && n <= |rs|
  {
    RunReviewers(c, provider, rs[..n], active, st)
  }

  /** What the n-th reviewer raises, read off the attempts and calls that it added. */
  function Raised(c: Setup, provider: Provider, judge: Judge, rs: seq<Reviewer>, active: Option<string>, st: Live,
                  n: nat): Option<seq<Request>>
    requires c.live.timeout > 0 && n < |rs|
  {
    var before, after := After(c, provider, rs, active, st, n), After(c, provider, rs, active, st, n + 1);
    if after.stopped then None
    else if |before.spend.attempts| > |after.spend.attempts| then judge(rs[n], active, [], after.spend.calls)
    else judge(rs[n], active, after.spend.attempts[|before.spend.attempts|..], after.spend.calls)
  }

  function RaisedBy(c: Setup, provider: Provider, judge: Judge, rs: seq<Reviewer>, active: Option<string>, st: Live,
                    n: nat): seq<Request>
    requires c.live.timeout > 0 && n <= |rs|
  {
    if n == 0 then []
    else
      var last := Raised(c, provider, judge, rs, active, st, n - 1);
      RaisedBy(c, provider, judge, rs, active, st, n - 1) + (if last.Some? then last.value else [])
  }

  lemma AfterShifts(c: Setup, provider: Provider, rs: seq<Reviewer>, active: Option<string>, st: Live, n: nat)
    requires c.live.timeout > 0 && n < |rs| && !st.stopped
    ensures After(c, provider, rs, active, st, n + 1)
         == After(c, provider, rs[1..], active, RunReviewer(c, provider, rs[0], active, st), n)
  {
    hide RunReviewer;
    assert rs[..n + 1][0] == rs[0] && rs[..n + 1][1..] == rs[1..][..n];
  }

  lemma AfterNobody(c: Setup, provider: Provider, rs: seq<Reviewer>, active: Option<string>, st: Live)
    requires c.live.timeout > 0
    ensures After(c, provider, rs, active, st, 0) == st
  {
    assert rs[..0] == [];
  }

  lemma RaisedShifts(c: Setup, provider: Provider, judge: Judge, rs: seq<Reviewer>, active: Option<string>, st: Live,
                     n: nat)
    requires c.live.timeout > 0 && n + 1 < |rs| && !st.stopped
    ensures Raised(c, provider, judge, rs, active, st, n + 1)
         == Raised(c, provider, judge, rs[1..], active, RunReviewer(c, provider, rs[0], active, st), n)
  {
    hide RunReviewer, After;
    AfterShifts(c, provider, rs, active, st, n);
    AfterShifts(c, provider, rs, active, st, n + 1);
  }

  lemma {:induction false} RaisedByShifts(c: Setup, provider: Provider, judge: Judge, rs: seq<Reviewer>,
                                          active: Option<string>, st: Live, n: nat)
    requires c.live.timeout > 0 && n < |rs| && !st.stopped && Raised(c, provider, judge, rs, active, st, 0).Some?
    ensures RaisedBy(c, provider, judge, rs, active, st, n + 1)
         == Raised(c, provider, judge, rs, active, st, 0).value
            + RaisedBy(c, provider, judge, rs[1..], active, RunReviewer(c, provider, rs[0], active, st), n)
  {
    hide RunReviewer, Raised;
    var first, one := Raised(c, provider, judge, rs, active, st, 0).value, RunReviewer(c, provider, rs[0], active, st);
    if n == 0 {
      Unit(first);
    } else {
      RaisedByShifts(c, provider, judge, rs, active, st, n - 1);
      RaisedShifts(c, provider, judge, rs, active, st, n - 1);
      var last := Raised(c, provider, judge, rs[1..], active, one, n - 1);
      Assoc(first, RaisedBy(c, provider, judge, rs[1..], active, one, n - 1), if last.Some? then last.value else []);
    }
  }

  lemma RaisedFirst(c: Setup, provider: Provider, judge: Judge, rs: seq<Reviewer>, active: Option<string>, st: Live)
    requires c.live.timeout > 0 && rs != [] && !st.stopped
    ensures Raised(c, provider, judge, rs, active, st, 0)
         == Said(judge, rs[0], active, st, RunReviewer(c, provider, rs[0], active, st))
  {
    hide RunReviewer;
    AfterNobody(c, provider, rs, active, st);
    AfterShifts(c, provider, rs, active, st, 0);
    AfterNobody(c, provider, rs[1..], active, RunReviewer(c, provider, rs[0], active, st));
  }

  /** A visit raises what its reviewers raise, one after another; it ends with the first that errs, and nobody
      after that one is run. */
  lemma {:induction false} HeardIsRaised(c: Setup, provider: Provider, judge: Judge, rs: seq<Reviewer>,
                                         active: Option<string>, st: Live)
    requires c.live.timeout > 0 && !st.stopped
    ensures var h := HearReviewers(c, provider, judge, rs, active, st);
      match h.raised
      case Some(requests) =>
        && requests == RaisedBy(c, provider, judge, rs, active, st, |rs|) && h.ran == |rs|
        && forall n :: 0 <= n < |rs| ==> Raised(c, provider, judge, rs, active, st, n).Some?
      case None =>
        && 1 <= h.ran <= |rs| && Raised(c, provider, judge, rs, active, st, h.ran - 1).None?
        && forall n :: 0 <= n < h.ran - 1 ==> Raised(c, provider, judge, rs, active, st, n).Some?
    decreases |rs|
  {
    hide RunReviewer, Raised, After, Said;
    if rs != [] {
      var one := RunReviewer(c, provider, rs[0], active, st);
      RaisedFirst(c, provider, judge, rs, active, st);
      if Said(judge, rs[0], active, st, one).Some? {
        GoesOnRunning(judge, rs[0], active, st, one);
        HeardIsRaised(c, provider, judge, rs[1..], active, one);
        RaisedByShifts(c, provider, judge, rs, active, st, |rs| - 1);
        forall n | 0 < n < |rs|
          ensures Raised(c, provider, judge, rs, active, st, n)
               == Raised(c, provider, judge, rs[1..], active, one, n - 1)
        {
          RaisedShifts(c, provider, judge, rs, active, st, n - 1);
        }
      }
    }
  }

  lemma GoesOnRunning(judge: Judge, r: Reviewer, active: Option<string>, before: Live, after: Live)
    requires Said(judge, r, active, before, after).Some?
    ensures !after.stopped
  {}

  // ----- the loop heard is a run of the loop -----

  /** The iterations from here on do not look at what was raised before. */
  lemma {:induction false} SameAhead(s: Loop, visit: Behaviour, visit': Behaviour, answers: set<string>)
    requires Inv(s, answers) && "" !in answers
    requires forall n :: n >= s.steps ==> visit(n) == visit'(n)
    ensures RunLoop(s, visit, answers) == RunLoop(s, visit', answers)
    decreases Potential(s, answers)
  {
    hide Inv, Iterate, Potential, Validate, FinalAdvance;
    PotentialBounds(s, answers);
    if s.cursor.queue == [] {
      LoopEnds(s, visit, answers);
      LoopEnds(s, visit', answers);
    } else {
      LoopFacts(s, visit, answers);
      LoopFacts(s, visit', answers);
      IterateSpends(s, visit, answers);
      SameIteration(s, visit, visit', answers);
      if Iterate(s, visit, answers).Continue? {
        OneStep(s, visit, answers);
        SameAhead(Iterate(s, visit, answers).state, visit, visit', answers);
      }
    }
  }

  lemma SameIteration(s: Loop, visit: Behaviour, visit': Behaviour, answers: set<string>)
    requires Validate(s.cursor) && visit(s.steps) == visit'(s.steps)
    ensures Iterate(s, visit, answers) == Iterate(s, visit', answers)
  {
    hide Validate, Next, Why, BlockingIds, IngestAvailable;
  }

  lemma OneStep(s: Loop, visit: Behaviour, answers: set<string>)
    requires Validate(s.cursor)
    ensures Iterate(s, visit, answers).state.steps == s.steps + 1
  {
    hide Validate, Next, Why, BlockingIds, IngestAvailable;
  }

  lemma {:induction false} AnswersVisitNothing(trace: seq<Happening>, ids: seq<string>)
    ensures Visits(trace + AnsweredEvents(ids)) == Visits(trace)
    decreases |ids|
  {
    if ids == [] {
      Unit(trace);
    } else {
      var longer := trace + [Answered(ids[0])];
      assert longer[..|trace|] == trace && Last(longer) == Answered(ids[0]);
      AnswersVisitNothing(longer, ids[1..]);
      Shift(trace, Answered(ids[0]), AnsweredEvents(ids[1..]));
    }
  }

  /** An iteration visits what it advances to, or nothing when it leaves a review. */
  lemma IterationVisits(s: Loop, visit: Behaviour, answers: set<string>)
    requires Validate(s.cursor) && s.cursor.queue != []
    ensures var it := Iterate(s, visit, answers);
      && (it.Stop? ==> it.ending.Errored? || it.ending.ClarificationNeeded?)
      && Visits(it.state.trace)
         == Visits(s.trace) + (if s.cursor.active == Some(ClarificationReview) then [] else [VisitAt(Next(s.cursor))])
  {
    VisitOfAdvance(s.cursor);
    hide Validate, Next, Why, BlockingIds, IngestAvailable, AnsweredEvents, Visits, VisitAt;
    var moved := Move(s);
    MoveVisits(s.trace, Moved(Why(s.cursor)));
    Unit(Visits(s.trace));
    if visit(s.steps).Some? {
      var after := moved.(requests := moved.requests + visit(s.steps).value);
      var ingested := IngestAvailable(Reviewed(after), BlockingIds(after.requests), answers);
      if ingested.Some? {
        AnswersVisitNothing(after.trace, ReviewLoop.Fresh(ingested.value.answered, after.answered));
      }
    }
  }

  lemma MoveVisits(trace: seq<Happening>, e: Happening)
    ensures Visits(trace + [e]) == Visits(trace) + VisitOf(e)
  {
    assert (trace + [e])[..|trace|] == trace;
  }

  lemma VisitOfAdvance(c: Cursor)
    requires Validate(c) && c.queue != []
    ensures VisitOf(Moved(Why(c)))
         == if c.active == Some(ClarificationReview) then [] else [VisitAt(Next(c))]
  {}

  lemma HearLoopUnfolds(s: Loop, c: Setup, provider: Provider, judge: Judge, answers: set<string>, st: Live)
    requires Inv(s, answers) && "" !in answers && c.live.timeout > 0 && s.cursor.queue != []
    ensures var h := HearStep(c, provider, judge, s.cursor, st);
      var it := Iterate(s, Raises(h), answers);
      && Inv(it.state, answers) && Potential(it.state, answers) == Potential(s, answers) - 1 >= 0
      && HearLoop(s, c, provider, judge, answers, st)
         == if it.Stop? then (it, h.live) else HearLoop(it.state, c, provider, judge, answers, h.live)
  {
    hide Inv, Iterate, Potential, HearStep, FinalAdvance, Raises;
    var h := HearStep(c, provider, judge, s.cursor, st);
    LoopFacts(s, Raises(h), answers);
    IterateSpends(s, Raises(h), answers);
    PotentialBounds(Iterate(s, Raises(h), answers).state, answers);
  }

  /** What was raised now, and later what was raised then. */
  function Joined(steps: nat, now: Behaviour, later: Behaviour): Behaviour {
    (n: nat) => if n == steps then now(n) else later(n)
  }

  lemma RunsJoined(s: Loop, now: Behaviour, later: Behaviour, answers: set<string>)
    requires Inv(s, answers) && "" !in answers && s.cursor.queue != []
    ensures var it := Iterate(s, now, answers);
      && Inv(it.state, answers)
      && (it.Stop? ==> RunLoop(s, now, answers) == it)
      && (it.Continue? ==>
            RunLoop(s, Joined(s.steps, now, later), answers) == RunLoop(it.state, later, answers))
  {
    hide Inv, Iterate, Validate, FinalAdvance;
    var visit := Joined(s.steps, now, later);
    LoopFacts(s, now, answers);
    LoopFacts(s, visit, answers);
    SameIteration(s, now, visit, answers);
    OneStep(s, now, answers);
    if Iterate(s, now, answers).Continue? {
      SameAhead(Iterate(s, now, answers).state, visit, later, answers);
    }
  }

  /** The last iteration of a run visits what it says. */
  lemma EndVisits(end: Iteration)
    requires end.Stop? && (end.ending.Errored? || end.ending.ClarificationNeeded?)
    ensures RunVisits(end) == Visits(end.state.trace)
  {}

  lemma FinalVisits(s: Loop, visit: Behaviour, answers: set<string>)
    requires Inv(s, answers) && "" !in answers && s.cursor.queue == []
    ensures RunVisits(RunLoop(s, visit, answers)) == Visits(s.trace)
    ensures Validate(s.cursor) && RunLoop(s, visit, answers) == FinalAdvance(s)
  {
    LoopEnds(s, visit, answers);
    hide Inv, Potential, Validate, Next, Why, Visits;
    assert (s.trace + [Moved(Why(s.cursor))])[..|s.trace|] == s.trace;
  }

  /** One more visit at the front of the live visits. */
  lemma StepLives(c: Setup, provider: Provider, judge: Judge, cursor: Cursor, st: Live, later: seq<Visit>,
                  cut: Option<nat>)
    returns (at: Option<nat>)
    requires c.live.timeout > 0 && !st.stopped
    ensures var h := HearStep(c, provider, judge, cursor, st);
      var visits := if cursor.active == Some(ClarificationReview) then [] else [VisitAt(Next(cursor))];
      && (h.raised.Some? ==>
            LiveVisits(c, provider, visits + later, at, st) == LiveVisits(c, provider, later, cut, h.live)
            && !h.live.stopped)
      && (h.raised.None? ==> LiveVisits(c, provider, visits, at, st) == h.live)
  {
    hide LiveVisit, HearVisit, VisitAt, Next;
    var h := HearStep(c, provider, judge, cursor, st);
    if cursor.active == Some(ClarificationReview) {
      at := cut;
      Unit(later);
    } else {
      var v := VisitAt(Next(cursor));
      HeardVisitRan(c, provider, judge, v, st);
      at := if h.raised.None? then Some(h.ran) else if later == [] then None else cut;
      assert ([v] + later)[1..] == later && [v][1..] == [];
    }
  }

  lemma GoesOnRaised(s: Loop, c: Setup, provider: Provider, judge: Judge, answers: set<string>, st: Live)
    requires Validate(s.cursor) && c.live.timeout > 0 && !st.stopped
    ensures var h := HearStep(c, provider, judge, s.cursor, st);
      Iterate(s, Raises(h), answers).Continue? ==> h.raised.Some? && !h.live.stopped
  {
    hide Validate, Next, Why, BlockingIds, IngestAvailable, HearVisit, LiveVisit;
    HeardVisitRan(c, provider, judge, VisitAt(Next(s.cursor)), st);
  }

  /** The behaviour, the cut and the visits of the loop that is heard from here on. */
  lemma {:induction false} HeardFrom(s: Loop, c: Setup, provider: Provider, judge: Judge, answers: set<string>,
                                     st: Live)
    returns (visit: Behaviour, cut: Option<nat>, visits: seq<Visit>)
    requires Inv(s, answers) && "" !in answers && c.live.timeout > 0 && !st.stopped
    ensures var (end, live) := HearLoop(s, c, provider, judge, answers, st);
      && RunLoop(s, visit, answers) == end && RunVisits(end) == Visits(s.trace) + visits
      && LiveVisits(c, provider, visits, cut, st) == live
    decreases Potential(s, answers)
  {
    hide Inv, Iterate, Potential, Validate, Next, Why, Visits, VisitAt, HearStep, RunVisits, FinalAdvance, Joined,
         Raises, RunLoop;
    if s.cursor.queue == [] {
      visit, cut, visits := n => None, None, [];
      FinalVisits(s, visit, answers);
      Unit(Visits(s.trace));
    } else {
      var h := HearStep(c, provider, judge, s.cursor, st);
      var now := Raises(h);
      LoopFacts(s, now, answers);
      var it := Iterate(s, now, answers);
      HearLoopUnfolds(s, c, provider, judge, answers, st);
      IterationVisits(s, now, answers);
      visits := if s.cursor.active == Some(ClarificationReview) then [] else [VisitAt(Next(s.cursor))];
      if it.Stop? {
        visit := now;
        RunsJoined(s, now, now, answers);
        EndVisits(it);
        cut := StepLives(c, provider, judge, s.cursor, st, [], None);
        Unit(visits);
      } else {
        GoesOnRaised(s, c, provider, judge, answers, st);
        var later, cut', visits' := HeardFrom(it.state, c, provider, judge, answers, h.live);
        visit := Joined(s.steps, now, later);
        RunsJoined(s, now, later, answers);
        cut := StepLives(c, provider, judge, s.cursor, st, visits', cut');
        Assoc(Visits(s.trace), visits, visits');
        visits := visits + visits';
      }
    }
  }

  ghost function HeardRun(c: Setup, provider: Provider, judge: Judge, answers: set<string>): (Iteration, Live)
    requires c.live.timeout > 0 && "" !in answers
  {
    StartInv(answers);
    HearLoop(START, c, provider, judge, answers, LiveRun.Fresh(c))
  }

  /** The loop and the spending of a run that is heard are those of one behaviour of the reviewers, so what
      holds over all behaviours holds of it. */
  lemma HeardRunIsARun(c: Setup, provider: Provider, judge: Judge, answers: set<string>)
    returns (visit: Behaviour, cut: Option<nat>)
    requires c.live.timeout > 0 && "" !in answers
    ensures Inv(START, answers)
    ensures HeardRun(c, provider, judge, answers)
         == (RunLoop(START, visit, answers), RunOf(c, provider, visit, answers, cut))
  {
    hide Inv, RunLoop, LiveVisits;
    StartInv(answers);
    var visits;
    visit, cut, visits := HeardFrom(START, c, provider, judge, answers, LiveRun.Fresh(c));
    NothingVisited();
    Unit(visits);
  }

  lemma NothingVisited()
    ensures Visits(START.trace) == []
  {}

  /** Spending over a whole live run, where what reviewers raise and which answers are taken depends on the
      replies: calls stay within the plan and the limit, and every call has its reservation if and only if no
      reviewer whose gate is open was begun twice. */
  lemma HeardRunKeepsBooks(c: Setup, provider: Provider, judge: Judge, answers: set<string>)
    requires ValidSetup(c) && "" !in answers
    ensures var (end, live) := HeardRun(c, provider, judge, answers);
      && |live.spend.ledger.reservations| <= live.spend.calls <= live.planned <= c.live.policy.maxLiveCalls
      && live.retained <= c.live.maxReviewers
      && DistinctKeys(live.spend.ledger) && NeverShort(live.spend.attempts) && !live.spend.crashed
      && (live.spend.calls == |live.spend.ledger.reservations| <==> NoOpenRepeat(c.live.policy, Owners(live.begun)))
      && end.state.steps <= 3 + 2 * |answers|
  {
    hide RunOf, PlanOfRun, NoOpenRepeat, Owners, DistinctKeys, NeverShort, RunLoop, HeardRun, Inv;
    var visit, cut := HeardRunIsARun(c, provider, judge, answers);
    PlanningDominatesSpending(c, provider, visit, answers, cut);
    RunIsOrderly(START, visit, answers);
  }

  // ----- the runner as written -----

  method SelectAt(c: Setup, v: Visit) returns (roster: Option<seq<Reviewer>>)
    ensures roster == Roster(c, v)
  {
    hide Triggered;
    match v
    case OfStage(stage) =>
      var selected := SelectForStage(c, stage);
      return Some(selected);
    case OfClarification(id) =>
      return Roster(c, v);
  }

  /** What is heard after some reviewers were run and raised their requests. */
  function Later(raised: seq<Request>, ran: nat, rest: Heard): Heard {
    Heard(rest.live, if rest.raised.None? then None else Some(raised + rest.raised.value), ran + rest.ran)
  }

  lemma UnitHeard(h: Heard)
    ensures Later([], 0, h) == h
  {
    if h.raised.Some? {
      Unit(h.raised.value);
    }
  }

  /** Runs the retained reviewers, up to the first error. */
  method RunRetained(register: RunRegister, c: Setup, provider: Provider, judge: Judge, rs: seq<Reviewer>,
                     active: Option<string>, st: Live)
    returns (heard: Heard)
    requires c.live.maxAttempts > 0 && c.live.timeout > 0 && c.live.total >= c.live.timeout
    requires register.Value() == st.book && !st.stopped
    requires rs != [] ==> PerReviewer(c.live) <= c.live.policy.maxLiveCalls
    modifies register
    ensures heard == HearReviewers(c, provider, judge, rs, active, st)
    ensures !heard.live.stopped ==> register.Value() == heard.live.book
  {
    hide RunReviewer, AllowedAttempts;
    var end, raised: seq<Request> := st, [];
    ghost var whole := HearReviewers(c, provider, judge, rs, active, st);
    assert rs[0..] == rs;
    UnitHeard(whole);
    for i := 0 to |rs|
      invariant !end.stopped && register.Value() == end.book
      invariant whole == Later(raised, i, HearReviewers(c, provider, judge, rs[i..], active, end))
    {
      assert rs[i..][0] == rs[i] && rs[i..][1..] == rs[i + 1..];
      var before := end;
      end := RunOne(register, c, provider, rs[i], active, before);
      var said := Said(judge, rs[i], active, before, end);
      if said.None? {
        return Heard(end, None, i + 1);
      }
      ghost var rest := HearReviewers(c, provider, judge, rs[i + 1..], active, end);
      if rest.raised.Some? {
        Assoc(raised, said.value, rest.raised.value);
      }
      raised := raised + said.value;
    }
    Unit(raised);
    return Heard(end, Some(raised), |rs|);
  }

  /** One iteration: select, register, budget, defer, and run whoever is retained, up to the first error. */
  method RunVisit(register: RunRegister, c: Setup, provider: Provider, judge: Judge, v: Visit, st: Live)
    returns (heard: Heard)
    requires c.live.maxAttempts > 0 && c.live.timeout > 0 && c.live.total >= c.live.timeout
    requires register.Value() == st.book && !st.stopped
    modifies register
    ensures heard == HearVisit(c, provider, judge, v, st)
    ensures !heard.live.stopped ==> register.Value() == heard.live.book
  {
    hide RegisterAll, DeferAll, RunReviewer, Roster, Admit;
    var roster := SelectAt(c, v);
    if roster == None {
      return Heard(st.(stopped := true), None, 0);
    }
    var chosen := RegisterEach(register, roster.value, ActiveOf(v));
    AttemptsFitTheTime(c.live.maxAttempts, c.live.timeout, c.live.total);
    var cost := PlannedAttempts(c.live.maxAttempts, c.live.timeout, c.live.total).value;
    var a, reasons := ApplyReviewerBudget(chosen, Flat(cost), LimitsOf(c.live), st.retained, st.planned);
    AdmissionCovers(chosen, cost, LimitsOf(c.live), st.retained, st.planned);
    var ok := DeferEach(register, a.deferred, ActiveOf(v));
    if !ok {
      return Heard(st.(stopped := true), None, 0);
    }
    var end := st.(book := register.Value(), retained := st.retained + |a.retained|,
                   planned := st.planned + a.planned);
    if v == OfStage(InitialTriage) && chosen == [] {
      return Heard(end.(stopped := true), None, 0);
    }
    heard := RunRetained(register, c, provider, judge, a.retained, ActiveOf(v), end);
  }

  /** The whole live review, on one cursor, one review state and one register: each iteration advances the
      cursor, runs the reviewers of the visit, and goes on with what they raised. None is the configuration
      error. */
  method RunLiveReview(c: Setup, provider: Provider, judge: Judge, answers: set<string>)
    returns (r: Option<(Iteration, Live)>)
    requires c.live.maxAttempts > 0 && c.live.timeout > 0 && "" !in answers
    ensures r.None? <==> c.live.total < c.live.timeout
    ensures r.Some? ==> r.value == HeardRun(c, provider, judge, answers)
  {
    hide Inv, Validate, Next, Why, Potential, FinalAdvance, CursorWork, AfterVisit, HearLoop, HearVisit;
    if PlannedAttempts(c.live.maxAttempts, c.live.timeout, c.live.total) == None {
      return None;
    }
    StartInv(answers);
    var register := new RunRegister(c.target, c.hash);
    var cursor := new StageCursor();
    var review := new ReviewState();
    var requests: seq<Request>, trace: seq<Happening>, steps: nat := [], [], 0;
    var st := LiveRun.Fresh(c);
    ghost var s := START;
    while cursor.queue != []
      invariant fresh(register) && fresh(cursor) && fresh(review)
      invariant s == Loop(cursor.Value(), requests, review.answered, trace, steps)
      invariant Inv(s, answers) && !st.stopped && register.Value() == st.book
      invariant HearLoop(s, c, provider, judge, answers, st) == HeardRun(c, provider, judge, answers)
      decreases |answers| - |review.answered|, |cursor.queue|, CursorWork(cursor.Value())
    {
      ghost var h := HearStep(c, provider, judge, s.cursor, st);
      HearLoopUnfolds(s, c, provider, judge, answers, st);
      LoopFacts(s, Raises(h), answers);
      var wasInReview := cursor.active == Some(ClarificationReview);
      var transition := cursor.AdvanceOrFinish();
      trace, steps := trace + [Moved(transition.value.reason)], steps + 1;
      if wasInReview {
        s := Move(s);
        continue;
      }
      var heard := RunVisit(register, c, provider, judge, VisitAt(cursor.Value()), st);
      GoesOnRaised(s, c, provider, judge, answers, st);
      st := heard.live;
      if heard.raised.None? {
        return Some((Stop(Loop(cursor.Value(), requests, review.answered, trace, steps), Errored), st));
      }
      var after := Loop(cursor.Value(), requests + heard.raised.value, review.answered, trace, steps);
      var iteration := PassGate(cursor, review, after, answers);
      if iteration.Stop? {
        return Some((iteration, st));
      }
      requests, trace := iteration.state.requests, iteration.state.trace;
      s := Iterate(s, Raises(h), answers).state;
    }
    HearLoopEnds(s, c, provider, judge, answers, st);
    return Some((FinalAdvance(Loop(cursor.Value(), requests, review.answered, trace, steps)), st));
  }

  lemma HearLoopEnds(s: Loop, c: Setup, provider: Provider, judge: Judge, answers: set<string>, st: Live)
    requires Inv(s, answers) && "" !in answers && c.live.timeout > 0 && s.cursor.queue == []
    ensures Validate(s.cursor) && HearLoop(s, c, provider, judge, answers, st) == (FinalAdvance(s), st)
  {
    hide Inv, Validate, FinalAdvance, Potential;
    PotentialBounds(s, answers);
  }
}
