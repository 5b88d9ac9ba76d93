/** The one input that can break the call ledger: a clarification that names a resume target twice. */
module ResumeTargets {
  import opened Text
  import opened Stages
  import opened ReviewLoop
  import opened Visiting
  import opened Spending
  import opened Admission
  import opened ReviewerRuns
  import opened LiveRun
  import Payload

  /** Runs that one visit plans belong to it, and repeat only with the names of its roster. */
  lemma KeysApart(c: Setup, rs: seq<Reviewer>, v: Visit)
    requires AllOf(rs, v)
    ensures forall key :: key in KeysOf(c, rs, ActiveOf(v)) ==> HomeOf(key) == v
    ensures Distinct(rs) <==> Distinct(KeysOf(c, rs, ActiveOf(v)))
  {
    var keys := KeysOf(c, rs, ActiveOf(v));
    forall i, j | 0 <= i < j < |rs| ensures keys[i] == keys[j] <==> rs[i] == rs[j] {
      assert rs[i] in rs && rs[j] in rs;
    }
    forall key | key in keys ensures HomeOf(key) == v {
      var i :| 0 <= i < |keys| && keys[i] == key;
      assert rs[i] in rs;
    }
  }

  lemma {:induction false} PlansApart(c: Setup, visits: seq<Visit>, cut: Option<nat>, count: nat, planned: nat)
    requires ValidSetup(c) && Distinct(visits) && forall v :: v in visits ==> Sensible(v)
    requires forall v :: v in visits && v.OfClarification? && Roster(c, v).Some? ==> Distinct(c.targets(v.id))
    ensures Distinct(Planned(c, visits, cut, count, planned))
    ensures forall key :: key in Planned(c, visits, cut, count, planned) ==> HomeOf(key) in visits
    decreases |visits|
  {
    hide Distinct, Roster, Admit, AllOf, KeysOf, HomeOf, Cut, AllowedAttempts;
    DistinctNone<RunKey>();
    if visits != [] {
      var v, rest := visits[0], visits[1..];
      DistinctTail(visits);
      assert forall x :: x in rest ==> x in visits;
      var plan := PlanOf(c, v, count, planned);
      if plan.Some? {
        var rs, a, at := Roster(c, v).value, plan.value, if |visits| == 1 then cut else None;
        RosterOf(c, v);
        RetainedWereGiven(rs, Flat(PerReviewer(c.live)), LimitsOf(c.live), count, planned);
        RetainedAreDistinct(rs, Flat(PerReviewer(c.live)), LimitsOf(c.live), count, planned);
        SomeOf(a.retained, rs, v);
        CutFits(a.retained, at, v);
        CutApart(a.retained, at);
        KeysApart(c, Cut(a.retained, at), v);
        PlansApart(c, rest, cut, count + |a.retained|, planned + a.planned);
        DistinctConcat(KeysOf(c, Cut(a.retained, at), ActiveOf(v)),
                       Planned(c, rest, cut, count + |a.retained|, planned + a.planned));
      }
    }
  }

  lemma SomeOf(some: seq<Reviewer>, rs: seq<Reviewer>, v: Visit)
    requires AllOf(rs, v) && forall r :: r in some ==> r in rs
    ensures AllOf(some, v)
  {}

  lemma CutApart<T>(xs: seq<T>, cut: Option<nat>)
    requires Distinct(xs)
    ensures Distinct(Cut(xs, cut))
  {}

  /** Without a repeated resume target every call of every run has its reservation, and every reviewer is
      begun with the first key of its run. */
  lemma NoRepeatedTargetReservesAll(c: Setup, provider: Provider, visit: Behaviour, answers: set<string>,
                                    cut: Option<nat>)
    requires ValidSetup(c) && "" !in answers
    requires forall id :: id in answers && Roster(c, OfClarification(id)).Some? ==> Distinct(c.targets(id))
    ensures var end := RunOf(c, provider, visit, answers, cut);
      end.spend.calls == |end.spend.ledger.reservations| && end.begun == PlanOfRun(c, visit, answers, cut)
  {
    hide RunLoop, RunVisits, Planned, LiveVisits, Distinct, Inv, Sensible, Roster;
    PlanningDominatesSpending(c, provider, visit, answers, cut);
    VisitsAreDistinct(visit, answers);
    PlansApart(c, RunVisits(RunLoop(START, visit, answers)), cut, 0, 0);
    DistinctIsNoRepeat(c.live.policy, PlanOfRun(c, visit, answers, cut));
  }

  lemma DistinctIsNoRepeat(p: Policy, keys: seq<RunKey>)
    requires Distinct(keys)
    ensures NoOpenRepeat(p, keys)
  {}

  // ----- a repeated target loses a reservation -----

  /** Reviewers of which the first visit asks one blocking question and nobody says anything more. */
  function AskFirst(id: string): Behaviour {
    (n: nat) => if n == 0 then Some([Request(id, true, StillPending)]) else Some([])
  }

  function Asking(id: string): Loop {
    Loop(Cursor(Some(InitialTriage), None, [SpecializedReview, LogicReview], [], [id], None),
         [Request(id, true, AnswerGiven)], [id], [Moved(Start(InitialTriage)), Answered(id)], 1)
  }

  function Resuming(id: string): Loop {
    Loop(Cursor(Some(ClarificationReview), Some(InitialTriage), [SpecializedReview, LogicReview], [], [], Some(id)),
         [Request(id, true, AnswerGiven)], [id],
         [Moved(Start(InitialTriage)), Answered(id)] + [Moved(Enter(id))], 2)
  }

  lemma AsksFirst(id: string)
    requires id != ""
    ensures Validate(START.cursor) && Iterate(START, AskFirst(id), {id}) == Continue(Asking(id))
  {
    ValidateIff(INITIAL);
    hide Validate, BlockingIds, PendingIds, IngestAvailable, AnsweredEvents, ReviewLoop.Fresh;
    var asked := [Request(id, true, StillPending)];
    IngestsOne(id, asked);
    assert [] + asked == asked;
  }

  lemma IngestsOne(id: string, asked: seq<Request>)
    requires asked == [Request(id, true, StillPending)]
    ensures BlockingIds(asked) == [id] && PendingIds(asked) == [id]
    ensures IngestAvailable(Review(asked, [id], [], []), [id], {id})
         == Some(Review([Request(id, true, AnswerGiven)], [], [id], [id]))
    ensures AnsweredEvents(ReviewLoop.Fresh([id], [])) == [Answered(id)]
  {
    var none: seq<string> := [];
    assert asked[1..] == [] && [id][1..] == [] && Without([id], id) == [];
    assert FirstWith(asked, id) == 0
        && asked[0 := Request(id, true, AnswerGiven)] == [Request(id, true, AnswerGiven)];
    assert none + [id] == [id];
    assert Ingest(Review(asked, [id], [], []), id) == Some(Review([Request(id, true, AnswerGiven)], [], [id], [id]));
    assert ReviewLoop.Fresh([id], []) == [id];
  }

  lemma ThenResumes(id: string)
    requires id != ""
    ensures Validate(Asking(id).cursor) && Iterate(Asking(id), AskFirst(id), {id}) == Continue(Resuming(id))
  {
    ValidateIff(Asking(id).cursor);
    hide Validate;
    var answered: seq<Request> := [Request(id, true, AnswerGiven)];
    var silence: seq<Request> := [];
    assert answered + silence == answered && [id][1..] == [];
    assert answered[1..] == silence && BlockingIds(silence) == [] && BlockingIds(answered) == [];
  }

  /** The events of a run only grow, and the advance after the loop adds one more. */
  lemma {:induction false} TraceGrows(s: Loop, visit: Behaviour, answers: set<string>)
    requires Inv(s, answers) && "" !in answers
    ensures var end := RunLoop(s, visit, answers);
      && s.trace <= end.state.trace
      && (end.Stop? && (end.ending.Completed? || end.ending.LeftInReview?) ==>
            end.state.trace != [] && s.trace <= end.state.trace[..|end.state.trace| - 1])
    decreases Potential(s, answers)
  {
    hide Inv, Potential, Validate, BlockingIds, IngestAvailable;
    PotentialBounds(s, answers);
    if s.cursor.queue == [] {
      LoopEnds(s, visit, answers);
    } else {
      IterateKeeps(s, visit, answers);
      IterateSpends(s, visit, answers);
      LoopFacts(s, visit, answers);
      StopsEarly(s, visit, answers);
      if Iterate(s, visit, answers).Continue? {
        TraceGrows(Iterate(s, visit, answers).state, visit, answers);
      }
    }
  }

  lemma StopsEarly(s: Loop, visit: Behaviour, answers: set<string>)
    requires Validate(s.cursor)
    ensures s.trace <= Iterate(s, visit, answers).state.trace
    ensures Iterate(s, visit, answers).Stop? ==> Iterate(s, visit, answers).ending in {Errored, ClarificationNeeded}
  {
    hide Validate, BlockingIds, IngestAvailable, Next, Why;
  }

  lemma {:induction false} VisitsOfMore(trace: seq<Happening>, more: seq<Happening>)
    requires trace <= more
    ensures Visits(trace) <= Visits(more)
    decreases |more|
  {
    if |trace| < |more| {
      VisitsOfMore(trace, more[..|more| - 1]);
    } else {
      assert trace == more;
    }
  }

  /** The run that asks first visits the initial triage and then the clarification. */
  lemma VisitsTheClarification(id: string)
    requires id != ""
    ensures Inv(START, {id})
    ensures [OfStage(InitialTriage), OfClarification(id)] <= RunVisits(RunLoop(START, AskFirst(id), {id}))
  {
    hide Inv, Validate, Iterate, Visits;
    StartInv({id});
    AsksFirst(id);
    ThenResumes(id);
    LoopFacts(START, AskFirst(id), {id});
    LoopFacts(Asking(id), AskFirst(id), {id});
    var end := RunLoop(START, AskFirst(id), {id});
    assert end == RunLoop(Resuming(id), AskFirst(id), {id});
    TraceGrows(Resuming(id), AskFirst(id), {id});
    FirstTwo(id);
    VisitsOfMore(Resuming(id).trace, end.state.trace);
    if end.state.trace != [] && Resuming(id).trace <= end.state.trace[..|end.state.trace| - 1] {
      VisitsOfMore(Resuming(id).trace, end.state.trace[..|end.state.trace| - 1]);
    }
  }

  lemma FirstTwo(id: string)
    ensures Visits(Resuming(id).trace) == [OfStage(InitialTriage), OfClarification(id)]
  {
    var one: seq<Happening> := [Moved(Start(InitialTriage))];
    var two, three := one + [Answered(id)], Resuming(id).trace;
    assert one[..0] == [] && two[..1] == one && three[..2] == two;
    VisitsGrow(one);
    VisitsGrow(two);
    VisitsGrow(three);
  }

  /** The targets of a clarification that can be resumed at all. */
  predicate Resumable(agents: seq<string>, names: seq<string>) {
    names != [] && forall i :: 0 <= i < |names| ==> names[i] in agents
  }

  /** Room and open gates for everybody. */
  function Generous(agents: seq<string>, targets: string -> seq<string>, room: nat): Setup {
    var live := Config(Policy(k => true, (k, h) => "", room), room, 1, 1, 1);
    var done := Status(IsCompleted, "done");
    Setup("target", "hash", agents, (s, n) => true, targets, k => Package("", 0, ""), (k, n) => done, live)
  }

  lemma {:induction false} EverybodyTriggered(c: Setup, stage: Stage, names: seq<string>)
    requires forall s, n :: c.triggered(s, n)
    ensures |Triggered(c, stage, names)| == |names|
  {
    if names != [] {
      EverybodyTriggered(c, stage, names[1..]);
    }
  }

  /** With a repeated resume target there is a run that calls the provider without a reservation. */
  lemma RepeatedTargetCallsUnreserved(agents: seq<string>, targets: string -> seq<string>, id: string,
                                      provider: Provider)
    requires Distinct(agents) && id != "" && Resumable(agents, targets(id)) && !Distinct(targets(id))
    ensures var c := Generous(agents, targets, |agents| + |targets(id)|);
      ValidSetup(c)
      && RunOf(c, provider, AskFirst(id), {id}, None).spend.calls
         > |RunOf(c, provider, AskFirst(id), {id}, None).spend.ledger.reservations|
  {
    hide RunLoop, Planned, LiveVisits, Distinct, RunVisits, Inv, Admit, NoOpenRepeat;
    var c := Generous(agents, targets, |agents| + |targets(id)|);
    PlanningDominatesSpending(c, provider, AskFirst(id), {id}, None);
    VisitsTheClarification(id);
    var visits := RunVisits(RunLoop(START, AskFirst(id), {id}));
    PlansBoth(c, agents, targets, id, visits);
  }

  lemma SortedAgents(agents: seq<string>)
    ensures |Payload.Sort(agents)| == |agents|
  {
    Payload.SortSorts(agents);
    assert |multiset(Payload.Sort(agents))| == |multiset(agents)|;
  }

  lemma PlansBoth(c: Setup, agents: seq<string>, targets: string -> seq<string>, id: string, visits: seq<Visit>)
    requires Distinct(agents) && Resumable(agents, targets(id)) && !Distinct(targets(id))
    requires c == Generous(agents, targets, |agents| + |targets(id)|)
    requires [OfStage(InitialTriage), OfClarification(id)] <= visits
    ensures !NoOpenRepeat(c.live.policy, Planned(c, visits, None, 0, 0))
  {
    hide Distinct, Admit, KeysOf, NoOpenRepeat, Planned, PlanOf;
    var triage, names := Triggered(c, InitialTriage, Payload.Sort(agents)), Resumed(targets(id));
    SortedAgents(agents);
    EverybodyTriggered(c, InitialTriage, Payload.Sort(agents));
    var limits := LimitsOf(c.live);
    assert agents != [] by { assert targets(id)[0] in agents; }
    RoomForAll(triage, 1, limits, 0, 0);
    RoomForAll(names, 1, limits, |triage|, |triage|);
    PlanIs(c, OfStage(InitialTriage), triage, 0, 0, Split(triage, [], |triage|));
    PlanIs(c, OfClarification(id), names, |triage|, |triage|, Split(names, [], |names|));
    assert visits[0] == OfStage(InitialTriage) && visits[1] == OfClarification(id);
    PlannedTwo(c, visits, Split(triage, [], |triage|), Split(names, [], |names|));
    RepeatsInside(c, targets(id), id, KeysOf(c, triage, None),
                  Planned(c, visits[2..], None, |triage| + |names|, |triage| + |names|));
  }

  lemma PlanIs(c: Setup, v: Visit, rs: seq<Reviewer>, count: nat, planned: nat, split: Split<Reviewer>)
    requires c.live.timeout > 0 && Roster(c, v) == Some(rs) && rs != []
    requires Admit(rs, Flat(PerReviewer(c.live)), LimitsOf(c.live), count, planned) == split
    ensures PlanOf(c, v, count, planned) == Some(split)
  {
    hide Roster, AllowedAttempts;
  }

  lemma PlannedTwo(c: Setup, visits: seq<Visit>, a: Split<Reviewer>, b: Split<Reviewer>)
    requires c.live.timeout > 0 && |visits| >= 2
    requires PlanOf(c, visits[0], 0, 0) == Some(a) && PlanOf(c, visits[1], |a.retained|, a.planned) == Some(b)
    ensures Planned(c, visits, None, 0, 0)
         == KeysOf(c, a.retained, ActiveOf(visits[0]))
            + (KeysOf(c, b.retained, ActiveOf(visits[1]))
               + Planned(c, visits[2..], None, |a.retained| + |b.retained|, a.planned + b.planned))
  {
    hide PlanOf, KeysOf, Planned;
    assert visits[1..][0] == visits[1] && visits[1..][1..] == visits[2..];
    PlannedOne(c, visits, 0, 0, a);
    PlannedOne(c, visits[1..], |a.retained|, a.planned, b);
  }

  lemma PlannedOne(c: Setup, visits: seq<Visit>, count: nat, planned: nat, a: Split<Reviewer>)
    requires c.live.timeout > 0 && visits != [] && PlanOf(c, visits[0], count, planned) == Some(a)
    ensures Planned(c, visits, None, count, planned)
         == KeysOf(c, a.retained, ActiveOf(visits[0]))
            + Planned(c, visits[1..], None, count + |a.retained|, planned + a.planned)
  {
    hide PlanOf, KeysOf;
  }

  lemma RepeatsInside(c: Setup, names: seq<string>, id: string, before: seq<RunKey>, after: seq<RunKey>)
    requires !Distinct(names) && forall k :: c.live.policy.gate(k)
    ensures !NoOpenRepeat(c.live.policy, before + (KeysOf(c, Resumed(names), Some(id)) + after))
  {
    var keys := KeysOf(c, Resumed(names), Some(id));
    var whole := before + (keys + after);
    var i, j :| 0 <= i < j < |names| && names[i] == names[j];
    assert whole[|before| + i] == keys[i] && whole[|before| + j] == keys[j];
    assert c.live.policy.gate(keys[i]);
  }

  /** Exactly: whatever else is configured, raised, answered and replied, every call of every run has its
      reservation if and only if no clarification that can be resumed names a target twice. */
  lemma EveryCallReservedIff(agents: seq<string>, targets: string -> seq<string>)
    requires Distinct(agents)
    ensures (forall c: Setup, provider: Provider, visit: Behaviour, answers: set<string>, cut: Option<nat> ::
               ValidSetup(c) && c.agents == agents && c.targets == targets && "" !in answers ==>
                 AllReserved(c, provider, visit, answers, cut))
       <==> forall id: string :: id != "" && Resumable(agents, targets(id)) ==> Distinct(targets(id))
  {
    hide RunOf, Distinct, ValidSetup, Resumable;
    if forall id: string :: id != "" && Resumable(agents, targets(id)) ==> Distinct(targets(id)) {
      forall c: Setup, provider: Provider, visit: Behaviour, answers: set<string>, cut: Option<nat> |
        ValidSetup(c) && c.agents == agents && c.targets == targets && "" !in answers
        ensures AllReserved(c, provider, visit, answers, cut)
      {
        ResumableRoster(c);
        NoRepeatedTargetReservesAll(c, provider, visit, answers, cut);
      }
    } else {
      var id: string :| id != "" && Resumable(agents, targets(id)) && !Distinct(targets(id));
      var c, provider: Provider := Generous(agents, targets, |agents| + |targets(id)|), _ => Done;
      RepeatedTargetCallsUnreserved(agents, targets, id, provider);
      assert c.agents == agents && c.targets == targets && "" !in {id};
      assert !AllReserved(c, provider, AskFirst(id), {id}, None);
    }
  }

  ghost predicate AllReserved(c: Setup, provider: Provider, visit: Behaviour, answers: set<string>,
                              cut: Option<nat>) {
    c.live.timeout > 0 && "" !in answers ==>
      var spend := RunOf(c, provider, visit, answers, cut).spend;
      spend.calls == |spend.ledger.reservations|
  }

  lemma ResumableRoster(c: Setup)
    ensures forall id: string :: Roster(c, OfClarification(id)).Some? <==> Resumable(c.agents, c.targets(id))
  {}
}
