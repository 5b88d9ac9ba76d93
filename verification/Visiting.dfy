/** The visits of the review loop: the iterations that run reviewers, and why no two are the same. */
module Visiting {
  import opened Text
  import opened Stages
  import opened ReviewLoop

  /** An iteration of the loop that runs reviewers: for a stage, or for an answered clarification. */
  datatype Visit = OfStage(stage: Stage) | OfClarification(id: string)

  function VisitOf(e: Happening): seq<Visit> {
    match e
    case Moved(Start(stage)) => [OfStage(stage)]
    case Moved(Complete(_, next)) => [OfStage(next)]
    case Moved(Enter(id)) => [OfClarification(id)]
    case _ => []
  }

  function Visits(trace: seq<Happening>): seq<Visit> {
    if trace == [] then [] else Visits(trace[..|trace| - 1]) + VisitOf(Last(trace))
  }

  /** The advance after the loop runs nobody. */
  function RunVisits(end: Iteration): seq<Visit> {
    var trace := end.state.trace;
    if end.Stop? && (end.ending.Completed? || end.ending.LeftInReview?) && trace != []
    then Visits(trace[..|trace| - 1])
    else Visits(trace)
  }

  function StageOf(v: Visit): Stage {
    if v.OfStage? then v.stage else ClarificationReview
  }

  function ActiveOf(v: Visit): Option<string> {
    if v.OfStage? then None else Some(v.id)
  }

  /** A visit is well formed when a stage is a normal one. */
  predicate Sensible(v: Visit) { v.OfStage? ==> v.stage != ClarificationReview }

  // ----- sequences without repetition -----

  lemma DistinctNone<T>()
    ensures Distinct<T>([])
  {}

  lemma DistinctPrefix<T>(a: seq<T>, b: seq<T>)
    requires Distinct(a + b)
    ensures Distinct(a)
  {
    assert forall i :: 0 <= i < |a| ==> (a + b)[i] == a[i];
  }

  lemma LastIsNew<T>(xs: seq<T>, x: T)
    requires Distinct(xs + [x])
    ensures x !in xs
  {
    assert forall i :: 0 <= i < |xs| ==> (xs + [x])[i] == xs[i];
    assert (xs + [x])[|xs|] == x;
  }

  lemma AppendApart<T>(xs: seq<T>, x: T)
    requires Distinct(xs) && x !in xs
    ensures Distinct(xs + [x])
  {}

  lemma DistinctConcat<T>(a: seq<T>, b: seq<T>)
    requires Distinct(a) && Distinct(b) && forall x :: x in a ==> x !in b
    ensures Distinct(a + b)
  {
    forall i, j | 0 <= i < j < |a + b| ensures (a + b)[i] != (a + b)[j] {
      if i < |a| <= j {
        assert a[i] in a && b[j - |a|] in b;
      }
    }
  }

  // ----- the visits of the loop are distinct -----

  function StagesEntered(trace: seq<Happening>): seq<Stage> {
    if trace == [] then []
    else
      StagesEntered(trace[..|trace| - 1])
      + (match Last(trace) case Moved(Start(stage)) => [stage] case Moved(Complete(_, next)) => [next] case _ => [])
  }

  /** The stages entered are those completed and the current one. */
  ghost predicate InStep(s: Loop) {
    StagesEntered(s.trace) == s.cursor.completed + AsSeq(Current(s.cursor))
  }

  lemma MoveInStep(s: Loop)
    requires Validate(s.cursor) && InStep(s)
    ensures InStep(Move(s))
  {
    ValidateIff(s.cursor);
    hide Validate;
    var c := s.cursor;
    assert Move(s).trace[..|s.trace|] == s.trace;
    var whole := c.completed + AsSeq(Current(c)) + c.queue;
    assert Current(c).Some? ==> Current(c).value == whole[|c.completed|];
    assert c.queue != [] ==> c.queue[0] == whole[|c.completed| + |AsSeq(Current(c))|];
  }

  lemma {:induction false} AnswersEnterNothing(trace: seq<Happening>, ids: seq<string>)
    ensures StagesEntered(trace + AnsweredEvents(ids)) == StagesEntered(trace)
    decreases |ids|
  {
    if ids == [] {
      Unit(trace);
    } else {
      var longer := trace + [Answered(ids[0])];
      assert longer[..|trace|] == trace && Last(longer) == Answered(ids[0]);
      AnswersEnterNothing(longer, ids[1..]);
      Shift(trace, Answered(ids[0]), AnsweredEvents(ids[1..]));
    }
  }

  lemma IterateInStep(s: Loop, visit: Behaviour, answers: set<string>)
    requires Validate(s.cursor) && InStep(s)
    ensures InStep(Iterate(s, visit, answers).state)
  {
    hide Validate, StagesEntered, AnsweredEvents, BlockingIds, PendingIds, IngestAvailable, Next, Why;
    MoveInStep(s);
    var moved := Move(s);
    if visit(s.steps).Some? {
      var after := moved.(requests := moved.requests + visit(s.steps).value);
      if IngestAvailable(Reviewed(after), BlockingIds(after.requests), answers).Some? {
        var v := IngestAvailable(Reviewed(after), BlockingIds(after.requests), answers).value;
        AnswersEnterNothing(after.trace, ReviewLoop.Fresh(v.answered, after.answered));
      }
    }
  }

  lemma {:induction false} RunInStep(s: Loop, visit: Behaviour, answers: set<string>)
    requires Inv(s, answers) && "" !in answers && InStep(s)
    ensures InStep(RunLoop(s, visit, answers).state)
    decreases Potential(s, answers)
  {
    hide Inv, InStep, Iterate, Potential, Validate;
    PotentialBounds(s, answers);
    if s.cursor.queue == [] {
      LoopEnds(s, visit, answers);
      FinalInStep(s);
    } else {
      IterateKeeps(s, visit, answers);
      IterateSpends(s, visit, answers);
      LoopFacts(s, visit, answers);
      IterateInStep(s, visit, answers);
      if Iterate(s, visit, answers).Continue? {
        RunInStep(Iterate(s, visit, answers).state, visit, answers);
      }
    }
  }

  lemma FinalInStep(s: Loop)
    requires Validate(s.cursor) && InStep(s)
    ensures InStep(FinalAdvance(s).state)
  {
    hide Validate, Next, Why, StagesEntered;
    MoveInStep(s);
  }

  /** Different stages and different clarifications are different visits. */
  lemma {:induction false} VisitsApart(trace: seq<Happening>)
    requires Distinct(StagesEntered(trace)) && Distinct(EnteredIds(trace))
    ensures Distinct(Visits(trace))
    ensures forall v :: v in Visits(trace) ==>
              if v.OfStage? then v.stage in StagesEntered(trace) else v.id in EnteredIds(trace)
  {
    hide Distinct;
    if trace == [] {
      DistinctNone<Visit>();
    } else {
      var before, e := trace[..|trace| - 1], Last(trace);
      DistinctPrefix(StagesEntered(before), StagesEntered(trace)[|StagesEntered(before)|..]);
      assert StagesEntered(trace) == StagesEntered(before) + StagesEntered(trace)[|StagesEntered(before)|..];
      DistinctPrefix(EnteredIds(before), EnteredIds(trace)[|EnteredIds(before)|..]);
      assert EnteredIds(trace) == EnteredIds(before) + EnteredIds(trace)[|EnteredIds(before)|..];
      VisitsApart(before);
      match e
      case Moved(Start(stage)) =>
        LastIsNew(StagesEntered(before), stage);
        AppendApart(Visits(before), OfStage(stage));
      case Moved(Complete(_, next)) =>
        LastIsNew(StagesEntered(before), next);
        AppendApart(Visits(before), OfStage(next));
      case Moved(Enter(id)) =>
        LastIsNew(EnteredIds(before), id);
        AppendApart(Visits(before), OfClarification(id));
      case _ =>
        Unit(Visits(before));
    }
  }

  /** The visits of any run of the loop are distinct: no stage and no clarification is visited twice. */
  lemma VisitsAreDistinct(visit: Behaviour, answers: set<string>)
    requires "" !in answers
    ensures Inv(START, answers)
    ensures Distinct(RunVisits(RunLoop(START, visit, answers)))
    ensures forall v :: v in RunVisits(RunLoop(START, visit, answers)) ==>
              Sensible(v) && (v.OfClarification? ==> v.id in answers)
  {
    hide Inv, Validate, RunLoop, Visits, Distinct, EnteredIds, StagesEntered;
    StartInv(answers);
    StartInStep();
    RunInStep(START, visit, answers);
    RunIsOrderly(START, visit, answers);
    EachAnswerReviewedOnce(visit, answers);
    var end := RunLoop(START, visit, answers);
    var trace, c := end.state.trace, end.state.cursor;
    ValidateIff(c);
    NormalApart(c.completed + AsSeq(Current(c)), c.queue);
    VisitsApart(trace);
    if trace != [] {
      VisitsGrow(trace);
      DistinctPrefix(Visits(trace[..|trace| - 1]), VisitOf(Last(trace)));
    }
  }

  lemma StartInStep()
    ensures InStep(START)
  {}

  lemma VisitsGrow(trace: seq<Happening>)
    requires trace != []
    ensures Visits(trace) == Visits(trace[..|trace| - 1]) + VisitOf(Last(trace))
  {}

  lemma NormalApart(entered: seq<Stage>, queue: seq<Stage>)
    requires entered + queue == NORMAL
    ensures Distinct(entered) && ClarificationReview !in entered
  {
    assert forall i :: 0 <= i < |entered| ==> entered[i] == NORMAL[i];
  }
}
