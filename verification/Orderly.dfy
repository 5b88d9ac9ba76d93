/** What the observer of a run accepts, event by event, in terms of what happened before. */
module Orderly {
  import opened Text
  import opened Stages
  import opened ReviewLoop
  import opened Visiting

  /** Reviews that were left again. */
  function Returns(trace: seq<Happening>): nat {
    if trace == [] then 0
    else Returns(trace[..|trace| - 1]) + (match Last(trace) case Moved(Restore(_)) => 1 case _ => 0)
  }

  /** Stages that were completed. */
  function StagesLeft(trace: seq<Happening>): nat {
    if trace == [] then 0
    else
      StagesLeft(trace[..|trace| - 1])
      + (match Last(trace) case Moved(Complete(_, _)) => 1 case Moved(CompleteLast(_)) => 1 case _ => 0)
  }

  predicate StageOpen(before: seq<Happening>) { |StagesEntered(before)| == StagesLeft(before) + 1 }

  predicate StageIs(before: seq<Happening>, stage: Stage) {
    StageOpen(before) && Last(StagesEntered(before)) == stage
  }

  predicate ReviewOpen(before: seq<Happening>) { |EnteredIds(before)| == Returns(before) + 1 }

  /** Every answer has been reviewed and left. */
  predicate Quiet(before: seq<Happening>) {
    |EnteredIds(before)| == Returns(before) && |AnsweredIds(before)| == |EnteredIds(before)|
  }

  /** An answer comes during a stage; a stage starts or is completed when every answer has been reviewed; a review
      opens for the oldest answer not yet reviewed, when no other is open; and it returns to the stage it left. */
  predicate InOrder(before: seq<Happening>, e: Happening) {
    match e
    case Answered(_) => StageOpen(before)
    case Moved(Start(_)) => |StagesEntered(before)| == StagesLeft(before) && Quiet(before)
    case Moved(Enter(id)) =>
      && StageOpen(before) && |EnteredIds(before)| == Returns(before)
      && |EnteredIds(before)| < |AnsweredIds(before)| && AnsweredIds(before)[|EnteredIds(before)|] == id
    case Moved(Restore(stage)) => ReviewOpen(before) && StageIs(before, stage)
    case Moved(Complete(done, _)) => StageIs(before, done) && Quiet(before)
    case Moved(CompleteLast(done)) => StageIs(before, done) && Quiet(before)
    case Moved(Finish) => false
  }

  /** What the observer remembers of an accepted trace. */
  ghost predicate Remembers(w: Watcher, trace: seq<Happening>) {
    && (|StagesEntered(trace)| == StagesLeft(trace) || StageOpen(trace))
    && w.stage == (if StageOpen(trace) then Some(Last(StagesEntered(trace))) else None)
    && (|EnteredIds(trace)| == Returns(trace) || ReviewOpen(trace))
    && w.inside == (if ReviewOpen(trace) then Some(Last(EnteredIds(trace))) else None)
    && EnteredIds(trace) + w.waiting == AnsweredIds(trace)
  }

  lemma RemembersStep(w: Watcher, trace: seq<Happening>, e: Happening)
    requires Remembers(w, trace)
    ensures Watch(w, e).Some? <==> InOrder(trace, e)
    ensures Watch(w, e).Some? ==> Remembers(Watch(w, e).value, trace + [e])
  {
    var longer := trace + [e];
    assert longer[..|trace|] == trace && Last(longer) == e;
    var entered, waiting := EnteredIds(trace), w.waiting;
    assert waiting != [] ==> AnsweredIds(trace)[|entered|] == waiting[0];
    match e
    case Answered(id) =>
      assert entered + (waiting + [id]) == (entered + waiting) + [id];
    case Moved(Enter(id)) =>
      assert waiting != [] ==> waiting == [waiting[0]] + waiting[1..];
      assert waiting != [] ==> (entered + [waiting[0]]) + waiting[1..] == entered + waiting;
    case _ =>
  }

  /** The observer accepts exactly the traces whose every event is in order after those before it. */
  lemma {:induction false} AcceptedIff(trace: seq<Happening>)
    ensures WatchAll(trace).Some? <==> forall i :: 0 <= i < |trace| ==> InOrder(trace[..i], trace[i])
    ensures WatchAll(trace).Some? ==> Remembers(WatchAll(trace).value, trace)
  {
    hide Watch, InOrder, Remembers;
    if trace == [] {
      NothingRemembered();
    } else {
      var before, e := trace[..|trace| - 1], Last(trace);
      AcceptedIff(before);
      assert before + [e] == trace;
      forall i | 0 <= i < |before| ensures before[..i] == trace[..i] && before[i] == trace[i] {}
      if WatchAll(before).Some? {
        RemembersStep(WatchAll(before).value, before, e);
      }
    }
  }

  lemma NothingRemembered()
    ensures Remembers(Watcher(None, None, []), [])
  {}

  /** Every run of the loop is in order, event by event. */
  lemma RunsAreInOrder(visit: Behaviour, answers: set<string>)
    requires "" !in answers
    ensures Inv(START, answers)
    ensures var trace := RunLoop(START, visit, answers).state.trace;
      forall i :: 0 <= i < |trace| ==> InOrder(trace[..i], trace[i])
  {
    hide InOrder, RunLoop, Inv, WatchAll;
    StartInv(answers);
    RunIsOrderly(START, visit, answers);
    AcceptedIff(RunLoop(START, visit, answers).state.trace);
  }
}
