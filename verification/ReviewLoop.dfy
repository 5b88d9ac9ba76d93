/** The review loop: stages run, reviewers raise clarification requests, recorded answers are
    ingested, and the cursor detours into clarification reviews. */
module ReviewLoop {
  import opened Text
  import opened Stages

  // ----- clarification requests -----

  /** A request without a recorded status is pending. */
  datatype RequestState = StillPending | AnswerGiven | Closed

  datatype Request = Request(id: string, blocks: bool, state: RequestState)

  function PendingIds(rs: seq<Request>): seq<string> {
    if rs == [] then [] else (if rs[0].state == StillPending then [rs[0].id] else []) + PendingIds(rs[1..])
  }

  function BlockingIds(rs: seq<Request>): seq<string> {
    if rs == [] then []
    else (if rs[0].state == StillPending && rs[0].blocks then [rs[0].id] else []) + BlockingIds(rs[1..])
  }

  method EvaluateGate(rs: seq<Request>) returns (pending: seq<string>, blocking: seq<string>)
    ensures pending == PendingIds(rs) && blocking == BlockingIds(rs)
  {
    hide PendingIds, BlockingIds;
    pending, blocking := [], [];
    GateEmpty();
    assert rs[..0] == [];
    for i := 0 to |rs|
      invariant pending == PendingIds(rs[..i]) && blocking == BlockingIds(rs[..i])
    {
      assert rs[..i + 1] == rs[..i] + [rs[i]];
      GateAppend(rs[..i], rs[i]);
      if rs[i].state == StillPending {
        pending := pending + [rs[i].id];
        if rs[i].blocks {
          blocking := blocking + [rs[i].id];
        }
      }
    }
    assert rs[..|rs|] == rs;
  }

  lemma GateEmpty()
    ensures PendingIds([]) == [] && BlockingIds([]) == []
  {}

  lemma GateAppend(rs: seq<Request>, r: Request)
    ensures PendingIds(rs + [r]) == if r.state == StillPending then PendingIds(rs) + [r.id] else PendingIds(rs)
    ensures BlockingIds(rs + [r])
         == if r.state == StillPending && r.blocks then BlockingIds(rs) + [r.id] else BlockingIds(rs)
  {
    hide PendingIds, BlockingIds;
    PendingAppend(rs, r);
    BlockingAppend(rs, r);
  }

  lemma {:induction false} PendingAppend(rs: seq<Request>, r: Request)
    ensures PendingIds(rs + [r]) == if r.state == StillPending then PendingIds(rs) + [r.id] else PendingIds(rs)
  {
    if rs == [] {
      assert rs + [r] == [r] && [r][1..] == [];
    } else {
      assert (rs + [r])[0] == rs[0] && (rs + [r])[1..] == rs[1..] + [r];
      PendingAppend(rs[1..], r);
    }
  }

  lemma {:induction false} BlockingAppend(rs: seq<Request>, r: Request)
    ensures BlockingIds(rs + [r])
         == if r.state == StillPending && r.blocks then BlockingIds(rs) + [r.id] else BlockingIds(rs)
  {
    if rs == [] {
      assert rs + [r] == [r] && [r][1..] == [];
    } else {
      assert (rs + [r])[0] == rs[0] && (rs + [r])[1..] == rs[1..] + [r];
      BlockingAppend(rs[1..], r);
    }
  }

  /** The first request with this id, |rs| when there is none. */
  function FirstWith(rs: seq<Request>, id: string): (i: nat)
    ensures i <= |rs| && (i < |rs| ==> rs[i].id == id) && forall j :: 0 <= j < i ==> rs[j].id != id
  {
    if rs == [] || rs[0].id == id then 0 else 1 + FirstWith(rs[1..], id)
  }

  function Without(ids: seq<string>, id: string): seq<string> {
    if ids == [] then [] else (if ids[0] != id then [ids[0]] else []) + Without(ids[1..], id)
  }

  datatype Review = Review(requests: seq<Request>, pending: seq<string>, ready: seq<string>, answered: seq<string>)

  /** None stands for the ValueError on a request that is missing or no longer pending. */
  function Ingest(v: Review, id: string): Option<Review> {
    var i := FirstWith(v.requests, id);
    if i == |v.requests| || v.requests[i].state != StillPending then None
    else Some(Review(v.requests[i := v.requests[i].(state := AnswerGiven)], Without(v.pending, id),
                     if id in v.ready then v.ready else v.ready + [id], v.answered + [id]))
  }

  function IngestAvailable(v: Review, blocking: seq<string>, answers: set<string>): Option<Review>
    decreases |blocking|
  {
    if blocking == [] then Some(v)
    else if blocking[0] !in answers then IngestAvailable(v, blocking[1..], answers)
    else match Ingest(v, blocking[0])
      case None => None
      case Some(v') => IngestAvailable(v', blocking[1..], answers)
  }

  class ReviewState {
    var requests: seq<Request>
    var pending: seq<string>
    var ready: seq<string>
    var answered: seq<string>

    constructor ()
      ensures Value() == Review([], [], [], [])
    {
      requests, pending, ready, answered := [], [], [], [];
    }

    function Value(): Review
      reads this
    {
      Review(requests, pending, ready, answered)
    }

    method IngestAnswer(id: string) returns (ok: bool)
      modifies this
      ensures ok <==> Ingest(old(Value()), id).Some?
      ensures if ok then Ingest(old(Value()), id) == Some(Value()) else Value() == old(Value())
    {
      var i := FirstWith(requests, id);
      if i == |requests| || requests[i].state != StillPending {
        return false;
      }
      answered := answered + [id];
      requests := requests[i := requests[i].(state := AnswerGiven)];
      pending := Without(pending, id);
      if id !in ready {
        ready := ready + [id];
      }
      return true;
    }

    method IngestAnswers(blocking: seq<string>, answers: set<string>) returns (ok: bool)
      modifies this
      ensures ok <==> IngestAvailable(old(Value()), blocking, answers).Some?
      ensures ok ==> IngestAvailable(old(Value()), blocking, answers) == Some(Value())
    {
      for i := 0 to |blocking|
        invariant IngestAvailable(Value(), blocking[i..], answers) == IngestAvailable(old(Value()), blocking, answers)
      {
        assert blocking[i..][0] == blocking[i] && blocking[i..][1..] == blocking[i + 1..];
        if blocking[i] in answers {
          ok := IngestAnswer(blocking[i]);
          if !ok {
            return false;
          }
        }
      }
      return true;
    }
  }

  // ----- the loop -----

  datatype Happening = Moved(reason: Reason) | Answered(id: string)

  datatype Loop = Loop(cursor: Cursor, requests: seq<Request>, answered: seq<string>, trace: seq<Happening>,
                       steps: nat)

  const START := Loop(INITIAL, [], [], [], 0)

  /** What the reviewers of the n-th iteration do: new requests, or None for an error that ends the run. */
  type Behaviour = nat -> Option<seq<Request>>

  datatype Ending = Completed | LeftInReview(id: string) | ClarificationNeeded | Errored

  datatype Iteration = Continue(state: Loop) | Stop(state: Loop, ending: Ending)

  function AnsweredEvents(ids: seq<string>): (r: seq<Happening>)
    ensures |r| == |ids| && forall i :: 0 <= i < |ids| ==> r[i] == Answered(ids[i])
  {
    if ids == [] then [] else [Answered(ids[0])] + AnsweredEvents(ids[1..])
  }

  function Move(s: Loop): Loop
    requires Validate(s.cursor)
  {
    s.(cursor := Next(s.cursor), trace := s.trace + [Moved(Why(s.cursor))], steps := s.steps + 1)
  }

  /** The state the gate sees after the reviewers of this stage have run. */
  function Reviewed(s: Loop): Review {
    Review(s.requests, PendingIds(s.requests), s.cursor.ready, s.answered)
  }

  /** The loop state after ingesting answers. */
  function Ingested(s: Loop, v: Review): Loop {
    s.(cursor := s.cursor.(ready := v.ready), requests := v.requests, answered := v.answered,
       trace := s.trace + AnsweredEvents(Fresh(v.answered, s.answered)))
  }

  /** The gate after a visit, and the answers taken when it blocks. */
  function AfterVisit(after: Loop, answers: set<string>): Iteration {
    var blocking := BlockingIds(after.requests);
    if blocking == [] then Continue(after)
    else match IngestAvailable(Reviewed(after), blocking, answers)
      case None => Stop(after, Errored)
      case Some(v) =>
        if |v.answered| == |after.answered| then Stop(after, ClarificationNeeded)
        else Continue(Ingested(after, v))
  }

  function Iterate(s: Loop, visit: Behaviour, answers: set<string>): Iteration
    requires Validate(s.cursor)
  {
    var moved := Move(s);
    if s.cursor.active == Some(ClarificationReview) then Continue(moved)
    else match visit(s.steps)
      case None => Stop(moved, Errored)
      case Some(raised) =>
        AfterVisit(moved.(requests := moved.requests + raised), answers)
  }

  /** The answers ingested since. */
  function Fresh(now: seq<string>, before: seq<string>): seq<string> {
    if |before| <= |now| then now[|before|..] else []
  }

  /** The advance after the loop. */
  function FinalAdvance(s: Loop): Iteration
    requires Validate(s.cursor)
  {
    var c := Next(s.cursor);
    var s' := s.(cursor := c, trace := s.trace + [Moved(Why(s.cursor))]);
    Stop(s', if c.activeId.Some? then LeftInReview(c.activeId.value) else Completed)
  }

  // ----- what holds at every iteration -----

  /** Three for the queue, two for each waiting answer, one for an open review, two for each answer
      not yet ingested. */
  function Potential(s: Loop, answers: set<string>): int {
    |s.cursor.queue| + 2 * |s.cursor.ready| + (if s.cursor.active == Some(ClarificationReview) then 1 else 0)
    + 2 * (|answers| - |s.answered|)
  }

  ghost predicate Settled(requests: seq<Request>, answered: seq<string>) {
    forall id :: id in answered ==>
      FirstWith(requests, id) < |requests| && requests[FirstWith(requests, id)].state == AnswerGiven
  }

  ghost predicate Within(ids: seq<string>, answers: set<string>) {
    forall id :: id in ids ==> id in answers && id != ""
  }

  /** When the queue has run out the last stage is active, and answers wait exactly when the latest
      event is an answer. */
  ghost predicate InLastStage(s: Loop) {
    s.cursor.queue == [] ==>
      s.cursor.active == Some(LogicReview) && s.trace != [] && (s.cursor.ready != [] <==> Last(s.trace).Answered?)
  }

  ghost predicate Inv(s: Loop, answers: set<string>) {
    Validate(s.cursor)
    && (s.cursor.active.None? ==> s.cursor.ready == []) && InLastStage(s)
    && Settled(s.requests, s.answered) && Distinct(s.answered) && Within(s.answered, answers)
    && (forall id :: id in s.cursor.ready ==> id in s.answered)
    && s.steps + Potential(s, answers) == 3 + 2 * |answers|
    && WatchAll(s.trace) == Some(Seen(s.cursor)) && AnsweredIds(s.trace) == s.answered
  }

  // ----- an independent observer of the order of events -----

  /** The stage being worked on, the clarification under review, and the answers still waiting. */
  datatype Watcher = Watcher(stage: Option<Stage>, inside: Option<string>, waiting: seq<string>)

  /** None when the event is out of order: a stage may complete only when no review is open and no
      answer waits, reviews open first-in first-out, and a review returns to its own stage. */
  function Watch(w: Watcher, e: Happening): Option<Watcher> {
    match e
    case Answered(id) => if w.stage.Some? then Some(w.(waiting := w.waiting + [id])) else None
    case Moved(Start(stage)) => if w == Watcher(None, None, []) then Some(w.(stage := Some(stage))) else None
    case Moved(Enter(id)) =>
      if w.stage.Some? && w.inside.None? && w.waiting != [] && w.waiting[0] == id
      then Some(w.(inside := Some(id), waiting := w.waiting[1..])) else None
    case Moved(Restore(stage)) =>
      if w.inside.Some? && w.stage == Some(stage) then Some(w.(inside := None)) else None
    case Moved(Complete(done, next)) =>
      if w == Watcher(Some(done), None, []) then Some(w.(stage := Some(next))) else None
    case Moved(CompleteLast(done)) =>
      if w == Watcher(Some(done), None, []) then Some(w.(stage := None)) else None
    case Moved(Finish) => None
  }

  function WatchAll(trace: seq<Happening>): Option<Watcher> {
    if trace == [] then Some(Watcher(None, None, []))
    else match WatchAll(trace[..|trace| - 1])
      case None => None
      case Some(w) => Watch(w, Last(trace))
  }

  function EnteredIds(trace: seq<Happening>): seq<string> {
    if trace == [] then []
    else EnteredIds(trace[..|trace| - 1]) + (match Last(trace) case Moved(Enter(id)) => [id] case _ => [])
  }

  function AnsweredIds(trace: seq<Happening>): seq<string> {
    if trace == [] then []
    else AnsweredIds(trace[..|trace| - 1]) + (match Last(trace) case Answered(id) => [id] case _ => [])
  }

  function Seen(c: Cursor): Watcher {
    Watcher(Current(c), c.activeId, c.ready)
  }

  lemma WatchOne(trace: seq<Happening>, e: Happening)
    ensures WatchAll(trace + [e]) == if WatchAll(trace).None? then None else Watch(WatchAll(trace).value, e)
  {
    assert (trace + [e])[..|trace|] == trace;
  }

  lemma {:induction false} WatchAnswers(trace: seq<Happening>, ids: seq<string>)
    requires WatchAll(trace).Some? && WatchAll(trace).value.stage.Some?
    ensures WatchAll(trace + AnsweredEvents(ids))
         == Some(WatchAll(trace).value.(waiting := WatchAll(trace).value.waiting + ids))
    decreases |ids|
  {
    hide WatchAll;
    var w := WatchAll(trace).value;
    if ids == [] {
      Unit(trace);
      Unit(w.waiting);
    } else {
      WatchOne(trace, Answered(ids[0]));
      WatchAnswers(trace + [Answered(ids[0])], ids[1..]);
      Shift(trace, Answered(ids[0]), AnsweredEvents(ids[1..]));
      Shift(w.waiting, ids[0], ids[1..]);
      assert [ids[0]] + ids[1..] == ids;
    }
  }

  lemma {:induction false} AnsweredIdsGrow(trace: seq<Happening>, ids: seq<string>)
    ensures AnsweredIds(trace + AnsweredEvents(ids)) == AnsweredIds(trace) + ids
    decreases |ids|
  {
    if ids == [] {
      Unit(trace);
    } else {
      var t1 := trace + [Answered(ids[0])];
      assert t1[..|trace|] == trace;
      AnsweredIdsGrow(t1, ids[1..]);
      Shift(trace, Answered(ids[0]), AnsweredEvents(ids[1..]));
      Shift(AnsweredIds(trace), ids[0], ids[1..]);
    }
  }

  lemma MoveAnswersNothing(trace: seq<Happening>, r: Reason)
    ensures AnsweredIds(trace + [Moved(r)]) == AnsweredIds(trace)
  {
    assert (trace + [Moved(r)])[..|trace|] == trace;
  }

  lemma Shift<T>(a: seq<T>, x: T, rest: seq<T>)
    ensures (a + [x]) + rest == a + ([x] + rest)
  {}

  lemma {:induction false} WatchMove(c: Cursor, trace: seq<Happening>)
    requires Validate(c) && !Finished(c) && (c.active.None? ==> c.ready == []) && WatchAll(trace) == Some(Seen(c))
    ensures WatchAll(trace + [Moved(Why(c))]) == Some(Seen(Next(c)))
  {
    ValidateIff(c);
    hide Validate, WatchAll;
    WatchOne(trace, Moved(Why(c)));
    var whole := c.completed + AsSeq(Current(c)) + c.queue;
    assert Current(c).Some? ==> Current(c).value == whole[|c.completed|];
    assert c.queue != [] ==> c.queue[0] == whole[|c.completed| + |AsSeq(Current(c))|];
  }

  // ----- ingesting keeps the books -----

  lemma {:induction false} FirstWithAppend(rs: seq<Request>, more: seq<Request>, id: string)
    requires FirstWith(rs, id) < |rs|
    ensures FirstWith(rs + more, id) == FirstWith(rs, id)
  {
    if rs[0].id != id {
      assert (rs + more)[1..] == rs[1..] + more;
      FirstWithAppend(rs[1..], more, id);
    }
  }

  lemma {:induction false} FirstWithUpdate(rs: seq<Request>, i: nat, r: Request, id: string)
    requires i < |rs| && r.id == rs[i].id
    ensures FirstWith(rs[i := r], id) == FirstWith(rs, id)
  {
    if i == 0 {
      assert rs[0 := r][1..] == rs[1..];
    } else {
      assert rs[i := r][1..] == rs[1..][i - 1 := r];
      FirstWithUpdate(rs[1..], i - 1, r, id);
    }
  }

  /** An id can be ingested once: afterwards its first request is no longer pending. */
  lemma {:induction false} IngestOnce(v: Review, id: string)
    requires Settled(v.requests, v.answered) && Ingest(v, id).Some?
    requires forall x :: x in v.ready ==> x in v.answered
    ensures id !in v.answered
    ensures var v' := Ingest(v, id).value;
      Settled(v'.requests, v'.answered) && v'.ready == v.ready + [id] && v'.answered == v.answered + [id]
  {
    var v' := Ingest(v, id).value;
    var i := FirstWith(v.requests, id);
    forall x | x in v'.answered
      ensures FirstWith(v'.requests, x) < |v'.requests| && v'.requests[FirstWith(v'.requests, x)].state == AnswerGiven
    {
      FirstWithUpdate(v.requests, i, v'.requests[i], x);
    }
  }

  lemma {:induction false} IngestsFresh(v: Review, blocking: seq<string>, answers: set<string>)
    requires Settled(v.requests, v.answered) && Distinct(v.answered) && Within(v.answered, answers) && "" !in answers
    requires forall x :: x in v.ready ==> x in v.answered
    requires IngestAvailable(v, blocking, answers).Some?
    ensures var v' := IngestAvailable(v, blocking, answers).value;
      Settled(v'.requests, v'.answered) && Distinct(v'.answered) && Within(v'.answered, answers)
      && v'.answered == v.answered + Fresh(v'.answered, v.answered)
      && v'.ready == v.ready + Fresh(v'.answered, v.answered)
    decreases |blocking|
  {
    var v' := IngestAvailable(v, blocking, answers).value;
    if blocking == [] {
      assert v.answered[|v.answered|..] == [];
    } else if blocking[0] !in answers {
      IngestsFresh(v, blocking[1..], answers);
    } else {
      var id := blocking[0];
      IngestOnce(v, id);
      var v1 := Ingest(v, id).value;
      IngestsFresh(v1, blocking[1..], answers);
      var more := Fresh(v'.answered, v1.answered);
      assert v'.answered == v.answered + ([id] + more);
      assert Fresh(v'.answered, v.answered) == [id] + more;
      assert v'.ready == v.ready + ([id] + more);
    }
  }

  lemma {:induction false} DistinctFits(ids: seq<string>, answers: set<string>)
    requires Distinct(ids) && forall id :: id in ids ==> id in answers
    ensures |ids| <= |answers|
  {
    if ids != [] {
      var rest := answers - {ids[0]};
      assert forall i :: 0 < i < |ids| ==> ids[1..][i - 1] == ids[i];
      DistinctFits(ids[1..], rest);
      assert |rest| == |answers| - 1;
    }
  }

  // ----- every iteration -----

  lemma {:induction false} IterateKeeps(s: Loop, visit: Behaviour, answers: set<string>)
    requires Inv(s, answers) && s.cursor.queue != [] && "" !in answers
    ensures Iterate(s, visit, answers).state.steps == s.steps + 1
    ensures Inv(Iterate(s, visit, answers).state, answers) && Iterate(s, visit, answers).state.cursor.active.Some?
  {
    hide Inv, BlockingIds, PendingIds, Next, Why, Validate;
    InvValid(s, answers);
    MoveKeeps(s, answers);
    var moved := Move(s);
    if s.cursor.active != Some(ClarificationReview) && visit(s.steps).Some? {
      var after := moved.(requests := moved.requests + visit(s.steps).value);
      RaiseKeeps(moved, visit(s.steps).value, answers);
      var blocking := BlockingIds(after.requests);
      if IngestAvailable(Reviewed(after), blocking, answers).Some? {
        IngestKeeps(after, blocking, answers);
      }
    }
  }

  lemma InvValid(s: Loop, answers: set<string>)
    requires Inv(s, answers)
    ensures Validate(s.cursor)
  {}

  lemma {:induction false} MoveKeeps(s: Loop, answers: set<string>)
    requires Inv(s, answers) && s.cursor.queue != []
    ensures Validate(s.cursor) && Inv(Move(s), answers) && Move(s).cursor.active.Some?
  {
    hide Validate, Next, Why, Seen, WatchAll, Settled, Distinct, Within, Current, AnsweredIds;
    MoveAnswersNothing(s.trace, Why(s.cursor));
    NextKeepsValid(s.cursor);
    NextInLoop(s.cursor);
    WatchMove(s.cursor, s.trace);
  }

  lemma {:induction false} RaiseKeeps(s: Loop, raised: seq<Request>, answers: set<string>)
    requires Inv(s, answers) && s.cursor.active.Some?
    ensures Inv(s.(requests := s.requests + raised), answers)
  {
    hide Validate, WatchAll, Seen, AnsweredIds;
    forall id | id in s.answered
      ensures FirstWith(s.requests + raised, id) < |s.requests + raised|
      ensures (s.requests + raised)[FirstWith(s.requests + raised, id)].state == AnswerGiven
    {
      FirstWithAppend(s.requests, raised, id);
    }
  }

  lemma {:induction false} IngestKeeps(s: Loop, blocking: seq<string>, answers: set<string>)
    requires Inv(s, answers) && s.cursor.active.Some? && "" !in answers
    requires IngestAvailable(Reviewed(s), blocking, answers).Some?
    ensures Inv(Ingested(s, IngestAvailable(Reviewed(s), blocking, answers).value), answers)
  {
    hide WatchAll, AnsweredIds;
    IngestsFresh(Reviewed(s), blocking, answers);
    var v := IngestAvailable(Reviewed(s), blocking, answers).value;
    CurrentSome(s.cursor);
    WatchAnswers(s.trace, Fresh(v.answered, s.answered));
    AnsweredIdsGrow(s.trace, Fresh(v.answered, s.answered));
  }

  lemma CurrentSome(c: Cursor)
    requires Validate(c) && c.active.Some?
    ensures Current(c).Some?
  {}

  /** A transition taken while stages are queued: a stage is active afterwards, and the part of the
      potential that belongs to the cursor drops by one. */
  lemma {:induction false} NextInLoop(c: Cursor)
    requires Validate(c) && c.queue != []
    ensures var n := Next(c);
      n.active.Some? && (n.queue == [] ==> n.active == Some(LogicReview) && n.ready == [])
          && (forall id :: id in n.ready ==> id in c.ready)
      && |n.queue| + 2 * |n.ready| + (if n.active == Some(ClarificationReview) then 1 else 0)
         == |c.queue| + 2 * |c.ready| + (if c.active == Some(ClarificationReview) then 1 else 0) - 1
  {
    ValidateIff(c);
    hide Validate;
    var whole := c.completed + AsSeq(Current(c)) + c.queue;
    assert Current(c).Some? ==> Current(c).value == whole[|c.completed|];
    assert c.queue[0] == whole[|c.completed| + |AsSeq(Current(c))|];
    assert |c.queue| == 1 ==> c.queue[0] == whole[2];
  }

  // ----- whole runs -----

  lemma PotentialBounds(s: Loop, answers: set<string>)
    requires Inv(s, answers)
    ensures Potential(s, answers) >= |s.cursor.queue| && Validate(s.cursor)
  {
    hide Validate, WatchAll, Settled, Seen, InLastStage, AnsweredIds;
    DistinctFits(s.answered, answers);
  }

  /** The loop, guarded by the queue as the source guards it, and the advance after it. */
  ghost function RunLoop(s: Loop, visit: Behaviour, answers: set<string>): Iteration
    requires Inv(s, answers) && "" !in answers
    decreases Potential(s, answers)
  {
    PotentialBounds(s, answers);
    if s.cursor.queue == [] then FinalAdvance(s)
    else
      IterateKeeps(s, visit, answers);
      IterateSpends(s, visit, answers);
      match Iterate(s, visit, answers)
      case Stop(s', ending) => Stop(s', ending)
      case Continue(s') => RunLoop(s', visit, answers)
  }

  lemma IterateSpends(s: Loop, visit: Behaviour, answers: set<string>)
    requires Inv(s, answers) && s.cursor.queue != [] && "" !in answers
    ensures Potential(Iterate(s, visit, answers).state, answers) == Potential(s, answers) - 1
  {
    IterateKeeps(s, visit, answers);
    hide Validate, WatchAll, Settled, Seen, Iterate, Distinct, Within, Potential, AnsweredIds;
  }

  lemma StartInv(answers: set<string>)
    ensures Inv(START, answers)
  {
    ValidateIff(INITIAL);
  }

  /** Every run ends within 3 + 2|answers| iterations, ingests distinct recorded answers, and its
      events are accepted by the observer: no stage completes while an answer waits or a review is
      open, reviews are first-in first-out, and each returns to the stage that was suspended.
      It ends with all stages completed and every answer reviewed, or with a request nobody
      answered, or with an error, or, exactly when an answer came during the last stage, with that
      answer's review opened and never run. */
  lemma {:induction false} RunIsOrderly(s: Loop, visit: Behaviour, answers: set<string>)
    requires Inv(s, answers) && "" !in answers
    ensures var end := RunLoop(s, visit, answers);
      end.Stop? && end.state.steps <= 3 + 2 * |answers|
      && WatchAll(end.state.trace) == Some(Seen(end.state.cursor)) && Validate(end.state.cursor)
      && Distinct(end.state.answered) && Within(end.state.answered, answers)
      && AnsweredIds(end.state.trace) == end.state.answered
      && Concludes(end.state, end.ending)
    decreases Potential(s, answers)
  {
    hide Validate, WatchAll, Seen, Next, Why, Settled, Distinct, Within, Potential, Iterate, Concludes, InLastStage,
         AnsweredIds;
    PotentialBounds(s, answers);
    if s.cursor.queue == [] {
      FinalKeeps(s, answers);
    } else {
      IterateKeeps(s, visit, answers);
      IterateSpends(s, visit, answers);
      var it := Iterate(s, visit, answers);
      if it.Continue? {
        RunIsOrderly(it.state, visit, answers);
      } else {
        PotentialBounds(it.state, answers);
        EarlyStops(s, visit, answers);
      }
    }
  }

  ghost predicate Concludes(s: Loop, ending: Ending) {
    match ending
    case Completed => Finished(s.cursor) && s.cursor.ready == [] && |s.trace| >= 2
        && !s.trace[|s.trace| - 2].Answered?
    case LeftInReview(id) =>
      s.cursor.active == Some(ClarificationReview) && s.cursor.suspended == Some(LogicReview)
          && s.cursor.activeId == Some(id)
      && |s.trace| >= 2 && s.trace[|s.trace| - 2].Answered?
    case ClarificationNeeded => true
    case Errored => true
  }

  lemma EarlyStops(s: Loop, visit: Behaviour, answers: set<string>)
    requires Validate(s.cursor)
    ensures Iterate(s, visit, answers).Stop? ==>
              Concludes(Iterate(s, visit, answers).state, Iterate(s, visit, answers).ending)
  {
    hide Validate, IngestAvailable, Move, Ingested, BlockingIds;
  }

  /** The advance after the loop completes the last stage, unless an answer came during it: then it
      opens a review that nobody will run. */
  lemma {:induction false} FinalKeeps(s: Loop, answers: set<string>)
    requires Inv(s, answers) && s.cursor.queue == []
    ensures Validate(s.cursor)
    ensures var end := FinalAdvance(s);
      Validate(end.state.cursor) && WatchAll(end.state.trace) == Some(Seen(end.state.cursor))
      && end.state.steps == s.steps && end.state.answered == s.answered
      && AnsweredIds(end.state.trace) == s.answered && Concludes(end.state, end.ending)
  {
    hide Seen, WatchAll, Settled, Distinct, Within, Why, Validate, AnsweredIds;
    MoveAnswersNothing(s.trace, Why(s.cursor));
    WatchMove(s.cursor, s.trace);
    NextKeepsValid(s.cursor);
    ValidateIff(s.cursor);
    var t := FinalAdvance(s).state.trace;
    assert t[|t| - 2] == Last(s.trace);
  }

  /** Every id whose review was entered was answered, in the same order; the rest still wait. */
  lemma {:induction false} EnteredAreAnswered(trace: seq<Happening>)
    requires WatchAll(trace).Some?
    ensures EnteredIds(trace) + WatchAll(trace).value.waiting == AnsweredIds(trace)
  {
    if trace != [] {
      var before := trace[..|trace| - 1];
      EnteredAreAnswered(before);
      var w := WatchAll(before).value;
      match Last(trace)
      case Answered(id) =>
        assert EnteredIds(before) + (w.waiting + [id]) == (EnteredIds(before) + w.waiting) + [id];
      case Moved(Enter(id)) =>
        assert w.waiting == [id] + w.waiting[1..];
        assert (EnteredIds(before) + [id]) + w.waiting[1..] == EnteredIds(before) + ([id] + w.waiting[1..]);
      case _ =>
    }
  }

  /** Exactly once: in every run the reviews entered are distinct answered ids in answer order, and
      a run that completes has entered the review of every answer. */
  lemma {:induction false} EachAnswerReviewedOnce(visit: Behaviour, answers: set<string>)
    requires "" !in answers
    ensures Inv(START, answers)
    ensures var end := RunLoop(START, visit, answers);
      end.Stop? && EnteredIds(end.state.trace) <= AnsweredIds(end.state.trace)
      && Distinct(EnteredIds(end.state.trace)) && Within(AnsweredIds(end.state.trace), answers)
      && (end.ending == Completed ==> EnteredIds(end.state.trace) == AnsweredIds(end.state.trace))
  {
    hide WatchAll, Validate, RunLoop, EnteredIds, AnsweredIds, Within;
    StartInv(answers);
    RunIsOrderly(START, visit, answers);
    var end := RunLoop(START, visit, answers);
    EnteredAreAnswered(end.state.trace);
    var entered, waiting := EnteredIds(end.state.trace), WatchAll(end.state.trace).value.waiting;
    assert forall i :: 0 <= i < |entered| ==> entered[i] == (entered + waiting)[i];
    assert end.ending == Completed ==> entered + [] == entered;
  }

  /** Reviewers that stay silent until the last stage, whose review asks one blocking question. */
  function LateQuestion(): Behaviour {
    (n: nat) => if n == 2 then Some([Request("q", true, StillPending)]) else Some([])
  }

  /** The gap: one request raised and answered during the last stage. The run ends with its review
      opened and the last stage never completed. */
  lemma {:induction false} AnswerInLastStageIsLost()
    ensures Inv(START, {"q"})
    ensures var end := RunLoop(START, LateQuestion(), {"q"});
      end.Stop? && end.ending == LeftInReview("q") && end.state.cursor.completed == [InitialTriage, SpecializedReview]
  {
    hide Inv, Validate;
    StartInv({"q"});
    var s1, s2, s3 := LateAfter(1), LateAfter(2), LateAfter(3);
    QuietStep(0);
    QuietStep(1);
    LateAnswer();
    LoopFacts(START, LateQuestion(), {"q"});
    LoopFacts(s1, LateQuestion(), {"q"});
    LoopFacts(s2, LateQuestion(), {"q"});
    LoopEnds(s3, LateQuestion(), {"q"});
  }

  function LateAfter(n: nat): Loop {
    if n == 0 then START
    else if n == 1 then
      Loop(Cursor(Some(InitialTriage), None, [SpecializedReview, LogicReview], [], [], None), [], [],
           [Moved(Start(InitialTriage))], 1)
    else if n == 2 then
      Loop(Cursor(Some(SpecializedReview), None, [LogicReview], [InitialTriage], [], None), [], [],
           [Moved(Start(InitialTriage)), Moved(Complete(InitialTriage, SpecializedReview))], 2)
    else
      Loop(Cursor(Some(LogicReview), None, [], [InitialTriage, SpecializedReview], ["q"], None),
           [Request("q", true, AnswerGiven)], ["q"],
           [Moved(Start(InitialTriage)), Moved(Complete(InitialTriage, SpecializedReview)),
            Moved(Complete(SpecializedReview, LogicReview)), Answered("q")], 3)
  }

  lemma QuietStep(n: nat)
    requires n < 2
    ensures Validate(LateAfter(n).cursor) && LateAfter(n).cursor.queue != []
    ensures Iterate(LateAfter(n), LateQuestion(), {"q"}) == Continue(LateAfter(n + 1))
  {
    ValidateIff(LateAfter(n).cursor);
    hide Validate;
  }

  lemma LateAnswer()
    ensures Validate(LateAfter(2).cursor)
    ensures Iterate(LateAfter(2), LateQuestion(), {"q"}) == Continue(LateAfter(3))
  {
    hide Validate, BlockingIds, PendingIds, IngestAvailable, AnsweredEvents, Fresh;
    ValidateIff(LateAfter(2).cursor);
    var asked := [Request("q", true, StillPending)];
    LateIngest(asked);
    assert [] + asked == asked;
  }

  lemma LateIngest(asked: seq<Request>)
    requires asked == [Request("q", true, StillPending)]
    ensures BlockingIds(asked) == ["q"] && PendingIds(asked) == ["q"]
    ensures IngestAvailable(Review(asked, ["q"], [], []), ["q"], {"q"})
         == Some(Review([Request("q", true, AnswerGiven)], [], ["q"], ["q"]))
    ensures AnsweredEvents(Fresh(["q"], [])) == [Answered("q")]
  {
    assert asked[1..] == [] && ["q"][1..] == [];
    assert Without(["q"], "q") == [];
    assert FirstWith(asked, "q") == 0
        && asked[0 := Request("q", true, AnswerGiven)] == [Request("q", true, AnswerGiven)];
    var none: seq<string> := [];
    assert none + ["q"] == ["q"];
    assert Ingest(Review(asked, ["q"], [], []), "q")
        == Some(Review([Request("q", true, AnswerGiven)], [], ["q"], ["q"]));
    assert Fresh(["q"], []) == ["q"];
  }

  method PassGate(cursor: StageCursor, review: ReviewState, after: Loop, answers: set<string>)
    returns (iteration: Iteration)
    requires cursor.Value() == after.cursor && review.answered == after.answered
    modifies cursor, review
    ensures iteration == AfterVisit(after, answers)
    ensures iteration.Continue? ==>
              cursor.Value() == iteration.state.cursor && review.answered == iteration.state.answered
    ensures iteration.state.steps == after.steps
  {
    hide IngestAvailable, BlockingIds, PendingIds, AnsweredEvents, Fresh;
    var pending, blocking := EvaluateGate(after.requests);
    if blocking == [] {
      return Continue(after);
    }
    review.requests, review.pending, review.ready := after.requests, pending, cursor.ready;
    var ok := review.IngestAnswers(blocking, answers);
    if !ok {
      return Stop(after, Errored);
    }
    if |review.answered| == |after.answered| {
      return Stop(after, ClarificationNeeded);
    }
    cursor.ready := review.ready;
    var events := AnsweredEvents(Fresh(review.answered, after.answered));
    return Continue(after.(cursor := cursor.Value(), requests := review.requests, answered := review.answered,
                           trace := after.trace + events));
  }

  /** The loop on the mutable cursor and review state. Terminates by the answers not yet ingested,
      then the queue, then the waiting answers and the open review. */
  method RunReviewStages(visit: Behaviour, answers: set<string>) returns (r: Iteration)
    requires "" !in answers
    ensures Inv(START, answers) && r == RunLoop(START, visit, answers)
  {
    hide Inv, Validate, Next, Why, Potential, FinalAdvance, CursorWork, AfterVisit, RunLoop;
    StartInv(answers);
    var cursor := new StageCursor();
    var review := new ReviewState();
    var requests: seq<Request>, trace: seq<Happening>, steps: nat := [], [], 0;
    ghost var s := START;
    while cursor.queue != []
      invariant s == Loop(cursor.Value(), requests, review.answered, trace, steps)
      invariant Inv(s, answers) && RunLoop(s, visit, answers) == RunLoop(START, visit, answers)
      decreases |answers| - |review.answered|, |cursor.queue|,
                CursorWork(cursor.Value())
    {
      LoopFacts(s, visit, answers);
      var wasInReview := cursor.active == Some(ClarificationReview);
      var transition := cursor.AdvanceOrFinish();
      trace, steps := trace + [Moved(transition.value.reason)], steps + 1;
      if wasInReview {
        s := Move(s);
        continue;
      }
      var raised := visit(steps - 1);
      if raised.None? {
        return Stop(Loop(cursor.Value(), requests, review.answered, trace, steps), Errored);
      }
      var after := Loop(cursor.Value(), requests + raised.value, review.answered, trace, steps);
      var iteration := PassGate(cursor, review, after, answers);
      if iteration.Stop? {
        return iteration;
      }
      requests, trace := iteration.state.requests, iteration.state.trace;
      s := Iterate(s, visit, answers).state;
    }
    LoopEnds(s, visit, answers);
    var c := cursor.Value();
    return FinalAdvance(Loop(c, requests, review.answered, trace, steps));
  }

  lemma LoopEnds(s: Loop, visit: Behaviour, answers: set<string>)
    requires Inv(s, answers) && s.cursor.queue == [] && "" !in answers
    ensures Validate(s.cursor) && RunLoop(s, visit, answers) == FinalAdvance(s)
  {
    hide Inv, Validate, FinalAdvance, Potential;
    PotentialBounds(s, answers);
  }

  lemma LoopFacts(s: Loop, visit: Behaviour, answers: set<string>)
    requires Inv(s, answers) && s.cursor.queue != [] && "" !in answers
    ensures Validate(s.cursor)
    ensures Inv(Iterate(s, visit, answers).state, answers)
    ensures RunLoop(s, visit, answers) ==
      if Iterate(s, visit, answers).Stop? then Iterate(s, visit, answers)
          else RunLoop(Iterate(s, visit, answers).state, visit, answers)
    ensures Shrinks(s, Iterate(s, visit, answers).state, answers)
  {
    hide Inv, Validate, Iterate, Potential, Shrinks, FinalAdvance;
    PotentialBounds(s, answers);
    IterateKeeps(s, visit, answers);
    IterateSpends(s, visit, answers);
    IterateShrinks(s, visit, answers);
  }

  /** The lexicographic measure goes down from s to s'. */
  ghost predicate Shrinks(s: Loop, s': Loop, answers: set<string>) {
    |s.answered| <= |s'.answered| <= |answers|
    && (|s'.answered| == |s.answered| ==>
          |s'.cursor.queue| < |s.cursor.queue|
          || (|s'.cursor.queue| == |s.cursor.queue| && CursorWork(s'.cursor) < CursorWork(s.cursor)))
  }

  function CursorWork(c: Cursor): nat {
    2 * |c.ready| + (if c.active == Some(ClarificationReview) then 1 else 0)
  }

  lemma IterateShrinks(s: Loop, visit: Behaviour, answers: set<string>)
    requires Inv(s, answers) && s.cursor.queue != [] && "" !in answers
    ensures Validate(s.cursor) && Shrinks(s, Iterate(s, visit, answers).state, answers)
  {
    hide WatchAll, Seen, Settled, AnsweredIds, InLastStage, Validate, Why, BlockingIds, PendingIds, IngestAvailable;
    IterateKeeps(s, visit, answers);
    DistinctFits(Iterate(s, visit, answers).state.answered, answers);
    NextInLoop(s.cursor);
    NextPops(s.cursor);
    var after := Move(s).(requests := Move(s).requests + (if visit(s.steps).Some? then visit(s.steps).value else []));
    if visit(s.steps).Some? && s.cursor.active != Some(ClarificationReview)
       && IngestAvailable(Reviewed(after), BlockingIds(after.requests), answers).Some? {
      MoveKeeps(s, answers);
      RaiseKeeps(Move(s), visit(s.steps).value, answers);
      IngestGrows(after, BlockingIds(after.requests), answers);
    }
  }

  lemma NextPops(c: Cursor)
    ensures |Next(c).queue| <= |c.queue|
  {}

  lemma IngestGrows(s: Loop, blocking: seq<string>, answers: set<string>)
    requires Inv(s, answers) && "" !in answers && IngestAvailable(Reviewed(s), blocking, answers).Some?
    ensures var v := IngestAvailable(Reviewed(s), blocking, answers).value;
      |v.answered| >= |s.answered| && |v.ready| - |s.cursor.ready| == |v.answered| - |s.answered|
  {
    hide WatchAll, Seen, AnsweredIds, InLastStage, Validate;
    IngestsFresh(Reviewed(s), blocking, answers);
  }
}
