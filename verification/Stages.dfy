/** The stage cursor: three normal stages in order, suspended for clarification reviews. */
module Stages {
  import opened Text

  datatype Stage = InitialTriage | SpecializedReview | LogicReview | ClarificationReview

  const NORMAL: seq<Stage> := [InitialTriage, SpecializedReview, LogicReview]

  datatype Cursor = Cursor(
    active: Option<Stage>, suspended: Option<Stage>, queue: seq<Stage>, completed: seq<Stage>,
    ready: seq<string>, activeId: Option<string>)

  const INITIAL := Cursor(None, None, NORMAL, [], [], None)

  // ----- validation -----

  predicate NormalOrder(c: Cursor) {
    var n := |c.completed|;
    n <= 3 && c.completed == NORMAL[..n]
    && match c.active
       case Some(ClarificationReview) => n < 3 && c.suspended == Some(NORMAL[n]) && c.queue == NORMAL[n + 1..]
       case None => (n == 0 && c.queue == NORMAL) || (n == 3 && c.queue == [])
       case Some(stage) => n < 3 && stage == NORMAL[n] && c.queue == NORMAL[n + 1..]
  }

  /** The checks of `validate_stage_cursor`, in its order. */
  predicate Validate(c: Cursor) {
    "" !in c.ready && c.activeId != Some("")
    && ClarificationReview !in c.queue
    && (forall s :: s in c.queue ==> s in NORMAL)
    && (forall s :: s in c.completed ==> s in NORMAL)
    && (c.active.Some? ==> c.active.value !in c.queue && c.active.value !in c.completed)
    && (if c.active == Some(ClarificationReview) then c.suspended.Some? && c.activeId.Some?
        else c.suspended.None? && c.activeId.None?)
    && (forall s :: s in c.queue ==> s !in c.completed)
    && Distinct(c.queue) && Distinct(c.completed)
    && NormalOrder(c)
  }

  /** The normal stage being worked on, suspended or not. */
  function Current(c: Cursor): Option<Stage> {
    if c.active == Some(ClarificationReview) then c.suspended else c.active
  }

  function AsSeq(s: Option<Stage>): seq<Stage> {
    if s.Some? then [s.value] else []
  }

  /** All the checks together say: completed, current and queued stages are the three stages in
      order, and a clarification is open exactly while one is being reviewed. */
  lemma {:induction false} ValidateIff(c: Cursor)
    ensures Validate(c) <==>
      c.completed + AsSeq(Current(c)) + c.queue == NORMAL
      && (Current(c).None? ==> c.completed == [] || c.queue == [])
      && (c.suspended.Some? <==> c.active == Some(ClarificationReview))
      && (c.activeId.Some? <==> c.active == Some(ClarificationReview))
      && "" !in c.ready && c.activeId != Some("")
  {
    hide Distinct;
    if (c.suspended.Some? <==> c.active == Some(ClarificationReview)) {
      OrderIff(c);
      if NormalOrder(c) {
        OrderImpliesChecks(c);
      }
    }
  }

  lemma {:induction false} OrderIff(c: Cursor)
    requires c.suspended.Some? <==> c.active == Some(ClarificationReview)
    ensures NormalOrder(c) <==>
      c.completed + AsSeq(Current(c)) + c.queue == NORMAL && (Current(c).None? ==> c.completed == [] || c.queue == [])
  {
    PartsOf(c.completed, AsSeq(Current(c)), c.queue, NORMAL);
    var n := |c.completed|;
    assert n < 3 ==> NORMAL[n..n + 1] == [NORMAL[n]];
  }

  lemma PartsOf<T>(a: seq<T>, b: seq<T>, c: seq<T>, whole: seq<T>)
    ensures a + b + c == whole <==>
      |a| + |b| + |c| == |whole| && a == whole[..|a|] && b == whole[|a|..|a| + |b|] && c == whole[|a| + |b|..]
  {
    if |a| + |b| + |c| == |whole| {
      assert whole == whole[..|a|] + whole[|a|..|a| + |b|] + whole[|a| + |b|..];
    }
  }

  lemma OrderImpliesChecks(c: Cursor)
    requires NormalOrder(c) && (c.suspended.Some? <==> c.active == Some(ClarificationReview))
    ensures ClarificationReview !in c.queue
    ensures forall s :: s in c.queue ==> s in NORMAL && s !in c.completed
    ensures forall s :: s in c.completed ==> s in NORMAL
    ensures c.active.Some? ==> c.active.value !in c.queue && c.active.value !in c.completed
    ensures Distinct(c.queue) && Distinct(c.completed)
  {
    var n := |c.completed|;
    assert c.completed == if n == 0 then [] else if n == 1 then [InitialTriage]
                          else if n == 2 then [InitialTriage, SpecializedReview] else NORMAL;
    var rest := if n == 0 then [SpecializedReview, LogicReview] else if n == 1 then [LogicReview] else [];
    assert c.queue == if c.active.None? && n == 0 then NORMAL else rest;
  }

  // ----- advancing -----

  datatype Reason =
    Finish | Start(stage: Stage) | Restore(stage: Stage) | Enter(id: string) |
    Complete(done: Stage, next: Stage) | CompleteLast(done: Stage)

  datatype Transition = Transition(before: Cursor, after: Cursor, reason: Reason)

  function Next(c: Cursor): Cursor {
    match c.active
    case None =>
      if c.queue == [] then c else c.(active := Some(c.queue[0]), queue := c.queue[1..])
    case Some(ClarificationReview) =>
      c.(active := c.suspended, suspended := None, activeId := None)
    case Some(stage) =>
      if c.ready != [] then
        c.(suspended := Some(stage), active := Some(ClarificationReview), activeId := Some(c.ready[0]),
            ready := c.ready[1..])
      else if c.queue != [] then
        c.(completed := c.completed + [stage], active := Some(c.queue[0]), queue := c.queue[1..])
      else
        c.(completed := c.completed + [stage], active := None)
  }

  function Why(c: Cursor): Reason
    requires Validate(c)
  {
    match c.active
    case None => if c.queue == [] then Finish else Start(c.queue[0])
    case Some(ClarificationReview) => Restore(c.suspended.value)
    case Some(stage) =>
      if c.ready != [] then Enter(c.ready[0])
      else if c.queue != [] then Complete(stage, c.queue[0])
      else CompleteLast(stage)
  }

  lemma {:induction false} NextKeepsValid(c: Cursor)
    requires Validate(c)
    ensures Validate(Next(c))
  {
    hide Validate;
    ValidateIff(c);
    ValidateIff(Next(c));
    if c.active.None? {
      StartKeepsOrder(c);
    } else if c.active != Some(ClarificationReview) && c.ready == [] {
      CompletingKeepsOrder(c);
    } else {
      DetourKeepsOrder(c);
    }
  }

  /** The stages as a whole are in order. */
  function Whole(c: Cursor): seq<Stage> { c.completed + AsSeq(Current(c)) + c.queue }

  lemma StartKeepsOrder(c: Cursor)
    requires c.active.None? && c.suspended.None? && Whole(c) == NORMAL && (c.completed == [] || c.queue == [])
    ensures Whole(Next(c)) == NORMAL && Next(c).active != Some(ClarificationReview)
    ensures Current(Next(c)).None? ==> Next(c).completed == [] || Next(c).queue == []
  {
    if c.queue != [] {
      assert c.completed == [] && c.queue == NORMAL;
      assert c.queue == [c.queue[0]] + c.queue[1..];
    }
  }

  lemma CompletingKeepsOrder(c: Cursor)
    requires c.active.Some? && c.active != Some(ClarificationReview) && c.ready == [] && Whole(c) == NORMAL
    ensures Whole(Next(c)) == NORMAL && Next(c).active != Some(ClarificationReview)
    ensures Current(Next(c)).None? ==> Next(c).queue == []
  {
    if c.queue == [] {
      assert Whole(Next(c)) == c.completed + [c.active.value] + [] + [];
    } else {
      assert c.queue[0] == NORMAL[|c.completed| + 1];
      assert c.queue == [c.queue[0]] + c.queue[1..];
      assert Whole(Next(c)) == (c.completed + [c.active.value]) + ([c.queue[0]] + c.queue[1..]);
    }
  }

  lemma DetourKeepsOrder(c: Cursor)
    requires c.active == Some(ClarificationReview) || (c.active.Some? && c.ready != [])
    requires Whole(c) == NORMAL && (c.suspended.Some? <==> c.active == Some(ClarificationReview))
    ensures Whole(Next(c)) == NORMAL && Current(Next(c)) == Current(c)
    ensures c.active == Some(ClarificationReview) ==> Next(c).active != Some(ClarificationReview)
  {
    if c.active == Some(ClarificationReview) {
      assert c.suspended.value == NORMAL[|c.completed|];
    }
  }

  /** The cursor object: its fields are updated in place. */
  class StageCursor {
    var active: Option<Stage>
    var suspended: Option<Stage>
    var queue: seq<Stage>
    var completed: seq<Stage>
    var ready: seq<string>
    var activeId: Option<string>

    constructor ()
      ensures Value() == INITIAL
    {
      active, suspended, queue, completed, ready, activeId := None, None, NORMAL, [], [], None;
    }

    function Value(): Cursor
      reads this
    {
      Cursor(active, suspended, queue, completed, ready, activeId)
    }

    /** An invalid cursor is refused unchanged; a valid one makes one transition and passes the
        validation on exit. */
    method AdvanceOrFinish() returns (transition: Option<Transition>)
      modifies this
      ensures transition.Some? <==> Validate(old(Value()))
      ensures transition.None? ==> Value() == old(Value())
      ensures transition.Some? ==> Validate(Value()) && Value() == Next(old(Value()))
      ensures transition.Some? ==> transition.value == Transition(old(Value()), Value(), Why(old(Value())))
    {
      hide Validate;
      var before := Value();
      if !Validate(before) {
        return None;
      }
      NextKeepsValid(before);
      ValidateIff(before);
      var reason: Reason;
      if active.None? {
        if queue == [] {
          reason := Finish;
        } else {
          reason := Start(queue[0]);
          active, queue := Some(queue[0]), queue[1..];
        }
      } else if active == Some(ClarificationReview) {
        reason := Restore(suspended.value);
        active := suspended;
        suspended := None;
        activeId := None;
      } else if ready != [] {
        reason := Enter(ready[0]);
        activeId, ready := Some(ready[0]), ready[1..];
        suspended := active;
        active := Some(ClarificationReview);
      } else {
        completed := completed + [active.value];
        if queue != [] {
          reason := Complete(active.value, queue[0]);
          active, queue := Some(queue[0]), queue[1..];
        } else {
          reason := CompleteLast(active.value);
          active := None;
        }
      }
      return Some(Transition(before, Value(), reason));
    }
  }

  // ----- whole runs of the cursor -----

  datatype Op = Advance | Answer(id: string)

  predicate Finished(c: Cursor) { c.active.None? && c.queue == [] }

  /** Advances stop once the run is finished; an answer arrives only while a stage is active. */
  predicate Allowed(c: Cursor, op: Op) {
    match op
    case Advance => !Finished(c)
    case Answer(id) => c.active.Some? && id != ""
  }

  function Apply(c: Cursor, op: Op): Cursor {
    match op
    case Advance => Next(c)
    case Answer(id) => c.(ready := c.ready + [id])
  }

  function RunOps(c: Cursor, ops: seq<Op>): Cursor
    decreases |ops|
  {
    if ops == [] then c else RunOps(Apply(c, ops[0]), ops[1..])
  }

  predicate AllAllowed(c: Cursor, ops: seq<Op>)
    decreases |ops|
  {
    ops == [] || (Allowed(c, ops[0]) && AllAllowed(Apply(c, ops[0]), ops[1..]))
  }

  function Advances(ops: seq<Op>): nat {
    if ops == [] then 0 else (if ops[0].Advance? then 1 else 0) + Advances(ops[1..])
  }

  function Answers(ops: seq<Op>): seq<string> {
    if ops == [] then [] else AnsweredBy(ops[0]) + Answers(ops[1..])
  }

  /** The clarifications whose review was entered, in order. */
  function Entered(c: Cursor, ops: seq<Op>): seq<string>
    decreases |ops|
  {
    if ops == [] then []
    else EnteredBy(c, ops[0]) + Entered(Apply(c, ops[0]), ops[1..])
  }

  function EnteredBy(c: Cursor, op: Op): seq<string> {
    if op.Advance? && Next(c).activeId.Some? && c.activeId.None? then [Next(c).activeId.value] else []
  }

  function AnsweredBy(op: Op): seq<string> {
    if op.Answer? then [op.id] else []
  }

  /** How many advances a valid cursor still needs if nothing more is answered. */
  function Remaining(c: Cursor): int {
    3 - |c.completed| + (if c.active.None? && c.completed == [] then 1 else 0)
    + 2 * |c.ready| + (if c.active == Some(ClarificationReview) then 1 else 0)
  }

  ghost predicate Reachable(c: Cursor) {
    Validate(c) && (c.active.None? ==> c.ready == [])
  }

  lemma {:induction false} ApplyCounts(c: Cursor, op: Op)
    requires Reachable(c) && Allowed(c, op)
    ensures Reachable(Apply(c, op))
    ensures Remaining(Apply(c, op)) == Remaining(c) + (if op.Advance? then -1 else 2)
  {
    hide Validate;
    ValidateIff(c);
    ValidateIff(Apply(c, op));
    if op.Advance? {
      NextKeepsValid(c);
    }
  }

  lemma {:induction false} ApplyKeepsOrder(c: Cursor, op: Op)
    requires Reachable(c) && Allowed(c, op)
    ensures EnteredBy(c, op) + Apply(c, op).ready == c.ready + AnsweredBy(op)
  {
    ValidateIff(c);
    hide Validate;
    if op.Advance? && c.ready != [] {
      assert c.ready == [c.ready[0]] + c.ready[1..];
    }
  }

  /** Over every allowed run the cursor stays valid and the steps are counted exactly. */
  lemma {:induction false} RunsCount(c: Cursor, ops: seq<Op>)
    requires Reachable(c) && AllAllowed(c, ops)
    ensures Reachable(RunOps(c, ops))
    ensures Remaining(RunOps(c, ops)) + Advances(ops) == Remaining(c) + 2 * |Answers(ops)|
    decreases |ops|
  {
    hide Reachable, Validate, Remaining;
    if ops != [] {
      ApplyCounts(c, ops[0]);
      RunsCount(Apply(c, ops[0]), ops[1..]);
    }
  }

  /** Reviews are entered first-in first-out, and each answer is either entered or still waiting. */
  lemma {:induction false} ReviewsInOrder(c: Cursor, ops: seq<Op>)
    requires Reachable(c) && AllAllowed(c, ops)
    ensures Entered(c, ops) + RunOps(c, ops).ready == c.ready + Answers(ops)
    decreases |ops|
  {
    hide Reachable, Validate, Remaining, Apply, EnteredBy, AnsweredBy, Allowed;
    if ops != [] {
      var c' := Apply(c, ops[0]);
      ApplyCounts(c, ops[0]);
      ApplyKeepsOrder(c, ops[0]);
      ReviewsInOrder(c', ops[1..]);
      var e, rest, end := EnteredBy(c, ops[0]), Entered(c', ops[1..]), RunOps(c', ops[1..]).ready;
      calc {
        (e + rest) + end;
        e + (rest + end);
        (e + c'.ready) + Answers(ops[1..]);
        c.ready + (AnsweredBy(ops[0]) + Answers(ops[1..]));
      }
    }
  }

  lemma {:induction false} FinishedIffNoneRemain(c: Cursor)
    requires Reachable(c)
    ensures Remaining(c) >= 0
    ensures Finished(c) <==> Remaining(c) == 0
  {
    ValidateIff(c);
    assert |c.completed + AsSeq(Current(c)) + c.queue| == 3;
  }

  /** From the initial cursor, a run in which k answers arrive finishes at exactly its (4 + 2k)-th
      advance, with the answers reviewed in the order they came. */
  lemma {:induction false} FinishesInExactly(ops: seq<Op>)
    requires AllAllowed(INITIAL, ops)
    ensures Validate(RunOps(INITIAL, ops))
    ensures Finished(RunOps(INITIAL, ops)) <==> Advances(ops) == 4 + 2 * |Answers(ops)|
    ensures Advances(ops) <= 4 + 2 * |Answers(ops)|
    ensures Finished(RunOps(INITIAL, ops)) ==> Entered(INITIAL, ops) == Answers(ops)
  {
    ValidateIff(INITIAL);
    RunsCount(INITIAL, ops);
    ReviewsInOrder(INITIAL, ops);
    FinishedIffNoneRemain(RunOps(INITIAL, ops));
    var entered := Entered(INITIAL, ops);
    assert entered + [] == entered && [] + Answers(ops) == Answers(ops);
  }
}
