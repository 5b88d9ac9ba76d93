/** What a visit's requests and the recorded answers make of a run: it goes on, waits for an answer, or errs. */
module Endings {
  import opened Text
  import opened Stages
  import opened ReviewLoop

  // ----- the requests of a visit -----

  /** A pending request that blocks posting. */
  predicate Open(r: Request) { r.state == StillPending && r.blocks }

  predicate Waiting(rs: seq<Request>) {
    exists i :: 0 <= i < |rs| && Open(rs[i])
  }

  predicate Replied(rs: seq<Request>, answers: set<string>) {
    exists i :: 0 <= i < |rs| && Open(rs[i]) && rs[i].id in answers
  }

  /** Two open requests share an id, or an earlier request that is no longer pending has it. */
  predicate Doubled(rs: seq<Request>, id: string) { OpenTwice(rs, id) || !FirstPends(rs, id) }

  predicate OpenTwice(rs: seq<Request>, id: string) {
    exists i, j :: 0 <= i < j < |rs| && Open(rs[i]) && Open(rs[j]) && rs[i].id == rs[j].id == id
  }

  predicate FirstPends(rs: seq<Request>, id: string) {
    FirstWith(rs, id) < |rs| && rs[FirstWith(rs, id)].state == StillPending
  }

  /** An answer to an open request cannot be taken in. */
  predicate Clash(rs: seq<Request>, answers: set<string>) {
    exists i :: 0 <= i < |rs| && Open(rs[i]) && rs[i].id in answers && Doubled(rs, rs[i].id)
  }

  /** The answered ids of the open requests, in the order of the requests. */
  function RepliedIds(rs: seq<Request>, answers: set<string>): (ids: seq<string>)
    ensures forall id :: id in ids <==> exists i :: 0 <= i < |rs| && Open(rs[i]) && rs[i].id == id && id in answers
  {
    if rs == [] then []
    else
      var tail := RepliedIds(rs[1..], answers);
      assert forall i :: 0 < i < |rs| ==> rs[i] == rs[1..][i - 1];
      assert forall i :: 0 <= i < |rs| - 1 ==> rs[1..][i] == rs[i + 1];
      if Open(rs[0]) && rs[0].id in answers then [rs[0].id] + tail else tail
  }

  lemma {:induction false} BlockingAreOpen(rs: seq<Request>)
    ensures forall id :: id in BlockingIds(rs) <==> exists i :: 0 <= i < |rs| && Open(rs[i]) && rs[i].id == id
    ensures BlockingIds(rs) == [] <==> !Waiting(rs)
  {
    if rs != [] {
      BlockingAreOpen(rs[1..]);
      assert forall i :: 0 < i < |rs| ==> rs[i] == rs[1..][i - 1];
      assert forall i :: 0 <= i < |rs| - 1 ==> rs[1..][i] == rs[i + 1];
    }
  }

  predicate Twice(ids: seq<string>, id: string) {
    exists i, j :: 0 <= i < j < |ids| && ids[i] == ids[j] == id
  }

  lemma {:induction false} BlockingTwice(rs: seq<Request>, id: string)
    ensures Twice(BlockingIds(rs), id) <==> OpenTwice(rs, id)
  {
    if rs != [] {
      var rest := rs[1..];
      BlockingTwice(rest, id);
      BlockingAreOpen(rest);
      OpenTwiceCons(rs, id);
      if Open(rs[0]) {
        TwiceCons([rs[0].id] + BlockingIds(rest), id);
        assert ([rs[0].id] + BlockingIds(rest))[1..] == BlockingIds(rest);
      } else {
        assert [] + BlockingIds(rest) == BlockingIds(rest);
      }
    }
  }

  lemma OpenTwiceCons(rs: seq<Request>, id: string)
    requires rs != []
    ensures OpenTwice(rs, id) <==>
              OpenTwice(rs[1..], id)
              || (Open(rs[0]) && rs[0].id == id
                  && exists i :: 0 <= i < |rs| - 1 && Open(rs[1..][i]) && rs[1..][i].id == id)
  {
    assert forall i :: 0 < i < |rs| ==> rs[i] == rs[1..][i - 1];
    assert forall i :: 0 <= i < |rs| - 1 ==> rs[1..][i] == rs[i + 1];
  }

  lemma TwiceCons(ids: seq<string>, id: string)
    requires ids != []
    ensures Twice(ids, id) <==> Twice(ids[1..], id) || (ids[0] == id && id in ids[1..])
  {
    assert forall i :: 0 < i < |ids| ==> ids[i] == ids[1..][i - 1];
    assert forall i :: 0 <= i < |ids| - 1 ==> ids[1..][i] == ids[i + 1];
  }

  // ----- taking answers in -----

  function Taken(ids: seq<string>, answers: set<string>): seq<string> {
    if ids == [] then [] else (if ids[0] in answers then [ids[0]] else []) + Taken(ids[1..], answers)
  }

  lemma {:induction false} TakenAreReplied(rs: seq<Request>, answers: set<string>)
    ensures Taken(BlockingIds(rs), answers) == RepliedIds(rs, answers)
  {
    if rs != [] {
      TakenAreReplied(rs[1..], answers);
      if Open(rs[0]) {
        assert ([rs[0].id] + BlockingIds(rs[1..]))[1..] == BlockingIds(rs[1..]);
      } else {
        assert [] + BlockingIds(rs[1..]) == BlockingIds(rs[1..]);
      }
    }
  }

  /** When answers cannot be taken in: one of them is for an id that was taken before, or that stands first at a
      request that is not pending. */
  predicate Refuses(rs: seq<Request>, ids: seq<string>, answers: set<string>) {
    exists i :: 0 <= i < |ids| && ids[i] in answers
      && (!FirstPends(rs, ids[i]) || exists j :: 0 <= j < i && ids[j] == ids[i])
  }

  lemma RefusesCons(rs: seq<Request>, ids: seq<string>, answers: set<string>)
    requires ids != []
    ensures Refuses(rs, ids, answers) <==>
              (ids[0] in answers && (!FirstPends(rs, ids[0]) || ids[0] in ids[1..])) || Refuses(rs, ids[1..], answers)
  {
    var rest := ids[1..];
    assert forall i :: 0 <= i < |rest| ==> rest[i] == ids[i + 1];
    if Refuses(rs, ids, answers) {
      var i :| 0 <= i < |ids| && ids[i] in answers
        && (!FirstPends(rs, ids[i]) || exists j :: 0 <= j < i && ids[j] == ids[i]);
      if i > 0 {
        assert rest[i - 1] == ids[i];
        if FirstPends(rs, ids[i]) {
          var j :| 0 <= j < i && ids[j] == ids[i];
          assert j > 0 ==> rest[j - 1] == ids[j];
        }
      }
    }
    if Refuses(rs, rest, answers) {
      var i :| 0 <= i < |rest| && rest[i] in answers
        && (!FirstPends(rs, rest[i]) || exists j :: 0 <= j < i && rest[j] == rest[i]);
      assert ids[i + 1] == rest[i];
      if FirstPends(rs, rest[i]) {
        var j :| 0 <= j < i && rest[j] == rest[i];
        assert ids[j + 1] == ids[i + 1];
      }
    }
    if ids[0] in answers && ids[0] in rest {
      var i :| 0 <= i < |rest| && rest[i] == ids[0];
      assert ids[i + 1] == ids[0];
    }
  }

  lemma IngestedPends(v: Review, id: string)
    requires FirstPends(v.requests, id)
    ensures Ingest(v, id).Some?
    ensures forall x :: FirstPends(Ingest(v, id).value.requests, x) <==> x != id && FirstPends(v.requests, x)
    ensures forall x :: FirstWith(Ingest(v, id).value.requests, x) == FirstWith(v.requests, x)
  {
    var i := FirstWith(v.requests, id);
    var v' := Ingest(v, id).value;
    forall x ensures FirstWith(v'.requests, x) == FirstWith(v.requests, x) {
      FirstWithUpdate(v.requests, i, v'.requests[i], x);
    }
  }

  lemma {:induction false} IngestFailsIff(v: Review, ids: seq<string>, answers: set<string>)
    ensures IngestAvailable(v, ids, answers) == None <==> Refuses(v.requests, ids, answers)
    decreases |ids|
  {
    hide FirstPends, Refuses, Ingest;
    if ids == [] {
      NothingRefused(v.requests, answers);
    } else {
      RefusesCons(v.requests, ids, answers);
      IngestSomeIff(v, ids[0]);
      if ids[0] !in answers {
        IngestFailsIff(v, ids[1..], answers);
      } else if FirstPends(v.requests, ids[0]) {
        IngestedPends(v, ids[0]);
        var v' := Ingest(v, ids[0]).value;
        IngestFailsIff(v', ids[1..], answers);
        StillRefused(v.requests, v'.requests, ids[1..], ids[0], answers);
      }
    }
  }

  lemma IngestSomeIff(v: Review, id: string)
    ensures Ingest(v, id).Some? <==> FirstPends(v.requests, id)
  {}

  lemma NothingRefused(rs: seq<Request>, answers: set<string>)
    ensures !Refuses(rs, [], answers)
  {}

  lemma StillRefused(rs: seq<Request>, rs': seq<Request>, ids: seq<string>, id: string, answers: set<string>)
    requires id in answers && forall x :: FirstPends(rs', x) <==> x != id && FirstPends(rs, x)
    ensures Refuses(rs', ids, answers) <==> id in ids || Refuses(rs, ids, answers)
  {
    hide FirstPends;
    if id in ids {
      var i :| 0 <= i < |ids| && ids[i] == id;
      assert !FirstPends(rs', ids[i]);
    }
  }

  lemma ClashIff(rs: seq<Request>, answers: set<string>)
    ensures Clash(rs, answers) <==> Refuses(rs, BlockingIds(rs), answers)
  {
    hide FirstPends, BlockingIds, OpenTwice, Twice;
    var ids := BlockingIds(rs);
    BlockingAreOpen(rs);
    if Clash(rs, answers) {
      var i :| 0 <= i < |rs| && Open(rs[i]) && rs[i].id in answers && Doubled(rs, rs[i].id);
      var id := rs[i].id;
      assert id in ids;
      BlockingTwice(rs, id);
      if FirstPends(rs, id) {
        TwiceIsLater(ids, id);
      } else {
        var k :| 0 <= k < |ids| && ids[k] == id;
        assert !FirstPends(rs, ids[k]);
      }
    }
    if Refuses(rs, ids, answers) {
      var k :| 0 <= k < |ids| && ids[k] in answers
        && (!FirstPends(rs, ids[k]) || exists j :: 0 <= j < k && ids[j] == ids[k]);
      BlockingTwice(rs, ids[k]);
      TwiceIsLater(ids, ids[k]);
      assert ids[k] in ids;
      var i :| 0 <= i < |rs| && Open(rs[i]) && rs[i].id == ids[k];
      assert Doubled(rs, rs[i].id);
    }
  }

  lemma TwiceIsLater(ids: seq<string>, id: string)
    ensures Twice(ids, id) <==> exists k :: 0 <= k < |ids| && ids[k] == id && exists j :: 0 <= j < k && ids[j] == ids[k]
  {}

  /** Exactly the first requests of the ids are answered. */
  ghost predicate Answers(rs: seq<Request>, rs': seq<Request>, ids: seq<string>) {
    |rs'| == |rs|
    && forall k :: 0 <= k < |rs| ==>
         rs'[k] == if rs[k].id in ids && FirstWith(rs, rs[k].id) == k then rs[k].(state := AnswerGiven) else rs[k]
  }

  lemma {:induction false} IngestTakes(v: Review, ids: seq<string>, answers: set<string>)
    requires IngestAvailable(v, ids, answers).Some?
    ensures var v' := IngestAvailable(v, ids, answers).value;
      v'.answered == v.answered + Taken(ids, answers) && Answers(v.requests, v'.requests, Taken(ids, answers))
    decreases |ids|
  {
    hide FirstPends, Ingest, Answers;
    if ids == [] {
      Unit(v.answered);
      NothingAnswered(v.requests);
    } else {
      var rest := Taken(ids[1..], answers);
      if ids[0] !in answers {
        IngestTakes(v, ids[1..], answers);
        Unit(rest);
      } else {
        IngestSomeIff(v, ids[0]);
        IngestedPends(v, ids[0]);
        IngestAnswers(v, ids[0]);
        var v' := Ingest(v, ids[0]).value;
        IngestTakes(v', ids[1..], answers);
        AnswersMore(v.requests, v'.requests, IngestAvailable(v', ids[1..], answers).value.requests, ids[0], rest);
        Shift(v.answered, ids[0], rest);
      }
    }
  }

  lemma NothingAnswered(rs: seq<Request>)
    ensures Answers(rs, rs, [])
  {}

  lemma IngestAnswers(v: Review, id: string)
    requires Ingest(v, id).Some?
    ensures Answers(v.requests, Ingest(v, id).value.requests, [id])
    ensures Ingest(v, id).value.answered == v.answered + [id]
  {
    hide Without;
  }

  /** Taking an id out of a list: the others stay, in order. */
  lemma {:induction false} WithoutSplits(a: seq<string>, b: seq<string>, id: string)
    ensures Without(a + b, id) == Without(a, id) + Without(b, id)
    ensures id !in Without(a, id) && (id !in a ==> Without(a, id) == a)
    ensures Without([id], id) == []
  {
    assert [id][1..] == [];
    if a == [] {
      assert a + b == b;
    } else {
      assert (a + b)[0] == a[0] && (a + b)[1..] == a[1..] + b;
      WithoutSplits(a[1..], b, id);
    }
  }

  /** One answer, whatever the state: it is refused when no pending request comes first under its id; otherwise the
      request is answered, no longer pending, and waits for its review, once. */
  lemma AnswerIsTaken(v: Review, id: string)
    ensures Ingest(v, id).Some? <==> FirstPends(v.requests, id)
    ensures Ingest(v, id).Some? ==>
              var v' := Ingest(v, id).value;
              && Answers(v.requests, v'.requests, [id]) && v'.answered == v.answered + [id]
              && v'.pending == Without(v.pending, id)
              && v'.ready == v.ready + (if id in v.ready then [] else [id])
  {
    hide Without, Answers;
    IngestSomeIff(v, id);
    if Ingest(v, id).Some? {
      IngestAnswers(v, id);
      Unit(v.ready);
    }
  }

  lemma AnswersMore(rs: seq<Request>, rs1: seq<Request>, rs2: seq<Request>, id: string, ids: seq<string>)
    requires Answers(rs, rs1, [id]) && Answers(rs1, rs2, ids)
    requires forall x :: FirstWith(rs1, x) == FirstWith(rs, x)
    ensures Answers(rs, rs2, [id] + ids)
  {
    hide FirstWith;
    assert forall x :: x in [id] + ids <==> x == id || x in ids;
    forall k | 0 <= k < |rs|
      ensures rs2[k] == if rs[k].id in [id] + ids && FirstWith(rs, rs[k].id) == k then rs[k].(state := AnswerGiven)
                        else rs[k]
    {
      assert rs1[k].id == rs[k].id;
    }
  }

  lemma FreshPart(before: seq<string>, more: seq<string>)
    ensures ReviewLoop.Fresh(before + more, before) == more
  {}

  lemma RepliedIff(rs: seq<Request>, answers: set<string>)
    ensures Replied(rs, answers) <==> RepliedIds(rs, answers) != []
    ensures Replied(rs, answers) ==> Waiting(rs)
  {
    if RepliedIds(rs, answers) != [] {
      assert RepliedIds(rs, answers)[0] in RepliedIds(rs, answers);
    }
  }

  /** The answers wait behind those that waited before. */
  lemma ReadyGrows(s: Loop, raised: seq<Request>, answers: set<string>)
    requires Inv(s, answers) && "" !in answers && s.cursor.queue != []
    ensures Validate(s.cursor)
    ensures var all := s.requests + raised;
      var after := Move(s).(requests := all);
      var v := IngestAvailable(Reviewed(after), BlockingIds(all), answers);
      v.Some? ==> v.value.ready == Next(s.cursor).ready + ReviewLoop.Fresh(v.value.answered, s.answered)
  {
    hide Inv, Validate, Next, Why, BlockingIds, PendingIds, IngestAvailable;
    MoveKeeps(s, answers);
    RaiseKeeps(Move(s), raised, answers);
    var after := Move(s).(requests := s.requests + raised);
    InvBooks(after, answers);
    if IngestAvailable(Reviewed(after), BlockingIds(after.requests), answers).Some? {
      IngestsFresh(Reviewed(after), BlockingIds(after.requests), answers);
    }
  }

  lemma InvBooks(s: Loop, answers: set<string>)
    requires Inv(s, answers)
    ensures Settled(s.requests, s.answered) && Distinct(s.answered) && Within(s.answered, answers)
    ensures forall id :: id in s.cursor.ready ==> id in s.answered
  {}

  // ----- what a visit makes of the run -----

  /** One advance and no more. */
  predicate MovedOnly(s: Loop, s': Loop, requests: seq<Request>)
    requires Validate(s.cursor)
  {
    s' == Loop(Next(s.cursor), requests, s.answered, s.trace + [Moved(Why(s.cursor))], s.steps + 1)
  }

  /** One advance, and answers to these ids. */
  ghost predicate TookAnswers(s: Loop, s': Loop, requests: seq<Request>, ids: seq<string>)
    requires Validate(s.cursor)
  {
    s'.cursor == Next(s.cursor).(ready := Next(s.cursor).ready + ids)
    && Answers(requests, s'.requests, ids) && s'.answered == s.answered + ids
    && s'.trace == s.trace + [Moved(Why(s.cursor))] + AnsweredEvents(ids) && s'.steps == s.steps + 1
  }

  /** A visit that is not one of a stage or an answer: the return from a review. */
  lemma ReturnGoesOn(s: Loop, visit: Behaviour, answers: set<string>) returns (s': Loop)
    requires Inv(s, answers) && "" !in answers && s.cursor.queue != []
    requires s.cursor.active == Some(ClarificationReview)
    ensures Validate(s.cursor) && MovedOnly(s, s', s.requests) && Inv(s', answers)
    ensures RunLoop(s, visit, answers) == RunLoop(s', visit, answers)
  {
    hide Inv, Validate, Next, Why, AfterVisit;
    LoopFacts(s, visit, answers);
    s' := Move(s);
  }

  /** The reviewers of a visit decide, with the recorded answers, how the run goes on. It errs with them; it
      goes on while nothing open blocks; it errs when an answer cannot be taken in; it waits, at once, when no
      open request has an answer; and otherwise it goes on with the answers, which wait for their reviews. */
  lemma VisitDecides(s: Loop, visit: Behaviour, answers: set<string>) returns (s': Loop)
    requires Inv(s, answers) && "" !in answers && s.cursor.queue != []
    requires s.cursor.active != Some(ClarificationReview)
    ensures Validate(s.cursor)
    ensures var end := RunLoop(s, visit, answers);
      match visit(s.steps)
      case None => MovedOnly(s, s', s.requests) && end == Stop(s', Errored)
      case Some(raised) =>
        var all := s.requests + raised;
        if !Waiting(all) then
          MovedOnly(s, s', all) && Inv(s', answers) && end == RunLoop(s', visit, answers)
        else if Clash(all, answers) then MovedOnly(s, s', all) && end == Stop(s', Errored)
        else if !Replied(all, answers) then MovedOnly(s, s', all) && end == Stop(s', ClarificationNeeded)
        else
          && TookAnswers(s, s', all, RepliedIds(all, answers)) && Inv(s', answers)
          && end == RunLoop(s', visit, answers)
  {
    hide Inv, Validate, Next, Why, BlockingIds, PendingIds, IngestAvailable, AnsweredEvents, RunLoop, Clash, Refuses,
         Answers, Waiting, Replied;
    LoopFacts(s, visit, answers);
    IterateKeeps(s, visit, answers);
    s' := Iterate(s, visit, answers).state;
    if visit(s.steps).Some? {
      var all := s.requests + visit(s.steps).value;
      var v := Review(all, PendingIds(all), Next(s.cursor).ready, s.answered);
      BlockingAreOpen(all);
      ClashIff(all, answers);
      IngestFailsIff(v, BlockingIds(all), answers);
      TakenAreReplied(all, answers);
      RepliedIff(all, answers);
      if IngestAvailable(v, BlockingIds(all), answers).Some? {
        IngestTakes(v, BlockingIds(all), answers);
        ReadyGrows(s, visit(s.steps).value, answers);
        FreshPart(s.answered, Taken(BlockingIds(all), answers));
      }
    }
  }

  // ----- how runs end -----

  /** The next advance activates the last stage. */
  predicate EntersLastStage(c: Cursor) {
    c.queue == [LogicReview] && c.active == Some(SpecializedReview) && c.ready == []
  }

  /** The state of a run just before it activates the last stage; None for a run that ends earlier. */
  ghost function BeforeLastStage(s: Loop, visit: Behaviour, answers: set<string>): Option<Loop>
    requires Inv(s, answers) && "" !in answers
    decreases Potential(s, answers)
  {
    PotentialBounds(s, answers);
    if s.cursor.queue == [] then None
    else if EntersLastStage(s.cursor) then Some(s)
    else
      IterateKeeps(s, visit, answers);
      IterateSpends(s, visit, answers);
      match Iterate(s, visit, answers)
      case Stop(_, _) => None
      case Continue(s') => BeforeLastStage(s', visit, answers)
  }

  /** How the visit at this state ends the run; None when the run goes on. */
  ghost function VisitEnding(s: Loop, visit: Behaviour, answers: set<string>): Option<Ending> {
    match visit(s.steps)
    case None => Some(Errored)
    case Some(raised) =>
      var all := s.requests + raised;
      if !Waiting(all) then None
      else if Clash(all, answers) then Some(Errored)
      else if !Replied(all, answers) then Some(ClarificationNeeded)
      else None
  }

  /** How the run ends whose last stage is visited next: that visit ends it, or the stage completes, or the
      review of the first answered request is opened and never run. */
  ghost function LastStageEnding(s: Loop, visit: Behaviour, answers: set<string>): Ending {
    match VisitEnding(s, visit, answers)
    case Some(ending) => ending
    case None =>
      var all := s.requests + (if visit(s.steps).Some? then visit(s.steps).value else []);
      if RepliedIds(all, answers) == [] then Completed else LeftInReview(RepliedIds(all, answers)[0])
  }

  lemma MoveToLast(c: Cursor)
    requires EntersLastStage(c)
    ensures Next(c) == c.(completed := c.completed + [SpecializedReview], active := Some(LogicReview), queue := [])
  {}

  /** A run that activates the last stage ends as that stage's requests and the answers say. */
  lemma LastStageDecides(s: Loop, visit: Behaviour, answers: set<string>)
    requires Inv(s, answers) && "" !in answers && EntersLastStage(s.cursor)
    ensures RunLoop(s, visit, answers).Stop?
    ensures RunLoop(s, visit, answers).ending == LastStageEnding(s, visit, answers)
    ensures RunLoop(s, visit, answers).state.steps == s.steps + 1
  {
    hide Inv, Validate, Why, AnsweredEvents, Potential, RunLoop, Clash, Answers, Waiting, Replied;
    var s' := VisitDecides(s, visit, answers);
    ValidateIff(s.cursor);
    MoveToLast(s.cursor);
    if visit(s.steps).Some? {
      RepliedIff(s.requests + visit(s.steps).value, answers);
    }
    if VisitEnding(s, visit, answers) == None {
      LoopEnds(s', visit, answers);
    }
  }

  /** How every run ends. Its last visit is one of its states; when that visit activates the last stage, the run
      ends as that stage decides, and otherwise the visit ends it, by an error or a request nobody answered.
      So the runs that lose an answer are exactly those whose last stage raises or keeps an open request that has
      one. */
  lemma {:induction false} EndingIsDecided(s: Loop, visit: Behaviour, answers: set<string>) returns (last: Loop)
    requires Inv(s, answers) && "" !in answers && s.cursor.queue != []
    ensures var end := RunLoop(s, visit, answers);
      && end.Stop? && end.state.steps == last.steps + 1
      && Inv(last, answers) && last.cursor.queue != [] && RunLoop(last, visit, answers) == end
      && BeforeLastStage(s, visit, answers) == (if EntersLastStage(last.cursor) then Some(last) else None)
      && (EntersLastStage(last.cursor) ==> end.ending == LastStageEnding(last, visit, answers))
      && (!EntersLastStage(last.cursor) ==>
            last.cursor.active != Some(ClarificationReview) && VisitEnding(last, visit, answers) == Some(end.ending))
    decreases Potential(s, answers)
  {
    hide Inv, Validate, Potential, LastStageEnding, Iterate, FinalAdvance, VisitEnding, RunLoop, MovedOnly,
         TookAnswers;
    PotentialBounds(s, answers);
    LoopFacts(s, visit, answers);
    IterateSpends(s, visit, answers);
    if EntersLastStage(s.cursor) {
      last := s;
      LastStageDecides(s, visit, answers);
    } else {
      StillQueued(s, visit, answers);
      StopsWhenDecided(s, visit, answers);
      var it := Iterate(s, visit, answers);
      if it.Continue? {
        last := EndingIsDecided(it.state, visit, answers);
      } else {
        last := s;
      }
    }
  }

  lemma StopsWhenDecided(s: Loop, visit: Behaviour, answers: set<string>)
    requires Inv(s, answers) && "" !in answers && s.cursor.queue != []
    ensures Validate(s.cursor)
    ensures Iterate(s, visit, answers).Stop? ==>
              && s.cursor.active != Some(ClarificationReview)
              && VisitEnding(s, visit, answers) == Some(Iterate(s, visit, answers).ending)
              && Iterate(s, visit, answers).state.steps == s.steps + 1
  {
    hide Inv, Validate, Next, Why, BlockingIds, PendingIds, IngestAvailable, AnsweredEvents, Clash, Refuses, Answers,
         Waiting, Replied;
    LoopFacts(s, visit, answers);
    IterateKeeps(s, visit, answers);
    if s.cursor.active != Some(ClarificationReview) && visit(s.steps).Some? {
      var all := s.requests + visit(s.steps).value;
      var v := Review(all, PendingIds(all), Next(s.cursor).ready, s.answered);
      BlockingAreOpen(all);
      ClashIff(all, answers);
      IngestFailsIff(v, BlockingIds(all), answers);
      TakenAreReplied(all, answers);
      RepliedIff(all, answers);
      if IngestAvailable(v, BlockingIds(all), answers).Some? {
        IngestTakes(v, BlockingIds(all), answers);
      }
    }
  }

  lemma StillQueued(s: Loop, visit: Behaviour, answers: set<string>)
    requires Validate(s.cursor) && s.cursor.queue != [] && !EntersLastStage(s.cursor)
    ensures var it := Iterate(s, visit, answers);
      if it.Stop? then it.ending in {Errored, ClarificationNeeded} else it.state.cursor.queue != []
  {
    ValidateIff(s.cursor);
    hide Validate, BlockingIds, PendingIds, IngestAvailable, AnsweredEvents, Fresh, Why;
    var c := s.cursor;
    var whole := c.completed + AsSeq(Current(c)) + c.queue;
    assert |whole| == 3 && c.queue[|c.queue| - 1] == whole[2];
    assert Current(c).Some? ==> Current(c).value == whole[|c.completed|];
  }
}
