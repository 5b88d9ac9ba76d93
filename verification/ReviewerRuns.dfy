/** The register of reviewer runs: selecting a reviewer, recording what became of it, retrying after a
    failure, and finding the run that is current. */
module ReviewerRuns {
  import opened Text
  import opened Stages
  import opened Spending

  datatype StatusValue = IsSelected | IsRunning | IsCompleted | IsFailed | IsSkipped

  datatype Status = Status(value: StatusValue, reason: string)

  datatype Reviewer = Reviewer(name: string, stage: Stage)

  /** The part of the review state that the register keeps. */
  datatype Book = Book(target: string, config: string, keys: seq<RunKey>, statuses: map<RunKey, Status>,
                       selected: seq<Reviewer>)

  const EXHAUSTED := "retry exhausted:"
  const SELECTED := Status(IsSelected, "selected by active-stage routing")

  function FirstKey(b: Book, r: Reviewer, clarification: Option<string>): RunKey {
    RunKey(b.target, b.config, r.stage, r.name, 1, None, clarification)
  }

  predicate Suppresses(s: Status) {
    s.value in {IsCompleted, IsSkipped} || (s.value == IsFailed && EXHAUSTED <= s.reason)
  }

  predicate SameIdentity(a: RunKey, b: RunKey) {
    var alike := a.target == b.target && a.config == b.config && a.stage == b.stage && a.reviewer == b.reviewer;
    if a.clarification.Some? || b.clarification.Some? then alike && a.clarification == b.clarification else alike
  }

  predicate Suppressed(b: Book, key: RunKey) {
    exists k :: k in b.statuses && SameIdentity(k, key) && Suppresses(b.statuses[k])
  }

  function Record(b: Book, key: RunKey, s: Status): Book {
    b.(statuses := b.statuses[key := s], keys := if key in b.keys then b.keys else b.keys + [key])
  }

  /** Selecting a reviewer: refused after a final status, counted once otherwise. */
  function Register(b: Book, r: Reviewer, clarification: Option<string>): (Book, Option<RunKey>) {
    var key := FirstKey(b, r, clarification);
    if Suppressed(b, key) then (b, None)
    else if key in b.statuses then (b, Some(key))
    else (b.(keys := b.keys + [key], statuses := b.statuses[key := SELECTED], selected := b.selected + [r]),
        Some(key))
  }

  function NextKey(key: RunKey): RunKey {
    key.(attempt := key.attempt + 1, retryOf := Some(key))
  }

  function Retry(b: Book, key: RunKey, maxAttempts: nat, reason: string): (Book, Option<RunKey>) {
    if key.attempt >= maxAttempts then (Record(b, key, Status(IsFailed, EXHAUSTED + " " + reason)), None)
    else (Record(b, NextKey(key), Status(IsSelected, "retry selected after failure: " + reason)), Some(NextKey(key)))
  }

  // ----- the current run of a reviewer -----

  predicate IsCandidate(k: RunKey, r: Reviewer, active: Option<string>) {
    k.reviewer == r.name && k.stage == r.stage && (k.stage == ClarificationReview ==> k.clarification == active)
  }

  predicate IsOpen(b: Book, k: RunKey) {
    k in b.statuses ==> b.statuses[k].value in {IsSelected, IsRunning}
  }

  function Candidates(keys: seq<RunKey>, r: Reviewer, active: Option<string>): (c: seq<RunKey>)
    ensures forall k :: k in c <==> k in keys && IsCandidate(k, r, active)
  {
    if keys == [] then []
    else
      var before := Candidates(keys[..|keys| - 1], r, active);
      if IsCandidate(Last(keys), r, active) then before + [Last(keys)] else before
  }

  function OpenOnes(b: Book, keys: seq<RunKey>): (c: seq<RunKey>)
    ensures forall k :: k in c <==> k in keys && IsOpen(b, k)
  {
    if keys == [] then []
    else
      var before := OpenOnes(b, keys[..|keys| - 1]);
      if IsOpen(b, Last(keys)) then before + [Last(keys)] else before
  }

  /** The first of those with the greatest attempt. */
  function LatestAttempt(keys: seq<RunKey>): (k: RunKey)
    requires keys != []
    ensures k in keys && forall other :: other in keys ==> other.attempt <= k.attempt
  {
    if |keys| == 1 then keys[0]
    else
      var k := LatestAttempt(keys[..|keys| - 1]);
      assert forall other :: other in keys <==> other in keys[..|keys| - 1] || other == Last(keys);
      if Last(keys).attempt > k.attempt then Last(keys) else k
  }

  /** None is the error that no run key exists. */
  function Pick(b: Book, r: Reviewer, active: Option<string>): Option<RunKey> {
    var candidates := Candidates(b.keys, r, active);
    var open := OpenOnes(b, candidates);
    if candidates == [] then None else Some(LatestAttempt(if open != [] then open else candidates))
  }

  // ----- the register as the program keeps it -----

  class RunRegister {
    const target: string
    const config: string
    var keys: seq<RunKey>
    var statuses: map<RunKey, Status>
    var selected: seq<Reviewer>

    constructor (target: string, config: string)
      ensures Value() == Book(target, config, [], map[], [])
    {
      this.target, this.config := target, config;
      keys, statuses, selected := [], map[], [];
    }

    function Value(): Book
      reads this
    {
      Book(target, config, keys, statuses, selected)
    }

    method RegisterSelected(r: Reviewer, clarification: Option<string>) returns (key: Option<RunKey>)
      modifies this
      ensures (Value(), key) == Register(old(Value()), r, clarification)
    {
      var first := FirstKey(Value(), r, clarification);
      if Suppressed(Value(), first) {
        return None;
      }
      if first in statuses {
        return Some(first);
      }
      keys := keys + [first];
      statuses := statuses[first := SELECTED];
      selected := selected + [r];
      return Some(first);
    }

    method RecordStatus(key: RunKey, status: Status)
      modifies this
      ensures Value() == Record(old(Value()), key, status)
    {
      statuses := statuses[key := status];
      if key !in keys {
        keys := keys + [key];
      }
    }

    method RetryAfterFailure(key: RunKey, maxAttempts: nat, reason: string) returns (next: Option<RunKey>)
      modifies this
      ensures (Value(), next) == Retry(old(Value()), key, maxAttempts, reason)
    {
      if key.attempt >= maxAttempts {
        RecordStatus(key, Status(IsFailed, EXHAUSTED + " " + reason));
        return None;
      }
      RecordStatus(NextKey(key), Status(IsSelected, "retry selected after failure: " + reason));
      return Some(NextKey(key));
    }

    method KeyForSelection(r: Reviewer, active: Option<string>) returns (key: Option<RunKey>)
      ensures key == Pick(Value(), r, active)
    {
      var candidates: seq<RunKey> := [];
      for i := 0 to |keys|
        invariant candidates == Candidates(keys[..i], r, active)
      {
        assert keys[..i + 1][..i] == keys[..i];
        if !IsCandidate(keys[i], r, active) {
          continue;
        }
        candidates := candidates + [keys[i]];
      }
      assert keys[..|keys|] == keys;
      if candidates == [] {
        return None;
      }
      var open := OpenOnes(Value(), candidates);
      return Some(LatestAttempt(if open != [] then open else candidates));
    }
  }

  // ----- runs of the register -----

  datatype Op = Select(reviewer: Reviewer, clarification: Option<string>) | Note(key: RunKey, status: Status)

  function Apply(b: Book, op: Op): Book {
    match op
    case Select(r, clarification) => Register(b, r, clarification).0
    case Note(key, status) => Record(b, key, status)
  }

  function ApplyAll(b: Book, ops: seq<Op>): Book
    decreases |ops|
  {
    if ops == [] then b else ApplyAll(Apply(b, ops[0]), ops[1..])
  }

  /** Every key is listed once, and exactly those with a status are listed. */
  ghost predicate Consistent(b: Book) {
    Distinct(b.keys) && forall k :: k in b.keys <==> k in b.statuses
  }

  lemma ApplyKeepsConsistent(b: Book, op: Op)
    requires Consistent(b)
    ensures Consistent(Apply(b, op)) && b.keys <= Apply(b, op).keys
    ensures Apply(b, op).target == b.target && Apply(b, op).config == b.config
  {
    hide Suppressed;
    var after := Apply(b, op);
    if after.keys != b.keys {
      assert after.keys == b.keys + [Last(after.keys)] && Last(after.keys) !in b.keys;
    }
  }

  /** The register never forgets a run and never lists one twice. */
  lemma {:induction false} RunsAreListedOnce(b: Book, ops: seq<Op>)
    requires Consistent(b)
    ensures Consistent(ApplyAll(b, ops)) && b.keys <= ApplyAll(b, ops).keys
    ensures ApplyAll(b, ops).target == b.target && ApplyAll(b, ops).config == b.config
    decreases |ops|
  {
    hide Apply, Consistent;
    if ops != [] {
      ApplyKeepsConsistent(b, ops[0]);
      RunsAreListedOnce(Apply(b, ops[0]), ops[1..]);
    }
  }

  /** No status is noted for a run of this identity. */
  predicate LeavesAlone(ops: seq<Op>, key: RunKey) {
    forall i :: 0 <= i < |ops| && ops[i].Note? ==> !SameIdentity(ops[i].key, key)
  }

  lemma SuppressedStays(b: Book, op: Op, key: RunKey)
    requires Suppressed(b, key) && (op.Note? ==> !SameIdentity(op.key, key))
    ensures Suppressed(Apply(b, op), key)
  {
    var k :| k in b.statuses && SameIdentity(k, key) && Suppresses(b.statuses[k]);
    assert k in Apply(b, op).statuses && Apply(b, op).statuses[k] == b.statuses[k];
  }

  /** A completed, skipped or exhausted reviewer is not selected again, whatever else is selected or
      noted for others in the meantime, and gets no new run. */
  lemma {:induction false} FinishedIsNotRerun(b: Book, ops: seq<Op>, r: Reviewer, clarification: Option<string>)
    requires Suppressed(b, FirstKey(b, r, clarification)) && LeavesAlone(ops, FirstKey(b, r, clarification))
    ensures var end := ApplyAll(b, ops);
      Register(end, r, clarification) == (end, None)
      && forall k :: k in end.keys && SameIdentity(k, FirstKey(b, r, clarification)) ==> k in b.keys
    decreases |ops|
  {
    hide Suppressed;
    var key := FirstKey(b, r, clarification);
    if ops != [] {
      assert !ops[0].Note? || !SameIdentity(ops[0].key, key);
      SuppressedStays(b, ops[0], key);
      var next := Apply(b, ops[0]);
      assert FirstKey(next, r, clarification) == key;
      FinishedIsNotRerun(next, ops[1..], r, clarification);
      if ops[0].Select? {
        SameIdentitySuppressed(b, key, FirstKey(b, ops[0].reviewer, ops[0].clarification));
      }
    }
  }

  lemma SameIdentitySuppressed(b: Book, key: RunKey, other: RunKey)
    requires Suppressed(b, key)
    ensures SameIdentity(other, key) ==> Suppressed(b, other)
  {
    var k :| k in b.statuses && SameIdentity(k, key) && Suppresses(b.statuses[k]);
    assert SameIdentity(other, key) ==> SameIdentity(k, other);
  }

  // ----- retries -----

  /** Retrying a run that keeps failing until the policy is exhausted. */
  function RetryAll(b: Book, key: RunKey, maxAttempts: nat, reason: string): (Book, RunKey)
    decreases maxAttempts - key.attempt
  {
    var (next, retry) := Retry(b, key, maxAttempts, reason);
    match retry
    case None => (next, key)
    case Some(again) => RetryAll(next, again, maxAttempts, reason)
  }

  /** A failing run is tried exactly up to the attempt limit, one new run a retry, and after that its
      reviewer is not selected again. */
  lemma {:induction false} RetriesExhaust(b: Book, key: RunKey, maxAttempts: nat, reason: string)
    requires key.attempt <= maxAttempts && key in b.keys && Consistent(b)
    requires forall k :: k in b.keys && SameIdentity(k, key) ==> k.attempt <= key.attempt
    ensures var (end, last) := RetryAll(b, key, maxAttempts, reason);
      && last.attempt == maxAttempts && SameIdentity(last, key)
      && |end.keys| == |b.keys| + (maxAttempts - key.attempt)
      && Suppressed(end, key) && Consistent(end)
    decreases maxAttempts - key.attempt
  {
    var (next, retry) := Retry(b, key, maxAttempts, reason);
    if retry == None {
      var failed := Status(IsFailed, EXHAUSTED + " " + reason);
      assert next.statuses[key] == failed && Suppresses(failed);
      ApplyKeepsConsistent(b, Note(key, failed));
    } else {
      var again := NextKey(key);
      assert SameIdentity(again, key) && again !in b.keys;
      ApplyKeepsConsistent(b, Note(again, next.statuses[again]));
      RetriesExhaust(next, again, maxAttempts, reason);
      var (end, last) := RetryAll(next, again, maxAttempts, reason);
      SameIdentitySuppressed(end, again, key);
    }
  }

  /** The run that was just retried is the one that is run next. */
  lemma RetryIsPicked(b: Book, r: Reviewer, active: Option<string>, maxAttempts: nat, reason: string)
    requires Pick(b, r, active).Some? && Pick(b, r, active).value.attempt < maxAttempts
    requires NextKey(Pick(b, r, active).value) !in b.keys
    ensures var key := Pick(b, r, active).value;
      Pick(Retry(b, key, maxAttempts, reason).0, r, active) == Some(NextKey(key))
  {
    var key := Pick(b, r, active).value;
    var next := NextKey(key);
    var after := Retry(b, key, maxAttempts, reason).0;
    assert after.keys == b.keys + [next] && after.statuses[next].value == IsSelected;
    var candidates := Candidates(after.keys, r, active);
    var open := OpenOnes(after, candidates);
    assert next in candidates && next in open;
    forall k | k in open && k != next ensures k.attempt < next.attempt {
      assert k in Candidates(b.keys, r, active) && k in OpenOnes(b, Candidates(b.keys, r, active));
    }
  }

  /** A fresh selection is the one that is run. */
  lemma FreshSelectionIsPicked(b: Book, r: Reviewer, clarification: Option<string>)
    requires forall k :: k in b.keys ==> !IsCandidate(k, r, clarification)
    requires Register(b, r, clarification).0 != b
    ensures Pick(Register(b, r, clarification).0, r, clarification) == Register(b, r, clarification).1
  {
    hide Suppressed;
    var key := FirstKey(b, r, clarification);
    var after := Register(b, r, clarification).0;
    assert after.keys == b.keys + [key];
    var candidates := Candidates(after.keys, r, clarification);
    assert forall k :: k in candidates <==> k == key;
    assert key in OpenOnes(after, candidates);
  }

  // ----- the register by its records -----

  /** A run of the same reviewer in the same stage, for the same target, configuration and clarification, that came to
      an end that is not tried again. */
  ghost predicate Settles(b: Book, k: RunKey, r: Reviewer, clarification: Option<string>) {
    && k in b.statuses && k.target == b.target && k.config == b.config && k.stage == r.stage && k.reviewer == r.name
    && k.clarification == clarification
    && match b.statuses[k].value
       case IsCompleted => true
       case IsSkipped => true
       case IsFailed => |b.statuses[k].reason| >= 16 && b.statuses[k].reason[..16] == "retry exhausted:"
       case _ => false
  }

  /** Selecting a reviewer is refused exactly when such a run is recorded; otherwise its first run is the one that
      is returned, entered when it was not there. */
  lemma RegisterIff(b: Book, r: Reviewer, clarification: Option<string>)
    ensures var (next, key) := Register(b, r, clarification);
      var first := RunKey(b.target, b.config, r.stage, r.name, 1, None, clarification);
      if exists k :: Settles(b, k, r, clarification) then key == None && next == b
      else
        && key == Some(first)
        && (first in b.statuses ==> next == b)
        && (first !in b.statuses ==>
              next == Book(b.target, b.config, b.keys + [first],
                           b.statuses[first := Status(IsSelected, "selected by active-stage routing")],
                           b.selected + [r]))
  {
    var first := FirstKey(b, r, clarification);
    forall k | k in b.statuses
      ensures SameIdentity(k, first) && Suppresses(b.statuses[k]) <==> Settles(b, k, r, clarification)
    {}
    hide SameIdentity, Suppresses, Settles;
    if k :| Settles(b, k, r, clarification) {
      SettlesIsRecorded(b, k, r, clarification);
      assert SameIdentity(k, first) && Suppresses(b.statuses[k]);
    }
  }

  lemma SettlesIsRecorded(b: Book, k: RunKey, r: Reviewer, clarification: Option<string>)
    requires Settles(b, k, r, clarification)
    ensures k in b.statuses
  {}

  /** After a failure: below the limit the next attempt is entered as selected, names the run that it retries and is
      otherwise the same; at the limit the run itself is recorded as exhausted. Nothing else changes. */
  lemma RetryIff(b: Book, key: RunKey, maxAttempts: nat, reason: string)
    ensures var (after, next) := Retry(b, key, maxAttempts, reason);
      var again := RunKey(key.target, key.config, key.stage, key.reviewer, key.attempt + 1, Some(key),
                          key.clarification);
      && (next.Some? <==> key.attempt < maxAttempts) && (next.Some? ==> next.value == again)
      && var entered := if next.Some? then again else key;
      && after.statuses == b.statuses[entered := after.statuses[entered]] && after.selected == b.selected
      && after.keys == b.keys + (if entered in b.keys then [] else [entered])
      && after.statuses[entered].value == (if next.Some? then IsSelected else IsFailed)
      && after.statuses[entered].reason
         == (if next.Some? then "retry selected after failure: " else "retry exhausted: ") + reason
  {
    Unit(b.keys);
    if key.attempt >= maxAttempts {
      assert EXHAUSTED + " " == "retry exhausted: ";
    }
  }

  /** A run of the reviewer in its stage, and for the clarification under review when the stage is that of reviews. */
  predicate RunsFor(k: RunKey, r: Reviewer, active: Option<string>) {
    k.reviewer == r.name && k.stage == r.stage && (r.stage == ClarificationReview ==> k.clarification == active)
  }

  /** Not yet ended, as far as is recorded. */
  predicate Pending(b: Book, k: RunKey) {
    k !in b.statuses || b.statuses[k].value == IsSelected || b.statuses[k].value == IsRunning
  }

  function RunsOf(r: Reviewer, active: Option<string>): RunKey -> bool { k => RunsFor(k, r, active) }

  function PendingRunsOf(b: Book, r: Reviewer, active: Option<string>): RunKey -> bool {
    k => RunsFor(k, r, active) && Pending(b, k)
  }

  function Any(): RunKey -> bool { k => true }

  /** Among these keys, the one is the first of those with the greatest attempt. */
  ghost predicate FirstOfLatest(keys: seq<RunKey>, among: RunKey -> bool, k: RunKey) {
    exists i :: 0 <= i < |keys| && keys[i] == k && among(k)
      && (forall j :: 0 <= j < |keys| && among(keys[j]) ==> keys[j].attempt <= k.attempt)
      && forall j :: 0 <= j < i && among(keys[j]) ==> keys[j].attempt < k.attempt
  }

  lemma {:induction false} LatestIsFirst(keys: seq<RunKey>)
    requires keys != []
    ensures FirstOfLatest(keys, Any(), LatestAttempt(keys))
  {
    var k := LatestAttempt(keys);
    if |keys| == 1 {
      assert keys[0] == k;
    } else {
      var before := keys[..|keys| - 1];
      LatestIsFirst(before);
      assert forall j :: 0 <= j < |before| ==> before[j] == keys[j];
      if Last(keys).attempt > LatestAttempt(before).attempt {
        assert keys[|keys| - 1] == k;
        assert forall j :: 0 <= j < |before| ==> before[j] in before;
      } else {
        var i :| 0 <= i < |before| && before[i] == LatestAttempt(before)
          && forall j :: 0 <= j < i ==> before[j].attempt < before[i].attempt;
        assert keys[i] == k;
      }
    }
  }

  /** Leaving keys out keeps the first of the latest among the rest. */
  lemma ExtendFirst(before: seq<RunKey>, last: RunKey, among: RunKey -> bool, k: RunKey)
    ensures FirstOfLatest(before, among, k) && (among(last) ==> last.attempt <= k.attempt) ==>
              FirstOfLatest(before + [last], among, k)
    ensures among(last) && (forall x :: x in before && among(x) ==> x.attempt < last.attempt) ==>
              FirstOfLatest(before + [last], among, last)
  {
    var keys := before + [last];
    assert keys[|before|] == last && forall j :: 0 <= j < |before| ==> keys[j] == before[j] && before[j] in before;
    if FirstOfLatest(before, among, k) && (among(last) ==> last.attempt <= k.attempt) {
      var i :| 0 <= i < |before| && before[i] == k && among(k)
        && forall j :: 0 <= j < i && among(before[j]) ==> before[j].attempt < k.attempt;
      assert keys[i] == k;
    }
  }

  lemma FirstIsAmong(keys: seq<RunKey>, among: RunKey -> bool, k: RunKey)
    requires FirstOfLatest(keys, among, k)
    ensures k in keys && among(k) && forall x :: x in keys && among(x) ==> x.attempt <= k.attempt
  {
    forall x | x in keys && among(x) ensures x.attempt <= k.attempt {
      var j :| 0 <= j < |keys| && keys[j] == x;
    }
  }

  lemma ShortenFirst(before: seq<RunKey>, last: RunKey, k: RunKey)
    requires FirstOfLatest(before + [last], Any(), k)
    ensures FirstOfLatest(before, Any(), k)
            || (k == last && forall x :: x in before ==> x.attempt < last.attempt)
    ensures last.attempt <= k.attempt
  {
    var keys := before + [last];
    var i :| 0 <= i < |keys| && keys[i] == k
      && forall j :: 0 <= j < i ==> keys[j].attempt < k.attempt;
    assert keys[|before|] == last && forall j :: 0 <= j < |before| ==> keys[j] == before[j];
    if i < |before| {
      assert before[i] == k;
    }
  }

  lemma {:induction false} CandidatesFirst(keys: seq<RunKey>, r: Reviewer, active: Option<string>, k: RunKey)
    requires FirstOfLatest(Candidates(keys, r, active), Any(), k)
    ensures FirstOfLatest(keys, RunsOf(r, active), k)
  {
    hide FirstOfLatest, Candidates;
    if keys == [] {
      NoCandidates(r, active);
      FirstIsAmong(Candidates(keys, r, active), Any(), k);
    } else {
      var before, last := keys[..|keys| - 1], Last(keys);
      assert keys == before + [last];
      CandidatesStep(keys, r, active);
      if RunsFor(last, r, active) {
        ShortenFirst(Candidates(before, r, active), last, k);
      }
      if FirstOfLatest(Candidates(before, r, active), Any(), k) {
        CandidatesFirst(before, r, active, k);
      }
      Unit(Candidates(before, r, active));
      assert forall x :: x in before && RunsOf(r, active)(x) ==> x in Candidates(before, r, active);
      ExtendFirst(before, last, RunsOf(r, active), k);
    }
  }

  lemma NoCandidates(r: Reviewer, active: Option<string>)
    ensures Candidates([], r, active) == []
  {}

  lemma CandidatesStep(keys: seq<RunKey>, r: Reviewer, active: Option<string>)
    requires keys != []
    ensures Candidates(keys, r, active)
         == Candidates(keys[..|keys| - 1], r, active) + (if RunsFor(Last(keys), r, active) then [Last(keys)] else [])
  {
    Unit(Candidates(keys[..|keys| - 1], r, active));
  }

  lemma {:induction false} OpenFirst(b: Book, keys: seq<RunKey>, r: Reviewer, active: Option<string>, k: RunKey)
    requires FirstOfLatest(OpenOnes(b, Candidates(keys, r, active)), Any(), k)
    ensures FirstOfLatest(keys, PendingRunsOf(b, r, active), k)
  {
    hide FirstOfLatest, Candidates, OpenOnes, Pending;
    if keys == [] {
      NoCandidates(r, active);
      FirstIsAmong(OpenOnes(b, Candidates(keys, r, active)), Any(), k);
    } else {
      var before, last := keys[..|keys| - 1], Last(keys);
      assert keys == before + [last];
      CandidatesStep(keys, r, active);
      Unit(Candidates(before, r, active));
      OpenStep(b, Candidates(before, r, active), last);
      PendingIsOpen(b, last);
      var open := OpenOnes(b, Candidates(before, r, active));
      Unit(open);
      if RunsFor(last, r, active) && Pending(b, last) {
        ShortenFirst(open, last, k);
      }
      if FirstOfLatest(open, Any(), k) {
        OpenFirst(b, before, r, active, k);
      }
      forall x | x in before ensures PendingRunsOf(b, r, active)(x) <==> x in open {
        PendingIsOpen(b, x);
      }
      ExtendFirst(before, last, PendingRunsOf(b, r, active), k);
    }
  }

  lemma PendingIsOpen(b: Book, k: RunKey)
    ensures IsOpen(b, k) <==> Pending(b, k)
  {}

  lemma OpenStep(b: Book, keys: seq<RunKey>, last: RunKey)
    ensures OpenOnes(b, keys + [last]) == OpenOnes(b, keys) + (if IsOpen(b, last) then [last] else [])
  {
    assert (keys + [last])[..|keys|] == keys;
    Unit(OpenOnes(b, keys));
  }

  /** Which run is current: the first in the register of those with the greatest attempt, among the pending runs of
      the reviewer when there are some, and otherwise among all of them. */
  lemma PickIff(b: Book, r: Reviewer, active: Option<string>)
    ensures match Pick(b, r, active)
            case None => forall k :: k in b.keys ==> !RunsFor(k, r, active)
            case Some(k) =>
              if exists x :: x in b.keys && RunsFor(x, r, active) && Pending(b, x)
              then FirstOfLatest(b.keys, PendingRunsOf(b, r, active), k)
              else FirstOfLatest(b.keys, RunsOf(r, active), k)
  {
    hide FirstOfLatest, Pending, OpenOnes, Candidates, LatestAttempt;
    var candidates := Candidates(b.keys, r, active);
    var open := OpenOnes(b, candidates);
    forall x ensures IsOpen(b, x) <==> Pending(b, x) {
      PendingIsOpen(b, x);
    }
    assert forall x :: x in candidates <==> x in b.keys && RunsFor(x, r, active);
    if open != [] {
      assert open[0] in open;
      LatestIsFirst(open);
      OpenFirst(b, b.keys, r, active, LatestAttempt(open));
    } else if candidates != [] {
      LatestIsFirst(candidates);
      CandidatesFirst(b.keys, r, active, LatestAttempt(candidates));
    }
  }
}
