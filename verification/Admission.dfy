/** Greedy admission of reviewers under a reviewer limit and a call limit, with counters carried from
    stage to stage. */
module Admission {
  import opened Text

  datatype Limits = Limits(maxReviewers: nat, maxLiveCalls: nat)

  datatype Split<T> = Split(retained: seq<T>, deferred: seq<T>, planned: nat)

  predicate Fits<T>(r: T, cost: T -> nat, limits: Limits, count: nat, planned: nat) {
    count < limits.maxReviewers && planned + cost(r) <= limits.maxLiveCalls
  }

  /** Reviewers in order, each kept when it still fits: `count` and `planned` are carried in from
      earlier stages, and the result's `planned` is what this stage adds. */
  function Admit<T>(rs: seq<T>, cost: T -> nat, limits: Limits, count: nat, planned: nat): (a: Split<T>)
    ensures |a.retained| + |a.deferred| == |rs|
  {
    if rs == [] then Split([], [], 0)
    else if Fits(rs[0], cost, limits, count, planned) then
      var rest := Admit(rs[1..], cost, limits, count + 1, planned + cost(rs[0]));
      Split([rs[0]] + rest.retained, rest.deferred, cost(rs[0]) + rest.planned)
    else
      var rest := Admit(rs[1..], cost, limits, count, planned);
      Split(rest.retained, [rs[0]] + rest.deferred, rest.planned)
  }

  lemma AdmitFirst<T>(rs: seq<T>, cost: T -> nat, limits: Limits, count: nat, planned: nat)
    requires rs != []
    ensures Admit(rs, cost, limits, count, planned)
         == if count < limits.maxReviewers && planned + cost(rs[0]) <= limits.maxLiveCalls then
              var rest := Admit(rs[1..], cost, limits, count + 1, planned + cost(rs[0]));
              Split([rs[0]] + rest.retained, rest.deferred, cost(rs[0]) + rest.planned)
            else
              var rest := Admit(rs[1..], cost, limits, count, planned);
              Split(rest.retained, [rs[0]] + rest.deferred, rest.planned)
  {}

  lemma AdmitNobody<T>(cost: T -> nat, limits: Limits, count: nat, planned: nat)
    ensures Admit([], cost, limits, count, planned) == Split([], [], 0)
  {}

  datatype DeferReason = ReviewerCountExceeded | LiveCallsExceeded

  /** The admission loop as written, with the reason for each deferral: call costs that no longer fit,
      and, once the last place is taken, the reviewer count for everybody after. */
  method ApplyReviewerBudget<T>(rs: seq<T>, cost: T -> nat, limits: Limits, count: nat, planned: nat)
    returns (a: Split<T>, reasons: seq<DeferReason>)
    ensures a == Admit(rs, cost, limits, count, planned)
    ensures |reasons| == |a.deferred|
    ensures forall i, j :: 0 <= i < j < |reasons| && reasons[i] == ReviewerCountExceeded ==>
              reasons[j] == ReviewerCountExceeded
    ensures ReviewerCountExceeded in reasons ==> count + |a.retained| >= limits.maxReviewers
    ensures forall i :: 0 <= i < |reasons| && reasons[i] == LiveCallsExceeded ==>
              planned + a.planned + cost(a.deferred[i]) > limits.maxLiveCalls
  {
    hide Admit;
    var retained: seq<T>, deferred: seq<T>, total := [], [], planned;
    reasons := [];
    assert rs[0..] == rs;
    Unit(Admit(rs, cost, limits, count, planned).retained);
    Unit(Admit(rs, cost, limits, count, planned).deferred);
    for i := 0 to |rs|
      invariant |reasons| == |deferred| && total >= planned
      invariant ReviewerCountExceeded in reasons ==> count + |retained| >= limits.maxReviewers
      invariant forall i, j :: 0 <= i < j < |reasons| && reasons[i] == ReviewerCountExceeded ==>
                reasons[j] == ReviewerCountExceeded
      invariant forall i :: 0 <= i < |reasons| && reasons[i] == LiveCallsExceeded ==>
                total + cost(deferred[i]) > limits.maxLiveCalls
      invariant var rest := Admit(rs[i..], cost, limits, count + |retained|, total);
        Admit(rs, cost, limits, count, planned)
        == Split(retained + rest.retained, deferred + rest.deferred, (total - planned) + rest.planned)
    {
      var r := rs[i];
      assert rs[i..][0] == r && rs[i..][1..] == rs[i + 1..];
      AdmitFirst(rs[i..], cost, limits, count + |retained|, total);
      if count + |retained| >= limits.maxReviewers {
        Assoc(deferred, [r], Admit(rs[i + 1..], cost, limits, count + |retained|, total).deferred);
        deferred := deferred + [r];
        reasons := reasons + [ReviewerCountExceeded];
        continue;
      }
      if total + cost(r) > limits.maxLiveCalls {
        Assoc(deferred, [r], Admit(rs[i + 1..], cost, limits, count + |retained|, total).deferred);
        deferred := deferred + [r];
        reasons := reasons + [LiveCallsExceeded];
        continue;
      }
      Assoc(retained, [r], Admit(rs[i + 1..], cost, limits, count + |retained| + 1, total + cost(r)).retained);
      retained := retained + [r];
      total := total + cost(r);
    }
    assert rs[|rs|..] == [];
    AdmitNobody(cost, limits, count + |retained|, total);
    Unit(retained);
    Unit(deferred);
    return Split(retained, deferred, total - planned), reasons;
  }

  function Cost<T>(rs: seq<T>, cost: T -> nat): nat {
    if rs == [] then 0 else cost(rs[0]) + Cost(rs[1..], cost)
  }

  /** xs with the elements of `kept` taken in order and the elements of `rest` in between. */
  ghost predicate Interleaves<T>(kept: seq<T>, rest: seq<T>, xs: seq<T>) {
    if xs == [] then kept == [] && rest == []
    else
      || (kept != [] && kept[0] == xs[0] && Interleaves(kept[1..], rest, xs[1..]))
      || (rest != [] && rest[0] == xs[0] && Interleaves(kept, rest[1..], xs[1..]))
  }

  lemma {:induction false} InterleavesKeepsAll<T>(kept: seq<T>, rest: seq<T>, xs: seq<T>)
    requires Interleaves(kept, rest, xs)
    ensures multiset(kept) + multiset(rest) == multiset(xs)
    decreases |xs|
  {
    if xs != [] {
      assert xs == [xs[0]] + xs[1..];
      if kept != [] && kept[0] == xs[0] && Interleaves(kept[1..], rest, xs[1..]) {
        assert kept == [kept[0]] + kept[1..];
        InterleavesKeepsAll(kept[1..], rest, xs[1..]);
      } else {
        assert rest == [rest[0]] + rest[1..];
        InterleavesKeepsAll(kept, rest[1..], xs[1..]);
      }
    }
  }

  /** Nobody is lost or doubled by admission. */
  lemma AdmissionKeepsAll<T>(rs: seq<T>, cost: T -> nat, limits: Limits, count: nat, planned: nat)
    ensures var a := Admit(rs, cost, limits, count, planned);
      multiset(a.retained) + multiset(a.deferred) == multiset(rs)
  {
    AdmissionSplits(rs, cost, limits, count, planned);
    InterleavesKeepsAll(Admit(rs, cost, limits, count, planned).retained,
                        Admit(rs, cost, limits, count, planned).deferred, rs);
  }

  /** Admission splits the selection in order, stays within both limits whatever was carried in, and
      plans exactly the cost of what it keeps. */
  lemma {:induction false} AdmissionSplits<T>(rs: seq<T>, cost: T -> nat, limits: Limits, count: nat, planned: nat)
    ensures var a := Admit(rs, cost, limits, count, planned);
      Interleaves(a.retained, a.deferred, rs)
      && a.planned == Cost(a.retained, cost)
      && (count <= limits.maxReviewers ==> count + |a.retained| <= limits.maxReviewers)
      && (planned <= limits.maxLiveCalls ==> planned + a.planned <= limits.maxLiveCalls)
  {
    if rs != [] {
      var a := Admit(rs, cost, limits, count, planned);
      if Fits(rs[0], cost, limits, count, planned) {
        AdmissionSplits(rs[1..], cost, limits, count + 1, planned + cost(rs[0]));
        assert a.retained[1..] == Admit(rs[1..], cost, limits, count + 1, planned + cost(rs[0])).retained;
      } else {
        AdmissionSplits(rs[1..], cost, limits, count, planned);
        assert a.deferred[1..] == Admit(rs[1..], cost, limits, count, planned).deferred;
      }
    }
  }

  /** Greedy: whoever is deferred did not fit after everybody kept before it. */
  lemma {:induction false} DeferredDidNotFit<T>(rs: seq<T>, cost: T -> nat, limits: Limits, count: nat,
          planned: nat, i: nat)
    requires i < |rs|
    ensures var before := Admit(rs[..i], cost, limits, count, planned);
      Admit(rs[..i + 1], cost, limits, count, planned)
      == (if Fits(rs[i], cost, limits, count + |before.retained|, planned + before.planned)
          then Split(before.retained + [rs[i]], before.deferred, before.planned + cost(rs[i]))
          else Split(before.retained, before.deferred + [rs[i]], before.planned))
  {
    hide Admit;
    AdmitFirst(rs[..i + 1], cost, limits, count, planned);
    if i == 0 {
      assert rs[..1] == [rs[0]] && rs[..0] == [] && [rs[0]][1..] == [];
      AdmitNobody(cost, limits, count, planned);
      AdmitNobody(cost, limits, count + 1, planned + cost(rs[0]));
    } else {
      AdmitFirst(rs[..i], cost, limits, count, planned);
      assert rs[..i + 1][1..] == rs[1..][..i] && rs[..i][1..] == rs[1..][..i - 1];
      if Fits(rs[0], cost, limits, count, planned) {
        DeferredDidNotFit(rs[1..], cost, limits, count + 1, planned + cost(rs[0]), i - 1);
      } else {
        DeferredDidNotFit(rs[1..], cost, limits, count, planned, i - 1);
      }
    }
  }

  /** Every reviewer costs the same. */
  function Flat<T>(n: nat): T -> nat { _ => n }

  lemma FlatCost<T>(rs: seq<T>, n: nat)
    ensures Cost(rs, Flat(n)) == n * |rs|
  {}

  /** Whoever is retained could be paid for alone. */
  lemma {:induction false} AdmissionCovers<T>(rs: seq<T>, n: nat, limits: Limits, count: nat, planned: nat)
    ensures Admit(rs, Flat(n), limits, count, planned).retained != [] ==> n <= limits.maxLiveCalls
  {
    if rs != [] {
      if Fits(rs[0], Flat(n), limits, count, planned) {
      } else {
        AdmissionCovers(rs[1..], n, limits, count, planned);
      }
    }
  }

  /** With room for everybody, everybody is retained. */
  lemma {:induction false} RoomForAll<T>(rs: seq<T>, n: nat, limits: Limits, count: nat, planned: nat)
    requires count + |rs| <= limits.maxReviewers && planned + n * |rs| <= limits.maxLiveCalls
    ensures Admit(rs, Flat(n), limits, count, planned) == Split(rs, [], n * |rs|)
  {
    if rs != [] {
      assert n * |rs| == n + n * |rs[1..]|;
      RoomForAll(rs[1..], n, limits, count + 1, planned + n);
    }
  }

  lemma DistinctCons<T>(x: T, rest: seq<T>)
    requires Distinct(rest) && x !in rest
    ensures Distinct([x] + rest)
  {
    assert forall i :: 0 <= i < |rest| ==> ([x] + rest)[i + 1] == rest[i];
  }

  lemma {:induction false} RetainedWereGiven<T>(rs: seq<T>, cost: T -> nat, limits: Limits, count: nat, planned: nat)
    ensures var a := Admit(rs, cost, limits, count, planned);
      forall r :: r in a.retained || r in a.deferred ==> r in rs
  {
    if rs != [] {
      var fits := Fits(rs[0], cost, limits, count, planned);
      var count', planned' := if fits then count + 1 else count, if fits then planned + cost(rs[0]) else planned;
      RetainedWereGiven(rs[1..], cost, limits, count', planned');
      var a, rest := Admit(rs, cost, limits, count, planned), Admit(rs[1..], cost, limits, count', planned');
      forall r | r in a.retained || r in a.deferred ensures r in rs {
        if r != rs[0] {
          assert r in rest.retained || r in rest.deferred;
          assert r in rs[1..];
        }
      }
    }
  }

  lemma {:induction false} RetainedAreDistinct<T>(rs: seq<T>, cost: T -> nat, limits: Limits, count: nat,
          planned: nat)
    requires Distinct(rs)
    ensures Distinct(Admit(rs, cost, limits, count, planned).retained)
  {
    hide Distinct, Fits;
    if rs != [] {
      var fits := Fits(rs[0], cost, limits, count, planned);
      var count', planned' := if fits then count + 1 else count, if fits then planned + cost(rs[0]) else planned;
      DistinctTail(rs);
      RetainedAreDistinct(rs[1..], cost, limits, count', planned');
      RetainedWereGiven(rs[1..], cost, limits, count', planned');
      DistinctCons(rs[0], Admit(rs[1..], cost, limits, count', planned').retained);
    }
  }

  lemma DistinctTail<T>(rs: seq<T>)
    requires rs != [] && Distinct(rs)
    ensures Distinct(rs[1..]) && rs[0] !in rs[1..]
  {
    assert forall i :: 0 <= i < |rs[1..]| ==> rs[1..][i] == rs[i + 1];
  }
}
