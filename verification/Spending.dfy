/** Live calls: a reservation ledger, a retry loop under a time cap, and what one reviewer can spend. */
module Spending {
  import opened Text
  import opened Stages

  // ----- reservations -----

  /** The stable key is the JSON of these fields, so the key itself stands for it. */
  datatype RunKey = RunKey(target: string, config: string, stage: Stage, reviewer: string,
                           attempt: nat, retryOf: Option<RunKey>, clarification: Option<string>)

  datatype Reservation = Reservation(runKey: RunKey, reservationKey: string, requestHash: string,
                                     requestBytes: nat, fingerprint: string)

  datatype Ledger = Ledger(reservations: seq<Reservation>)
  {
    function For(key: RunKey): (r: Option<Reservation>)
      ensures r.Some? ==> r.value in reservations && r.value.runKey == key
      ensures r.None? ==> forall x :: x in reservations ==> x.runKey != key
      decreases |reservations|
    {
      if reservations == [] then None
      else if reservations[0].runKey == key then Some(reservations[0])
      else Ledger(reservations[1..]).For(key)
    }

    function Reserve(r: Reservation): Ledger { Ledger(reservations + [r]) }
  }

  datatype Package = Package(requestHash: string, requestBytes: nat, fingerprint: string)

  /** `gate` is every check before the budget: adapter boundary, opt-in, provider, model and raw
      approvals. `reserve` hashes a run key and a request hash. */
  datatype Policy = Policy(gate: RunKey -> bool, reserve: (RunKey, string) -> string, maxLiveCalls: nat)

  datatype BlockReason = GateClosed | ReservationConflict | BudgetExceeded

  datatype Plan = Plan(key: RunKey, reservationKey: string, requestHash: string, requestBytes: nat,
                       fingerprint: string)

  datatype PolicyResult =
    Approved(ledger: Ledger, plan: Plan, isNew: bool) |
    Blocked(ledger: Ledger, reason: BlockReason)

  function Evaluate(p: Policy, pkg: Package, key: RunKey, ledger: Ledger): PolicyResult {
    if !p.gate(key) then Blocked(ledger, GateClosed)
    else
      var reservationKey := p.reserve(key, pkg.requestHash);
      var plan := Plan(key, reservationKey, pkg.requestHash, pkg.requestBytes, pkg.fingerprint);
      match ledger.For(key)
      case Some(existing) =>
        if existing.reservationKey != reservationKey then Blocked(ledger, ReservationConflict)
        else if existing.fingerprint != pkg.fingerprint then Blocked(ledger, ReservationConflict)
        else if |ledger.reservations| > p.maxLiveCalls then Blocked(ledger, BudgetExceeded)
        else Approved(ledger, plan, false)
      case None =>
        if |ledger.reservations| + 1 > p.maxLiveCalls then Blocked(ledger, BudgetExceeded)
        else
          var reservation := Reservation(key, reservationKey, pkg.requestHash, pkg.requestBytes, pkg.fingerprint);
          Approved(ledger.Reserve(reservation), plan, true)
  }

  /** The checks the adapter makes again before it calls the provider; failing one raises. */
  predicate AdapterAccepts(r: PolicyResult, pkg: Package, key: RunKey, current: Ledger) {
    r.Approved? && r.plan.key == key && r.plan.fingerprint == pkg.fingerprint
    && match current.For(key)
       case None => false
       case Some(x) => x.reservationKey == r.plan.reservationKey && x.fingerprint == r.plan.fingerprint
                       && x.requestHash == r.plan.requestHash && x.requestBytes == r.plan.requestBytes
  }

  /** The first reservation under a key. */
  predicate StandsFor(ledger: Ledger, key: RunKey, i: int) {
    0 <= i < |ledger.reservations| && ledger.reservations[i].runKey == key
    && forall j :: 0 <= j < i ==> ledger.reservations[j].runKey != key
  }

  lemma {:induction false} ForIsFirst(ledger: Ledger, key: RunKey) returns (i: nat)
    ensures ledger.For(key).Some? ==> StandsFor(ledger, key, i) && ledger.For(key).value == ledger.reservations[i]
    ensures forall j :: StandsFor(ledger, key, j) ==> ledger.For(key) == Some(ledger.reservations[j])
    decreases |ledger.reservations|
  {
    i := 0;
    if ledger.reservations != [] && ledger.reservations[0].runKey != key {
      var rest := Ledger(ledger.reservations[1..]);
      i := ForIsFirst(rest, key);
      i := i + 1;
      assert forall j :: 0 < j < |ledger.reservations| ==> ledger.reservations[j] == rest.reservations[j - 1];
      forall j | StandsFor(ledger, key, j) ensures ledger.For(key) == Some(ledger.reservations[j]) {
        assert StandsFor(rest, key, j - 1);
      }
    }
  }

  /** What is asked for a key and a package. */
  function Asked(p: Policy, pkg: Package, key: RunKey): Reservation {
    Reservation(key, p.reserve(key, pkg.requestHash), pkg.requestHash, pkg.requestBytes, pkg.fingerprint)
  }

  /** The policy's answer on any ledger. A key without a reservation gets one when the gate is open and there is room
      for one more; a key with one is approved again when it was reserved for the same request and package and the
      ledger is within the limit. Nothing is approved beyond the limit, and nothing else changes the ledger. */
  lemma PolicyDecides(p: Policy, pkg: Package, key: RunKey, ledger: Ledger)
    ensures var r, n := Evaluate(p, pkg, key, ledger), |ledger.reservations|;
      && (r.Approved? ==> |r.ledger.reservations| <= p.maxLiveCalls)
      && (r.Approved? ==> p.gate(key) && r.plan == PlanFor(Asked(p, pkg, key)))
      && (r.Blocked? ==> r.ledger == ledger && (r.reason == GateClosed <==> !p.gate(key)))
      && (p.gate(key) && (forall x :: x in ledger.reservations ==> x.runKey != key) ==>
            if n < p.maxLiveCalls then
              r.Approved? && r.isNew && r.ledger == Ledger(ledger.reservations + [Asked(p, pkg, key)])
            else r == Blocked(ledger, BudgetExceeded))
      && (p.gate(key) ==> forall i :: StandsFor(ledger, key, i) ==>
            var x := ledger.reservations[i];
            if x.reservationKey != p.reserve(key, pkg.requestHash) || x.fingerprint != pkg.fingerprint
            then r == Blocked(ledger, ReservationConflict)
            else if n > p.maxLiveCalls then r == Blocked(ledger, BudgetExceeded)
            else r.Approved? && !r.isNew && r.ledger == ledger)
  {
    var i := ForIsFirst(ledger, key);
  }

  function PlanFor(x: Reservation): Plan {
    Plan(x.runKey, x.reservationKey, x.requestHash, x.requestBytes, x.fingerprint)
  }

  /** The adapter calls the provider only with an approval of this key and package, whose plan is that of the first
      reservation in the ledger as it is now. */
  lemma AdapterAcceptsIff(r: PolicyResult, pkg: Package, key: RunKey, current: Ledger)
    ensures AdapterAccepts(r, pkg, key, current) <==>
              && r.Approved? && r.plan.key == key && r.plan.fingerprint == pkg.fingerprint
              && exists i :: StandsFor(current, key, i) && r.plan == PlanFor(current.reservations[i])
  {
    var i := ForIsFirst(current, key);
  }

  // ----- attempts under a time cap -----

  /** The runner's formula for what a reviewer may cost; None is the configuration error. */
  function PlannedAttempts(maxAttempts: nat, timeout: nat, total: nat): Option<nat>
    requires timeout > 0
  {
    if total < timeout then None
    else
      var capped := if maxAttempts < total / timeout then maxAttempts else total / timeout;
      Some(if capped > 1 then capped else 1)
  }

  /** The retry loop's own formula. */
  function AllowedAttempts(maxAttempts: nat, timeout: nat, total: nat): nat
    requires timeout > 0
  {
    if maxAttempts < total / timeout then maxAttempts else total / timeout
  }

  predicate Fits(attempts: nat, timeout: nat, total: nat) { attempts * timeout <= total }

  /** As many attempts as are allowed and fit in the total time. */
  predicate MostThatFit(n: nat, maxAttempts: nat, timeout: nat, total: nat) {
    n <= maxAttempts && Fits(n, timeout, total) && (n == maxAttempts || !Fits(n + 1, timeout, total))
  }

  /** The two formulas agree, allow at least one attempt, and as many as fit in the total time: no other number
      is the most. */
  lemma {:induction false} AttemptsFitTheTime(maxAttempts: nat, timeout: nat, total: nat)
    requires maxAttempts > 0 && timeout > 0 && total >= timeout
    ensures var n := AllowedAttempts(maxAttempts, timeout, total);
      && PlannedAttempts(maxAttempts, timeout, total) == Some(n) && 1 <= n <= maxAttempts
      && Fits(n, timeout, total)
      && (forall k: nat :: k <= maxAttempts && Fits(k, timeout, total) ==> k <= n)
    ensures forall n: nat :: MostThatFit(n, maxAttempts, timeout, total) <==>
              n == AllowedAttempts(maxAttempts, timeout, total)
  {
    hide Fits;
    var q := total / timeout;
    forall n: nat ensures Fits(n, timeout, total) <==> n <= q {
      FitsUpTo(n, timeout, total);
    }
    FitsUpTo(1, timeout, total);
    FitsOnce(timeout, total);
  }

  /** The runner's formula is refused exactly when no attempt fits, and counts one attempt at least. */
  lemma PlannedAtLeastOne(maxAttempts: nat, timeout: nat, total: nat)
    requires timeout > 0
    ensures PlannedAttempts(maxAttempts, timeout, total) == None <==> !Fits(1, timeout, total)
    ensures Fits(1, timeout, total) && maxAttempts <= 1 ==> PlannedAttempts(maxAttempts, timeout, total) == Some(1)
  {
    if total >= timeout {
      FitsUpTo(1, timeout, total);
    }
  }

  lemma FitsOnce(timeout: nat, total: nat)
    requires total >= timeout
    ensures Fits(1, timeout, total)
  {}

  lemma FitsUpTo(n: nat, timeout: nat, total: nat)
    requires timeout > 0
    ensures Fits(n, timeout, total) <==> n <= total / timeout
  {
    var q := total / timeout;
    if n <= q {
      Monotone(n, q, timeout);
    } else {
      Monotone(q + 1, n, timeout);
    }
  }

  lemma Monotone(a: nat, b: nat, c: nat)
    requires a <= b
    ensures a * c <= b * c
  {}

  datatype Reply = Done | Retryable | FinalFailure

  /** The reply to the n-th provider call of the run. */
  type Provider = nat -> Reply

  datatype Attempt = Attempt(key: RunKey, result: PolicyResult)

  datatype Spend = Spend(ledger: Ledger, calls: nat, attempts: seq<Attempt>, crashed: bool)

  function AttemptKey(first: RunKey, k: nat): RunKey {
    first.(attempt := k, retryOf := if k == 1 then None else Some(first))
  }

  /** Attempts are told apart by their numbers, and every one but the first names the run that it retries. */
  lemma AttemptsAreNamed(first: RunKey, j: nat, k: nat)
    ensures AttemptKey(first, j) == AttemptKey(first, k) <==> j == k
    ensures var key := AttemptKey(first, k);
      && key.attempt == k && (if k == 1 then key.retryOf == None else key.retryOf == Some(first))
      && key.target == first.target && key.config == first.config && key.stage == first.stage
      && key.reviewer == first.reviewer && key.clarification == first.clarification
  {}

  /** Attempts k to limit of one reviewer. */
  function Tries(p: Policy, pkg: Package, first: RunKey, provider: Provider, k: nat, limit: nat, s: Spend): Spend
    decreases limit + 1 - k
  {
    if k > limit then s
    else
      var key := AttemptKey(first, k);
      var r := Evaluate(p, pkg, key, s.ledger);
      var tried := s.(ledger := r.ledger, attempts := s.attempts + [Attempt(key, r)]);
      if r.Blocked? then tried
      else if !AdapterAccepts(r, pkg, key, r.ledger) then tried.(crashed := true)
      else
        var called := tried.(calls := s.calls + 1);
        if provider(s.calls) == Retryable && k < limit
        then Tries(p, pkg, first, provider, k + 1, limit, called)
        else called
  }

  /** An attempt that is blocked ends the run without a call, and one that the adapter refuses crashes it. */
  lemma RefusedAttemptEnds(p: Policy, pkg: Package, first: RunKey, provider: Provider, k: nat, limit: nat, s: Spend)
    requires k <= limit
    ensures var key := AttemptKey(first, k);
      var r, end := Evaluate(p, pkg, key, s.ledger), Tries(p, pkg, first, provider, k, limit, s);
      (r.Blocked? || !AdapterAccepts(r, pkg, key, r.ledger)) ==>
        end == Spend(r.ledger, s.calls, s.attempts + [Attempt(key, r)], s.crashed || r.Approved?)
  {
    hide Evaluate, AdapterAccepts, AttemptKey;
  }

  /** The retry loop as written. None stands for the errors raised before any attempt. */
  method RunWithRetries(p: Policy, pkg: Package, first: RunKey, provider: Provider,
                        maxAttempts: nat, timeout: nat, total: nat, s: Spend) returns (r: Option<Spend>)
    ensures r.None? <==> maxAttempts == 0 || timeout == 0 || total < timeout
                         || p.maxLiveCalls < AllowedAttempts(maxAttempts, timeout, total)
    ensures r.Some? ==> r.value == Tries(p, pkg, first, provider, 1, AllowedAttempts(maxAttempts, timeout, total), s)
    ensures r.Some? && Unhindered(p, pkg, first, s) ==>
              forall n: nat :: MostThatFit(n, maxAttempts, timeout, total)
                               && |s.ledger.reservations| + n <= p.maxLiveCalls ==>
                RetriedUntil(provider, s.calls, r.value.calls - s.calls, n)
  {
    hide Evaluate, AdapterAccepts, MostThatFit, RetriedUntil, Unhindered;
    if maxAttempts == 0 || timeout == 0 || total < timeout {
      return None;
    }
    var limit := if maxAttempts < total / timeout then maxAttempts else total / timeout;
    if p.maxLiveCalls < limit {
      return None;
    }
    RunMakesCalls(p, pkg, first, provider, maxAttempts, timeout, total, s);
    var current, calls, attempts := s.ledger, s.calls, s.attempts;
    for attempt := 1 to limit + 1
      invariant Tries(p, pkg, first, provider, attempt, limit, Spend(current, calls, attempts, s.crashed))
             == Tries(p, pkg, first, provider, 1, limit, s)
    {
      var key := AttemptKey(first, attempt);
      var result := Evaluate(p, pkg, key, current);
      current := result.ledger;
      attempts := attempts + [Attempt(key, result)];
      if result.Blocked? {
        return Some(Spend(current, calls, attempts, s.crashed));
      }
      if !AdapterAccepts(result, pkg, key, current) {
        return Some(Spend(current, calls, attempts, true));
      }
      var reply := provider(calls);
      calls := calls + 1;
      if reply != Retryable || attempt == limit {
        return Some(Spend(current, calls, attempts, s.crashed));
      }
    }
    return Some(Spend(current, calls, attempts, s.crashed));
  }

  /** Attempts numbered from `k` without gaps, where every one but the last was approved, called the
      provider and got a reply that may be retried. */
  ghost predicate Follows(provider: Provider, first: RunKey, k: nat, calls: nat, trail: seq<Attempt>) {
    forall i :: 0 <= i < |trail| ==>
      trail[i].key == AttemptKey(first, k + i)
      && (i < |trail| - 1 ==> trail[i].result.Approved? && provider(calls + i) == Retryable)
  }

  lemma FollowsCons(provider: Provider, first: RunKey, k: nat, calls: nat, x: Attempt, rest: seq<Attempt>)
    requires Follows(provider, first, k + 1, calls + 1, rest)
    requires x.key == AttemptKey(first, k) && x.result.Approved? && provider(calls) == Retryable
    ensures Follows(provider, first, k, calls, [x] + rest)
  {
    hide AttemptKey;
    var trail := [x] + rest;
    forall i | 0 < i < |trail|
      ensures trail[i].key == AttemptKey(first, k + i)
      ensures i < |trail| - 1 ==> trail[i].result.Approved? && provider(calls + i) == Retryable
    {
      assert trail[i] == rest[i - 1] && (k + 1) + (i - 1) == k + i && (calls + 1) + (i - 1) == calls + i;
    }
  }

  /** The attempts of one reviewer are numbered without gaps; a retry follows only an approved call
      whose reply could be retried, and such a reply ends the attempts only at the cap. */
  lemma {:induction false} RetriesFollowRetryable(p: Policy, pkg: Package, first: RunKey, provider: Provider,
                                                  k: nat, limit: nat, s: Spend) returns (trail: seq<Attempt>)
    requires 1 <= k <= limit
    ensures var end := Tries(p, pkg, first, provider, k, limit, s);
      && end.attempts == s.attempts + trail && Follows(provider, first, k, s.calls, trail)
      && 1 <= |trail| <= limit + 1 - k && s.calls + |trail| - 1 <= end.calls <= s.calls + |trail|
      && (end.calls == s.calls + |trail| && |trail| < limit + 1 - k ==> provider(end.calls - 1) != Retryable)
    decreases limit - k
  {
    hide Evaluate, AdapterAccepts, AttemptKey, Follows;
    var key := AttemptKey(first, k);
    var r := Evaluate(p, pkg, key, s.ledger);
    trail := [Attempt(key, r)];
    if r.Approved? && AdapterAccepts(r, pkg, key, r.ledger) && provider(s.calls) == Retryable && k < limit {
      var called := Spend(r.ledger, s.calls + 1, s.attempts + trail, s.crashed);
      var rest := RetriesFollowRetryable(p, pkg, first, provider, k + 1, limit, called);
      FollowsCons(provider, first, k, s.calls, trail[0], rest);
      Assoc(s.attempts, trail, rest);
      trail := trail + rest;
    } else {
      FollowsAlone(provider, first, k, s.calls, trail[0]);
    }
  }

  lemma FollowsAlone(provider: Provider, first: RunKey, k: nat, calls: nat, x: Attempt)
    requires x.key == AttemptKey(first, k)
    ensures Follows(provider, first, k, calls, [x])
  {}

  // ----- what one reviewer spends -----

  /** The first attempt of the reviewer run a key belongs to. */
  function Owner(key: RunKey): RunKey { key.(attempt := 1, retryOf := None) }

  /** What is sent for a reviewer run: the same package for all its attempts. */
  type Packages = RunKey -> Package

  ghost predicate DistinctKeys(ledger: Ledger) {
    forall i, j :: 0 <= i < j < |ledger.reservations| ==>
        ledger.reservations[i].runKey != ledger.reservations[j].runKey
  }

  predicate Reserved(ledger: Ledger, key: RunKey) { ledger.For(key).Some? }

  /** Every reservation is the one that a new attempt under its key would ask for. */
  ghost predicate Fitting(p: Policy, packages: Packages, ledger: Ledger) {
    forall x :: x in ledger.reservations ==>
      var pkg := packages(Owner(x.runKey));
      x == Reservation(x.runKey, p.reserve(x.runKey, pkg.requestHash), pkg.requestHash, pkg.requestBytes,
          pkg.fingerprint)
  }

  /** No attempt was ever stopped by the budget or by a reservation of somebody else. */
  ghost predicate NeverShort(attempts: seq<Attempt>) {
    forall a :: a in attempts && a.result.Blocked? ==> a.result.reason == GateClosed
  }

  /** The books of a run: distinct reservations, a call for each of them, and no attempt refused or
      crashed for a reason of bookkeeping. */
  ghost predicate Books(p: Policy, packages: Packages, s: Spend) {
    DistinctKeys(s.ledger) && Fitting(p, packages, s.ledger) && NeverShort(s.attempts) && !s.crashed
    && |s.ledger.reservations| <= s.calls
  }

  /** Calls that no reservation was made for. */
  function Unreserved(s: Spend): int { s.calls - |s.ledger.reservations| }

  lemma {:induction false} AfterReserve(before: Ledger, x: Reservation, key: RunKey)
    requires !Reserved(before, x.runKey)
    ensures before.Reserve(x).For(key) == if key == x.runKey then Some(x) else before.For(key)
    decreases |before.reservations|
  {
    var after := before.Reserve(x);
    if before.reservations == [] {
      assert after.reservations[0] == x && after.reservations[1..] == [];
    } else {
      assert after.reservations[0] == before.reservations[0];
      assert after.reservations[1..] == before.reservations[1..] + [x];
      AfterReserve(Ledger(before.reservations[1..]), x, key);
    }
  }

  /** One attempt while there is room: it is approved exactly when the gate is open, makes a
      reservation exactly when its key has none, and the adapter accepts it. */
  lemma AttemptKeepsBooks(p: Policy, packages: Packages, key: RunKey, s: Spend)
    requires Books(p, packages, s) && |s.ledger.reservations| < p.maxLiveCalls
    ensures var r := Evaluate(p, packages(Owner(key)), key, s.ledger);
      var tried := s.(ledger := r.ledger, attempts := s.attempts + [Attempt(key, r)]);
      && (r.Approved? <==> p.gate(key))
      && (forall k :: Reserved(r.ledger, k) <==> Reserved(s.ledger, k) || (k == key && r.Approved?))
      && (if r.Approved? then
            && AdapterAccepts(r, packages(Owner(key)), key, r.ledger)
                && Books(p, packages, tried.(calls := s.calls + 1))
            && |r.ledger.reservations| == |s.ledger.reservations| + (if Reserved(s.ledger, key) then 0 else 1)
          else r.ledger == s.ledger && Books(p, packages, tried))
  {
    hide Owner;
    var pkg := packages(Owner(key));
    var r := Evaluate(p, pkg, key, s.ledger);
    var x := Reservation(key, p.reserve(key, pkg.requestHash), pkg.requestHash, pkg.requestBytes, pkg.fingerprint);
    if Reserved(s.ledger, key) {
      assert s.ledger.For(key).value == x;
    } else if p.gate(key) {
      assert r.ledger == s.ledger.Reserve(x);
      forall k ensures r.ledger.For(k) == if k == key then Some(x) else s.ledger.For(k) {
        AfterReserve(s.ledger, x, k);
      }
    }
  }

  lemma OwnerOfAttempt(initial: RunKey, k: nat)
    ensures Owner(AttemptKey(initial, k)) == Owner(initial) && AttemptKey(initial, k).attempt == k
    ensures AttemptKey(initial, 1) == Owner(initial)
  {}

  /** No reservation yet for attempt k of this reviewer run or a later one. */
  ghost predicate OnlyEarlier(ledger: Ledger, owner: RunKey, k: nat) {
    forall key :: Reserved(ledger, key) && Owner(key) == owner ==> key.attempt < k
  }

  /** All attempts of a reviewer keep the books and take no more than was planned for them; without
      earlier reservations they make one reservation a call. */
  lemma {:induction false} TriesKeepBooks(p: Policy, packages: Packages, initial: RunKey, provider: Provider,
                                          k: nat, limit: nat, s: Spend)
    requires Books(p, packages, s) && 1 <= k <= limit + 1
    requires |s.ledger.reservations| + (limit + 1 - k) <= p.maxLiveCalls
    ensures var end := Tries(p, packages(Owner(initial)), initial, provider, k, limit, s);
      && Books(p, packages, end) && Unreserved(s) <= Unreserved(end)
      && s.calls <= end.calls <= s.calls + (limit + 1 - k)
      && |end.ledger.reservations| <= |s.ledger.reservations| + (limit + 1 - k)
      && (forall key :: Reserved(s.ledger, key) ==> Reserved(end.ledger, key))
      && (forall key :: Reserved(end.ledger, key) ==> Reserved(s.ledger, key) || Owner(key) == Owner(initial))
      && (OnlyEarlier(s.ledger, Owner(initial), k) ==> Unreserved(end) == Unreserved(s))
    decreases limit + 1 - k
  {
    hide Evaluate, AdapterAccepts, Books, AttemptKey, Owner, Reserved;
    if k <= limit {
      var key := AttemptKey(initial, k);
      OwnerOfAttempt(initial, k);
      AttemptKeepsBooks(p, packages, key, s);
      var r := Evaluate(p, packages(Owner(initial)), key, s.ledger);
      if r.Approved? && provider(s.calls) == Retryable && k < limit {
        var called := Spend(r.ledger, s.calls + 1, s.attempts + [Attempt(key, r)], s.crashed);
        TriesKeepBooks(p, packages, initial, provider, k + 1, limit, called);
      }
    }
  }

  /** The replies to a reviewer's calls: all but the last may be retried, and so may the last only at the cap. */
  ghost predicate RetriedUntil(provider: Provider, calls: nat, made: int, limit: nat) {
    1 <= made <= limit
    && (forall i :: calls <= i < calls + made - 1 ==> provider(i) == Retryable)
    && (made == limit || provider(calls + made - 1) != Retryable)
  }

  /** With open gates and room, the calls go on exactly until a reply that may not be retried, or the cap. */
  lemma {:induction false} RetriesGoOn(p: Policy, packages: Packages, initial: RunKey, provider: Provider, k: nat,
                                       limit: nat, s: Spend)
    requires Books(p, packages, s) && 1 <= k <= limit && |s.ledger.reservations| + (limit + 1 - k) <= p.maxLiveCalls
    requires forall i :: k <= i <= limit ==> p.gate(AttemptKey(initial, i))
    ensures var end := Tries(p, packages(Owner(initial)), initial, provider, k, limit, s);
      s.calls < end.calls && RetriedUntil(provider, s.calls, end.calls - s.calls, limit + 1 - k)
    decreases limit - k
  {
    hide Evaluate, AdapterAccepts, Books, AttemptKey, Owner, Reserved;
    var key := AttemptKey(initial, k);
    OwnerOfAttempt(initial, k);
    AttemptKeepsBooks(p, packages, key, s);
    if provider(s.calls) == Retryable && k < limit {
      var r := Evaluate(p, packages(Owner(initial)), key, s.ledger);
      var called := Spend(r.ledger, s.calls + 1, s.attempts + [Attempt(key, r)], s.crashed);
      RetriesGoOn(p, packages, initial, provider, k + 1, limit, called);
    }
  }

  /** Open gates for all attempts, and books in order that know what is sent. */
  ghost predicate Unhindered(p: Policy, pkg: Package, first: RunKey, s: Spend) {
    (forall k :: p.gate(AttemptKey(first, k)))
    && exists packages: Packages :: packages(Owner(first)) == pkg && Books(p, packages, s)
  }

  /** The calls of a whole reviewer run: as many as fit the limits, unless a reply ends them before. */
  lemma RunMakesCalls(p: Policy, pkg: Package, first: RunKey, provider: Provider, maxAttempts: nat, timeout: nat,
                      total: nat, s: Spend)
    requires maxAttempts > 0 && timeout > 0 && total >= timeout
    ensures var end := Tries(p, pkg, first, provider, 1, AllowedAttempts(maxAttempts, timeout, total), s);
      Unhindered(p, pkg, first, s) ==>
        forall n: nat :: MostThatFit(n, maxAttempts, timeout, total)
                         && |s.ledger.reservations| + n <= p.maxLiveCalls ==>
          RetriedUntil(provider, s.calls, end.calls - s.calls, n)
  {
    hide AllowedAttempts, MostThatFit, Tries, RetriedUntil, Books, AttemptKey;
    AttemptsFitTheTime(maxAttempts, timeout, total);
    var limit := AllowedAttempts(maxAttempts, timeout, total);
    if Unhindered(p, pkg, first, s) && |s.ledger.reservations| + limit <= p.maxLiveCalls {
      var packages: Packages :| packages(Owner(first)) == pkg && Books(p, packages, s);
      RetriesGoOn(p, packages, first, provider, 1, limit, s);
    }
  }

  /** What the ledger says about the reviewer runs begun so far. */
  ghost predicate Accounted(p: Policy, ledger: Ledger, begun: seq<RunKey>) {
    (forall key :: Reserved(ledger, key) ==> Owner(key) in begun)
    && (forall first :: first in begun && p.gate(first) ==> Reserved(ledger, first))
  }

  /** Running a reviewer calls the provider without a reservation exactly when the same run was begun
      before and its gate is open. */
  lemma {:induction false} UnreservedIffBegunAgain(p: Policy, packages: Packages, initial: RunKey, provider: Provider,
                                                   limit: nat, s: Spend, begun: seq<RunKey>)
    requires Books(p, packages, s) && Accounted(p, s.ledger, begun)
    requires 1 <= limit && |s.ledger.reservations| + limit <= p.maxLiveCalls
    ensures var end, first := Tries(p, packages(Owner(initial)), initial, provider, 1, limit, s), Owner(initial);
      && Accounted(p, end.ledger, begun + [first])
      && Unreserved(s) <= Unreserved(end)
      && (Unreserved(s) < Unreserved(end) <==> first in begun && p.gate(first))
  {
    hide Evaluate, AdapterAccepts, Books, AttemptKey, Owner, Reserved;
    var first := Owner(initial);
    var r := Evaluate(p, packages(first), first, s.ledger);
    var end := Tries(p, packages(first), initial, provider, 1, limit, s);
    OwnerOfAttempt(initial, 1);
    OwnerOfOwner(initial);
    AttemptKeepsBooks(p, packages, first, s);
    TriesKeepBooks(p, packages, initial, provider, 1, limit, s);
    if p.gate(first) {
      var called := Spend(r.ledger, s.calls + 1, s.attempts + [Attempt(first, r)], s.crashed);
      if provider(s.calls) == Retryable && 1 < limit {
        TriesKeepBooks(p, packages, initial, provider, 2, limit, called);
        assert end == Tries(p, packages(first), initial, provider, 2, limit, called);
      } else {
        assert end == called;
      }
      assert Reserved(end.ledger, first);
    }
  }

  lemma OwnerOfOwner(key: RunKey)
    ensures Owner(Owner(key)) == Owner(key)
  {}
}
