/** A live run: the visits of the review loop, the reviewers each visit selects and registers, what the
    budget admits of them, and the calls they make. */
module LiveRun {
  import opened Text
  import opened Stages
  import opened ReviewLoop
  import opened Visiting
  import opened Spending
  import opened Admission
  import opened ReviewerRuns
  import Payload

  // ----- selection -----

  datatype Config = Config(policy: Policy, maxReviewers: nat, maxAttempts: nat, timeout: nat, total: nat)

  /** The configured agents, which of them a stage triggers, whom a clarification resumes, what is sent,
      and what status a run is given when it ends. */
  datatype Setup = Setup(
    target: string, hash: string, agents: seq<string>, triggered: (Stage, string) -> bool,
    targets: string -> seq<string>, packages: Packages, notes: (RunKey, nat) -> Status, live: Config)

  ghost predicate ValidSetup(c: Setup) {
    Distinct(c.agents) && c.live.maxAttempts > 0 && c.live.timeout > 0 && c.live.total >= c.live.timeout
  }

  function PerReviewer(c: Config): nat
    requires c.timeout > 0
  {
    AllowedAttempts(c.maxAttempts, c.timeout, c.total)
  }

  function Triggered(c: Setup, stage: Stage, names: seq<string>): seq<Reviewer> {
    if names == [] then []
    else (if c.triggered(stage, names[0]) then [Reviewer(names[0], stage)] else []) + Triggered(c, stage, names[1..])
  }

  function Resumed(names: seq<string>): (rs: seq<Reviewer>)
    ensures |rs| == |names| && forall i :: 0 <= i < |rs| ==> rs[i] == Reviewer(names[i], ClarificationReview)
  {
    if names == [] then [] else [Reviewer(names[0], ClarificationReview)] + Resumed(names[1..])
  }

  /** Whom a visit selects before it looks at earlier runs; None is the error of a clarification
      without targets or with one that is not configured. */
  function Roster(c: Setup, v: Visit): Option<seq<Reviewer>> {
    match v
    case OfStage(stage) => Some(Triggered(c, stage, Payload.Sort(c.agents)))
    case OfClarification(id) =>
      if c.targets(id) == [] || exists i :: 0 <= i < |c.targets(id)| && c.targets(id)[i] !in c.agents then None
      else Some(Resumed(c.targets(id)))
  }

  /** Registration drops whoever has a final status already. */
  function RegisterAll(b: Book, rs: seq<Reviewer>, active: Option<string>): (Book, seq<Reviewer>)
    decreases |rs|
  {
    if rs == [] then (b, [])
    else
      var (next, key) := Register(b, rs[0], active);
      var (end, rest) := RegisterAll(next, rs[1..], active);
      (end, if key == None then rest else [rs[0]] + rest)
  }

  // ----- a visit -----

  const RUNNING := Status(IsRunning, "live LLM reviewer execution started")
  const DEFERRED := Status(IsSkipped, "skipped by context budget before execution")

  /** `begun` lists the run keys that reviewers were started with; `stopped` is an error that ends the run. */
  datatype Live = Live(book: Book, spend: Spend, retained: nat, planned: nat, begun: seq<RunKey>, stopped: bool)

  function Fresh(c: Setup): Live {
    Live(Book(c.target, c.hash, [], map[], []), Spend(Ledger([]), 0, [], false), 0, 0, [], false)
  }

  /** None is the error that the register has no run for a reviewer. */
  function DeferAll(b: Book, rs: seq<Reviewer>, active: Option<string>): Option<Book>
    decreases |rs|
  {
    if rs == [] then Some(b)
    else match Pick(b, rs[0], active)
      case None => None
      case Some(key) => DeferAll(Record(b, key, DEFERRED), rs[1..], active)
  }

  function RecordAttempts(b: Book, attempts: seq<Attempt>, notes: (RunKey, nat) -> Status, n: nat): Book
    decreases |attempts|
  {
    if attempts == [] then b
    else RecordAttempts(Record(b, attempts[0].key, notes(attempts[0].key, n)), attempts[1..], notes, n + 1)
  }

  function Since<T>(before: seq<T>, now: seq<T>): seq<T> {
    if |before| <= |now| then now[|before|..] else []
  }

  /** One retained reviewer: mark its run as running, call with retries, and record every attempt. */
  function RunReviewer(c: Setup, provider: Provider, r: Reviewer, active: Option<string>, st: Live): Live
    requires c.live.timeout > 0
  {
    match Pick(st.book, r, active)
    case None => st.(stopped := true)
    case Some(key) =>
      var running := Record(st.book, key, RUNNING);
      match Pick(running, r, active)
      case None => st.(stopped := true)
      case Some(initial) =>
        var spend := Tries(c.live.policy, c.packages(Owner(initial)), initial, provider, 1, PerReviewer(c.live),
            st.spend);
        var recorded := RecordAttempts(running, Since(st.spend.attempts, spend.attempts), c.notes, st.spend.calls);
        match Pick(recorded, r, active)
        case None => st.(stopped := true)
        case Some(last) =>
          st.(book := Record(recorded, last, c.notes(last, spend.calls)), spend := spend,
              begun := st.begun + [initial], stopped := spend.crashed)
  }

  function RunReviewers(c: Setup, provider: Provider, rs: seq<Reviewer>, active: Option<string>, st: Live): Live
    requires c.live.timeout > 0
    decreases |rs|
  {
    if rs == [] || st.stopped then st
    else RunReviewers(c, provider, rs[1..], active, RunReviewer(c, provider, rs[0], active, st))
  }

  function LimitsOf(c: Config): Limits { Limits(c.maxReviewers, c.policy.maxLiveCalls) }

  /** An error in the middle of a visit cuts its reviewers short. */
  function Cut<T>(xs: seq<T>, cut: Option<nat>): seq<T> {
    if cut.Some? && cut.value < |xs| then xs[..cut.value] else xs
  }

  function LiveVisit(c: Setup, provider: Provider, v: Visit, cut: Option<nat>, st: Live): Live
    requires c.live.timeout > 0
  {
    match Roster(c, v)
    case None => st.(stopped := true)
    case Some(rs) =>
      var (registered, chosen) := RegisterAll(st.book, rs, ActiveOf(v));
      var a := Admit(chosen, Flat(PerReviewer(c.live)), LimitsOf(c.live), st.retained, st.planned);
      match DeferAll(registered, a.deferred, ActiveOf(v))
      case None => st.(stopped := true)
      case Some(book) =>
        var ready := st.(book := book, retained := st.retained + |a.retained|, planned := st.planned + a.planned);
        if v == OfStage(InitialTriage) && chosen == [] then ready.(stopped := true)
        else RunReviewers(c, provider, Cut(a.retained, cut), ActiveOf(v), ready)
  }

  /** All visits of a run; only the last one can have been cut short. */
  function LiveVisits(c: Setup, provider: Provider, visits: seq<Visit>, cut: Option<nat>, st: Live): Live
    requires c.live.timeout > 0
    decreases |visits|
  {
    if visits == [] || st.stopped then st
    else
      var at := if |visits| == 1 then cut else None;
      LiveVisits(c, provider, visits[1..], cut, LiveVisit(c, provider, visits[0], at, st))
  }

  // ----- what is planned, from the selections and the limits alone -----

  function KeyOf(c: Setup, r: Reviewer, active: Option<string>): RunKey {
    RunKey(c.target, c.hash, r.stage, r.name, 1, None, active)
  }

  function KeysOf(c: Setup, rs: seq<Reviewer>, active: Option<string>): (keys: seq<RunKey>)
    ensures |keys| == |rs| && forall i :: 0 <= i < |rs| ==> keys[i] == KeyOf(c, rs[i], active)
  {
    if rs == [] then [] else [KeyOf(c, rs[0], active)] + KeysOf(c, rs[1..], active)
  }

  /** Whom a visit runs and whom it defers; None when selection ends the run. */
  function PlanOf(c: Setup, v: Visit, count: nat, planned: nat): Option<Split<Reviewer>>
    requires c.live.timeout > 0
  {
    match Roster(c, v)
    case None => None
    case Some(rs) =>
      if v == OfStage(InitialTriage) && rs == [] then None
      else Some(Admit(rs, Flat(PerReviewer(c.live)), LimitsOf(c.live), count, planned))
  }

  /** The runs that the visits plan, with the counters carried along: no reply and no status matters. */
  function Planned(c: Setup, visits: seq<Visit>, cut: Option<nat>, count: nat, planned: nat): seq<RunKey>
    requires c.live.timeout > 0
    decreases |visits|
  {
    if visits == [] then []
    else match PlanOf(c, visits[0], count, planned)
      case None => []
      case Some(a) =>
        KeysOf(c, Cut(a.retained, if |visits| == 1 then cut else None), ActiveOf(visits[0]))
        + Planned(c, visits[1..], cut, count + |a.retained|, planned + a.planned)
  }

  /** No run is begun twice unless its gate is closed. */
  ghost predicate NoOpenRepeat(p: Policy, keys: seq<RunKey>) {
    forall i, j :: 0 <= i < j < |keys| && keys[i] == keys[j] ==> !p.gate(keys[i])
  }

  // ----- the register during a visit -----

  /** The visit that a run belongs to. */
  function HomeOf(key: RunKey): Visit {
    if key.clarification.Some? then OfClarification(key.clarification.value) else OfStage(key.stage)
  }

  /** Every run is of this target and configuration and belongs to a visit seen so far. */
  ghost predicate Filed(b: Book, seen: set<Visit>) {
    forall key :: key in b.keys ==>
      key.target == b.target && key.config == b.config && HomeOf(key) in seen && key.stage == StageOf(HomeOf(key))
  }

  /** Every run is a first one, or of a reviewer that was begun. */
  ghost predicate Backed(b: Book, begun: seq<RunKey>) {
    forall key :: key in b.keys ==> key == Owner(key) || Owner(key) in begun
  }

  ghost predicate Rank(b: Book, seen: set<Visit>, begun: seq<RunKey>, target: string, hash: string) {
    Filed(b, seen) && Backed(b, begun) && b.target == target && b.config == hash
    && forall key :: key in b.statuses ==> key in b.keys
  }

  lemma RecordKeeps(b: Book, key: RunKey, s: Status, seen: set<Visit>, begun: seq<RunKey>, target: string,
                    hash: string)
    requires Rank(b, seen, begun, target, hash)
    requires key.target == target && key.config == hash && HomeOf(key) in seen && key.stage == StageOf(HomeOf(key))
    requires key == Owner(key) || Owner(key) in begun
    ensures Rank(Record(b, key, s), seen, begun, target, hash)
    ensures forall k :: k in Record(b, key, s).keys <==> k in b.keys || k == key
    ensures b.keys <= Record(b, key, s).keys && key in Record(b, key, s).keys
  {}

  predicate AllOf(rs: seq<Reviewer>, v: Visit) {
    forall r :: r in rs ==> r.stage == StageOf(v)
  }

  /** No run of the visit has a final status yet. */
  ghost predicate Untouched(b: Book, v: Visit) {
    forall key :: key in b.statuses && HomeOf(key) == v ==> b.statuses[key] == SELECTED
  }

  /** At a new visit nobody is suppressed: everybody selected is registered, a repeated name included. */
  lemma {:induction false} RegistersAll(b: Book, rs: seq<Reviewer>, v: Visit, seen: set<Visit>, begun: seq<RunKey>,
                                        target: string, hash: string)
    requires Rank(b, seen, begun, target, hash) && v in seen && Sensible(v) && AllOf(rs, v) && Untouched(b, v)
    ensures var (end, chosen) := RegisterAll(b, rs, ActiveOf(v));
      && chosen == rs && Rank(end, seen, begun, target, hash) && b.keys <= end.keys
      && forall r :: r in rs ==> FirstKey(b, r, ActiveOf(v)) in end.keys
    decreases |rs|
  {
    hide Rank, Suppressed;
    if rs != [] {
      var r, active := rs[0], ActiveOf(v);
      var key := FirstKey(b, r, active);
      RegistersOne(b, r, v, seen, begun, target, hash);
      var next := Register(b, r, active).0;
      RegistersAll(next, rs[1..], v, seen, begun, target, hash);
      var end := RegisterAll(next, rs[1..], active).0;
      forall x | x in rs ensures FirstKey(b, x, active) in end.keys {
        if x == r {
          assert key in next.keys;
        } else {
          assert x in rs[1..] && FirstKey(next, x, active) == FirstKey(b, x, active);
        }
      }
    }
  }

  lemma RegistersOne(b: Book, r: Reviewer, v: Visit, seen: set<Visit>, begun: seq<RunKey>, target: string,
                     hash: string)
    requires Rank(b, seen, begun, target, hash) && v in seen && Sensible(v) && r.stage == StageOf(v)
              && Untouched(b, v)
    ensures var (next, key) := Register(b, r, ActiveOf(v));
      && key == Some(FirstKey(b, r, ActiveOf(v))) && Rank(next, seen, begun, target, hash) && Untouched(next, v)
      && b.keys <= next.keys && key.value in next.keys && next.target == b.target && next.config == b.config
  {
    var key := FirstKey(b, r, ActiveOf(v));
    forall k | k in b.statuses && SameIdentity(k, key) ensures !Suppresses(b.statuses[k]) {
      assert k in b.keys && HomeOf(k) == v;
    }
  }

  // ----- the current run of a selected reviewer -----

  /** The register finds a run of the reviewer; it is the first one unless the reviewer was begun. */
  lemma PicksOwn(b: Book, r: Reviewer, v: Visit, seen: set<Visit>, begun: seq<RunKey>, target: string, hash: string)
    requires Rank(b, seen, begun, target, hash) && Sensible(v) && r.stage == StageOf(v)
    requires FirstKey(b, r, ActiveOf(v)) in b.keys
    ensures var key, first := Pick(b, r, ActiveOf(v)), FirstKey(b, r, ActiveOf(v));
      key.Some? && key.value in b.keys && Owner(key.value) == first && (first !in begun ==> key == Some(first))
  {
    var first := FirstKey(b, r, ActiveOf(v));
    var candidates := Candidates(b.keys, r, ActiveOf(v));
    assert first in candidates;
    forall k | k in candidates ensures Owner(k) == first {
      assert k in b.keys;
    }
  }

  lemma {:induction false} DefersAll(b: Book, rs: seq<Reviewer>, v: Visit, seen: set<Visit>, begun: seq<RunKey>,
                                     target: string, hash: string)
    requires Rank(b, seen, begun, target, hash) && Sensible(v) && AllOf(rs, v)
    requires forall r :: r in rs ==> FirstKey(b, r, ActiveOf(v)) in b.keys
    ensures var end := DeferAll(b, rs, ActiveOf(v));
      end.Some? && Rank(end.value, seen, begun, target, hash) && end.value.keys == b.keys
    decreases |rs|
  {
    hide Rank, Pick, FirstKey, Sensible;
    if rs != [] {
      PicksOwn(b, rs[0], v, seen, begun, target, hash);
      var key := Pick(b, rs[0], ActiveOf(v)).value;
      KnownIsFiled(b, key, seen, begun, target, hash);
      RecordKeeps(b, key, DEFERRED, seen, begun, target, hash);
      var next := Record(b, key, DEFERRED);
      SameFirstKeys(b, next);
      DefersAll(next, rs[1..], v, seen, begun, target, hash);
    }
  }

  lemma KnownIsFiled(b: Book, key: RunKey, seen: set<Visit>, begun: seq<RunKey>, target: string, hash: string)
    requires Rank(b, seen, begun, target, hash) && key in b.keys
    ensures key.target == target && key.config == hash && HomeOf(key) in seen && key.stage == StageOf(HomeOf(key))
    ensures key == Owner(key) || Owner(key) in begun
  {}

  lemma SameFirstKeys(a: Book, b: Book)
    requires a.target == b.target && a.config == b.config
    ensures forall r, active :: FirstKey(a, r, active) == FirstKey(b, r, active)
  {}

  /** Recording attempts of a reviewer that has been begun. */
  lemma {:induction false} AttemptsRecorded(b: Book, attempts: seq<Attempt>, notes: (RunKey, nat) -> Status, n: nat,
                                            first: RunKey, seen: set<Visit>, begun: seq<RunKey>, target: string,
                                            hash: string)
    requires Rank(b, seen, begun, target, hash) && first in b.keys && first in begun
    requires forall a :: a in attempts ==> Owner(a.key) == first
    ensures var end := RecordAttempts(b, attempts, notes, n);
      Rank(end, seen, begun, target, hash) && b.keys <= end.keys
    decreases |attempts|
  {
    hide Rank;
    if attempts != [] {
      var key := attempts[0].key;
      assert Owner(key) == first;
      KnownIsFiled(b, first, seen, begun, target, hash);
      RecordKeeps(b, key, notes(key, n), seen, begun, target, hash);
      AttemptsRecorded(Record(b, key, notes(key, n)), attempts[1..], notes, n + 1, first, seen, begun, target, hash);
    }
  }

  // ----- a reviewer, a visit, a run -----

  function Owners(keys: seq<RunKey>): (owners: seq<RunKey>)
    ensures |owners| == |keys| && forall i :: 0 <= i < |keys| ==> owners[i] == Owner(keys[i])
  {
    if keys == [] then [] else [Owner(keys[0])] + Owners(keys[1..])
  }

  /** The books, and the exact condition under which every call has its reservation. */
  ghost predicate Exact(c: Setup, s: Spend, begun: seq<RunKey>) {
    Books(c.live.policy, c.packages, s) && Accounted(c.live.policy, s.ledger, begun)
    && (Unreserved(s) == 0 <==> NoOpenRepeat(c.live.policy, begun))
  }

  lemma NoOpenRepeatAppend(p: Policy, keys: seq<RunKey>, key: RunKey)
    ensures NoOpenRepeat(p, keys + [key]) <==> NoOpenRepeat(p, keys) && !(key in keys && p.gate(key))
  {
    var longer := keys + [key];
    assert forall i :: 0 <= i < |keys| ==> longer[i] == keys[i];
    assert longer[|keys|] == key;
    if NoOpenRepeat(p, longer) && key in keys {
      var i :| 0 <= i < |keys| && keys[i] == key;
      assert longer[i] == longer[|keys|];
    }
    if NoOpenRepeat(p, longer) {
      forall i, j | 0 <= i < j < |keys| && keys[i] == keys[j] ensures !p.gate(keys[i]) {
        assert longer[i] == longer[j];
      }
    }
  }

  lemma SpendsExactly(c: Setup, initial: RunKey, provider: Provider, s: Spend, begun: seq<RunKey>)
    requires ValidSetup(c) && Exact(c, s, begun) && s.calls + PerReviewer(c.live) <= c.live.policy.maxLiveCalls
    ensures var end := Tries(c.live.policy, c.packages(Owner(initial)), initial, provider, 1, PerReviewer(c.live), s);
      Exact(c, end, begun + [Owner(initial)]) && end.calls <= s.calls + PerReviewer(c.live)
  {
    hide Tries, Accounted, NoOpenRepeat, AllowedAttempts;
    var p, n := c.live.policy, PerReviewer(c.live);
    AttemptsFitTheTime(c.live.maxAttempts, c.live.timeout, c.live.total);
    BooksCount(p, c.packages, s);
    TriesKeepBooks(p, c.packages, initial, provider, 1, n, s);
    UnreservedIffBegunAgain(p, c.packages, initial, provider, n, s, begun);
    NoOpenRepeatAppend(p, begun, Owner(initial));
  }

  lemma BooksCount(p: Policy, packages: Packages, s: Spend)
    requires Books(p, packages, s)
    ensures |s.ledger.reservations| <= s.calls && Unreserved(s) >= 0 && !s.crashed
  {}

  ghost predicate Sound(c: Setup, st: Live, seen: set<Visit>) {
    Rank(st.book, seen, Owners(st.begun), c.target, c.hash) && Exact(c, st.spend, Owners(st.begun))
  }

  lemma {:induction false} RunsReviewer(c: Setup, provider: Provider, r: Reviewer, v: Visit, st: Live,
                                        seen: set<Visit>)
    requires ValidSetup(c) && Sound(c, st, seen) && v in seen && Sensible(v) && r.stage == StageOf(v) && !st.stopped
    requires KeyOf(c, r, ActiveOf(v)) in st.book.keys
    requires st.spend.calls + PerReviewer(c.live) <= c.live.policy.maxLiveCalls
    ensures var end, first := RunReviewer(c, provider, r, ActiveOf(v), st), KeyOf(c, r, ActiveOf(v));
      && Sound(c, end, seen) && !end.stopped && Owners(end.begun) == Owners(st.begun) + [first]
      && end.spend.calls <= st.spend.calls + PerReviewer(c.live) && st.book.keys <= end.book.keys
      && end.retained == st.retained && end.planned == st.planned
      && (first !in Owners(st.begun) ==> end.begun == st.begun + [first])
  {
    hide Pick, Rank, Exact, Tries, AllowedAttempts, Sensible, Owner;
    var active, owners, first := ActiveOf(v), Owners(st.begun), KeyOf(c, r, ActiveOf(v));
    BookOf(st.book, r, v, seen, owners, c);
    PicksOwn(st.book, r, v, seen, owners, c.target, c.hash);
    var key := Pick(st.book, r, active).value;
    KnownIsFiled(st.book, key, seen, owners, c.target, c.hash);
    RecordKeeps(st.book, key, RUNNING, seen, owners, c.target, c.hash);
    var running := Record(st.book, key, RUNNING);
    BookOf(running, r, v, seen, owners, c);
    PicksOwn(running, r, v, seen, owners, c.target, c.hash);
    var initial := Pick(running, r, active).value;
    SpendsExactly(c, initial, provider, st.spend, owners);
    var p, n := c.live.policy, PerReviewer(c.live);
    AttemptsFitTheTime(c.live.maxAttempts, c.live.timeout, c.live.total);
    var spend := Tries(p, c.packages(first), initial, provider, 1, n, st.spend);
    var trail := RetriesFollowRetryable(p, c.packages(first), initial, provider, 1, n, st.spend);
    assert Since(st.spend.attempts, spend.attempts) == trail;
    TrailOwners(provider, initial, 1, st.spend.calls, trail);
    var begun := owners + [first];
    OwnersAppend(st.begun, initial);
    BackedByMore(running, seen, owners, begun, c.target, c.hash);
    AttemptsRecorded(running, trail, c.notes, st.spend.calls, first, seen, begun, c.target, c.hash);
    var recorded := RecordAttempts(running, trail, c.notes, st.spend.calls);
    BookOf(recorded, r, v, seen, begun, c);
    PicksOwn(recorded, r, v, seen, begun, c.target, c.hash);
    var last := Pick(recorded, r, active).value;
    KnownIsFiled(recorded, last, seen, begun, c.target, c.hash);
    RecordKeeps(recorded, last, c.notes(last, spend.calls), seen, begun, c.target, c.hash);
    ExactIsFine(c, spend, begun);
  }

  lemma ExactIsFine(c: Setup, s: Spend, begun: seq<RunKey>)
    requires Exact(c, s, begun)
    ensures !s.crashed && |s.ledger.reservations| <= s.calls
  {}

  lemma BookOf(b: Book, r: Reviewer, v: Visit, seen: set<Visit>, begun: seq<RunKey>, c: Setup)
    requires Rank(b, seen, begun, c.target, c.hash)
    ensures FirstKey(b, r, ActiveOf(v)) == KeyOf(c, r, ActiveOf(v))
  {}

  lemma OwnersAppend(keys: seq<RunKey>, key: RunKey)
    ensures Owners(keys + [key]) == Owners(keys) + [Owner(key)]
  {}

  lemma BackedByMore(b: Book, seen: set<Visit>, begun: seq<RunKey>, more: seq<RunKey>, target: string, hash: string)
    requires Rank(b, seen, begun, target, hash) && begun <= more
    ensures Rank(b, seen, more, target, hash)
  {}

  lemma TrailOwners(provider: Provider, initial: RunKey, k: nat, calls: nat, trail: seq<Attempt>)
    requires Follows(provider, initial, k, calls, trail)
    ensures forall a :: a in trail ==> Owner(a.key) == Owner(initial)
  {
    forall a | a in trail ensures Owner(a.key) == Owner(initial) {
      var i :| 0 <= i < |trail| && trail[i] == a;
      OwnerOfAttempt(initial, k + i);
    }
  }

  lemma {:induction false} RunsReviewers(c: Setup, provider: Provider, rs: seq<Reviewer>, v: Visit, st: Live,
                                         seen: set<Visit>)
    requires ValidSetup(c) && Sound(c, st, seen) && v in seen && Sensible(v) && AllOf(rs, v) && !st.stopped
    requires forall r :: r in rs ==> KeyOf(c, r, ActiveOf(v)) in st.book.keys
    requires st.spend.calls + PerReviewer(c.live) * |rs| <= c.live.policy.maxLiveCalls
    ensures var end, firsts := RunReviewers(c, provider, rs, ActiveOf(v), st), KeysOf(c, rs, ActiveOf(v));
      && Sound(c, end, seen) && !end.stopped && Owners(end.begun) == Owners(st.begun) + firsts
      && end.spend.calls <= st.spend.calls + PerReviewer(c.live) * |rs|
      && end.retained == st.retained && end.planned == st.planned
      && (Distinct(Owners(st.begun) + firsts) ==> end.begun == st.begun + firsts)
    decreases |rs|
  {
    hide RunReviewer, Sound, AllowedAttempts, KeyOf, Distinct, Sensible;
    if rs == [] {
      Unit(Owners(st.begun));
      Unit(st.begun);
    } else {
      var n, first, firsts := PerReviewer(c.live), KeyOf(c, rs[0], ActiveOf(v)), KeysOf(c, rs[1..], ActiveOf(v));
      assert n * |rs| == n + n * |rs[1..]|;
      assert n * |rs[1..]| >= 0;
      RunsReviewer(c, provider, rs[0], v, st, seen);
      var one := RunReviewer(c, provider, rs[0], ActiveOf(v), st);
      assert forall r :: r in rs[1..] ==> r in rs;
      RunsReviewers(c, provider, rs[1..], v, one, seen);
      Assoc(Owners(st.begun), [first], firsts);
      Assoc(st.begun, [first], firsts);
      if Distinct(Owners(st.begun) + ([first] + firsts)) {
        DistinctMiddle(Owners(st.begun), first, firsts);
      }
    }
  }

  lemma DistinctMiddle<T>(a: seq<T>, x: T, b: seq<T>)
    requires Distinct(a + ([x] + b))
    ensures x !in a
  {
    var whole := a + ([x] + b);
    assert whole[|a|] == x && forall i :: 0 <= i < |a| ==> whole[i] == a[i];
  }

  /** A stage selects exactly the agents that it triggers. */
  lemma {:induction false} TriggeredOf(c: Setup, stage: Stage, names: seq<string>)
    ensures forall r :: r in Triggered(c, stage, names) <==>
              r.stage == stage && r.name in names && c.triggered(stage, r.name)
    ensures Distinct(names) ==> Distinct(Triggered(c, stage, names))
  {
    hide Distinct;
    if names == [] {
      DistinctNone<Reviewer>();
    } else {
      TriggeredOf(c, stage, names[1..]);
      if Distinct(names) {
        DistinctTail(names);
        if c.triggered(stage, names[0]) {
          DistinctCons(Reviewer(names[0], stage), Triggered(c, stage, names[1..]));
        } else {
          assert Triggered(c, stage, names) == Triggered(c, stage, names[1..]);
        }
      }
    }
  }

  /** A stage selects every agent at most once; a clarification as often as it is named as a target. */
  lemma RosterOf(c: Setup, v: Visit)
    requires ValidSetup(c) && Roster(c, v).Some?
    ensures AllOf(Roster(c, v).value, v)
    ensures (v.OfClarification? ==> Distinct(c.targets(v.id))) ==> Distinct(Roster(c, v).value)
  {
    Payload.DistinctUnderSort(c.agents);
    if v.OfStage? {
      TriggeredOf(c, v.stage, Payload.Sort(c.agents));
    }
  }

  /** Within the limits: what was called was planned. */
  predicate Affordable(c: Config, st: Live) {
    st.spend.calls <= st.planned <= c.policy.maxLiveCalls && st.retained <= c.maxReviewers
  }

  lemma NewVisit(b: Book, v: Visit, seen: set<Visit>, begun: seq<RunKey>, target: string, hash: string)
    requires Rank(b, seen, begun, target, hash) && v !in seen
    ensures Rank(b, seen + {v}, begun, target, hash) && Untouched(b, v)
  {}

  /** Registering and deferring at a new visit: everybody of the roster is chosen and on the books. */
  lemma PreparesVisit(c: Setup, v: Visit, rs: seq<Reviewer>, b: Book, seen: set<Visit>, begun: seq<RunKey>,
                      count: nat, planned: nat)
    requires ValidSetup(c) && Rank(b, seen, begun, c.target, c.hash) && v !in seen && Sensible(v)
              && Roster(c, v) == Some(rs)
    ensures RegisterAll(b, rs, ActiveOf(v)).1 == rs
    ensures var a := Admit(rs, Flat(PerReviewer(c.live)), LimitsOf(c.live), count, planned);
      var end := DeferAll(RegisterAll(b, rs, ActiveOf(v)).0, a.deferred, ActiveOf(v));
      && end.Some? && Rank(end.value, seen + {v}, begun, c.target, c.hash)
      && (forall r :: r in a.retained ==> KeyOf(c, r, ActiveOf(v)) in end.value.keys) && AllOf(a.retained, v)
  {
    hide Rank, Roster, Untouched, KeyOf, FirstKey, AllowedAttempts;
    var more := seen + {v};
    NewVisit(b, v, seen, begun, c.target, c.hash);
    RosterOf(c, v);
    RegistersAll(b, rs, v, more, begun, c.target, c.hash);
    var registered := RegisterAll(b, rs, ActiveOf(v)).0;
    var a := Admit(rs, Flat(PerReviewer(c.live)), LimitsOf(c.live), count, planned);
    RetainedWereGiven(rs, Flat(PerReviewer(c.live)), LimitsOf(c.live), count, planned);
    SameBook(b, registered, c, more, begun);
    DefersAll(registered, a.deferred, v, more, begun, c.target, c.hash);
  }

  /** The visit, once its selection and its deferrals are known to succeed. */
  lemma VisitSteps(c: Setup, provider: Provider, v: Visit, cut: Option<nat>, st: Live)
    requires c.live.timeout > 0
    ensures Roster(c, v) == None ==>
              LiveVisit(c, provider, v, cut, st) == st.(stopped := true)
                  && PlanOf(c, v, st.retained, st.planned) == None
    ensures Roster(c, v).Some? ==>
      var rs := Roster(c, v).value;
      var (registered, chosen) := RegisterAll(st.book, rs, ActiveOf(v));
      var a := Admit(rs, Flat(PerReviewer(c.live)), LimitsOf(c.live), st.retained, st.planned);
      var book := DeferAll(registered, a.deferred, ActiveOf(v));
      chosen == rs && book.Some? ==>
        var ready := st.(book := book.value, retained := st.retained + |a.retained|,
            planned := st.planned + a.planned);
        if v == OfStage(InitialTriage) && rs == [] then
          LiveVisit(c, provider, v, cut, st) == ready.(stopped := true)
              && PlanOf(c, v, st.retained, st.planned) == None
        else
          LiveVisit(c, provider, v, cut, st) == RunReviewers(c, provider, Cut(a.retained, cut), ActiveOf(v), ready)
          && PlanOf(c, v, st.retained, st.planned) == Some(a)
  {
    hide Roster, RegisterAll, DeferAll, Admit, RunReviewers, AllowedAttempts, Cut;
  }

  lemma {:induction false} RunsVisit(c: Setup, provider: Provider, v: Visit, cut: Option<nat>, st: Live,
                                     seen: set<Visit>)
    requires ValidSetup(c) && Sound(c, st, seen) && v !in seen && Sensible(v) && !st.stopped && Affordable(c.live, st)
    ensures var end, plan := LiveVisit(c, provider, v, cut, st), PlanOf(c, v, st.retained, st.planned);
      && Sound(c, end, seen + {v}) && Affordable(c.live, end) && (end.stopped <==> plan == None)
      && var keys := if plan == None then [] else KeysOf(c, Cut(plan.value.retained, cut), ActiveOf(v));
      && Owners(end.begun) == Owners(st.begun) + keys
      && (Distinct(Owners(st.begun) + keys) ==> end.begun == st.begun + keys)
      && (plan.Some? ==>
            end.retained == st.retained + |plan.value.retained| && end.planned == st.planned + plan.value.planned)
  {
    hide Exact, Rank, RunReviewers, AllowedAttempts, Distinct, Roster, Untouched, KeyOf, FirstKey, RegisterAll,
         DeferAll, Admit, Owners, KeysOf, Cut, Sensible, AllOf, LiveVisit, PlanOf;
    VisitSteps(c, provider, v, cut, st);
    Unit(Owners(st.begun));
    Unit(st.begun);
    NewVisit(st.book, v, seen, Owners(st.begun), c.target, c.hash);
    if Roster(c, v).Some? {
      var rs, n, limits := Roster(c, v).value, PerReviewer(c.live), LimitsOf(c.live);
      var a := Admit(rs, Flat(n), limits, st.retained, st.planned);
      PreparesVisit(c, v, rs, st.book, seen, Owners(st.begun), st.retained, st.planned);
      AdmissionSplits(rs, Flat(n), limits, st.retained, st.planned);
      FlatCost(a.retained, n);
      AdmitNobody<Reviewer>(Flat(n), limits, st.retained, st.planned);
      var book := DeferAll(RegisterAll(st.book, rs, ActiveOf(v)).0, a.deferred, ActiveOf(v)).value;
      var ready := st.(book := book, retained := st.retained + |a.retained|, planned := st.planned + a.planned);
      if !(v == OfStage(InitialTriage) && rs == []) {
        CutFits(a.retained, cut, v);
        CutCosts(n, |Cut(a.retained, cut)|, |a.retained|);
        RunsReviewers(c, provider, Cut(a.retained, cut), v, ready, seen + {v});
      }
    }
  }

  lemma CutFits(rs: seq<Reviewer>, cut: Option<nat>, v: Visit)
    ensures |Cut(rs, cut)| <= |rs| && (forall r :: r in Cut(rs, cut) ==> r in rs)
              && (AllOf(rs, v) ==> AllOf(Cut(rs, cut), v))
  {}

  lemma CutCosts(n: nat, some: nat, all: nat)
    requires some <= all
    ensures n * some <= n * all
  {}

  lemma SameBook(a: Book, b: Book, c: Setup, seen: set<Visit>, begun: seq<RunKey>)
    requires Rank(a, seen, begun, c.target, c.hash) && Rank(b, seen, begun, c.target, c.hash)
    ensures forall r, active :: FirstKey(a, r, active) == KeyOf(c, r, active) == FirstKey(b, r, active)
  {}

  lemma {:induction false} RunsVisits(c: Setup, provider: Provider, visits: seq<Visit>, cut: Option<nat>, st: Live,
                                      seen: set<Visit>)
    returns (all: set<Visit>)
    requires ValidSetup(c) && Sound(c, st, seen) && !st.stopped && Affordable(c.live, st)
    requires Distinct(visits) && forall v :: v in visits ==> v !in seen && Sensible(v)
    ensures var end := LiveVisits(c, provider, visits, cut, st);
      var keys := Planned(c, visits, cut, st.retained, st.planned);
      && Sound(c, end, all) && Affordable(c.live, end) && Owners(end.begun) == Owners(st.begun) + keys
      && (Distinct(Owners(st.begun) + keys) ==> end.begun == st.begun + keys)
    decreases |visits|
  {
    hide Sound, LiveVisit, PlanOf, Affordable, Distinct, Sensible, Owners, KeysOf, Cut, AllowedAttempts;
    all := seen;
    Unit(Owners(st.begun));
    Unit(st.begun);
    if visits != [] {
      var v, rest, at := visits[0], visits[1..], if |visits| == 1 then cut else None;
      DistinctTail(visits);
      RunsVisit(c, provider, v, at, st, seen);
      var next, plan := LiveVisit(c, provider, v, at, st), PlanOf(c, v, st.retained, st.planned);
      if plan == None {
        all := seen + {v};
        StoppedStays(c, provider, rest, cut, next);
      } else {
        assert forall x :: x in rest ==> x in visits && x != v;
        all := RunsVisits(c, provider, rest, cut, next, seen + {v});
        var keys := KeysOf(c, Cut(plan.value.retained, at), ActiveOf(v));
        var later := Planned(c, rest, cut, next.retained, next.planned);
        Assoc(Owners(st.begun), keys, later);
        Assoc(st.begun, keys, later);
        if Distinct(Owners(st.begun) + (keys + later)) {
          DistinctPrefix(Owners(st.begun) + keys, later);
        }
      }
    }
  }

  lemma StoppedStays(c: Setup, provider: Provider, visits: seq<Visit>, cut: Option<nat>, st: Live)
    requires c.live.timeout > 0 && st.stopped
    ensures LiveVisits(c, provider, visits, cut, st) == st
  {}

  // ----- the whole run -----

  /** A live run of the loop: the visits, and what they spend. */
  ghost function RunOf(c: Setup, provider: Provider, visit: Behaviour, answers: set<string>, cut: Option<nat>): Live
    requires c.live.timeout > 0 && "" !in answers
  {
    StartInv(answers);
    LiveVisits(c, provider, RunVisits(RunLoop(START, visit, answers)), cut, Fresh(c))
  }

  ghost function PlanOfRun(c: Setup, visit: Behaviour, answers: set<string>, cut: Option<nat>): seq<RunKey>
    requires c.live.timeout > 0 && "" !in answers
  {
    StartInv(answers);
    Planned(c, RunVisits(RunLoop(START, visit, answers)), cut, 0, 0)
  }

  /** Planning dominates spending over every run, whatever reviewers raise, answers exist and providers
      reply, and wherever an error cuts the run short. The reviewers begun are exactly those planned from
      selections and limits; calls stay within what was planned and within the limit, reservations are
      distinct and never more than the calls, and no attempt is refused for lack of budget or crashes on
      its own reservation. Every call has its reservation if and only if no planned run whose gate is
      open is planned twice. */
  lemma PlanningDominatesSpending(c: Setup, provider: Provider, visit: Behaviour, answers: set<string>,
                                  cut: Option<nat>)
    requires ValidSetup(c) && "" !in answers
    ensures var end, plan := RunOf(c, provider, visit, answers, cut), PlanOfRun(c, visit, answers, cut);
      && |end.spend.ledger.reservations| <= end.spend.calls <= end.planned <= c.live.policy.maxLiveCalls
      && end.retained <= c.live.maxReviewers
      && DistinctKeys(end.spend.ledger) && NeverShort(end.spend.attempts) && !end.spend.crashed
      && Owners(end.begun) == plan && (Distinct(plan) ==> end.begun == plan)
      && (end.spend.calls == |end.spend.ledger.reservations| <==> NoOpenRepeat(c.live.policy, plan))
  {
    hide RunLoop, LiveVisits, Planned, Rank, NoOpenRepeat, Distinct, Accounted, Inv, Sensible;
    StartInv(answers);
    VisitsAreDistinct(visit, answers);
    FreshIsSound(c);
    var visits := RunVisits(RunLoop(START, visit, answers));
    var all := RunsVisits(c, provider, visits, cut, Fresh(c), {});
    Unit(Planned(c, visits, cut, 0, 0));
  }

  lemma FreshIsSound(c: Setup)
    requires ValidSetup(c)
    ensures Sound(c, Fresh(c), {}) && !Fresh(c).stopped && Affordable(c.live, Fresh(c))
              && Owners(Fresh(c).begun) == []
  {}

  // ----- errors -----

  /** A reviewer without a run in the register is an error, and nothing is called. */
  lemma NoRunIsAnError(c: Setup, provider: Provider, r: Reviewer, active: Option<string>, st: Live)
    requires c.live.timeout > 0
    requires forall k :: k in st.book.keys ==> !RunsFor(k, r, active)
    ensures RunReviewer(c, provider, r, active, st) == st.(stopped := true)
  {
    hide Pick;
    PickIff(st.book, r, active);
    if Pick(st.book, r, active).Some? {
      PickedRunsFor(st.book, r, active);
      PickedIsListed(st.book, r, active);
    }
  }

  /** A crash in the calls of a reviewer is an error. */
  lemma CrashIsAnError(c: Setup, provider: Provider, r: Reviewer, active: Option<string>, st: Live)
    requires c.live.timeout > 0 && !st.spend.crashed
    ensures RunReviewer(c, provider, r, active, st).spend.crashed ==>
              RunReviewer(c, provider, r, active, st).stopped
  {
    hide Pick, Tries, RecordAttempts;
  }

  lemma PickedIsListed(b: Book, r: Reviewer, active: Option<string>)
    ensures Pick(b, r, active).Some? ==> Pick(b, r, active).value in b.keys
  {}

  /** An error ends the visit: whoever would come after it is not run. */
  lemma {:induction false} FirstErrorEnds(c: Setup, provider: Provider, rs: seq<Reviewer>, active: Option<string>,
                                          st: Live, i: nat)
    requires c.live.timeout > 0 && i <= |rs| && RunReviewers(c, provider, rs[..i], active, st).stopped
    ensures RunReviewers(c, provider, rs, active, st) == RunReviewers(c, provider, rs[..i], active, st)
    decreases i
  {
    hide RunReviewer;
    if i > 0 && !st.stopped {
      assert rs[..i][0] == rs[0] && rs[..i][1..] == rs[1..][..i - 1];
      FirstErrorEnds(c, provider, rs[1..], active, RunReviewer(c, provider, rs[0], active, st), i - 1);
    }
  }

  // ----- what is entered in the register -----

  /** One reviewer more is registered after the others, and chosen unless its runs have come to an end. */
  lemma {:induction false} RegisterInTurn(b: Book, rs: seq<Reviewer>, r: Reviewer, active: Option<string>)
    ensures var (before, chosen) := RegisterAll(b, rs, active);
      var (after, key) := Register(before, r, active);
      RegisterAll(b, rs + [r], active) == (after, if key == None then chosen else chosen + [r])
    decreases |rs|
  {
    hide Register;
    if rs == [] {
      assert rs + [r] == [r] && [r][1..] == [];
      var chosen: seq<Reviewer> := [];
      assert chosen + [r] == [r] && [r] + chosen == [r];
    } else {
      assert (rs + [r])[0] == rs[0] && (rs + [r])[1..] == rs[1..] + [r];
      var (next, key) := Register(b, rs[0], active);
      RegisterInTurn(next, rs[1..], r, active);
      var rest := RegisterAll(next, rs[1..], active).1;
      assert [rs[0]] + (rest + [r]) == ([rs[0]] + rest) + [r];
    }
  }

  lemma {:induction false} SkippedStays(b: Book, rs: seq<Reviewer>, active: Option<string>, k: RunKey)
    requires k in b.keys && k in b.statuses && b.statuses[k] == DEFERRED && DeferAll(b, rs, active).Some?
    ensures var end := DeferAll(b, rs, active).value;
      k in end.keys && k in end.statuses && end.statuses[k] == DEFERRED
    decreases |rs|
  {
    hide Pick;
    if rs != [] {
      SkippedStays(Record(b, Pick(b, rs[0], active).value, DEFERRED), rs[1..], active, k);
    }
  }

  /** Every deferred reviewer has a run that is recorded as skipped, and is the one that was current. */
  lemma {:induction false} DeferredAreSkipped(b: Book, rs: seq<Reviewer>, active: Option<string>, r: Reviewer)
    requires DeferAll(b, rs, active).Some? && r in rs
    ensures exists k :: k in DeferAll(b, rs, active).value.keys && RunsFor(k, r, active)
                        && k in DeferAll(b, rs, active).value.statuses
                        && DeferAll(b, rs, active).value.statuses[k] == DEFERRED
    decreases |rs|
  {
    hide Pick;
    var k := Pick(b, rs[0], active).value;
    var next := Record(b, k, DEFERRED);
    if r == rs[0] {
      PickedRunsFor(b, r, active);
      SkippedStays(next, rs[1..], active, k);
    } else {
      DeferredAreSkipped(next, rs[1..], active, r);
    }
  }

  lemma PickedRunsFor(b: Book, r: Reviewer, active: Option<string>)
    ensures Pick(b, r, active).Some? ==> RunsFor(Pick(b, r, active).value, r, active)
  {}

  /** A run that no attempt is for keeps its status. */
  lemma {:induction false} OthersKeepStatus(b: Book, attempts: seq<Attempt>, notes: (RunKey, nat) -> Status, n: nat,
                                            key: RunKey)
    requires forall a :: a in attempts ==> a.key != key
    ensures var end := RecordAttempts(b, attempts, notes, n);
      (key in end.statuses <==> key in b.statuses) && (key in b.statuses ==> end.statuses[key] == b.statuses[key])
    decreases |attempts|
  {
    if attempts != [] {
      OthersKeepStatus(Record(b, attempts[0].key, notes(attempts[0].key, n)), attempts[1..], notes, n + 1, key);
    }
  }

  /** The last attempt for a run decides its status, and the run is listed. */
  lemma {:induction false} LastAttemptDecides(b: Book, attempts: seq<Attempt>, notes: (RunKey, nat) -> Status, n: nat,
                                              i: nat)
    requires i < |attempts| && forall j :: i < j < |attempts| ==> attempts[j].key != attempts[i].key
    ensures var end, key := RecordAttempts(b, attempts, notes, n), attempts[i].key;
      key in end.keys && key in end.statuses && end.statuses[key] == notes(key, n + i)
    decreases |attempts|
  {
    var next, rest := Record(b, attempts[0].key, notes(attempts[0].key, n)), attempts[1..];
    assert forall j :: 0 <= j < |rest| ==> rest[j] == attempts[j + 1];
    if i == 0 {
      OthersKeepStatus(next, rest, notes, n + 1, attempts[0].key);
      RecordedKeys(next, rest, notes, n + 1);
    } else {
      LastAttemptDecides(next, rest, notes, n + 1, i - 1);
    }
  }

  lemma {:induction false} RecordedKeys(b: Book, attempts: seq<Attempt>, notes: (RunKey, nat) -> Status, n: nat)
    ensures forall k :: k in b.keys ==> k in RecordAttempts(b, attempts, notes, n).keys
    decreases |attempts|
  {
    if attempts != [] {
      RecordedKeys(Record(b, attempts[0].key, notes(attempts[0].key, n)), attempts[1..], notes, n + 1);
    }
  }

  // ----- the runner as written -----

  lemma TriggeredNone(c: Setup, stage: Stage, names: seq<string>)
    ensures Triggered(c, stage, names[..0]) == []
  {}

  lemma {:induction false} TriggeredNext(c: Setup, stage: Stage, names: seq<string>, i: nat)
    requires i < |names|
    ensures var before := Triggered(c, stage, names[..i]);
      Triggered(c, stage, names[..i + 1])
      == if c.triggered(stage, names[i]) then before + [Reviewer(names[i], stage)] else before
  {
    if i == 0 {
      assert names[..1] == [names[0]] && [names[0]][1..] == [];
    } else {
      assert names[..i + 1][1..] == names[1..][..i] && names[..i][1..] == names[1..][..i - 1];
      TriggeredNext(c, stage, names[1..], i - 1);
    }
  }

  method SelectForStage(c: Setup, stage: Stage) returns (selected: seq<Reviewer>)
    ensures selected == Triggered(c, stage, Payload.Sort(c.agents))
  {
    hide Payload.Sort, Triggered;
    selected := [];
    var names := Payload.Sort(c.agents);
    TriggeredNone(c, stage, names);
    for i := 0 to |names|
      invariant selected == Triggered(c, stage, names[..i])
    {
      TriggeredNext(c, stage, names, i);
      if !c.triggered(stage, names[i]) {
        continue;
      }
      selected := selected + [Reviewer(names[i], stage)];
    }
    assert names[..|names|] == names;
  }

  method RegisterEach(register: RunRegister, rs: seq<Reviewer>, active: Option<string>)
    returns (chosen: seq<Reviewer>)
    modifies register
    ensures (register.Value(), chosen) == RegisterAll(old(register.Value()), rs, active)
  {
    hide Register;
    chosen := [];
    ghost var start := register.Value();
    assert rs[0..] == rs;
    Unit(RegisterAll(start, rs, active).1);
    for i := 0 to |rs|
      invariant RegisterAll(start, rs, active)
             == var rest := RegisterAll(register.Value(), rs[i..], active); (rest.0, chosen + rest.1)
    {
      assert rs[i..][0] == rs[i] && rs[i..][1..] == rs[i + 1..];
      var key := register.RegisterSelected(rs[i], active);
      ghost var rest := RegisterAll(register.Value(), rs[i + 1..], active).1;
      if key == None {
        continue;
      }
      Assoc(chosen, [rs[i]], rest);
      chosen := chosen + [rs[i]];
    }
    Unit(chosen);
  }

  method DeferEach(register: RunRegister, rs: seq<Reviewer>, active: Option<string>) returns (ok: bool)
    modifies register
    ensures ok <==> DeferAll(old(register.Value()), rs, active).Some?
    ensures ok ==> DeferAll(old(register.Value()), rs, active) == Some(register.Value())
  {
    hide Pick;
    for i := 0 to |rs|
      invariant DeferAll(register.Value(), rs[i..], active) == DeferAll(old(register.Value()), rs, active)
    {
      assert rs[i..][0] == rs[i] && rs[i..][1..] == rs[i + 1..];
      var key := register.KeyForSelection(rs[i], active);
      if key == None {
        return false;
      }
      register.RecordStatus(key.value, DEFERRED);
    }
    return true;
  }

  method RecordEach(register: RunRegister, attempts: seq<Attempt>, notes: (RunKey, nat) -> Status, n: nat)
    modifies register
    ensures register.Value() == RecordAttempts(old(register.Value()), attempts, notes, n)
  {
    hide Record;
    for i := 0 to |attempts|
      invariant RecordAttempts(register.Value(), attempts[i..], notes, n + i)
             == RecordAttempts(old(register.Value()), attempts, notes, n)
    {
      assert attempts[i..][0] == attempts[i] && attempts[i..][1..] == attempts[i + 1..];
      register.RecordStatus(attempts[i].key, notes(attempts[i].key, n + i));
    }
  }

  /** Runs one retained reviewer on the live register. */
  method RunOne(register: RunRegister, c: Setup, provider: Provider, r: Reviewer, active: Option<string>, st: Live)
    returns (end: Live)
    requires c.live.maxAttempts > 0 && c.live.timeout > 0 && c.live.total >= c.live.timeout
    requires register.Value() == st.book && !st.stopped && PerReviewer(c.live) <= c.live.policy.maxLiveCalls
    modifies register
    ensures end == RunReviewer(c, provider, r, active, st)
    ensures !end.stopped ==> register.Value() == end.book
  {
    hide Pick, Tries, RecordAttempts, Owner;
    var key := register.KeyForSelection(r, active);
    if key == None {
      return st.(stopped := true);
    }
    register.RecordStatus(key.value, RUNNING);
    var initial := register.KeyForSelection(r, active);
    if initial == None {
      return st.(stopped := true);
    }
    var spent := RunWithRetries(c.live.policy, c.packages(Owner(initial.value)), initial.value, provider,
                                c.live.maxAttempts, c.live.timeout, c.live.total, st.spend);
    var spend := spent.value;
    RecordEach(register, Since(st.spend.attempts, spend.attempts), c.notes, st.spend.calls);
    var last := register.KeyForSelection(r, active);
    if last == None {
      return st.(stopped := true);
    }
    register.RecordStatus(last.value, c.notes(last.value, spend.calls));
    return Live(register.Value(), spend, st.retained, st.planned, st.begun + [initial.value], spend.crashed);
  }
}
