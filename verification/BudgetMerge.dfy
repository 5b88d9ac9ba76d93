/** Merging context budgets, and the first-occurrence deduplication that it rests on. */
module BudgetMerge {
  import opened Text

  // ----- deduplication -----

  predicate HasKey<T(!new), K(==, !new)>(xs: seq<T>, key: T -> K, k: K) {
    exists i :: 0 <= i < |xs| && key(xs[i]) == k
  }

  /** Keeps the first element of every key, in order. */
  function Dedupe<T(!new), K(==, !new)>(xs: seq<T>, key: T -> K): seq<T> {
    if xs == [] then []
    else
      var before, x := Dedupe(xs[..|xs| - 1], key), Last(xs);
      if HasKey(before, key, key(x)) then before else before + [x]
  }

  method DedupeByKey<T(!new), K(==, !new)>(xs: seq<T>, key: T -> K) returns (kept: seq<T>)
    ensures kept == Dedupe(xs, key)
  {
    kept := [];
    var seen: set<K> := {};
    for i := 0 to |xs|
      invariant kept == Dedupe(xs[..i], key)
      invariant forall k :: k in seen <==> HasKey(kept, key, k)
    {
      assert xs[..i + 1][..i] == xs[..i];
      if key(xs[i]) !in seen {
        HasKeyAppend(kept, key, xs[i]);
        seen := seen + {key(xs[i])};
        kept := kept + [xs[i]];
      }
    }
    assert xs[..|xs|] == xs;
  }

  lemma HasKeyAppend<T(!new), K(!new)>(xs: seq<T>, key: T -> K, x: T)
    ensures forall k :: HasKey(xs + [x], key, k) <==> HasKey(xs, key, k) || k == key(x)
  {
    forall k ensures HasKey(xs + [x], key, k) <==> HasKey(xs, key, k) || k == key(x) {
      if HasKey(xs, key, k) {
        var i :| 0 <= i < |xs| && key(xs[i]) == k;
        assert (xs + [x])[i] == xs[i];
      }
      if k == key(x) {
        assert key((xs + [x])[|xs|]) == k;
      }
    }
  }

  predicate DistinctKeys<T(!new), K(==, !new)>(xs: seq<T>, key: T -> K) {
    forall i, j :: 0 <= i < j < |xs| ==> key(xs[i]) != key(xs[j])
  }

  /** Nothing of its key stands before position `i`. */
  predicate IsFirst<T(!new), K(==, !new)>(xs: seq<T>, key: T -> K, i: nat)
    requires i < |xs|
  {
    forall j :: 0 <= j < i ==> key(xs[j]) != key(xs[i])
  }

  lemma {:induction false} DedupeKeepsKeys<T(!new), K(!new)>(xs: seq<T>, key: T -> K, k: K)
    ensures HasKey(Dedupe(xs, key), key, k) <==> HasKey(xs, key, k)
  {
    if xs != [] {
      var shorter, x := xs[..|xs| - 1], Last(xs);
      DedupeKeepsKeys(shorter, key, k);
      HasKeyAppend(shorter, key, x);
      HasKeyAppend(Dedupe(shorter, key), key, x);
      assert shorter + [x] == xs;
    }
  }

  /** One element a key, and each is the first of its key. */
  lemma {:induction false} DedupeKeepsFirsts<T(!new), K(!new)>(xs: seq<T>, key: T -> K)
    ensures DistinctKeys(Dedupe(xs, key), key)
    ensures forall x :: x in Dedupe(xs, key) <==> exists i :: 0 <= i < |xs| && xs[i] == x && IsFirst(xs, key, i)
  {
    if xs != [] {
      var shorter, last := xs[..|xs| - 1], Last(xs);
      DedupeKeepsFirsts(shorter, key);
      DedupeKeepsKeys(shorter, key, key(last));
      var before := Dedupe(shorter, key);
      assert IsFirst(xs, key, |xs| - 1) <==> !HasKey(shorter, key, key(last));
      assert forall i :: 0 <= i < |shorter| ==>
          shorter[i] == xs[i] && (IsFirst(shorter, key, i) <==> IsFirst(xs, key, i));
      forall x ensures x in Dedupe(xs, key) <==> exists i :: 0 <= i < |xs| && xs[i] == x && IsFirst(xs, key, i) {
        if x in before {
          var i :| 0 <= i < |shorter| && shorter[i] == x && IsFirst(shorter, key, i);
          assert xs[i] == x && IsFirst(xs, key, i);
        }
        if x in Dedupe(xs, key) && x !in before {
          assert xs[|xs| - 1] == x && IsFirst(xs, key, |xs| - 1);
        }
        if i :| 0 <= i < |xs| && xs[i] == x && IsFirst(xs, key, i) {
          if i < |shorter| {
            assert shorter[i] == x && IsFirst(shorter, key, i);
          }
        }
      }
    }
  }

  lemma DedupeAppend<T(!new), K(!new)>(xs: seq<T>, key: T -> K, x: T)
    ensures var before := Dedupe(xs, key);
            Dedupe(xs + [x], key) == if HasKey(before, key, key(x)) then before else before + [x]
  {
    hide HasKey;
    var longer := xs + [x];
    assert longer[..|longer| - 1] == xs && Last(longer) == x;
  }

  lemma HasKeyRight<T(!new), K(!new)>(a: seq<T>, b: seq<T>, key: T -> K, k: K)
    requires HasKey(b, key, k)
    ensures HasKey(a + b, key, k)
  {
    var i :| 0 <= i < |b| && key(b[i]) == k;
    assert (a + b)[|a| + i] == b[i];
  }

  /** Deduplicating a prefix first makes no difference. */
  lemma {:induction false} DedupeAbsorbs<T(!new), K(!new)>(a: seq<T>, b: seq<T>, key: T -> K)
    ensures Dedupe(Dedupe(a, key) + b, key) == Dedupe(a + b, key)
    decreases |b|
  {
    hide HasKey, Dedupe, DistinctKeys, IsFirst;
    if b == [] {
      Unit(a);
      Unit(Dedupe(a, key));
      DedupeKeepsFirsts(a, key);
      DedupeFixesDistinct(Dedupe(a, key), key);
    } else {
      var shorter, x := b[..|b| - 1], Last(b);
      assert shorter + [x] == b;
      DedupeAbsorbs(a, shorter, key);
      Assoc(Dedupe(a, key), shorter, [x]);
      Assoc(a, shorter, [x]);
      DedupeAppend(Dedupe(a, key) + shorter, key, x);
      DedupeAppend(a + shorter, key, x);
    }
  }

  /** Nor does deduplicating a suffix first. */
  lemma {:induction false} DedupeAbsorbsRight<T(!new), K(!new)>(a: seq<T>, b: seq<T>, key: T -> K)
    ensures Dedupe(a + Dedupe(b, key), key) == Dedupe(a + b, key)
    decreases |b|
  {
    hide HasKey, Dedupe;
    if b == [] {
      DedupeNothing(key);
    } else {
      var shorter, x := b[..|b| - 1], Last(b);
      assert shorter + [x] == b;
      DedupeAbsorbsRight(a, shorter, key);
      DedupeAppend(shorter, key, x);
      Assoc(a, shorter, [x]);
      DedupeAppend(a + shorter, key, x);
      if HasKey(Dedupe(shorter, key), key, key(x)) {
        HasKeyRight(a, Dedupe(shorter, key), key, key(x));
        DedupeKeepsKeys(a + Dedupe(shorter, key), key, key(x));
      } else {
        Assoc(a, Dedupe(shorter, key), [x]);
        DedupeAppend(a + Dedupe(shorter, key), key, x);
      }
    }
  }

  lemma DedupeNothing<T(!new), K(!new)>(key: T -> K)
    ensures Dedupe([], key) == []
  {}

  lemma {:induction false} DedupeFixesDistinct<T(!new), K(!new)>(xs: seq<T>, key: T -> K)
    requires DistinctKeys(xs, key)
    ensures Dedupe(xs, key) == xs
  {
    if xs != [] {
      DedupeFixesDistinct(xs[..|xs| - 1], key);
    }
  }

  // ----- budgets -----

  datatype Notice = Notice(resource: string, note: string, originalBytes: nat, retainedBytes: nat)

  datatype Marker = Marker(id: string, reason: string, affected: string)

  /** What the input pass counted: carried along by a merge, never added up. */
  datatype InputCounts = InputCounts(files: nat, keptFiles: nat, patchBytes: nat, keptPatchBytes: nat,
                                     memories: nat, keptMemories: nat, memoryBytes: nat, keptMemoryBytes: nat,
                                     keptPaths: seq<string>, omittedPaths: seq<string>,
                                     keptIds: seq<string>, omittedIds: seq<string>)

  datatype Limits = Limits(maxChangedFiles: nat, maxPatchBytes: nat, maxMemoryBytes: nat,
                           maxReviewers: nat, maxLiveCalls: nat)

  datatype Budget = Budget(
    limits: Limits, input: InputCounts,
    selected: nat, retained: nat, plannedLiveCalls: nat,
    retainedIds: seq<string>, deferredIds: seq<string>,
    retainedLiveIds: seq<string>, deferredLiveIds: seq<string>,
    truncation: seq<Notice>, omitted: seq<Marker>, noteIds: seq<string>, reasons: seq<string>)

  const NOTICE_KEY := (n: Notice) => (n.resource, n.note)
  const MARKER_KEY := (m: Marker) => m.id
  const ITSELF := (s: string) => s

  function Sum(bs: seq<Budget>, count: Budget -> nat): nat {
    if bs == [] then 0 else count(bs[0]) + Sum(bs[1..], count)
  }

  function Flat<T>(bs: seq<Budget>, list: Budget -> seq<T>): seq<T> {
    if bs == [] then [] else list(bs[0]) + Flat(bs[1..], list)
  }

  /** The variadic merge: counts are added, lists joined, and four of the lists deduplicated. */
  function MergeAll(base: Budget, bs: seq<Budget>): Budget {
    base.(
      selected := base.selected + Sum(bs, (b: Budget) => b.selected),
      retained := base.retained + Sum(bs, (b: Budget) => b.retained),
      plannedLiveCalls := base.plannedLiveCalls + Sum(bs, (b: Budget) => b.plannedLiveCalls),
      retainedIds := base.retainedIds + Flat(bs, (b: Budget) => b.retainedIds),
      deferredIds := base.deferredIds + Flat(bs, (b: Budget) => b.deferredIds),
      retainedLiveIds := base.retainedLiveIds + Flat(bs, (b: Budget) => b.retainedLiveIds),
      deferredLiveIds := base.deferredLiveIds + Flat(bs, (b: Budget) => b.deferredLiveIds),
      truncation := Dedupe(base.truncation + Flat(bs, (b: Budget) => b.truncation), NOTICE_KEY),
      omitted := Dedupe(base.omitted + Flat(bs, (b: Budget) => b.omitted), MARKER_KEY),
      noteIds := Dedupe(base.noteIds + Flat(bs, (b: Budget) => b.noteIds), ITSELF),
      reasons := Dedupe(base.reasons + Flat(bs, (b: Budget) => b.reasons), ITSELF))
  }

  /** Merging one budget after the other. */
  function Fold(base: Budget, bs: seq<Budget>): Budget
    decreases |bs|
  {
    if bs == [] then base else Fold(MergeAll(base, [bs[0]]), bs[1..])
  }

  predicate Deduped(b: Budget) {
    DistinctKeys(b.truncation, NOTICE_KEY) && DistinctKeys(b.omitted, MARKER_KEY)
    && DistinctKeys(b.noteIds, ITSELF) && DistinctKeys(b.reasons, ITSELF)
  }

  lemma FlatOne<T>(b: Budget, bs: seq<Budget>, list: Budget -> seq<T>)
    ensures Flat([b] + bs, list) == list(b) + Flat(bs, list) && Flat([b], list) == list(b)
  {
    assert ([b] + bs)[1..] == bs && [b][1..] == [];
  }

  lemma SumOne(b: Budget, bs: seq<Budget>, count: Budget -> nat)
    ensures Sum([b] + bs, count) == count(b) + Sum(bs, count) && Sum([b], count) == count(b)
  {
    assert ([b] + bs)[1..] == bs && [b][1..] == [];
  }

  lemma JoinStep<T>(base: seq<T>, b: Budget, bs: seq<Budget>, list: Budget -> seq<T>)
    ensures base + Flat([b], list) + Flat(bs, list) == base + Flat([b] + bs, list)
  {
    FlatOne(b, bs, list);
    Assoc(base, list(b), Flat(bs, list));
  }

  lemma DedupeStep<T(!new), K(!new)>(base: seq<T>, b: Budget, bs: seq<Budget>, list: Budget -> seq<T>, key: T -> K)
    ensures Dedupe(Dedupe(base + Flat([b], list), key) + Flat(bs, list), key)
              == Dedupe(base + Flat([b] + bs, list), key)
  {
    hide Dedupe;
    JoinStep(base, b, bs, list);
    DedupeAbsorbs(base + Flat([b], list), Flat(bs, list), key);
  }

  lemma MergeStep(base: Budget, b: Budget, bs: seq<Budget>)
    ensures MergeAll(MergeAll(base, [b]), bs) == MergeAll(base, [b] + bs)
  {
    hide Dedupe, Flat, Sum;
    SumOne(b, bs, (x: Budget) => x.selected);
    SumOne(b, bs, (x: Budget) => x.retained);
    SumOne(b, bs, (x: Budget) => x.plannedLiveCalls);
    JoinStep(base.retainedIds, b, bs, (x: Budget) => x.retainedIds);
    JoinStep(base.deferredIds, b, bs, (x: Budget) => x.deferredIds);
    JoinStep(base.retainedLiveIds, b, bs, (x: Budget) => x.retainedLiveIds);
    JoinStep(base.deferredLiveIds, b, bs, (x: Budget) => x.deferredLiveIds);
    DedupeStep(base.truncation, b, bs, (x: Budget) => x.truncation, NOTICE_KEY);
    DedupeStep(base.omitted, b, bs, (x: Budget) => x.omitted, MARKER_KEY);
    DedupeStep(base.noteIds, b, bs, (x: Budget) => x.noteIds, ITSELF);
    DedupeStep(base.reasons, b, bs, (x: Budget) => x.reasons, ITSELF);
  }

  lemma {:induction false} SumLast(bs: seq<Budget>, b: Budget, count: Budget -> nat)
    ensures Sum(bs + [b], count) == Sum(bs, count) + count(b)
  {
    if bs == [] {
      assert bs + [b] == [b] && [b][1..] == [];
    } else {
      assert (bs + [b])[0] == bs[0] && (bs + [b])[1..] == bs[1..] + [b];
      SumLast(bs[1..], b, count);
    }
  }

  lemma {:induction false} FlatLast<T>(bs: seq<Budget>, b: Budget, list: Budget -> seq<T>)
    ensures Flat(bs + [b], list) == Flat(bs, list) + list(b)
  {
    if bs == [] {
      assert bs + [b] == [b] && [b][1..] == [];
      Unit(list(b));
    } else {
      assert (bs + [b])[0] == bs[0] && (bs + [b])[1..] == bs[1..] + [b];
      FlatLast(bs[1..], b, list);
      Assoc(list(bs[0]), Flat(bs[1..], list), list(b));
    }
  }

  lemma JoinLast<T>(base: seq<T>, bs: seq<Budget>, b: Budget, list: Budget -> seq<T>)
    ensures base + Flat(bs + [b], list) == base + Flat(bs, list) + list(b)
  {
    FlatLast(bs, b, list);
    Assoc(base, Flat(bs, list), list(b));
  }

  lemma DedupeLast<T(!new), K(!new)>(base: seq<T>, bs: seq<Budget>, b: Budget, list: Budget -> seq<T>, key: T -> K)
    ensures Dedupe(base + Flat(bs + [b], list), key) == Dedupe(Dedupe(base + Flat(bs, list), key) + list(b), key)
  {
    hide Dedupe;
    JoinLast(base, bs, b, list);
    DedupeAbsorbs(base + Flat(bs, list), list(b), key);
  }

  /** A merge adds up, budget by budget: counts are added, lists joined, and notices, omissions, notes and reasons
      that are there already left out. Limits and input counts stay those of the base. */
  lemma MergeAddsOne(base: Budget, bs: seq<Budget>, b: Budget)
    ensures var before, after := MergeAll(base, bs), MergeAll(base, bs + [b]);
      && after.limits == base.limits && after.input == base.input
      && after.selected == before.selected + b.selected && after.retained == before.retained + b.retained
      && after.plannedLiveCalls == before.plannedLiveCalls + b.plannedLiveCalls
      && after.retainedIds == before.retainedIds + b.retainedIds
      && after.deferredIds == before.deferredIds + b.deferredIds
      && after.retainedLiveIds == before.retainedLiveIds + b.retainedLiveIds
      && after.deferredLiveIds == before.deferredLiveIds + b.deferredLiveIds
      && after.truncation == Dedupe(before.truncation + b.truncation, NOTICE_KEY)
      && after.omitted == Dedupe(before.omitted + b.omitted, MARKER_KEY)
      && after.noteIds == Dedupe(before.noteIds + b.noteIds, ITSELF)
      && after.reasons == Dedupe(before.reasons + b.reasons, ITSELF)
  {
    hide Dedupe, Flat, Sum;
    SumLast(bs, b, (x: Budget) => x.selected);
    SumLast(bs, b, (x: Budget) => x.retained);
    SumLast(bs, b, (x: Budget) => x.plannedLiveCalls);
    JoinLast(base.retainedIds, bs, b, (x: Budget) => x.retainedIds);
    JoinLast(base.deferredIds, bs, b, (x: Budget) => x.deferredIds);
    JoinLast(base.retainedLiveIds, bs, b, (x: Budget) => x.retainedLiveIds);
    JoinLast(base.deferredLiveIds, bs, b, (x: Budget) => x.deferredLiveIds);
    DedupeLast(base.truncation, bs, b, (x: Budget) => x.truncation, NOTICE_KEY);
    DedupeLast(base.omitted, bs, b, (x: Budget) => x.omitted, MARKER_KEY);
    DedupeLast(base.noteIds, bs, b, (x: Budget) => x.noteIds, ITSELF);
    DedupeLast(base.reasons, bs, b, (x: Budget) => x.reasons, ITSELF);
  }

  /** Merging many budgets at once is merging them one after the other. */
  lemma {:induction false} MergeIsFold(base: Budget, bs: seq<Budget>)
    requires bs != []
    ensures MergeAll(base, bs) == Fold(base, bs)
    decreases |bs|
  {
    hide MergeAll;
    assert [bs[0]] + bs[1..] == bs;
    if |bs| == 1 {
      assert bs == [bs[0]];
    } else {
      MergeIsFold(MergeAll(base, [bs[0]]), bs[1..]);
      MergeStep(base, bs[0], bs[1..]);
    }
  }

  /** Merging nothing changes a budget exactly when one of its four lists has a repeated key. */
  lemma MergeNothingIff(base: Budget)
    ensures MergeAll(base, []) == base <==> Deduped(base)
  {
    hide Dedupe, DistinctKeys, IsFirst;
    Unit(base.truncation);
    Unit(base.omitted);
    Unit(base.noteIds);
    Unit(base.reasons);
    DedupeSameIff(base.truncation, NOTICE_KEY);
    DedupeSameIff(base.omitted, MARKER_KEY);
    DedupeSameIff(base.noteIds, ITSELF);
    DedupeSameIff(base.reasons, ITSELF);
  }

  lemma DedupeSameIff<T(!new), K(!new)>(xs: seq<T>, key: T -> K)
    ensures Dedupe(xs, key) == xs <==> DistinctKeys(xs, key)
  {
    DedupeKeepsFirsts(xs, key);
    if DistinctKeys(xs, key) {
      DedupeFixesDistinct(xs, key);
    }
  }

  lemma NestedStep<T(!new), K(!new)>(base: seq<T>, own: seq<T>, merged: Budget, b: Budget, bs: seq<Budget>,
                                     list: Budget -> seq<T>, key: T -> K)
    requires own == list(b) && list(merged) == Dedupe(own + Flat(bs, list), key)
    ensures Dedupe(base + Flat([merged], list), key) == Dedupe(base + Flat([b] + bs, list), key)
  {
    hide Dedupe;
    FlatOne(merged, [], list);
    FlatOne(b, bs, list);
    DedupeAbsorbsRight(base, own + Flat(bs, list), key);
  }

  /** Merging a merged budget is merging its parts: the run may merge its stages first and add the
      input pass later. */
  lemma MergeNests(base: Budget, b: Budget, bs: seq<Budget>)
    ensures MergeAll(base, [MergeAll(b, bs)]) == MergeAll(base, [b] + bs)
  {
    hide Dedupe, Flat, Sum;
    var m := MergeAll(b, bs);
    SumOne(b, bs, (x: Budget) => x.selected);
    SumOne(b, bs, (x: Budget) => x.retained);
    SumOne(b, bs, (x: Budget) => x.plannedLiveCalls);
    SumOne(m, [], (x: Budget) => x.selected);
    SumOne(m, [], (x: Budget) => x.retained);
    SumOne(m, [], (x: Budget) => x.plannedLiveCalls);
    FlatOne(b, bs, (x: Budget) => x.retainedIds);
    FlatOne(b, bs, (x: Budget) => x.deferredIds);
    FlatOne(b, bs, (x: Budget) => x.retainedLiveIds);
    FlatOne(b, bs, (x: Budget) => x.deferredLiveIds);
    FlatOne(m, [], (x: Budget) => x.retainedIds);
    FlatOne(m, [], (x: Budget) => x.deferredIds);
    FlatOne(m, [], (x: Budget) => x.retainedLiveIds);
    FlatOne(m, [], (x: Budget) => x.deferredLiveIds);
    NestedStep(base.truncation, b.truncation, m, b, bs, (x: Budget) => x.truncation, NOTICE_KEY);
    NestedStep(base.omitted, b.omitted, m, b, bs, (x: Budget) => x.omitted, MARKER_KEY);
    NestedStep(base.noteIds, b.noteIds, m, b, bs, (x: Budget) => x.noteIds, ITSELF);
    NestedStep(base.reasons, b.reasons, m, b, bs, (x: Budget) => x.reasons, ITSELF);
  }
}
