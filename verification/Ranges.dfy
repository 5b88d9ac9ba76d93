/** Ranges of changed lines and the merging of neighbouring ones. */
module Ranges {
  import opened Text

  datatype Range = Range(start: int, end: int)

  predicate Covers(rs: seq<Range>, line: int) {
    exists i :: 0 <= i < |rs| && rs[i].start <= line <= rs[i].end
  }

  predicate NonEmpty(rs: seq<Range>) {
    forall i :: 0 <= i < |rs| ==> rs[i].start <= rs[i].end
  }

  function Merge(cur: Range, r: Range): Range {
    Range(cur.start, if cur.end >= r.end then cur.end else r.end)
  }

  function CoalesceFrom(cur: Range, rest: seq<Range>): (out: seq<Range>)
    ensures out != []
    decreases |rest|
  {
    if rest == [] then [cur]
    else if rest[0].start <= cur.end + 1 then CoalesceFrom(Merge(cur, rest[0]), rest[1..])
    else [cur] + CoalesceFrom(rest[0], rest[1..])
  }

  function Coalesce(rs: seq<Range>): seq<Range>
    requires rs != []
  {
    CoalesceFrom(rs[0], rs[1..])
  }

  method CoalesceChangedRanges(rs: seq<Range>) returns (coalesced: seq<Range>)
    requires rs != []
    ensures coalesced == Coalesce(rs)
  {
    coalesced := [];
    var current := rs[0];
    for i := 1 to |rs|
      invariant Coalesce(rs) == coalesced + CoalesceFrom(current, rs[i..])
    {
      assert rs[i..][0] == rs[i] && rs[i..][1..] == rs[i + 1..];
      if rs[i].start <= current.end + 1 {
        current := Range(current.start, if current.end >= rs[i].end then current.end else rs[i].end);
      } else {
        Assoc(coalesced, [current], CoalesceFrom(rs[i], rs[i + 1..]));
        coalesced := coalesced + [current];
        current := rs[i];
      }
    }
    coalesced := coalesced + [current];
  }

  /** Strictly increasing, with at least one line between neighbours. */
  predicate Separated(rs: seq<Range>) {
    NonEmpty(rs) && forall i, j :: 0 <= i < j < |rs| ==> rs[i].end + 1 < rs[j].start
  }

  lemma {:induction false} CoalesceSeparates(cur: Range, rest: seq<Range>)
    requires cur.start <= cur.end && NonEmpty(rest)
    ensures Separated(CoalesceFrom(cur, rest)) && CoalesceFrom(cur, rest)[0].start == cur.start
    decreases |rest|
  {
    if rest != [] {
      if rest[0].start <= cur.end + 1 {
        CoalesceSeparates(Merge(cur, rest[0]), rest[1..]);
      } else {
        CoalesceSeparates(rest[0], rest[1..]);
        var tail := CoalesceFrom(rest[0], rest[1..]);
        assert forall j :: 0 <= j < |tail| ==> tail[0].start <= tail[j].start;
      }
    }
  }

  lemma CoversSplit(rs: seq<Range>, line: int)
    requires rs != []
    ensures Covers(rs, line) <==> rs[0].start <= line <= rs[0].end || Covers(rs[1..], line)
  {
    if Covers(rs, line) {
      var i :| 0 <= i < |rs| && rs[i].start <= line <= rs[i].end;
      assert i > 0 ==> rs[1..][i - 1] == rs[i];
    }
    if Covers(rs[1..], line) {
      var i :| 0 <= i < |rs[1..]| && rs[1..][i].start <= line <= rs[1..][i].end;
      assert rs[i + 1] == rs[1..][i];
    }
  }

  /** No line is invented. */
  lemma {:induction false} CoalesceInventsNothing(cur: Range, rest: seq<Range>, line: int)
    requires cur.start <= cur.end && NonEmpty(rest)
    requires Covers(CoalesceFrom(cur, rest), line)
    ensures cur.start <= line <= cur.end || Covers(rest, line)
    decreases |rest|
  {
    CoversSplit(CoalesceFrom(cur, rest), line);
    if rest != [] {
      CoversSplit(rest, line);
      if rest[0].start <= cur.end + 1 {
        CoalesceInventsNothing(Merge(cur, rest[0]), rest[1..], line);
      } else if Covers(CoalesceFrom(rest[0], rest[1..]), line) {
        CoalesceInventsNothing(rest[0], rest[1..], line);
      }
    }
  }

  /** A merge never drops lines: where a range starts before the one it is merged into, the lines in
      between are already in the output. */
  ghost predicate DropsNothing(done: seq<Range>, cur: Range, rest: seq<Range>)
    decreases |rest|
  {
    if rest == [] then true
    else if rest[0].start <= cur.end + 1 then
      && (forall line :: rest[0].start <= line <= rest[0].end && line < cur.start ==> Covers(done, line))
      && DropsNothing(done, Merge(cur, rest[0]), rest[1..])
    else DropsNothing(done + [cur], rest[0], rest[1..])
  }

  lemma CoversConcat(a: seq<Range>, b: seq<Range>, line: int)
    ensures Covers(a + b, line) <==> Covers(a, line) || Covers(b, line)
  {
    if Covers(a, line) {
      var i :| 0 <= i < |a| && a[i].start <= line <= a[i].end;
      assert (a + b)[i] == a[i];
    }
    if Covers(b, line) {
      var i :| 0 <= i < |b| && b[i].start <= line <= b[i].end;
      assert (a + b)[|a| + i] == b[i];
    }
  }

  lemma {:induction false} DropsNothingKeeps(done: seq<Range>, cur: Range, rest: seq<Range>, line: int)
    requires cur.start <= cur.end && NonEmpty(rest) && DropsNothing(done, cur, rest)
    requires Covers(done, line) || cur.start <= line <= cur.end || Covers(rest, line)
    ensures Covers(done + CoalesceFrom(cur, rest), line)
    decreases |rest|
  {
    CoversConcat(done, CoalesceFrom(cur, rest), line);
    CoversSplit(CoalesceFrom(cur, rest), line);
    if rest != [] {
      CoversSplit(rest, line);
      if rest[0].start <= cur.end + 1 {
        DropsNothingKeeps(done, Merge(cur, rest[0]), rest[1..], line);
      } else {
        CoversConcat(done, [cur], line);
        assert cur.start <= line <= cur.end ==> Covers([cur], line) by { assert [cur][0] == cur; }
        DropsNothingKeeps(done + [cur], rest[0], rest[1..], line);
        Assoc(done, [cur], CoalesceFrom(rest[0], rest[1..]));
      }
    }
  }

  /** A dropped line stays dropped: everything merged later starts after it. */
  lemma {:induction false} DroppedIsLost(done: seq<Range>, cur: Range, rest: seq<Range>) returns (line: int)
    requires cur.start <= cur.end && NonEmpty(rest) && !DropsNothing(done, cur, rest)
    ensures Covers(rest, line) && !Covers(done + CoalesceFrom(cur, rest), line)
    decreases |rest|
  {
    var r := rest[0];
    if r.start <= cur.end + 1 {
      if x :| r.start <= x <= r.end && x < cur.start && !Covers(done, x) {
        line := x;
        CoversSplit(rest, line);
        CoversConcat(done, CoalesceFrom(cur, rest), line);
        CoalesceSeparates(cur, rest);
        var out := CoalesceFrom(cur, rest);
        assert forall i :: 0 <= i < |out| ==> out[0].start <= out[i].start;
      } else {
        line := DroppedIsLost(done, Merge(cur, r), rest[1..]);
        CoversSplit(rest, line);
      }
    } else {
      line := DroppedIsLost(done + [cur], r, rest[1..]);
      CoversSplit(rest, line);
      Assoc(done, [cur], CoalesceFrom(r, rest[1..]));
    }
  }

  /** Coalescing covers exactly the lines of its input if and only if no merge drops any. */
  lemma {:induction false} CoalesceExactIff(rs: seq<Range>)
    requires rs != [] && NonEmpty(rs)
    ensures Separated(Coalesce(rs))
    ensures (forall line :: Covers(Coalesce(rs), line) ==> Covers(rs, line))
    ensures (forall line :: Covers(rs, line) <==> Covers(Coalesce(rs), line)) <==> DropsNothing([], rs[0], rs[1..])
  {
    assert NonEmpty(rs[1..]);
    CoalesceSeparates(rs[0], rs[1..]);
    forall line | Covers(Coalesce(rs), line) ensures Covers(rs, line) {
      CoversSplit(rs, line);
      CoalesceInventsNothing(rs[0], rs[1..], line);
    }
    Unit(Coalesce(rs));
    if DropsNothing([], rs[0], rs[1..]) {
      forall line | Covers(rs, line) ensures Covers(Coalesce(rs), line) {
        CoversSplit(rs, line);
        DropsNothingKeeps([], rs[0], rs[1..], line);
      }
    } else {
      var lost := DroppedIsLost([], rs[0], rs[1..]);
      CoversSplit(rs, lost);
    }
  }

  predicate SortedByStart(rs: seq<Range>) {
    forall i, j :: 0 <= i < j < |rs| ==> rs[i].start <= rs[j].start
  }

  /** Sorted starts are enough. */
  lemma {:induction false} SortedDropsNothing(done: seq<Range>, cur: Range, rest: seq<Range>)
    requires SortedByStart([cur] + rest)
    ensures DropsNothing(done, cur, rest)
    decreases |rest|
  {
    if rest != [] {
      assert ([cur] + rest)[0] == cur && ([cur] + rest)[1] == rest[0];
      assert forall i :: 0 < i <= |rest| ==> ([cur] + rest)[i] == rest[i - 1];
      var next := if rest[0].start <= cur.end + 1 then Merge(cur, rest[0]) else rest[0];
      assert forall i :: 0 < i < |rest| ==> ([next] + rest[1..])[i] == ([cur] + rest)[i + 1];
      SortedDropsNothing(done, next, rest[1..]);
      SortedDropsNothing(done + [cur], next, rest[1..]);
    }
  }

  /** With an out-of-order hunk the coverage is lost. */
  lemma {:induction false} UnsortedLosesCoverage()
    ensures Coalesce([Range(10, 12), Range(1, 3)]) == [Range(10, 12)]
    ensures Covers([Range(10, 12), Range(1, 3)], 2) && !Covers(Coalesce([Range(10, 12), Range(1, 3)]), 2)
  {
    var rs := [Range(10, 12), Range(1, 3)];
    assert rs[1] == Range(1, 3);
    assert rs[1..] == [Range(1, 3)];
    assert [Range(1, 3)][1..] == [];
  }
}
