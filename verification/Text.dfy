/** Shared vocabulary, and strings as the program handles them: line endings, splitting, joining
    and the canonical text bodies that every hash is taken of. */
module Text {

  datatype Option<+T> = None | Some(value: T)

  function Last<T>(s: seq<T>): T
    requires s != []
  {
    s[|s| - 1]
  }

  predicate Distinct<T(==)>(xs: seq<T>) {
    forall i, j :: 0 <= i < j < |xs| ==> xs[i] != xs[j]
  }

  lemma {:induction false} DistinctByCount<T>(xs: seq<T>)
    ensures Distinct(xs) <==> forall x :: multiset(xs)[x] <= 1
  {
    if xs != [] {
      assert xs == [xs[0]] + xs[1..];
      DistinctByCount(xs[1..]);
      if Distinct(xs) {
        assert Distinct(xs[1..]);
        assert xs[0] !in xs[1..];
      }
      if forall x :: multiset(xs)[x] <= 1 {
        assert forall x :: multiset(xs[1..])[x] <= multiset(xs)[x];
        assert xs[0] !in multiset(xs[1..]);
        assert forall j :: 0 < j < |xs| ==> xs[j] == xs[1..][j - 1] && xs[j] in multiset(xs[1..]);
      }
    }
  }

  // ----- checks in a row -----

  /** A check, and what is reported when it fails. */
  datatype Check<R> = Check(holds: bool, reason: R)

  /** What is reported of checks made one after another. */
  function FirstFailed<R>(checks: seq<Check<R>>): (r: Option<R>)
    ensures r.None? <==> forall i :: 0 <= i < |checks| ==> checks[i].holds
    ensures r.Some? ==> exists i :: 0 <= i < |checks| && !checks[i].holds && checks[i].reason == r.value
                                    && forall j :: 0 <= j < i ==> checks[j].holds
  {
    if checks == [] then None
    else if !checks[0].holds then Some(checks[0].reason)
    else
      var rest := FirstFailed(checks[1..]);
      assert forall i :: 0 <= i < |checks| - 1 ==> checks[1..][i] == checks[i + 1];
      rest
  }

  lemma {:induction false} FailedConcat<R>(a: seq<Check<R>>, b: seq<Check<R>>)
    ensures FirstFailed(a + b) == if FirstFailed(a).Some? then FirstFailed(a) else FirstFailed(b)
  {
    if a == [] {
      assert a + b == b;
    } else {
      assert (a + b)[0] == a[0] && (a + b)[1..] == a[1..] + b;
      FailedConcat(a[1..], b);
    }
  }

  lemma OneCheck<R>(a: Check<R>)
    ensures FirstFailed([a]) == if !a.holds then Some(a.reason) else None
  {
    assert [a][1..] == [];
  }

  lemma MoreChecks<R>(a: Check<R>, checks: seq<Check<R>>)
    ensures FirstFailed([a] + checks) == if !a.holds then Some(a.reason) else FirstFailed(checks)
  {
    assert ([a] + checks)[1..] == checks;
  }

  lemma ThreeChecks<R>(a: Check<R>, b: Check<R>, c: Check<R>)
    ensures FirstFailed([a, b, c])
         == if !a.holds then Some(a.reason) else if !b.holds then Some(b.reason)
            else if !c.holds then Some(c.reason) else None
  {
    hide FirstFailed;
    assert [a, b, c] == [a] + [b, c] && [b, c] == [b] + [c];
    MoreChecks(a, [b, c]);
    MoreChecks(b, [c]);
    OneCheck(c);
  }

  lemma FourChecks<R>(a: Check<R>, b: Check<R>, c: Check<R>, d: Check<R>)
    ensures FirstFailed([a, b, c, d])
         == if !a.holds then Some(a.reason) else if !b.holds then Some(b.reason)
            else if !c.holds then Some(c.reason) else if !d.holds then Some(d.reason) else None
  {
    hide FirstFailed;
    assert [a, b, c, d] == [a] + [b, c, d];
    MoreChecks(a, [b, c, d]);
    ThreeChecks(b, c, d);
  }

  lemma Unit<T>(a: seq<T>)
    ensures a + [] == a && [] + a == a
  {}

  lemma Assoc<T>(a: seq<T>, b: seq<T>, c: seq<T>)
    ensures (a + b) + c == a + (b + c)
  {}

  /** Decimal digits of a natural number, most significant first. */
  function Decimal(n: nat): (s: string)
    ensures s != ""
  {
    var digit := ['0' + (n % 10) as char];
    if n < 10 then digit else Decimal(n / 10) + digit
  }

  // ----- line endings -----

  function ReplaceCrLf(s: string): string {
    if s == "" then ""
    else if s[0] == '\r' && |s| >= 2 && s[1] == '\n' then ['\n'] + ReplaceCrLf(s[2..])
    else [s[0]] + ReplaceCrLf(s[1..])
  }

  function ReplaceCr(s: string): string {
    if s == "" then "" else [if s[0] == '\r' then '\n' else s[0]] + ReplaceCr(s[1..])
  }

  function NormalizeNewlines(s: string): string {
    ReplaceCr(ReplaceCrLf(s))
  }

  /** Normalizing, from the front: CR LF and a CR alone become one newline, everything else stays. */
  lemma NormalizeSpelledOut(c: char, s: string)
    ensures NormalizeNewlines("\r\n" + s) == "\n" + NormalizeNewlines(s)
    ensures (s == "" || s[0] != '\n') ==> NormalizeNewlines("\r" + s) == "\n" + NormalizeNewlines(s)
    ensures c != '\r' ==> NormalizeNewlines([c] + s) == [c] + NormalizeNewlines(s)
  {
    assert ("\r\n" + s)[2..] == s && ("\r" + s)[1..] == s && ([c] + s)[1..] == s;
    FirstReplaced('\n', ReplaceCrLf(s));
    FirstReplaced('\r', ReplaceCrLf(s));
    FirstReplaced(c, ReplaceCrLf(s));
  }

  lemma FirstReplaced(c: char, s: string)
    ensures ReplaceCr([c] + s) == [if c == '\r' then '\n' else c] + ReplaceCr(s)
  {
    assert ([c] + s)[1..] == s;
  }

  lemma {:induction false} NormalizedHasNoCr(s: string)
    ensures '\r' !in NormalizeNewlines(s)
  {
    ReplaceCrHasNoCr(ReplaceCrLf(s));
  }

  lemma ReplaceCrHasNoCr(s: string)
    ensures '\r' !in ReplaceCr(s)
  {}

  lemma NormalizeFixesCrFree(s: string)
    requires '\r' !in s
    ensures NormalizeNewlines(s) == s
  {
    ReplaceCrLfFixesCrFree(s);
    ReplaceCrFixesCrFree(s);
  }

  lemma ReplaceCrLfFixesCrFree(s: string)
    requires '\r' !in s
    ensures ReplaceCrLf(s) == s
  {}

  lemma ReplaceCrFixesCrFree(s: string)
    requires '\r' !in s
    ensures ReplaceCr(s) == s
  {}

  /** What a store that keeps CRLF line endings makes of a text. */
  function ToCrLf(s: string): string {
    if s == "" then ""
    else (if s[0] == '\n' then "\r\n" else [s[0]]) + ToCrLf(s[1..])
  }

  lemma {:induction false} NormalizeUndoesCrLf(s: string)
    requires '\r' !in s
    ensures NormalizeNewlines(ToCrLf(s)) == s
  {
    ReplaceCrLfUndoesCrLf(s);
    ReplaceCrFixesCrFree(s);
  }

  lemma {:induction false} ReplaceCrLfUndoesCrLf(s: string)
    requires '\r' !in s
    ensures ReplaceCrLf(ToCrLf(s)) == s
  {
    if s != "" {
      var rest := ToCrLf(s[1..]);
      if s[0] == '\n' {
        assert ToCrLf(s)[2..] == rest;
      } else {
        assert ToCrLf(s)[1..] == rest;
      }
      ReplaceCrLfUndoesCrLf(s[1..]);
    }
  }

  // ----- split and join -----

  function Split(s: string, sep: char): (parts: seq<string>)
    ensures |parts| >= 1
  {
    if s == "" then [""]
    else
      var rest := Split(s[1..], sep);
      if s[0] == sep then [""] + rest else [[s[0]] + rest[0]] + rest[1..]
  }

  function Join(parts: seq<string>, sep: char): string {
    if parts == [] then ""
    else if |parts| == 1 then parts[0]
    else parts[0] + [sep] + Join(parts[1..], sep)
  }

  lemma {:induction false} JoinSplit(s: string, sep: char)
    ensures Join(Split(s, sep), sep) == s
  {
    if s != "" {
      JoinSplit(s[1..], sep);
      var rest := Split(s[1..], sep);
      if s[0] == sep {
        assert ([""] + rest)[1..] == rest;
      } else {
        assert ([[s[0]] + rest[0]] + rest[1..])[1..] == rest[1..];
      }
    }
  }

  lemma {:induction false} SplitWhole(s: string, sep: char)
    requires sep !in s
    ensures Split(s, sep) == [s]
  {
    if s != "" {
      SplitWhole(s[1..], sep);
      assert [s[0]] + s[1..] == s;
    }
  }

  lemma {:induction false} SplitConcat(a: string, sep: char, b: string)
    ensures Split(a + [sep] + b, sep) == Split(a, sep) + Split(b, sep)
  {
    if a == "" {
      assert a + [sep] + b == [sep] + b;
      assert ([sep] + b)[1..] == b;
    } else {
      assert (a + [sep] + b)[1..] == a[1..] + [sep] + b;
      SplitConcat(a[1..], sep, b);
    }
  }

  lemma {:induction false} SplitPartsLackSep(s: string, sep: char)
    ensures forall i :: 0 <= i < |Split(s, sep)| ==> sep !in Split(s, sep)[i]
  {
    if s != "" {
      SplitPartsLackSep(s[1..], sep);
    }
  }

  lemma {:induction false} JoinSnoc(parts: seq<string>, sep: char, x: string)
    requires parts != []
    ensures Join(parts + [x], sep) == Join(parts, sep) + [sep] + x
  {
    var longer := parts + [x];
    assert longer[1..] == parts[1..] + [x];
    if |parts| > 1 {
      JoinSnoc(parts[1..], sep, x);
      assert parts[0] + [sep] + (Join(parts[1..], sep) + [sep] + x)
          == (parts[0] + [sep] + Join(parts[1..], sep)) + [sep] + x;
    } else {
      assert parts[1..] + [x] == [x];
    }
  }

  lemma {:induction false} SplitJoin(parts: seq<string>, sep: char)
    requires parts != [] && forall i :: 0 <= i < |parts| ==> sep !in parts[i]
    ensures Split(Join(parts, sep), sep) == parts
  {
    SplitWhole(parts[0], sep);
    if |parts| > 1 {
      SplitJoin(parts[1..], sep);
      SplitConcat(parts[0], sep, Join(parts[1..], sep));
      assert [parts[0]] + parts[1..] == parts;
    } else {
      assert [parts[0]] == parts;
    }
  }

  // ----- trailing newlines -----

  function RStripNewlines(s: string): string {
    if s != "" && Last(s) == '\n' then RStripNewlines(s[..|s| - 1]) else s
  }

  lemma {:induction false} RStripIsPrefix(s: string)
    ensures RStripNewlines(s) <= s
    ensures RStripNewlines(s) == "" || Last(RStripNewlines(s)) != '\n'
  {
    if s != "" && Last(s) == '\n' {
      RStripIsPrefix(s[..|s| - 1]);
    }
  }

  function CanonicalTextBody(text: string): string {
    RStripNewlines(NormalizeNewlines(text)) + "\n"
  }

  /** A text whose lines end in LF, with exactly one newline at the end. */
  predicate IsCanonical(s: string) {
    '\r' !in s && s != "" && Last(s) == '\n' && (|s| >= 2 ==> s[|s| - 2] != '\n')
  }

  lemma {:induction false} CanonicalBodyIsCanonical(text: string)
    ensures IsCanonical(CanonicalTextBody(text))
  {
    NormalizedHasNoCr(text);
    RStripIsPrefix(NormalizeNewlines(text));
  }

  lemma {:induction false} CanonicalFixesCanonical(s: string)
    requires IsCanonical(s)
    ensures CanonicalTextBody(s) == s
    ensures CanonicalTextBody(s[..|s| - 1]) == s
  {
    var x := s[..|s| - 1];
    assert s == x + "\n";
    NormalizeFixesCrFree(s);
    NormalizeFixesCrFree(x);
    assert RStripNewlines(x) == x;
    assert RStripNewlines(s) == x;
  }

  /** Canonicalising forgets CRLF endings. */
  lemma {:induction false} CanonicalForgetsCrLf(s: string)
    requires IsCanonical(s)
    ensures CanonicalTextBody(ToCrLf(s)) == s
  {
    NormalizeUndoesCrLf(s);
    NormalizeFixesCrFree(s);
    CanonicalFixesCanonical(s);
  }
}
