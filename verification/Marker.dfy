/** The hidden marker line that ties a posted comment to a review: its printer, the regular
    expression of hashing.py and the hand-written parser of models.py. */
module Marker {
  import opened Text

  datatype Marker = Marker(runId: string, target: string, payload: string, findings: string)

  // ----- character classes and field shapes -----

  predicate IsDigit(c: char) { '0' <= c <= '9' }

  predicate IsAlnum(c: char) { IsDigit(c) || 'a' <= c <= 'z' || 'A' <= c <= 'Z' }

  predicate IsHex(c: char) { IsDigit(c) || 'a' <= c <= 'f' }

  predicate IsRunIdChar(c: char) { IsAlnum(c) || c in "._:/#-" }

  predicate AllHex(s: string) { forall i :: 0 <= i < |s| ==> IsHex(s[i]) }

  predicate IsRunId(s: string) {
    1 <= |s| <= 128 && IsAlnum(s[0]) && forall i :: 0 <= i < |s| ==> IsRunIdChar(s[i])
  }

  const HASH_PREFIX := "sha256:"

  predicate IsStrictHash(s: string) {
    |s| == 71 && s[..7] == HASH_PREFIX && AllHex(s[7..])
  }

  predicate WellFormed(m: Marker) {
    IsRunId(m.runId) && IsStrictHash(m.target) && IsStrictHash(m.payload) && IsStrictHash(m.findings)
  }

  /** Letters and digits by their ASCII codes. */
  predicate CodeOfDigit(n: int) { n in {48, 49, 50, 51, 52, 53, 54, 55, 56, 57} }

  predicate CodeOfLetter(n: int) { 65 <= n < 65 + 26 || 97 <= n < 97 + 26 }

  /** The grammar of the fields, spelled out: sixty-four lower-case hexadecimal digits after the prefix; and a letter
      or digit, followed by at most 127 letters, digits and signs. */
  lemma FieldsSpelledOut(s: string)
    ensures IsStrictHash(s) <==>
              |s| == 71 && s[..7] == "sha256:"
              && forall i :: 7 <= i < 71 ==> CodeOfDigit(s[i] as int) || s[i] in "abcdef"
    ensures IsRunId(s) <==>
              && 1 <= |s| <= 128 && (CodeOfDigit(s[0] as int) || CodeOfLetter(s[0] as int))
              && forall i :: 0 <= i < |s| ==>
                   CodeOfDigit(s[i] as int) || CodeOfLetter(s[i] as int) || s[i] in "._:/#-"
  {
    if |s| == 71 {
      assert forall i :: 7 <= i < 71 ==> s[i] == s[7..][i - 7];
      assert forall i :: 0 <= i < 64 ==> s[7..][i] == s[i + 7];
    }
  }

  // ----- the printer -----

  const OPEN := "<!-- reviewgraph:v1 "
  const CLOSE := " -->"
  const NAMES := ["run_id", "target", "payload", "findings"]

  function Fields(m: Marker): seq<string> {
    [NAMES[0] + "=" + m.runId, NAMES[1] + "=" + m.target, NAMES[2] + "=" + m.payload, NAMES[3] + "=" + m.findings]
  }

  function Print(m: Marker): string {
    OPEN + Join(Fields(m), ' ') + CLOSE
  }

  // ----- a matcher for the fragment of regular expressions the marker uses -----

  datatype Class = RunHead | RunTail | HexDigit
  {
    predicate Has(c: char) {
      match this
      case RunHead => IsAlnum(c)
      case RunTail => IsRunIdChar(c)
      case HexDigit => IsHex(c)
    }
  }

  /** A literal, or a class repeated between lo and hi times. */
  datatype Piece = Lit(text: string) | Rep(cls: Class, lo: nat, hi: nat)
  {
    ghost predicate Accepts(s: string) {
      match this
      case Lit(text) => s == text
      case Rep(cls, lo, hi) => lo <= |s| <= hi && forall i :: 0 <= i < |s| ==> cls.Has(s[i])
    }
  }

  function RunLength(cls: Class, s: string, limit: nat): (n: nat)
    ensures n <= |s| && n <= limit
    ensures forall i :: 0 <= i < n ==> cls.Has(s[i])
    ensures n == |s| || n == limit || !cls.Has(s[n])
  {
    if s == "" || limit == 0 || !cls.Has(s[0]) then 0 else 1 + RunLength(cls, s[1..], limit - 1)
  }

  /** Full match, greedy with backtracking: what each piece captured, or None. */
  function FullMatch(ps: seq<Piece>, s: string): Option<seq<string>>
    decreases |ps|, 0, 0
  {
    if ps == [] then
      if s == "" then Some([]) else None
    else
      match ps[0]
      case Lit(text) => if text <= s then Captured(text, ps[1..], s[|text|..]) else None
      case Rep(cls, lo, hi) => Backtrack(RunLength(cls, s, hi), lo, ps[1..], s)
  }

  function Captured(first: string, rest: seq<Piece>, s: string): Option<seq<string>>
    decreases |rest|, 1, 0
  {
    match FullMatch(rest, s)
    case Some(captures) => Some([first] + captures)
    case None => None
  }

  function Backtrack(k: nat, lo: nat, rest: seq<Piece>, s: string): Option<seq<string>>
    requires k <= |s|
    decreases |rest|, 2, k
  {
    if k < lo then None
    else
      var longest := Captured(s[..k], rest, s[k..]);
      if longest.Some? || k == 0 then longest else Backtrack(k - 1, lo, rest, s)
  }

  function Flatten(parts: seq<string>): string {
    if parts == [] then "" else parts[0] + Flatten(parts[1..])
  }

  /** The pieces of s, cut as the captures say, are each accepted: s is in the language. */
  ghost predicate Decomposes(ps: seq<Piece>, s: string, captures: seq<string>) {
    |captures| == |ps| && Flatten(captures) == s
    && forall i :: 0 <= i < |ps| ==> ps[i].Accepts(captures[i])
  }

  lemma {:induction false} FullMatchIsSound(ps: seq<Piece>, s: string)
    ensures FullMatch(ps, s).Some? ==> Decomposes(ps, s, FullMatch(ps, s).value)
    decreases |ps|, 0, 0
  {
    if ps != [] {
      match ps[0]
      case Lit(text) =>
        if text <= s {
          CapturedIsSound(text, ps, s);
        }
      case Rep(cls, lo, hi) =>
        BacktrackIsSound(RunLength(cls, s, hi), ps, s);
    }
  }

  lemma {:induction false} CapturedIsSound(first: string, ps: seq<Piece>, s: string)
    requires ps != [] && first <= s && ps[0].Accepts(first)
    ensures var r := Captured(first, ps[1..], s[|first|..]); r.Some? ==> Decomposes(ps, s, r.value)
    decreases |ps| - 1, 1, 0
  {
    FullMatchIsSound(ps[1..], s[|first|..]);
    var r := Captured(first, ps[1..], s[|first|..]);
    if r.Some? {
      var tail := FullMatch(ps[1..], s[|first|..]).value;
      assert r.value[1..] == tail;
      forall i | 0 <= i < |ps| ensures ps[i].Accepts(r.value[i]) {
        if i > 0 {
          assert ps[1..][i - 1].Accepts(tail[i - 1]);
        }
      }
    }
  }

  lemma {:induction false} BacktrackIsSound(k: nat, ps: seq<Piece>, s: string)
    requires ps != [] && ps[0].Rep? && k <= |s| && k <= ps[0].hi
    requires forall i :: 0 <= i < k ==> ps[0].cls.Has(s[i])
    ensures var r := Backtrack(k, ps[0].lo, ps[1..], s); r.Some? ==> Decomposes(ps, s, r.value)
    decreases |ps| - 1, 2, k
  {
    if k >= ps[0].lo {
      CapturedIsSound(s[..k], ps, s);
      if k > 0 {
        BacktrackIsSound(k - 1, ps, s);
      }
    }
  }

  lemma {:induction false} FullMatchIsComplete(ps: seq<Piece>, s: string, captures: seq<string>)
    requires Decomposes(ps, s, captures)
    ensures FullMatch(ps, s).Some?
  {
    if ps != [] {
      var first, rest := captures[0], captures[1..];
      assert ps[0].Accepts(first);
      assert s == first + Flatten(rest);
      assert s[|first|..] == Flatten(rest);
      forall i | 0 <= i < |ps| - 1 ensures ps[1..][i].Accepts(rest[i]) {
        assert ps[i + 1].Accepts(captures[i + 1]);
      }
      FullMatchIsComplete(ps[1..], s[|first|..], rest);
      if ps[0].Rep? {
        var n := RunLength(ps[0].cls, s, ps[0].hi);
        assert forall i :: 0 <= i < |first| ==> s[i] == first[i];
        assert n >= |first|;
        assert s[..|first|] == first;
        BacktrackFinds(n, |first|, ps[0].lo, ps[1..], s);
      }
    }
  }

  lemma {:induction false} BacktrackFinds(k: nat, goal: nat, lo: nat, rest: seq<Piece>, s: string)
    requires lo <= goal <= k <= |s| && FullMatch(rest, s[goal..]).Some?
    ensures Backtrack(k, lo, rest, s).Some?
    decreases k
  {
    if goal < k {
      BacktrackFinds(k - 1, goal, lo, rest, s);
    }
  }

  // ----- the regular expression of hashing.py -----

  const MARKER_RE: seq<Piece> := [
    Lit("<!-- reviewgraph:v1 run_id="), Rep(RunHead, 1, 1), Rep(RunTail, 0, 127),
    Lit(" target=sha256:"), Rep(HexDigit, 64, 64),
    Lit(" payload=sha256:"), Rep(HexDigit, 64, 64),
    Lit(" findings=sha256:"), Rep(HexDigit, 64, 64),
    Lit(" -->")
  ]

  function Groups(captures: seq<string>): Marker
    requires |captures| == 10
  {
    Marker(captures[1] + captures[2], HASH_PREFIX + captures[4], HASH_PREFIX + captures[6], HASH_PREFIX + captures[8])
  }

  function ParseByRegex(line: string): Option<Marker> {
    match FullMatch(MARKER_RE, line)
    case Some(captures) => FullMatchIsSound(MARKER_RE, line); Some(Groups(captures))
    case None => None
  }

  predicate IsMarkerLine(line: string) {
    ParseByRegex(line).Some?
  }

  // ----- the hand-written parser of models.py -----

  function IndexOf(s: string, c: char): (i: nat)
    ensures i <= |s| && c !in s[..i] && (i < |s| ==> s[i] == c) && (c in s ==> i < |s|)
  {
    if s == "" || s[0] == c then 0 else 1 + IndexOf(s[1..], c)
  }

  function Key(part: string): string { part[..IndexOf(part, '=')] }

  function Value(part: string): string
    requires '=' in part
  {
    part[IndexOf(part, '=') + 1..]
  }

  predicate Framed(line: string) {
    OPEN <= line && |CLOSE| <= |line| && line[|line| - |CLOSE|..] == CLOSE
  }

  function Inner(line: string): string
    requires Framed(line)
  {
    if |OPEN| <= |line| - |CLOSE| then line[|OPEN|..|line| - |CLOSE|] else ""
  }

  predicate NamedInOrder(parts: seq<string>) {
    |parts| == 4 && forall i :: 0 <= i < 4 ==> '=' in parts[i] && Key(parts[i]) == NAMES[i]
  }

  function ParseBySplit(line: string): Option<Marker> {
    if !Framed(line) then None
    else
      var parts := Split(Inner(line), ' ');
      if !NamedInOrder(parts) then None
      else
        var m := Marker(Value(parts[0]), Value(parts[1]), Value(parts[2]), Value(parts[3]));
        if WellFormed(m) then Some(m) else None
  }

  /** The parser as written: it fills a dictionary, kept here as the keys and values in
      insertion order, and refuses repeated or unknown keys on the way. */
  method ParseFields(line: string) returns (fields: Option<Marker>)
    ensures fields == ParseBySplit(line)
  {
    hide Framed, Inner, Key, Value, Split, WellFormed;
    if !Framed(line) {
      return None;
    }
    var parts := Split(Inner(line), ' ');
    if |parts| != 4 {
      return None;
    }
    var keys: seq<string>, values: seq<string> := [], [];
    for i := 0 to |parts|
      invariant |keys| == |values| == i
      invariant forall j :: 0 <= j < i ==> '=' in parts[j] && keys[j] == Key(parts[j]) && values[j] == Value(parts[j])
    {
      if '=' !in parts[i] {
        return None;
      }
      var key, value := Key(parts[i]), Value(parts[i]);
      if key in keys || key !in NAMES {
        DistinctNames(parts, i, keys);
        return None;
      }
      keys, values := keys + [key], values + [value];
    }
    if keys != NAMES {
      return None;
    }
    assert forall i :: 0 <= i < 4 ==> keys[i] == Key(parts[i]);
    var m := Marker(values[0], values[1], values[2], values[3]);
    return if WellFormed(m) then Some(m) else None;
  }

  lemma DistinctNames(parts: seq<string>, i: nat, keys: seq<string>)
    requires |parts| == 4 && i < 4 && |keys| == i
    requires forall j :: 0 <= j < i ==> keys[j] == Key(parts[j])
    ensures NamedInOrder(parts) ==> Key(parts[i]) in NAMES && Key(parts[i]) !in keys
  {
    if NamedInOrder(parts) {
      assert Key(parts[i]) == NAMES[i];
      assert |NAMES[0]| == 6 && |NAMES[1]| == 6 && |NAMES[2]| == 7 && |NAMES[3]| == 8;
      assert NAMES[0][0] != NAMES[1][0];
    }
  }

  // ----- one language -----

  lemma {:induction false} FirstIndex(s: string, c: char, n: nat)
    requires n < |s| && s[n] == c && c !in s[..n]
    ensures IndexOf(s, c) == n
  {
    if n > 0 {
      assert s[0] == s[..n][0];
      assert s[1..][..n - 1] == s[..n][1..];
      FirstIndex(s[1..], c, n - 1);
    }
  }

  lemma {:induction false} KeyValue(name: string, value: string)
    requires '=' !in name
    ensures '=' in name + "=" + value
    ensures Key(name + "=" + value) == name && Value(name + "=" + value) == value
  {
    var part := name + "=" + value;
    assert part[..|name|] == name && part[|name|] == '=';
    FirstIndex(part, '=', |name|);
    assert part[|name| + 1..] == value;
  }

  lemma {:induction false} KeyValueRebuilds(part: string)
    requires '=' in part
    ensures part == Key(part) + "=" + Value(part)
  {
    var i := IndexOf(part, '=');
    assert part == part[..i] + [part[i]] + part[i + 1..];
  }

  lemma FieldLacksSpace(name: string, value: string)
    requires ' ' !in name
    requires IsRunId(value) || IsStrictHash(value)
    ensures ' ' !in name + "=" + value
  {
    if IsStrictHash(value) {
      assert value == value[..7] + value[7..];
      assert ' ' !in value[..7];
      assert forall i :: 0 <= i < |value[7..]| ==> IsHex(value[7..][i]);
      assert ' ' !in value[7..];
    } else {
      assert forall i :: 0 <= i < |value| ==> IsRunIdChar(value[i]);
    }
    assert ' ' !in value;
  }

  lemma {:induction false} SplitFields(m: Marker)
    requires WellFormed(m)
    ensures Split(Join(Fields(m), ' '), ' ') == Fields(m)
  {
    var fs := Fields(m);
    FieldLacksSpace(NAMES[0], m.runId);
    FieldLacksSpace(NAMES[1], m.target);
    FieldLacksSpace(NAMES[2], m.payload);
    FieldLacksSpace(NAMES[3], m.findings);
    forall i | 0 <= i < 4 ensures Split(fs[i], ' ') == [fs[i]] {
      SplitWhole(fs[i], ' ');
    }
    SplitConcat(fs[2], ' ', fs[3]);
    SplitConcat(fs[1], ' ', fs[2] + " " + fs[3]);
    SplitConcat(fs[0], ' ', fs[1] + " " + (fs[2] + " " + fs[3]));
    assert Join(fs[2..], ' ') == fs[2] + " " + fs[3];
    assert fs[1..][1..] == fs[2..];
    assert Join(fs[1..], ' ') == fs[1] + " " + Join(fs[2..], ' ');
  }

  lemma {:induction false} PrintFramed(m: Marker)
    ensures Framed(Print(m)) && Inner(Print(m)) == Join(Fields(m), ' ')
  {
  }

  /** Parsing a printed marker gives back what was printed, whatever well-formed fields it has. */
  lemma {:induction false} SplitParsesPrinted(m: Marker)
    requires WellFormed(m)
    ensures ParseBySplit(Print(m)) == Some(m)
  {
    PrintFramed(m);
    SplitFields(m);
    FieldsParse(m);
  }

  lemma {:induction false} FieldsParse(m: Marker)
    ensures NamedInOrder(Fields(m))
    ensures Marker(Value(Fields(m)[0]), Value(Fields(m)[1]), Value(Fields(m)[2]), Value(Fields(m)[3])) == m
  {
    KeyValue(NAMES[0], m.runId);
    KeyValue(NAMES[1], m.target);
    KeyValue(NAMES[2], m.payload);
    KeyValue(NAMES[3], m.findings);
  }

  /** The hand-written parser accepts only printed markers. */
  lemma {:induction false} SplitAcceptsOnlyPrinted(line: string)
    requires ParseBySplit(line).Some?
    ensures line == Print(ParseBySplit(line).value) && WellFormed(ParseBySplit(line).value)
  {
    var m := ParseBySplit(line).value;
    var parts := Split(Inner(line), ' ');
    forall i | 0 <= i < 4 ensures parts[i] == Fields(m)[i] {
      KeyValueRebuilds(parts[i]);
    }
    assert parts == Fields(m);
    JoinSplit(Inner(line), ' ');
    assert Inner(line) != "";
    assert line == OPEN + Inner(line) + CLOSE;
  }

  lemma {:induction false} RegexAcceptsOnlyPrinted(line: string)
    requires ParseByRegex(line).Some?
    ensures line == Print(ParseByRegex(line).value) && WellFormed(ParseByRegex(line).value)
  {
    FullMatchIsSound(MARKER_RE, line);
    var c := FullMatch(MARKER_RE, line).value;
    CapturesPrint(c);
  }

  lemma {:induction false} CapturesPrint(c: seq<string>)
    requires |c| == 10 && forall i :: 0 <= i < 10 ==> MARKER_RE[i].Accepts(c[i])
    ensures Flatten(c) == Print(Groups(c)) && WellFormed(Groups(c))
  {
    CapturesWellFormed(c);
    LiteralCaptures(c);
    CapturesReassemble(c);
  }

  lemma LiteralCaptures(c: seq<string>)
    requires |c| == 10 && forall i :: 0 <= i < 10 ==> MARKER_RE[i].Accepts(c[i])
    ensures c[0] == MARKER_RE[0].text && c[3] == MARKER_RE[3].text && c[5] == MARKER_RE[5].text
    ensures c[7] == MARKER_RE[7].text && c[9] == MARKER_RE[9].text
  {
    assert MARKER_RE[0].Accepts(c[0]) && MARKER_RE[3].Accepts(c[3]) && MARKER_RE[5].Accepts(c[5]);
    assert MARKER_RE[7].Accepts(c[7]) && MARKER_RE[9].Accepts(c[9]);
  }

  lemma {:induction false} CapturesReassemble(c: seq<string>)
    requires |c| == 10
    requires c[0] == MARKER_RE[0].text && c[3] == MARKER_RE[3].text && c[5] == MARKER_RE[5].text
    requires c[7] == MARKER_RE[7].text && c[9] == MARKER_RE[9].text
    ensures Flatten(c) == Print(Groups(c))
  {
    var fs := Fields(Groups(c));
    LiteralsCut();
    Flatten10(c);
    Refield(c[7], NAMES[3], c[8], c[9]);
    Refield(c[5], NAMES[2], c[6], " " + fs[3] + c[9]);
    Refield(c[3], NAMES[1], c[4], " " + fs[2] + (" " + fs[3] + c[9]));
    PrintNested(Groups(c));
  }

  lemma LiteralsCut()
    ensures MARKER_RE[0].text == OPEN + NAMES[0] + "=" && MARKER_RE[9].text == CLOSE
    ensures MARKER_RE[3].text == " " + NAMES[1] + "=" + HASH_PREFIX
    ensures MARKER_RE[5].text == " " + NAMES[2] + "=" + HASH_PREFIX
    ensures MARKER_RE[7].text == " " + NAMES[3] + "=" + HASH_PREFIX
  {
  }

  lemma CapturesWellFormed(c: seq<string>)
    requires |c| == 10 && forall i :: 0 <= i < 10 ==> MARKER_RE[i].Accepts(c[i])
    ensures WellFormed(Groups(c))
  {
    assert MARKER_RE[1].Accepts(c[1]) && MARKER_RE[2].Accepts(c[2]);
    assert MARKER_RE[4].Accepts(c[4]) && MARKER_RE[6].Accepts(c[6]) && MARKER_RE[8].Accepts(c[8]);
    assert forall i :: 0 <= i < |c[1]| ==> RunHead.Has(c[1][i]);
    assert forall i :: 0 <= i < |c[2]| ==> RunTail.Has(c[2][i]);
  }

  lemma {:induction false} Flatten10(c: seq<string>)
    requires |c| == 10
    ensures Flatten(c) == c[0] + (c[1] + (c[2] + (c[3] + (c[4] + (c[5] + (c[6] + (c[7] + (c[8] + c[9]))))))))
  {
    FlattenStep(c, 9); FlattenStep(c, 8); FlattenStep(c, 7); FlattenStep(c, 6); FlattenStep(c, 5);
    FlattenStep(c, 4); FlattenStep(c, 3); FlattenStep(c, 2); FlattenStep(c, 1);
    assert c[0..] == c;
    assert c[10..] == [];
    assert c[9] + "" == c[9];
  }

  lemma FlattenStep(c: seq<string>, i: nat)
    requires i < |c|
    ensures Flatten(c[i..]) == c[i] + Flatten(c[i + 1..])
  {
    assert c[i..][1..] == c[i + 1..];
  }

  lemma Refield(lit: string, name: string, hash: string, rest: string)
    requires lit == " " + name + "=" + HASH_PREFIX
    ensures lit + (hash + rest) == " " + (name + "=" + (HASH_PREFIX + hash)) + rest
  {
  }

  lemma PrintNested(m: Marker)
    ensures var fs := Fields(m);
      Print(m) == OPEN + NAMES[0] + "=" + m.runId + (" " + fs[1] + (" " + fs[2] + (" " + fs[3] + CLOSE)))
  {
    hide Join;
    var fs := Fields(m);
    JoinFour(fs[0], fs[1], fs[2], fs[3]);
    CloseInnermost(fs[0], fs[1], fs[2], fs[3], CLOSE);
    OpenOutermost(OPEN, NAMES[0] + "=", m.runId, " " + fs[1] + (" " + fs[2] + (" " + fs[3] + CLOSE)));
    Assoc(OPEN, Join(fs, ' '), CLOSE);
    Assoc(OPEN, NAMES[0], "=");
  }

  lemma CloseInnermost(a: string, b: string, c: string, d: string, close: string)
    ensures a + (" " + (b + (" " + (c + (" " + d))))) + close == a + (" " + b + (" " + c + (" " + d + close)))
  {}

  lemma OpenOutermost(open: string, name: string, value: string, rest: string)
    ensures open + ((name + value) + rest) == open + name + value + rest
  {}

  lemma JoinFour(a: string, b: string, c: string, d: string)
    ensures Join([a, b, c, d], ' ') == a + (" " + (b + (" " + (c + (" " + d)))))
  {
    JoinMore(c, [d]);
    JoinMore(b, [c, d]);
    JoinMore(a, [b, c, d]);
    assert [c] + [d] == [c, d] && [b] + [c, d] == [b, c, d] && [a] + [b, c, d] == [a, b, c, d];
  }

  lemma JoinMore(a: string, rest: seq<string>)
    requires rest != []
    ensures Join([a] + rest, ' ') == a + (" " + Join(rest, ' '))
  {
    assert ([a] + rest)[1..] == rest;
    Assoc(a, " ", Join(rest, ' '));
  }

  /** The language of the regular expression holds every printed marker. */
  lemma {:induction false} RegexAcceptsPrinted(m: Marker)
    requires WellFormed(m)
    ensures ParseByRegex(Print(m)).Some?
  {
    var c := ["<!-- reviewgraph:v1 run_id=", m.runId[..1], m.runId[1..], " target=sha256:", m.target[7..],
              " payload=sha256:", m.payload[7..], " findings=sha256:", m.findings[7..], " -->"];
    assert m.runId == m.runId[..1] + m.runId[1..];
    assert m.target == HASH_PREFIX + m.target[7..];
    assert m.payload == HASH_PREFIX + m.payload[7..];
    assert m.findings == HASH_PREFIX + m.findings[7..];
    assert Groups(c) == m;
    forall i | 0 <= i < 10 ensures MARKER_RE[i].Accepts(c[i]) {}
    CapturesPrint(c);
    FullMatchIsComplete(MARKER_RE, Print(m), c);
  }

  /** Two parsers, one language: on every string they agree, and they accept exactly the printed
      markers, each of which is read back field by field. */
  lemma {:induction false} ParsersAgree(line: string)
    ensures ParseByRegex(line) == ParseBySplit(line)
    ensures forall m :: ParseByRegex(line) == Some(m) <==> WellFormed(m) && line == Print(m)
  {
    if ParseByRegex(line).Some? {
      RegexAcceptsOnlyPrinted(line);
      SplitParsesPrinted(ParseByRegex(line).value);
    }
    if ParseBySplit(line).Some? {
      SplitAcceptsOnlyPrinted(line);
      RegexAcceptsPrinted(ParseBySplit(line).value);
    }
    forall m | WellFormed(m) && line == Print(m) ensures ParseBySplit(line) == Some(m) {
      SplitParsesPrinted(m);
    }
  }

  lemma {:induction false} ParsesPrinted(m: Marker)
    requires WellFormed(m)
    ensures ParseByRegex(Print(m)) == Some(m)
  {
    ParsersAgree(Print(m));
  }

  predicate OneLine(s: string) { forall i :: 0 <= i < |s| ==> s[i] != '\n' && s[i] != '\r' }

  /** A marker line is one line. */
  lemma {:induction false} MarkerLineIsOneLine(line: string)
    requires IsMarkerLine(line)
    ensures line != "" && OneLine(line)
  {
    FullMatchIsSound(MARKER_RE, line);
    var c := FullMatch(MARKER_RE, line).value;
    forall i | 0 <= i < |c| ensures OneLine(c[i]) {
      assert MARKER_RE[i].Accepts(c[i]);
      PieceIsOneLine(i, c[i]);
    }
    FlattenOneLine(c);
    assert MARKER_RE[0].Accepts(c[0]);
  }

  lemma PieceIsOneLine(i: nat, s: string)
    requires i < |MARKER_RE| && MARKER_RE[i].Accepts(s)
    ensures OneLine(s)
  {
    match MARKER_RE[i]
    case Rep(cls, _, _) => RepIsOneLine(cls, s);
    case Lit(_) => LiteralsAreOneLine(i);
  }

  lemma RepIsOneLine(cls: Class, s: string)
    requires forall j :: 0 <= j < |s| ==> cls.Has(s[j])
    ensures OneLine(s)
  {
  }

  lemma LiteralsAreOneLine(i: nat)
    requires i < |MARKER_RE| && MARKER_RE[i].Lit?
    ensures OneLine(MARKER_RE[i].text)
  {
    LiteralsCut();
    NamesAreOneLine();
    OneLineJoins(OPEN, NAMES[0], "=", "");
    OneLineJoins(" ", NAMES[1], "=", HASH_PREFIX);
    OneLineJoins(" ", NAMES[2], "=", HASH_PREFIX);
    OneLineJoins(" ", NAMES[3], "=", HASH_PREFIX);
    Unit(OPEN + NAMES[0] + "=");
    hide OneLine;
    assert i in {0, 3, 5, 7, 9};
  }

  lemma NamesAreOneLine()
    ensures OneLine(OPEN) && OneLine(CLOSE) && OneLine(HASH_PREFIX) && OneLine("=") && OneLine(" ") && OneLine("")
    ensures OneLine(NAMES[0]) && OneLine(NAMES[1]) && OneLine(NAMES[2]) && OneLine(NAMES[3])
  {}

  lemma OneLineJoins(a: string, b: string, c: string, d: string)
    requires OneLine(a) && OneLine(b) && OneLine(c) && OneLine(d)
    ensures OneLine(a + b + c + d)
  {}

  lemma FlattenOneLine(parts: seq<string>)
    requires forall i :: 0 <= i < |parts| ==> OneLine(parts[i])
    ensures OneLine(Flatten(parts))
  {
    if parts != [] {
      assert OneLine(parts[0]);
    }
  }
}
