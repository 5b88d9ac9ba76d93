/** Hashes, the final issue-comment payload, its builder and its validator. */
module Payload {
  import opened Text
  import opened Marker
  import opened Bodies

  // ----- hashes: sha256 and the JSON encodings are uninterpreted -----

  datatype ReviewTarget = ReviewTarget(
    ownerRepo: string, prNumber: nat, baseSha: string, headSha: string,
    mergeBaseSha: Option<string>, diffBasis: string)

  datatype HashFunctions = HashFunctions(
    sha: string -> string,
    encodeList: seq<string> -> string,
    encodeTarget: ReviewTarget -> string)

  const ZERO_16 := "0000000000000000"

  const ZERO_HASH := HASH_PREFIX + ZERO_16 + ZERO_16 + ZERO_16 + ZERO_16

  /** Any digest function whose outputs have the printed sha256 form. */
  type Hashes = h: HashFunctions | forall s :: IsStrictHash(h.sha(s))
    ghost witness HashFunctions(s => ZERO_HASH, xs => "", t => "")

  const TARGET_DOMAIN := "reviewgraph.review_target.v1\n"

  function TargetHash(h: Hashes, t: ReviewTarget): string { h.sha(TARGET_DOMAIN + h.encodeTarget(t)) }

  function VisibleBodyHash(h: Hashes, text: string): string { h.sha(CanonicalVisibleBody(text)) }

  function FinalPayloadHash(h: Hashes, body: string): string { h.sha(CanonicalTextBody(body)) }

  /** No two of the given texts share a digest. Injectivity on all strings is impossible. */
  ghost predicate CollisionFree(h: Hashes, texts: set<string>) {
    forall a, b :: a in texts && b in texts && h.sha(a) == h.sha(b) ==> a == b
  }

  // ----- fingerprints are hashed in code-point order -----

  predicate Le(a: string, b: string) {
    a == "" || (b != "" && (a[0] < b[0] || (a[0] == b[0] && Le(a[1..], b[1..]))))
  }

  lemma LeTotal(a: string, b: string)
    ensures Le(a, b) || Le(b, a)
  {}

  lemma {:induction false} LeTransitive(a: string, b: string, c: string)
    requires Le(a, b) && Le(b, c)
    ensures Le(a, c)
  {
    if a != "" && a[0] == b[0] && b[0] == c[0] {
      LeTransitive(a[1..], b[1..], c[1..]);
    }
  }

  lemma {:induction false} LeAntisymmetric(a: string, b: string)
    requires Le(a, b) && Le(b, a)
    ensures a == b
  {
    if a != "" {
      LeAntisymmetric(a[1..], b[1..]);
      assert a == [a[0]] + a[1..] && b == [b[0]] + b[1..];
    }
  }

  function Insert(x: string, sorted: seq<string>): seq<string> {
    if sorted == [] || Le(x, sorted[0]) then [x] + sorted else [sorted[0]] + Insert(x, sorted[1..])
  }

  function Sort(xs: seq<string>): seq<string> {
    if xs == [] then [] else Insert(xs[0], Sort(xs[1..]))
  }

  ghost predicate Sorted(xs: seq<string>) {
    forall i, j :: 0 <= i < j < |xs| ==> Le(xs[i], xs[j])
  }

  lemma {:induction false} InsertSorts(x: string, xs: seq<string>)
    requires Sorted(xs)
    ensures Sorted(Insert(x, xs)) && multiset(Insert(x, xs)) == multiset{x} + multiset(xs)
  {
    if xs == [] || Le(x, xs[0]) {
      forall j | 0 <= j < |xs| ensures Le(x, xs[j]) {
        if j > 0 { LeTransitive(x, xs[0], xs[j]); }
      }
    } else {
      LeTotal(x, xs[0]);
      var tail := Insert(x, xs[1..]);
      InsertSorts(x, xs[1..]);
      assert xs == [xs[0]] + xs[1..];
      forall j | 0 <= j < |tail| ensures Le(xs[0], tail[j]) {
        assert tail[j] in multiset(tail);
        assert tail[j] == x || tail[j] in xs[1..];
      }
    }
  }

  lemma {:induction false} SortSorts(xs: seq<string>)
    ensures Sorted(Sort(xs)) && multiset(Sort(xs)) == multiset(xs)
  {
    if xs != [] {
      SortSorts(xs[1..]);
      InsertSorts(xs[0], Sort(xs[1..]));
      assert xs == [xs[0]] + xs[1..];
    }
  }

  lemma {:induction false} SortedUnique(xs: seq<string>, ys: seq<string>)
    requires Sorted(xs) && Sorted(ys) && multiset(xs) == multiset(ys)
    ensures xs == ys
  {
    hide Le;
    assert |multiset(xs)| == |xs| && |multiset(ys)| == |ys|;
    if xs != [] {
      SameHead(xs, ys);
      assert xs == [xs[0]] + xs[1..] && ys == [ys[0]] + ys[1..];
      assert multiset(xs[1..]) == multiset(xs) - multiset{xs[0]};
      SortedUnique(xs[1..], ys[1..]);
    }
  }

  lemma SameHead(xs: seq<string>, ys: seq<string>)
    requires xs != [] && ys != [] && Sorted(xs) && Sorted(ys) && multiset(xs) == multiset(ys)
    ensures xs[0] == ys[0]
  {
    hide Le, Sorted;
    assert xs[0] in multiset(ys) && ys[0] in multiset(xs);
    LeastFirst(xs, ys[0]);
    LeastFirst(ys, xs[0]);
    LeAntisymmetric(xs[0], ys[0]);
  }

  lemma LeastFirst(xs: seq<string>, y: string)
    requires Sorted(xs) && y in xs
    ensures Le(xs[0], y)
  {
    LeReflexive(y);
  }

  lemma LeReflexive(a: string)
    ensures Le(a, a)
  {}

  /** Sorting depends only on which strings there are, and sorting twice changes nothing. */
  lemma {:induction false} SortCanonical(xs: seq<string>, ys: seq<string>)
    ensures Sort(xs) == Sort(ys) <==> multiset(xs) == multiset(ys)
    ensures Sort(Sort(xs)) == Sort(xs)
  {
    SortSorts(xs);
    SortSorts(ys);
    SortSorts(Sort(xs));
    SortedUnique(Sort(Sort(xs)), Sort(xs));
    if multiset(xs) == multiset(ys) {
      SortedUnique(Sort(xs), Sort(ys));
    }
  }

  lemma DistinctUnderSort(xs: seq<string>)
    ensures Distinct(Sort(xs)) <==> Distinct(xs)
  {
    SortSorts(xs);
    DistinctByCount(xs);
    DistinctByCount(Sort(xs));
  }

  /** None stands for the ValueError on duplicates. */
  function FindingsHash(h: Hashes, fingerprints: seq<string>): Option<string> {
    var ordered := Sort(fingerprints);
    if Distinct(ordered) then Some(h.sha(h.encodeList(ordered))) else None
  }

  // ----- the payload -----

  datatype FinalPayload = FinalPayload(
    target: ReviewTarget, body: string, markerLine: string, markerRunId: string,
    markerTarget: string, markerPayload: string, markerFindings: string,
    visibleBodyHash: string, finalPayloadHash: string, findingsHash: string,
    fingerprints: seq<string>, redactionPassed: bool)

  /** None stands for the ValueErrors: duplicate fingerprints or a line outside the grammar. */
  function BuildMarkerLine(h: Hashes, runId: string, target: ReviewTarget, visible: string,
                           fingerprints: seq<string>): Option<string>
  {
    match FindingsHash(h, fingerprints)
    case None => None
    case Some(findings) =>
      var line := Print(Marker(runId, TargetHash(h, target), VisibleBodyHash(h, CanonicalTextBody(visible)),
          findings));
      if IsMarkerLine(line) then Some(line) else None
  }

  function Build(h: Hashes, runId: string, target: ReviewTarget, visible: string,
                 itemFingerprints: seq<string>, redactionPassed: bool): Option<FinalPayload>
  {
    var canonical := CanonicalTextBody(visible);
    var fingerprints := Sort(itemFingerprints);
    match BuildMarkerLine(h, runId, target, canonical, fingerprints)
    case None => None
    case Some(line) =>
      var body := canonical + line + "\n";
      var findings := FindingsHash(h, fingerprints).value;
      Some(FinalPayload(target, body, line, runId, TargetHash(h, target), VisibleBodyHash(h, canonical), findings,
                        VisibleBodyHash(h, body), FinalPayloadHash(h, body), findings, fingerprints, redactionPassed))
  }

  datatype ValidationReason =
    RedactionNotPassed | MarkerNotFinalLine | MarkerFieldMismatch | BodyHashMismatch |
    DuplicateFingerprints | FindingsHashMismatch | FinalPayloadHashMismatch | TargetHashMismatch

  datatype Validation = Pass(payloadHash: string, targetHash: string) | Fail(reason: ValidationReason)

  function ValidateMarker(h: Hashes, p: FinalPayload): Option<ValidationReason> {
    if FinalLine(p.body) != p.markerLine || !IsMarkerLine(p.markerLine) then Some(MarkerNotFinalLine)
    else if MarkerLines(Lines(p.body)) != [p.markerLine] then Some(MarkerNotFinalLine)
    else
      var m := ParseByRegex(p.markerLine).value;
      if m.runId != p.markerRunId || m.target != p.markerTarget || m.payload != p.markerPayload
         || m.findings != p.markerFindings then Some(MarkerFieldMismatch)
      else if p.markerPayload != VisibleBodyHash(h, p.body) then Some(BodyHashMismatch)
      else if p.visibleBodyHash != p.markerPayload then Some(BodyHashMismatch)
      else None
  }

  function Validate(h: Hashes, p: FinalPayload): Validation {
    if !p.redactionPassed then Fail(RedactionNotPassed)
    else match ValidateMarker(h, p)
      case Some(reason) => Fail(reason)
      case None =>
        if p.visibleBodyHash != VisibleBodyHash(h, p.body) then Fail(BodyHashMismatch)
        else match FindingsHash(h, p.fingerprints)
          case None => Fail(DuplicateFingerprints)
          case Some(findings) =>
            if p.findingsHash != findings || p.markerFindings != findings then Fail(FindingsHashMismatch)
            else if p.finalPayloadHash != FinalPayloadHash(h, p.body) then Fail(FinalPayloadHashMismatch)
            else if p.markerTarget != TargetHash(h, p.target) then Fail(TargetHashMismatch)
            else Pass(p.finalPayloadHash, TargetHash(h, p.target))
  }

  /** A payload is built exactly for a valid run id and distinct fingerprints; what is built
      carries the marker of its own fields as the last line. */
  lemma {:induction false} BuildSucceedsIff(h: Hashes, runId: string, target: ReviewTarget, visible: string,
                                            fingerprints: seq<string>, redactionPassed: bool)
    ensures Build(h, runId, target, visible, fingerprints, redactionPassed).Some?
       <==> IsRunId(runId) && Distinct(fingerprints)
    ensures Build(h, runId, target, visible, fingerprints, redactionPassed).Some? ==>
      var p := Build(h, runId, target, visible, fingerprints, redactionPassed).value;
      p.body == WithMarker(visible, p.markerLine)
      && ParseByRegex(p.markerLine) == Some(Marker(runId, TargetHash(h, target), p.markerPayload, p.markerFindings))
      && FindingsHash(h, p.fingerprints) == Some(p.markerFindings)
      && multiset(p.fingerprints) == multiset(fingerprints)
  {
    hide Print, IsMarkerLine, ParseByRegex, CanonicalTextBody, CanonicalVisibleBody, Sort, Distinct, IsStrictHash,
         IsRunId;
    var ordered := Sort(fingerprints);
    DistinctUnderSort(fingerprints);
    SortCanonical(fingerprints, fingerprints);
    SortSorts(fingerprints);
    CanonicalBodyIsCanonical(visible);
    CanonicalFixesCanonical(CanonicalTextBody(visible));
    if Distinct(ordered) {
      var m := Marker(runId, TargetHash(h, target), VisibleBodyHash(h, CanonicalTextBody(visible)),
                      h.sha(h.encodeList(ordered)));
      PrintedIsMarkerLineIff(m);
    }
  }

  lemma {:induction false} BuildHashes(h: Hashes, runId: string, target: ReviewTarget, visible: string,
                                       fingerprints: seq<string>, redactionPassed: bool)
    requires Build(h, runId, target, visible, fingerprints, redactionPassed).Some?
    ensures var p := Build(h, runId, target, visible, fingerprints, redactionPassed).value;
      p.markerPayload == VisibleBodyHash(h, visible) && p.findingsHash == p.markerFindings
      && p.finalPayloadHash == FinalPayloadHash(h, p.body) && p.target == target
  {
    hide IsStrictHash, CanonicalTextBody, CanonicalVisibleBody, BuildMarkerLine, FindingsHash, FinalPayloadHash,
         Sort, IsMarkerLine;
    VisibleOfCanonical(visible);
  }

  lemma {:induction false} PrintedIsMarkerLineIff(m: Marker)
    requires IsStrictHash(m.target) && IsStrictHash(m.payload) && IsStrictHash(m.findings)
    ensures IsMarkerLine(Print(m)) <==> IsRunId(m.runId)
    ensures IsRunId(m.runId) ==> ParseByRegex(Print(m)) == Some(m)
  {
    if IsRunId(m.runId) {
      ParsesPrinted(m);
    }
    if IsMarkerLine(Print(m)) {
      RegexAcceptsOnlyPrinted(Print(m));
      PrintDeterminesRunId(m, ParseByRegex(Print(m)).value);
    }
  }

  /** The hashes have a fixed width, so the printed line fixes the run id. */
  lemma {:induction false} PrintDeterminesRunId(a: Marker, b: Marker)
    requires IsStrictHash(a.target) && IsStrictHash(a.payload) && IsStrictHash(a.findings)
    requires IsStrictHash(b.target) && IsStrictHash(b.payload) && IsStrictHash(b.findings)
    requires Print(a) == Print(b)
    ensures a.runId == b.runId
  {
    PrintNested(a);
    PrintNested(b);
    var n := |OPEN + NAMES[0] + "="|;
    assert |a.runId| == |b.runId|;
    assert a.runId == Print(a)[n..n + |a.runId|];
    assert b.runId == Print(b)[n..n + |b.runId|];
  }

  /** Build and validate: a built payload passes validation exactly when redaction passed and
      no line of its visible body is itself a marker. */
  lemma {:induction false} BuiltPayloadValidatesIff(h: Hashes, runId: string, target: ReviewTarget, visible: string,
                                                    fingerprints: seq<string>, redactionPassed: bool)
    requires IsRunId(runId) && Distinct(fingerprints)
    ensures var p := Build(h, runId, target, visible, fingerprints, redactionPassed);
      p.Some? && (Validate(h, p.value).Pass? <==> redactionPassed && MarkerFree(CanonicalTextBody(visible)))
  {
    hide Print, IsMarkerLine, ParseByRegex, CanonicalTextBody, CanonicalVisibleBody, Sort, Distinct, IsStrictHash,
         IsRunId, MarkerLines, MarkerFree, FinalLine;
    BuildSucceedsIff(h, runId, target, visible, fingerprints, redactionPassed);
    BuildHashes(h, runId, target, visible, fingerprints, redactionPassed);
    var p := Build(h, runId, target, visible, fingerprints, redactionPassed).value;
    BuiltHasOwnHashes(h, runId, target, visible, fingerprints, redactionPassed);
    ValidatesWhen(h, p);
    MarkerLinesOfWithMarker(visible, p.markerLine);
    MarkerLineIsOneLine(p.markerLine);
    WithMarkerShape(visible, p.markerLine);
    StoresKeepBodies(p.body);
    FinalLineRecovered(visible, p.markerLine, p.body);
    VisibleBodyRecovered(visible, p.markerLine, p.body);
    if MarkerFree(CanonicalTextBody(visible)) {
      MarkerFreeKeepsBody(visible);
    }
  }

  /** The checks that remain for a payload whose recorded hashes and fields are its own. */
  lemma ValidatesWhen(h: Hashes, p: FinalPayload)
    requires ParseByRegex(p.markerLine)
              == Some(Marker(p.markerRunId, p.markerTarget, p.markerPayload, p.markerFindings))
    requires p.visibleBodyHash == VisibleBodyHash(h, p.body) && p.finalPayloadHash == FinalPayloadHash(h, p.body)
    requires p.markerTarget == TargetHash(h, p.target) && p.findingsHash == p.markerFindings
    requires FindingsHash(h, p.fingerprints) == Some(p.findingsHash)
    ensures Validate(h, p).Pass? <==>
              p.redactionPassed && FinalLine(p.body) == p.markerLine
              && MarkerLines(Lines(p.body)) == [p.markerLine] && VisibleBodyHash(h, p.body) == p.markerPayload
  {
    hide ParseByRegex, FinalLine, MarkerLines, Lines, VisibleBodyHash, FinalPayloadHash, TargetHash, FindingsHash;
  }

  lemma BuiltHasOwnHashes(h: Hashes, runId: string, target: ReviewTarget, visible: string,
                          fingerprints: seq<string>, redactionPassed: bool)
    requires Build(h, runId, target, visible, fingerprints, redactionPassed).Some?
    ensures var p := Build(h, runId, target, visible, fingerprints, redactionPassed).value;
      p.markerRunId == runId && p.markerTarget == TargetHash(h, target) && p.redactionPassed == redactionPassed
      && p.visibleBodyHash == VisibleBodyHash(h, p.body)
  {
    hide BuildMarkerLine, CanonicalTextBody, FindingsHash, Sort, TargetHash;
  }

  /** With no marker line there is nothing to strip. */
  lemma {:induction false} MarkerFreeKeepsBody(visible: string)
    requires MarkerFree(CanonicalTextBody(visible))
    ensures CanonicalVisibleBody(CanonicalTextBody(visible)) == CanonicalTextBody(visible)
  {
    CanonicalBodyIsCanonical(visible);
    CanonicalFixesCanonical(CanonicalTextBody(visible));
    NormalizeFixesCrFree(CanonicalTextBody(visible));
    var lines := Split(CanonicalTextBody(visible), '\n');
    assert |lines| >= 2 ==> lines[|lines| - 2] in lines;
  }

  predicate StoredLike(body: string, stored: string) {
    var text := NormalizeNewlines(body);
    NormalizeNewlines(stored) == text || StoredAs(text, stored)
  }

  /** Any payload that passes validation carries its marker through storage: a store may change
      the line endings of its body or drop one trailing newline, and the scan still finds it. */
  lemma {:induction false} ValidPayloadScansBack(h: Hashes, p: FinalPayload, stored: string)
    requires Validate(h, p).Pass?
    requires StoredLike(p.body, stored)
    ensures ScanFinalLine(stored) == Some(Marker(p.markerRunId, p.markerTarget, p.markerPayload, p.markerFindings))
  {
    hide ParseByRegex, CanonicalVisibleBody, CanonicalTextBody, MarkerLines, Sort, Distinct, NormalizeNewlines,
         IsStrictHash;
    EmptyIsNoMarker();
    FinalLineKept(p.body, stored);
    assert NormalizeNewlines("") == "" by { NormalizeFixesCrFree(""); }
  }

  lemma {:induction false} FinalLineKept(body: string, stored: string)
    requires FinalLine(body) != "" && StoredLike(body, stored)
    ensures FinalLine(stored) == FinalLine(body)
  {
    hide NormalizeNewlines;
    var n := NormalizeNewlines(stored);
    if n != "" && Last(n) == '\n' {
      NothingAfterNewline(n);
    }
  }

  lemma NothingAfterNewline(s: string)
    requires s != "" && Last(s) == '\n'
    ensures Last(Split(s, '\n')) == ""
  {
    SplitConcat(s[..|s| - 1], '\n', "");
    assert s[..|s| - 1] + ['\n'] + "" == s;
  }
}
