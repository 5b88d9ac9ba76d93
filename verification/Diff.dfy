/** The unified-diff parser: hunk headers, hunk bodies and the ranges of changed lines they give. The
    syntax is that of the diff -u output format in POSIX.1 (IEEE Std 1003.1). */
module Diff {
  import opened Text
  import opened LineBreaks
  import opened Ranges

  // ----- hunk headers -----

  predicate IsDigit(c: char) { '0' <= c <= '9' }

  predicate AllDigits(s: string) { forall i :: 0 <= i < |s| ==> IsDigit(s[i]) }

  function DigitRun(s: string): (n: nat)
    ensures n <= |s| && AllDigits(s[..n]) && (n < |s| ==> !IsDigit(s[n]))
  {
    if s == "" || !IsDigit(s[0]) then 0 else 1 + DigitRun(s[1..])
  }

  function Number(digits: string): nat
    requires AllDigits(digits)
  {
    if digits == "" then 0
    else 10 * Number(digits[..|digits| - 1]) + (digits[|digits| - 1] as int - '0' as int)
  }

  /** One side of a header: a start and, after a comma, a count that defaults to one. */
  datatype Side = Side(start: nat, count: nat)

  datatype Header = Header(source: Side, target: Side)

  function ParseSide(s: string): Option<(Side, string)> {
    var n := DigitRun(s);
    if n == 0 then None
    else
      var rest := s[n..];
      var m := if rest != "" && rest[0] == ',' then DigitRun(rest[1..]) else 0;
      if m > 0 then Some((Side(Number(s[..n]), Number(rest[1..][..m])), rest[1 + m..]))
      else Some((Side(Number(s[..n]), 1), rest))
  }

  const HEADER_OPEN := "@@ -"
  const HEADER_MIDDLE := " +"
  const HEADER_CLOSE := " @@"

  function ParseHeader(line: string): Option<Header> {
    if !(HEADER_OPEN <= line) then None
    else match ParseSide(line[4..])
      case None => None
      case Some((source, rest)) =>
        if !(HEADER_MIDDLE <= rest) then None
        else match ParseSide(rest[2..])
          case None => None
          case Some((target, rest)) =>
            if HEADER_CLOSE <= rest && (|rest| == 3 || rest[3] == ' ') then Some(Header(source, target)) else None
  }

  /** A count of one may be left out. */
  function PrintSide(x: Side, short: bool): string {
    Decimal(x.start) + (if short && x.count == 1 then "" else "," + Decimal(x.count))
  }

  function PrintHeader(h: Header, short: bool, section: string): string {
    HEADER_OPEN + PrintSide(h.source, short) + HEADER_MIDDLE + PrintSide(h.target, short) + HEADER_CLOSE
    + (if section == "" then "" else " " + section)
  }

  lemma {:induction false} DecimalReadsBack(n: nat)
    ensures AllDigits(Decimal(n)) && Number(Decimal(n)) == n
  {
    var digit := ['0' + (n % 10) as char];
    assert digit[..0] == "" && Number(digit) == n % 10;
    if n >= 10 {
      DecimalReadsBack(n / 10);
      var s := Decimal(n);
      assert s[..|s| - 1] == Decimal(n / 10) && s[|s| - 1] == digit[0];
    }
  }

  lemma {:induction false} DigitRunStops(digits: string, rest: string)
    requires AllDigits(digits) && (rest == "" || !IsDigit(rest[0]))
    ensures DigitRun(digits + rest) == |digits|
  {
    if digits == "" {
      assert digits + rest == rest;
    } else {
      assert (digits + rest)[1..] == digits[1..] + rest;
      DigitRunStops(digits[1..], rest);
    }
  }

  lemma {:induction false} SideReadsBack(x: Side, short: bool, rest: string)
    requires rest != "" && !IsDigit(rest[0]) && rest[0] != ','
    ensures ParseSide(PrintSide(x, short) + rest) == Some((x, rest))
  {
    hide Decimal, Number, DigitRun, AllDigits;
    var start, count := Decimal(x.start), Decimal(x.count);
    DecimalReadsBack(x.start);
    DecimalReadsBack(x.count);
    if short && x.count == 1 {
      assert PrintSide(x, short) + rest == start + rest;
      DigitRunStops(start, rest);
      assert (start + rest)[|start|..] == rest && (start + rest)[..|start|] == start;
    } else {
      var tail := "," + count + rest;
      assert PrintSide(x, short) + rest == start + tail;
      DigitRunStops(start, tail);
      assert (start + tail)[|start|..] == tail && (start + tail)[..|start|] == start;
      assert tail[1..] == count + rest;
      DigitRunStops(count, rest);
      assert (count + rest)[..|count|] == count && tail[1 + |count|..] == rest;
    }
  }

  /** Printing a header and parsing it back, with or without short counts and a section title. */
  lemma {:induction false} HeaderReadsBack(h: Header, short: bool, section: string)
    ensures ParseHeader(PrintHeader(h, short, section)) == Some(h)
  {
    hide Decimal, ParseSide, PrintSide;
    var close := HEADER_CLOSE + (if section == "" then "" else " " + section);
    var second := PrintSide(h.target, short) + close;
    var first := PrintSide(h.source, short) + (HEADER_MIDDLE + second);
    var line := PrintHeader(h, short, section);
    assert line == HEADER_OPEN + first;
    assert line[4..] == first;
    SideReadsBack(h.source, short, HEADER_MIDDLE + second);
    assert (HEADER_MIDDLE + second)[2..] == second;
    SideReadsBack(h.target, short, close);
  }

  // ----- hunk bodies -----

  datatype Kind = Plus | Minus | Context | NoNewline | Unknown

  function KindOf(line: string): Kind {
    if line == "" then Unknown
    else if line[0] == '\\' then NoNewline
    else if line[0] == '+' then Plus
    else if line[0] == '-' then Minus
    else if line[0] == ' ' then Context
    else Unknown
  }

  predicate StartsHunk(line: string) { "@@" <= line }

  function SourceLines(body: seq<string>): nat {
    if body == [] then 0
    else SourceLines(body[..|body| - 1]) + (if KindOf(Last(body)) in {Minus, Context} then 1 else 0)
  }

  function TargetLines(body: seq<string>): nat {
    if body == [] then 0
    else TargetLines(body[..|body| - 1]) + (if KindOf(Last(body)) in {Plus, Context} then 1 else 0)
  }

  predicate HasAddition(body: seq<string>) {
    exists i :: 0 <= i < |body| && KindOf(body[i]) == Plus
  }

  predicate KnownLines(body: seq<string>) {
    forall i :: 0 <= i < |body| ==> KindOf(body[i]) != Unknown
  }

  /** A line that opens a hunk, and the lines up to the next one. */
  datatype Chunk = Chunk(head: string, body: seq<string>)

  predicate HeaderOk(h: Header) {
    (h.source.start > 0 || h.source.count == 0) && h.target.start > 0 && h.target.count > 0
  }

  /** The header parses and the body has exactly the declared counts on both sides. */
  predicate ChunkOk(c: Chunk) {
    ParseHeader(c.head).Some? && HeaderOk(ParseHeader(c.head).value) && KnownLines(c.body)
    && SourceLines(c.body) == ParseHeader(c.head).value.source.count
    && TargetLines(c.body) == ParseHeader(c.head).value.target.count
  }

  function ChunkRange(c: Chunk): Range
    requires ParseHeader(c.head).Some?
  {
    var target := ParseHeader(c.head).value.target;
    Range(target.start, target.start + target.count - 1)
  }

  /** The chunks of a patch; lines before the first hunk belong to none. */
  function Chunks(lines: seq<string>): seq<Chunk> {
    if lines == [] then []
    else
      var before, line := Chunks(lines[..|lines| - 1]), Last(lines);
      if StartsHunk(line) then before + [Chunk(line, [])]
      else if before == [] then []
      else before[..|before| - 1] + [Chunk(Last(before).head, Last(before).body + [line])]
  }

  /** The ranges of the hunks that have an addition. */
  function AddedRanges(cs: seq<Chunk>): seq<Range> {
    if cs == [] then []
    else
      var c := Last(cs);
      AddedRanges(cs[..|cs| - 1])
      + (if ParseHeader(c.head).Some? && HasAddition(c.body) then [ChunkRange(c)] else [])
  }

  predicate AllOk(cs: seq<Chunk>) {
    forall i :: 0 <= i < |cs| ==> ChunkOk(cs[i])
  }

  /** A patch that parses: at least one hunk, every hunk in order, and something added. */
  predicate WellFormed(lines: seq<string>) {
    Chunks(lines) != [] && AllOk(Chunks(lines)) && AddedRanges(Chunks(lines)) != []
  }

  /** The number that a body line has, or would have, in the new file. */
  function TargetLineOf(c: Chunk, j: nat): int
    requires ParseHeader(c.head).Some? && j <= |c.body|
  {
    ParseHeader(c.head).value.target.start + TargetLines(c.body[..j])
  }

  lemma {:induction false} TargetLinesGrow(body: seq<string>, j: nat)
    requires j < |body| && KindOf(body[j]) in {Plus, Context}
    ensures TargetLines(body[..j]) < TargetLines(body)
  {
    var shorter := body[..|body| - 1];
    if j < |shorter| {
      assert shorter[..j] == body[..j];
      TargetLinesGrow(shorter, j);
    }
  }

  /** In a hunk that parses, every added line lies in the hunk's range. */
  lemma {:induction false} AddedLinesInRange(c: Chunk, j: nat)
    requires ChunkOk(c) && j < |c.body| && KindOf(c.body[j]) == Plus
    ensures ChunkRange(c).start <= TargetLineOf(c, j) <= ChunkRange(c).end
  {
    TargetLinesGrow(c.body, j);
  }

  // ----- the parser -----

  datatype Failure =
    | FileStatus | PatchMissing | CountMismatch | SourceStart | TargetStart | NoTargetLines
    | UnsupportedHeader | SourceOverflow | TargetOverflow | UnsupportedLine | NoHunks | NothingAdded

  /** No continuation of the patch can parse. */
  predicate Doomed(cs: seq<Chunk>) {
    || (exists i :: 0 <= i < |cs| - 1 && !ChunkOk(cs[i]))
    || (cs != [] && Hopeless(Last(cs)))
  }

  predicate Hopeless(c: Chunk) {
    match ParseHeader(c.head)
    case None => true
    case Some(h) =>
      !HeaderOk(h) || !KnownLines(c.body) || SourceLines(c.body) > h.source.count
          || TargetLines(c.body) > h.target.count
  }

  function Extend(cs: seq<Chunk>, line: string): seq<Chunk> {
    if StartsHunk(line) then cs + [Chunk(line, [])]
    else if cs == [] then []
    else cs[..|cs| - 1] + [Chunk(Last(cs).head, Last(cs).body + [line])]
  }

  lemma ChunksStep(lines: seq<string>, i: nat)
    requires i < |lines|
    ensures Chunks(lines[..i + 1]) == Extend(Chunks(lines[..i]), lines[i])
    ensures Chunks(lines[..i + 1]) == [] <==> Chunks(lines[..i]) == [] && !StartsHunk(lines[i])
  {
    assert lines[..i + 1][..i] == lines[..i];
  }

  lemma EmptyPatch()
    ensures Chunks([]) == [] && AddedRanges([]) == []
  {}

  lemma DoomedExtends(cs: seq<Chunk>, line: string)
    requires Doomed(cs)
    ensures Doomed(Extend(cs, line))
  {
    hide ParseHeader, HeaderOk;
    var longer := Extend(cs, line);
    if i :| 0 <= i < |cs| - 1 && !ChunkOk(cs[i]) {
      assert longer[i] == cs[i];
    } else if StartsHunk(line) {
      assert longer[|cs| - 1] == Last(cs);
    } else {
      BodyStep(Last(cs).body, line);
    }
  }

  lemma BodyStep(body: seq<string>, line: string)
    ensures SourceLines(body + [line]) == SourceLines(body) + (if KindOf(line) in {Minus, Context} then 1 else 0)
    ensures TargetLines(body + [line]) == TargetLines(body) + (if KindOf(line) in {Plus, Context} then 1 else 0)
    ensures KnownLines(body + [line]) <==> KnownLines(body) && KindOf(line) != Unknown
    ensures HasAddition(body + [line]) <==> HasAddition(body) || KindOf(line) == Plus
  {
    hide KindOf;
    var longer := body + [line];
    assert longer[..|longer| - 1] == body && Last(longer) == line;
    assert forall i :: 0 <= i < |body| ==> longer[i] == body[i];
    if HasAddition(body) {
      var i :| 0 <= i < |body| && KindOf(body[i]) == Plus;
      assert KindOf(longer[i]) == Plus;
    }
    if KindOf(line) == Plus {
      assert KindOf(longer[|body|]) == Plus;
    }
  }

  lemma {:induction false} DoomedStays(lines: seq<string>, i: nat)
    requires i <= |lines| && Doomed(Chunks(lines[..i]))
    ensures Doomed(Chunks(lines)) && !AllOk(Chunks(lines))
    decreases |lines| - i
  {
    hide ParseHeader, HeaderOk, Chunks, KindOf, SourceLines, TargetLines;
    if i == |lines| {
      assert lines[..i] == lines;
      var cs := Chunks(lines);
      assert cs != [] && Last(cs) == cs[|cs| - 1];
    } else {
      DoomedExtends(Chunks(lines[..i]), lines[i]);
      ChunksStep(lines, i);
      DoomedStays(lines, i + 1);
    }
  }

  /** How far the parser's counters have come: the last hunk is still open, all before it are done. */
  ghost predicate Open(cs: seq<Chunk>, sourceRemaining: int, targetLine: int, targetRemaining: int,
                       hunk: Range, hasAddition: bool)
  {
    && cs != [] && AllOk(cs[..|cs| - 1])
    && var c := Last(cs);
    && ParseHeader(c.head).Some? && HeaderOk(ParseHeader(c.head).value) && KnownLines(c.body)
    && hunk == ChunkRange(c) && hasAddition == HasAddition(c.body)
    && sourceRemaining == ParseHeader(c.head).value.source.count - SourceLines(c.body) >= 0
    && targetRemaining == ParseHeader(c.head).value.target.count - TargetLines(c.body) >= 0
    && targetLine == TargetLineOf(c, |c.body|)
  }

  lemma OpenNewHunk(cs: seq<Chunk>, head: string)
    requires AllOk(cs) && StartsHunk(head) && ParseHeader(head).Some? && HeaderOk(ParseHeader(head).value)
    ensures var h := ParseHeader(head).value;
            Open(Extend(cs, head), h.source.count, h.target.start, h.target.count,
                 Range(h.target.start, h.target.start + h.target.count - 1), false)
  {
    hide ParseHeader, HeaderOk, ChunkOk;
    assert Extend(cs, head)[..|cs|] == cs;
  }

  lemma OpenContinues(cs: seq<Chunk>, sourceRemaining: int, targetLine: int, targetRemaining: int,
                      hunk: Range, hasAddition: bool, line: string)
    requires Open(cs, sourceRemaining, targetLine, targetRemaining, hunk, hasAddition) && !StartsHunk(line)
    ensures var k := KindOf(line);
            var s, t := if k in {Minus, Context} then 1 else 0, if k in {Plus, Context} then 1 else 0;
            if k != Unknown && s <= sourceRemaining && t <= targetRemaining then
              Open(Extend(cs, line), sourceRemaining - s, targetLine + t, targetRemaining - t, hunk, hasAddition
                  || k == Plus)
            else Doomed(Extend(cs, line))
    ensures |Extend(cs, line)| == |cs| && Extend(cs, line)[..|cs| - 1] == cs[..|cs| - 1]
  {
    hide ParseHeader, HeaderOk, ChunkOk, KindOf, SourceLines, TargetLines;
    var longer := Extend(cs, line);
    assert longer[..|cs| - 1] == cs[..|cs| - 1];
    var body := Last(cs).body;
    BodyStep(body, line);
    assert body[..|body|] == body && Last(longer).body[..|body| + 1] == body + [line];
  }

  /** A hunk is complete exactly when both counters have reached zero. */
  lemma OpenCloses(cs: seq<Chunk>, sourceRemaining: int, targetLine: int, targetRemaining: int,
                   hunk: Range, hasAddition: bool)
    requires Open(cs, sourceRemaining, targetLine, targetRemaining, hunk, hasAddition)
    ensures AllOk(cs) <==> sourceRemaining == 0 && targetRemaining == 0
    ensures var earlier := AddedRanges(cs[..|cs| - 1]);
            AddedRanges(cs) == if hasAddition then earlier + [hunk] else earlier
    ensures !AllOk(cs) ==> forall head :: StartsHunk(head) ==> Doomed(Extend(cs, head))
  {
    hide ParseHeader, HeaderOk, KindOf, SourceLines, TargetLines, HasAddition, KnownLines;
    assert forall i :: 0 <= i < |cs| - 1 ==> cs[..|cs| - 1][i] == cs[i];
    assert ChunkOk(Last(cs)) <==> sourceRemaining == 0 && targetRemaining == 0;
    if !AllOk(cs) {
      forall head | StartsHunk(head) ensures Doomed(Extend(cs, head)) {
        assert Extend(cs, head)[|cs| - 1] == Last(cs);
      }
    }
  }

  /** What is wrong with a line, after chunks that are in order so far. */
  predicate Breaks(cs: seq<Chunk>, line: string, why: Failure) {
    if StartsHunk(line) then
      match ParseHeader(line)
      case None => why == UnsupportedHeader
      case Some(h) =>
        if !AllOk(cs) then why == CountMismatch
        else if h.source.start == 0 && h.source.count > 0 then why == SourceStart
        else if h.target.start == 0 then why == TargetStart
        else h.target.count == 0 && why == NoTargetLines
    else
      cs != [] && ParseHeader(Last(cs).head).Some?
      && var h, body := ParseHeader(Last(cs).head).value, Last(cs).body;
      match KindOf(line)
      case Plus => TargetLines(body) == h.target.count && why == TargetOverflow
      case Minus => SourceLines(body) == h.source.count && why == SourceOverflow
      case Context =>
        if SourceLines(body) == h.source.count then why == SourceOverflow
        else TargetLines(body) == h.target.count && why == TargetOverflow
      case NoNewline => false
      case Unknown => why == UnsupportedLine
  }

  /** The first line that cannot be right, and what is wrong with it. */
  ghost predicate FirstBreak(lines: seq<string>, i: nat, why: Failure) {
    i < |lines| && !Doomed(Chunks(lines[..i])) && Breaks(Chunks(lines[..i]), lines[i], why)
  }

  lemma OpenIsNotDoomed(cs: seq<Chunk>, sourceRemaining: int, targetLine: int, targetRemaining: int, hunk: Range,
                        hasAddition: bool)
    requires Open(cs, sourceRemaining, targetLine, targetRemaining, hunk, hasAddition)
    ensures !Doomed(cs) && ParseHeader(Last(cs).head).Some?
    ensures var h, body := ParseHeader(Last(cs).head).value, Last(cs).body;
      (sourceRemaining == 0 <==> SourceLines(body) == h.source.count)
      && (targetRemaining == 0 <==> TargetLines(body) == h.target.count)
    ensures sourceRemaining >= 0 && targetRemaining >= 0
  {
    hide ParseHeader, HeaderOk, ChunkOk, KindOf, SourceLines, TargetLines;
    assert forall i :: 0 <= i < |cs| - 1 ==> cs[..|cs| - 1][i] == cs[i];
  }

  lemma NotDoomedYet()
    ensures !Doomed([]) && AllOk([])
  {}

  method ChangedRangesFromPatch(inlineable: bool, patch: Option<string>, available: bool)
    returns (ranges: seq<Range>, failure: Option<Failure>)
    ensures failure == None <==> inlineable && available && patch.Some? && WellFormed(SplitLines(patch.value))
    ensures failure == None ==> ranges == Coalesce(AddedRanges(Chunks(SplitLines(patch.value))))
    ensures failure != None ==> ranges == []
    ensures failure == Some(FileStatus) <==> !inlineable
    ensures failure == Some(PatchMissing) <==> inlineable && !(patch.Some? && available)
  {
    if !inlineable {
      return [], Some(FileStatus);
    }
    if patch == None || !available {
      return [], Some(PatchMissing);
    }
    ranges, failure := ParseHunks(SplitLines(patch.value));
  }

  /** Reads the lines of an available patch. */
  method ParseHunks(lines: seq<string>) returns (ranges: seq<Range>, failure: Option<Failure>)
    ensures failure == None <==> WellFormed(lines)
    ensures failure == None ==> ranges == Coalesce(AddedRanges(Chunks(lines)))
    ensures failure != None ==> ranges == [] && failure.value !in {FileStatus, PatchMissing}
    ensures failure == Some(NoHunks) <==> Chunks(lines) == []
    ensures failure == Some(NothingAdded) <==>
              Chunks(lines) != [] && AllOk(Chunks(lines)) && AddedRanges(Chunks(lines)) == []
    ensures failure.Some? && failure.value !in {NoHunks, NothingAdded} ==>
              || (exists i :: FirstBreak(lines, i, failure.value))
              || (failure == Some(CountMismatch) && !Doomed(Chunks(lines)) && !AllOk(Chunks(lines)))
  {
    hide ParseHeader, ChunkOk, KindOf, Chunks, Extend, AddedRanges, CoalesceFrom, Doomed, Open, SourceLines,
         TargetLines;
    NotDoomedYet();
    var changed: seq<Range> := [];
    var sawHunk, hasAddition := false, false;
    var sourceRemaining, targetLine, targetRemaining := 0, 0, 0;
    var hunk := Range(0, 0);
    assert lines[..0] == [];
    EmptyPatch();
    for i := 0 to |lines|
      invariant sawHunk <==> Chunks(lines[..i]) != []
      invariant !sawHunk ==> changed == []
      invariant sawHunk ==>
          var cs := Chunks(lines[..i]);
          && Open(cs, sourceRemaining, targetLine, targetRemaining, hunk, hasAddition)
          && changed == AddedRanges(cs[..|cs| - 1])
    {
      ghost var cs := Chunks(lines[..i]);
      var line := lines[i];
      ChunksStep(lines, i);
      if Doomed(Extend(cs, line)) {
        DoomedStays(lines, i + 1);
      }
      if sawHunk {
        OpenIsNotDoomed(cs, sourceRemaining, targetLine, targetRemaining, hunk, hasAddition);
        OpenCloses(cs, sourceRemaining, targetLine, targetRemaining, hunk, hasAddition);
        if !StartsHunk(line) {
          OpenContinues(cs, sourceRemaining, targetLine, targetRemaining, hunk, hasAddition, line);
        }
      }
      var header := if StartsHunk(line) then ParseHeader(line) else None;
      if header != None {
        if sawHunk && (sourceRemaining != 0 || targetRemaining != 0) {
          assert FirstBreak(lines, i, CountMismatch);
          return [], Some(CountMismatch);
        }
        NewHunk(cs, line);
        if sawHunk && hasAddition {
          changed := changed + [hunk];
        }
        sawHunk := true;
        sourceRemaining, targetLine := header.value.source.count, header.value.target.start;
        targetRemaining := header.value.target.count;
        if header.value.source.start <= 0 && sourceRemaining > 0 {
          assert FirstBreak(lines, i, SourceStart);
          return [], Some(SourceStart);
        }
        if targetLine <= 0 {
          assert FirstBreak(lines, i, TargetStart);
          return [], Some(TargetStart);
        }
        if targetRemaining <= 0 {
          assert FirstBreak(lines, i, NoTargetLines);
          return [], Some(NoTargetLines);
        }
        hunk := Range(targetLine, targetLine + targetRemaining - 1);
        hasAddition := false;
        continue;
      }
      if StartsHunk(line) {
        NewHunk(cs, line);
        assert FirstBreak(lines, i, UnsupportedHeader);
        return [], Some(UnsupportedHeader);
      }
      if !sawHunk {
        continue;
      }
      var kind := KindOf(line);
      if kind == NoNewline {
        continue;
      }
      if kind == Plus {
        if targetRemaining <= 0 {
          assert FirstBreak(lines, i, TargetOverflow);
          return [], Some(TargetOverflow);
        }
        hasAddition := true;
        targetLine, targetRemaining := targetLine + 1, targetRemaining - 1;
        continue;
      }
      if kind == Minus {
        if sourceRemaining <= 0 {
          assert FirstBreak(lines, i, SourceOverflow);
          return [], Some(SourceOverflow);
        }
        sourceRemaining := sourceRemaining - 1;
        continue;
      }
      if kind == Context {
        if sourceRemaining <= 0 {
          assert FirstBreak(lines, i, SourceOverflow);
          return [], Some(SourceOverflow);
        }
        if targetRemaining <= 0 {
          assert FirstBreak(lines, i, TargetOverflow);
          return [], Some(TargetOverflow);
        }
        sourceRemaining := sourceRemaining - 1;
        targetLine, targetRemaining := targetLine + 1, targetRemaining - 1;
        continue;
      }
      assert FirstBreak(lines, i, UnsupportedLine);
      return [], Some(UnsupportedLine);
    }
    assert lines[..|lines|] == lines;
    if !sawHunk {
      return [], Some(NoHunks);
    }
    OpenIsNotDoomed(Chunks(lines), sourceRemaining, targetLine, targetRemaining, hunk, hasAddition);
    OpenCloses(Chunks(lines), sourceRemaining, targetLine, targetRemaining, hunk, hasAddition);
    if sourceRemaining != 0 || targetRemaining != 0 {
      return [], Some(CountMismatch);
    }
    if hasAddition {
      changed := changed + [hunk];
    }
    if changed == [] {
      return [], Some(NothingAdded);
    }
    ranges := CoalesceChangedRanges(changed);
    failure := None;
  }

  lemma NewHunk(cs: seq<Chunk>, line: string)
    requires StartsHunk(line)
    ensures Extend(cs, line) != [] && Extend(cs, line)[..|Extend(cs, line)| - 1] == cs
    ensures
      if ParseHeader(line).Some? && HeaderOk(ParseHeader(line).value) then
        AllOk(cs) ==>
          var h := ParseHeader(line).value;
          Open(Extend(cs, line), h.source.count, h.target.start, h.target.count,
               Range(h.target.start, h.target.start + h.target.count - 1), false)
      else Doomed(Extend(cs, line))
  {
    hide ParseHeader, HeaderOk, ChunkOk, Open;
    assert Extend(cs, line)[..|cs|] == cs;
    if ParseHeader(line).Some? && HeaderOk(ParseHeader(line).value) && AllOk(cs) {
      OpenNewHunk(cs, line);
    }
  }

  // ----- printing a patch and reading it back -----

  datatype Hunk = Hunk(header: Header, short: bool, section: string, body: seq<string>)

  /** The counts in the header are those of the body. */
  predicate HunkOk(h: Hunk) {
    HeaderOk(h.header) && KnownLines(h.body)
    && SourceLines(h.body) == h.header.source.count && TargetLines(h.body) == h.header.target.count
  }

  function ChunkOf(h: Hunk): Chunk {
    Chunk(PrintHeader(h.header, h.short, h.section), h.body)
  }

  function ChunksOf(hs: seq<Hunk>): (cs: seq<Chunk>)
    ensures |cs| == |hs|
  {
    if hs == [] then [] else ChunksOf(hs[..|hs| - 1]) + [ChunkOf(Last(hs))]
  }

  function PrintPatch(preamble: seq<string>, hs: seq<Hunk>): seq<string> {
    if hs == [] then preamble
    else PrintPatch(preamble, hs[..|hs| - 1]) + [ChunkOf(Last(hs)).head] + Last(hs).body
  }

  /** The target ranges of the hunks that add a line. */
  function HunkRanges(hs: seq<Hunk>): seq<Range> {
    if hs == [] then []
    else
      var target := Last(hs).header.target;
      HunkRanges(hs[..|hs| - 1])
      + (if HasAddition(Last(hs).body) then [Range(target.start, target.start + target.count - 1)] else [])
  }

  lemma {:induction false} PreambleHasNoChunks(preamble: seq<string>)
    requires NoHeads(preamble)
    ensures Chunks(preamble) == []
  {
    if preamble != [] {
      PreambleHasNoChunks(preamble[..|preamble| - 1]);
    }
  }

  lemma ChunksAppend(lines: seq<string>, line: string)
    ensures Chunks(lines + [line]) == Extend(Chunks(lines), line)
  {
    var longer := lines + [line];
    assert longer[..|longer| - 1] == lines && Last(longer) == line;
  }

  lemma {:induction false} BodyJoinsLastChunk(lines: seq<string>, cs: seq<Chunk>, head: string, body: seq<string>)
    requires Chunks(lines) == cs + [Chunk(head, [])] && NoHeads(body)
    ensures Chunks(lines + body) == cs + [Chunk(head, body)]
    decreases |body|
  {
    hide Chunks, StartsHunk;
    if body == [] {
      Unit(lines);
    } else {
      var shorter, line := body[..|body| - 1], Last(body);
      assert !StartsHunk(body[|body| - 1]);
      BodyJoinsLastChunk(lines, cs, head, shorter);
      ChunksAppend(lines + shorter, line);
      assert shorter + [line] == body;
      Assoc(lines, shorter, [line]);
      var before := cs + [Chunk(head, shorter)];
      assert before[..|before| - 1] == cs && Last(before) == Chunk(head, shorter);
    }
  }

  /** No body line opens a hunk. */
  predicate NoHeads(body: seq<string>) {
    forall i :: 0 <= i < |body| ==> !StartsHunk(body[i])
  }

  lemma KnownHasNoHeads(body: seq<string>)
    requires KnownLines(body)
    ensures NoHeads(body)
  {
    forall i | 0 <= i < |body| ensures !StartsHunk(body[i]) {
      assert KindOf(body[i]) != Unknown;
    }
  }

  lemma {:induction false} PrintedChunks(preamble: seq<string>, hs: seq<Hunk>)
    requires NoHeads(preamble) && forall i :: 0 <= i < |hs| ==> NoHeads(hs[i].body)
    ensures Chunks(PrintPatch(preamble, hs)) == ChunksOf(hs)
    decreases |hs|
  {
    hide NoHeads;
    if hs == [] {
      PreambleHasNoChunks(preamble);
    } else {
      var h := Last(hs);
      assert NoHeads(hs[|hs| - 1].body);
      PrintedChunks(preamble, hs[..|hs| - 1]);
      var before := PrintPatch(preamble, hs[..|hs| - 1]);
      var withHead := before + [ChunkOf(h).head];
      assert withHead[..|withHead| - 1] == before;
      HeadStartsHunk(h);
      assert Chunks(withHead) == ChunksOf(hs[..|hs| - 1]) + [Chunk(ChunkOf(h).head, [])];
      BodyJoinsLastChunk(withHead, ChunksOf(hs[..|hs| - 1]), ChunkOf(h).head, h.body);
    }
  }

  lemma HeadStartsHunk(h: Hunk)
    ensures StartsHunk(ChunkOf(h).head)
  {}

  lemma ChunkOfOk(h: Hunk)
    ensures ParseHeader(ChunkOf(h).head) == Some(h.header)
    ensures HunkOk(h) <==> ChunkOk(ChunkOf(h))
  {
    hide ParseHeader, PrintHeader, HeaderOk, KnownLines, SourceLines, TargetLines;
    HeaderReadsBack(h.header, h.short, h.section);
  }

  lemma {:induction false} PrintedRanges(hs: seq<Hunk>)
    ensures AddedRanges(ChunksOf(hs)) == HunkRanges(hs)
    decreases |hs|
  {
    hide ParseHeader, PrintHeader, HasAddition;
    if hs != [] {
      PrintedRanges(hs[..|hs| - 1]);
      assert ChunksOf(hs)[..|hs| - 1] == ChunksOf(hs[..|hs| - 1]);
      HeaderReadsBack(Last(hs).header, Last(hs).short, Last(hs).section);
    }
  }

  lemma {:induction false} PrintedOk(hs: seq<Hunk>)
    ensures AllOk(ChunksOf(hs)) <==> forall i :: 0 <= i < |hs| ==> HunkOk(hs[i])
    ensures forall i :: 0 <= i < |hs| ==> ChunksOf(hs)[i] == ChunkOf(hs[i])
    decreases |hs|
  {
    hide PrintHeader, HunkOk, ChunkOk, ChunkOf;
    if hs != [] {
      PrintedOk(hs[..|hs| - 1]);
    }
    forall i | 0 <= i < |hs| ensures HunkOk(hs[i]) <==> ChunkOk(ChunkOf(hs[i])) {
      ChunkOfOk(hs[i]);
    }
  }

  lemma {:induction false} HunkRangesSorted(hs: seq<Hunk>)
    requires forall i :: 0 <= i < |hs| ==> HunkOk(hs[i])
    requires forall i, j :: 0 <= i < j < |hs| ==> hs[i].header.target.start <= hs[j].header.target.start
    ensures SortedByStart(HunkRanges(hs)) && NonEmpty(HunkRanges(hs))
    ensures forall i :: 0 <= i < |HunkRanges(hs)| ==> HunkRanges(hs)[i].start <= Last(hs).header.target.start
    decreases |hs|
  {
    hide HasAddition, KnownLines, SourceLines, TargetLines;
    if hs != [] {
      HunkRangesSorted(hs[..|hs| - 1]);
      assert HunkOk(hs[|hs| - 1]);
    }
  }

  predicate HunkCovers(h: Hunk, line: int) {
    HasAddition(h.body) && h.header.target.start <= line < h.header.target.start + h.header.target.count
  }

  /** Some hunk with an addition covers the line. */
  predicate AddingHunkCovers(hs: seq<Hunk>, line: int) {
    exists i :: 0 <= i < |hs| && HunkCovers(hs[i], line)
  }

  lemma {:induction false} HunkRangesCover(hs: seq<Hunk>, line: int)
    ensures Covers(HunkRanges(hs), line) <==> AddingHunkCovers(hs, line)
    ensures HunkRanges(hs) != [] <==> exists i :: 0 <= i < |hs| && HasAddition(hs[i].body)
    decreases |hs|
  {
    hide HasAddition, Covers, AddingHunkCovers;
    if hs == [] {
      NothingCovers(line);
    } else {
      var shorter, last := hs[..|hs| - 1], Last(hs);
      HunkRangesCover(shorter, line);
      AddingSplit(hs, line);
      assert forall i :: 0 <= i < |shorter| ==> shorter[i] == hs[i];
      if HasAddition(last.body) {
        assert HasAddition(hs[|hs| - 1].body);
        var range := Range(last.header.target.start, last.header.target.start + last.header.target.count - 1);
        CoversConcat(HunkRanges(shorter), [range], line);
        assert [range][1..] == [];
        CoversSplit([range], line);
        NothingCovers(line);
      } else {
        Unit(HunkRanges(shorter));
      }
    }
  }

  lemma NothingCovers(line: int)
    ensures !Covers([], line) && !AddingHunkCovers([], line)
  {}

  lemma AddingSplit(hs: seq<Hunk>, line: int)
    requires hs != []
    ensures AddingHunkCovers(hs, line) <==> AddingHunkCovers(hs[..|hs| - 1], line) || HunkCovers(Last(hs), line)
  {
    hide HasAddition;
    var shorter := hs[..|hs| - 1];
    if i :| 0 <= i < |hs| && HunkCovers(hs[i], line) {
      if i < |shorter| {
        assert HunkCovers(shorter[i], line);
      }
    }
    if i :| 0 <= i < |shorter| && HunkCovers(shorter[i], line) {
      assert HunkCovers(hs[i], line);
    }
    if HunkCovers(Last(hs), line) {
      assert HunkCovers(hs[|hs| - 1], line);
    }
  }

  /** Hunks, printed as lines, parse exactly when they are all well-formed and one of them adds a line; what is
      read back are the ranges of those that do. */
  lemma PrintedLinesParse(preamble: seq<string>, hs: seq<Hunk>)
    requires NoHeads(preamble) && forall i :: 0 <= i < |hs| ==> NoHeads(hs[i].body)
    ensures WellFormed(PrintPatch(preamble, hs)) <==>
              (forall i :: 0 <= i < |hs| ==> HunkOk(hs[i])) && exists i :: 0 <= i < |hs| && HasAddition(hs[i].body)
    ensures AddedRanges(Chunks(PrintPatch(preamble, hs))) == HunkRanges(hs)
  {
    hide HasAddition, HunkOk, PrintPatch, AddedRanges, Chunks, ChunkOk, NoHeads, ChunkOf;
    PrintedChunks(preamble, hs);
    PrintedRanges(hs);
    PrintedOk(hs);
    HunkRangesCover(hs, 0);
  }

  // ----- a patch as text -----

  /** The text of a patch: whatever stands before the first hunk, and the lines of the hunks. */
  function PrintText(preamble: string, hs: seq<Hunk>): string {
    preamble + Unlines(PrintPatch([], hs))
  }

  /** A preamble of whole lines, none of which opens a hunk. */
  predicate IsPreamble(preamble: string) {
    (preamble != "" ==> Last(preamble) == '\n')
    && NoHeads(SplitLines(preamble))
  }

  predicate AllBreakFree(lines: seq<string>) {
    forall i :: 0 <= i < |lines| ==> BreakFree(lines[i])
  }

  /** No section title and no body line holds a line break. */
  predicate Unbroken(hs: seq<Hunk>) {
    forall i :: 0 <= i < |hs| ==> BreakFree(hs[i].section) && AllBreakFree(hs[i].body)
  }

  lemma {:induction false} DigitsBreakFree(n: nat)
    ensures BreakFree(Decimal(n))
  {
    if n >= 10 {
      DigitsBreakFree(n / 10);
    }
  }

  lemma HeadBreakFreeIff(h: Hunk)
    ensures BreakFree(ChunkOf(h).head) <==> BreakFree(h.section)
  {
    hide Decimal;
    DigitsBreakFree(h.header.source.start);
    DigitsBreakFree(h.header.source.count);
    DigitsBreakFree(h.header.target.start);
    DigitsBreakFree(h.header.target.count);
    var sides := [PrintSide(h.header.source, h.short), PrintSide(h.header.target, h.short)];
    assert BreakFree(sides[0]) && BreakFree(sides[1]);
    var front := HEADER_OPEN + sides[0] + HEADER_MIDDLE + sides[1] + HEADER_CLOSE;
    assert BreakFree(front);
    if h.section != "" {
      hide PrintSide;
      assert ChunkOf(h).head == front + (" " + h.section);
      BreakFreeConcat(front, " " + h.section);
      BreakFreeConcat(" ", h.section);
    } else {
      Unit(front);
    }
  }

  lemma BreakFreeConcat(a: string, b: string)
    ensures BreakFree(a + b) <==> BreakFree(a) && BreakFree(b)
  {
    assert forall i :: 0 <= i < |a| ==> (a + b)[i] == a[i];
    assert forall i :: 0 <= i < |b| ==> (a + b)[|a| + i] == b[i];
  }

  lemma PreambleSplits(preamble: string, rest: string)
    requires IsPreamble(preamble)
    ensures SplitLines(preamble + rest) == SplitLines(preamble) + SplitLines(rest)
  {
    hide SplitLines;
    if preamble == "" {
      NothingToSplit();
      Unit(rest);
      Unit(SplitLines(rest));
    } else {
      var front := preamble[..|preamble| - 1];
      assert front + "\n" == preamble;
      SplitAtNewline(front, rest);
    }
  }

  lemma {:induction false} PrintedAfter(preamble: seq<string>, hs: seq<Hunk>)
    ensures PrintPatch(preamble, hs) == preamble + PrintPatch([], hs)
    decreases |hs|
  {
    hide ChunkOf;
    if hs == [] {
      Unit(preamble);
    } else {
      PrintedAfter(preamble, hs[..|hs| - 1]);
      var before, h := PrintPatch([], hs[..|hs| - 1]), Last(hs);
      Assoc(preamble, before, [ChunkOf(h).head]);
      Assoc(preamble, before + [ChunkOf(h).head], h.body);
    }
  }

  lemma {:induction false} PrintedUnbroken(hs: seq<Hunk>)
    ensures AllBreakFree(PrintPatch([], hs)) <==> Unbroken(hs)
    decreases |hs|
  {
    hide BreakFree, ChunkOf, AllBreakFree;
    if hs != [] {
      var shorter, h := hs[..|hs| - 1], Last(hs);
      PrintedUnbroken(shorter);
      HeadBreakFreeIff(h);
      var before, head := PrintPatch([], shorter), [ChunkOf(h).head];
      AllConcat(before + head, h.body);
      AllConcat(before, head);
      assert Unbroken(hs) <==> Unbroken(shorter) && BreakFree(h.section) && AllBreakFree(h.body) by {
        assert forall i :: 0 <= i < |shorter| ==> hs[i] == shorter[i];
        assert hs[|shorter|] == h;
      }
      AllOfOne(ChunkOf(h).head);
    } else {
      AllOfNone();
    }
  }

  lemma AllOfOne(line: string)
    ensures AllBreakFree([line]) <==> BreakFree(line)
  {
    hide BreakFree;
    assert [line][0] == line;
  }

  lemma AllOfNone()
    ensures AllBreakFree([])
  {}

  lemma AllConcat(a: seq<string>, b: seq<string>)
    ensures AllBreakFree(a + b) <==> AllBreakFree(a) && AllBreakFree(b)
  {
    hide BreakFree;
    assert forall i :: 0 <= i < |a| ==> (a + b)[i] == a[i];
    assert forall i :: 0 <= i < |b| ==> (a + b)[|a| + i] == b[i];
  }

  /** A printed patch text is cut into the printed lines exactly when the hunks hold no line break. */
  lemma TextReadsBackIff(preamble: string, hs: seq<Hunk>)
    requires IsPreamble(preamble)
    ensures SplitLines(PrintText(preamble, hs)) == PrintPatch(SplitLines(preamble), hs) <==> Unbroken(hs)
  {
    hide SplitLines, Unlines, PrintPatch, IsPreamble, Unbroken;
    PreambleSplits(preamble, Unlines(PrintPatch([], hs)));
    PrintedAfter(SplitLines(preamble), hs);
    UnlinesReadsBackIff(PrintPatch([], hs));
    PrintedUnbroken(hs);
    var front, printed, cut := SplitLines(preamble), PrintPatch([], hs), SplitLines(Unlines(PrintPatch([], hs)));
    assert (front + cut)[|front|..] == cut && (front + printed)[|front|..] == printed;
  }

  /** From the text of well-formed hunks without line breaks, the parser gets the ranges of exactly those
      with an addition; the newline at the end of the text may be missing. */
  lemma PrintedPatchParses(preamble: string, hs: seq<Hunk>)
    requires IsPreamble(preamble) && Unbroken(hs)
    requires forall i :: 0 <= i < |hs| ==> HunkOk(hs[i])
    ensures var lines := SplitLines(PrintText(preamble, hs));
      && (WellFormed(lines) <==> exists i :: 0 <= i < |hs| && HasAddition(hs[i].body))
      && AddedRanges(Chunks(lines)) == HunkRanges(hs)
  {
    hide HasAddition, PrintPatch, AddedRanges, Chunks, WellFormed, SplitLines, Unbroken, PrintText, NoHeads, HeaderOk,
         KnownLines;
    TextReadsBackIff(preamble, hs);
    forall i | 0 <= i < |hs| ensures NoHeads(hs[i].body) {
      KnownHasNoHeads(hs[i].body);
    }
    PrintedLinesParse(SplitLines(preamble), hs);
  }

  /** For hunks in the order of their target lines, the ranges cover exactly the lines of the adding ones. */
  lemma PrintedPatchCovers(preamble: string, hs: seq<Hunk>, line: int)
    requires IsPreamble(preamble) && Unbroken(hs)
    requires forall i :: 0 <= i < |hs| ==> HunkOk(hs[i])
    requires exists i :: 0 <= i < |hs| && HasAddition(hs[i].body)
    requires forall i, j :: 0 <= i < j < |hs| ==> hs[i].header.target.start <= hs[j].header.target.start
    ensures var ranges := AddedRanges(Chunks(SplitLines(PrintText(preamble, hs))));
            ranges != [] && Separated(Coalesce(ranges))
                && (Covers(Coalesce(ranges), line) <==> AddingHunkCovers(hs, line))
  {
    hide HasAddition, HunkOk, PrintText, AddedRanges, Chunks, Coalesce, HunkRanges, AddingHunkCovers, Separated,
         Covers, IsPreamble, Unbroken, SplitLines, WellFormed, SortedByStart, NonEmpty;
    PrintedPatchParses(preamble, hs);
    HunkRangesCover(hs, line);
    HunkRangesSorted(hs);
    var ranges := HunkRanges(hs);
    assert [ranges[0]] + ranges[1..] == ranges;
    SortedDropsNothing([], ranges[0], ranges[1..]);
    CoalesceExactIff(ranges);
  }

  /** One context line with a form feed in it, and one added line. */
  const FORM_FEED := Hunk(Header(Side(1, 1), Side(1, 2)), false, "", [" a\U{0C}b", "+c"])

  /** The form feed cuts its line in two, and the second half is no body line: the patch is refused. */
  lemma FormFeedIsRefused()
    ensures HunkOk(FORM_FEED) && HasAddition(FORM_FEED.body) && !Unbroken([FORM_FEED])
    ensures !WellFormed(SplitLines(PrintText("", [FORM_FEED])))
  {
    hide ParseHeader, PrintHeader, SplitLines, Chunks, PrintText, StartsHunk, BreakFree, HunkOk, HasAddition,
         Unbroken, AddedRanges;
    FormFeedIsFine();
    var head := ChunkOf(FORM_FEED).head;
    HeadBreakFreeIff(FORM_FEED);
    HeadStartsHunk(FORM_FEED);
    NoTitle();
    FormFeedLines(head);
    var lines := SplitLines(PrintText("", [FORM_FEED]));
    assert lines == [head, " a", "b", "+c"];
    FormFeedChunks(head);
    assert KindOf("b") == Unknown && [" a", "b", "+c"][1] == "b";
    assert !ChunkOk(Chunks(lines)[0]);
  }

  lemma HeaderStart(line: string)
    ensures StartsHunk(line) ==> line != "" && line[0] == '@'
  {
    if StartsHunk(line) {
      assert line[0] == "@@"[0];
    }
  }

  lemma OneChunkGrows(lines: seq<string>, head: string, body: seq<string>, line: string)
    requires Chunks(lines) == [Chunk(head, body)] && !StartsHunk(line)
    ensures Chunks(lines + [line]) == [Chunk(head, body + [line])]
  {
    hide Chunks, StartsHunk;
    ChunksAppend(lines, line);
    assert [Chunk(head, body)][..0] == [];
  }

  lemma FormFeedChunks(head: string)
    requires StartsHunk(head)
    ensures Chunks([head, " a", "b", "+c"]) == [Chunk(head, [" a", "b", "+c"])]
  {
    hide Chunks;
    EmptyPatch();
    ChunksAppend([], head);
    Unit([head]);
    Unit([Chunk(head, [])]);
    HeaderStart(" a");
    HeaderStart("b");
    HeaderStart("+c");
    OneChunkGrows([head], head, [], " a");
    assert [head] + [" a"] == [head, " a"] && [] + [" a"] == [" a"];
    OneChunkGrows([head, " a"], head, [" a"], "b");
    assert [head, " a"] + ["b"] == [head, " a", "b"] && [" a"] + ["b"] == [" a", "b"];
    OneChunkGrows([head, " a", "b"], head, [" a", "b"], "+c");
    assert [head, " a", "b"] + ["+c"] == [head, " a", "b", "+c"] && [" a", "b"] + ["+c"] == [" a", "b", "+c"];
  }

  lemma FormFeedIsFine()
    ensures HunkOk(FORM_FEED) && HasAddition(FORM_FEED.body) && !Unbroken([FORM_FEED])
  {
    var body := FORM_FEED.body;
    assert body[..1] == [" a\U{0C}b"] && body[..1][..0] == [];
    assert KindOf(body[0]) == Context && KindOf(body[1]) == Plus;
    assert Last(body) == body[1] && Last(body[..1]) == body[0];
    assert IsBreak(body[0][2]) && !BreakFree(body[0]);
    assert [FORM_FEED][0].body[0] == body[0];
  }

  lemma NoTitle()
    ensures BreakFree(FORM_FEED.section)
  {}

  lemma FormFeedLines(head: string)
    requires head == ChunkOf(FORM_FEED).head && BreakFree(head)
    ensures SplitLines(PrintText("", [FORM_FEED])) == [head, " a", "b", "+c"]
  {
    hide PrintHeader, BreakFree;
    var body := FORM_FEED.body;
    assert [FORM_FEED][..0] == [] && PrintPatch([], [FORM_FEED]) == [head] + body;
    assert [head] + body == [head, body[0], body[1]];
    assert [head, body[0], body[1]][1..] == [body[0], body[1]] && [body[0], body[1]][1..] == [body[1]]
        && [body[1]][1..] == [];
    var tail := Unlines([body[0], body[1]]);
    assert PrintText("", [FORM_FEED]) == head + "\n" + tail;
    SplitOneLine(head);
    SplitAtNewline(head, tail);
    FormFeedTail(tail);
  }

  lemma FormFeedTail(tail: string)
    requires tail == Unlines([" a\U{0C}b", "+c"])
    ensures SplitLines(tail) == [" a", "b", "+c"]
  {
    hide SplitLines;
    assert [" a\U{0C}b", "+c"][1..] == ["+c"] && ["+c"][1..] == [];
    assert tail == " a" + ['\U{0C}'] + ("b" + "\n" + ("+c" + "\n"));
    SplitAtBreak(" a", '\U{0C}', "b" + "\n" + ("+c" + "\n"));
    SplitAtNewline("b", "+c" + "\n");
    SplitOneLine("b");
    SplitOneLine("+c");
  }

  /** What a successful parse hands to the anchors: positive, non-empty ranges with gaps between them. */
  lemma {:induction false} ParsedRangesArePositive(cs: seq<Chunk>)
    requires AllOk(cs)
    ensures NonEmpty(AddedRanges(cs)) && forall i :: 0 <= i < |AddedRanges(cs)| ==> AddedRanges(cs)[i].start > 0
    decreases |cs|
  {
    hide ParseHeader, KnownLines, SourceLines, TargetLines, HasAddition;
    if cs != [] {
      assert ChunkOk(cs[|cs| - 1]);
      ParsedRangesArePositive(cs[..|cs| - 1]);
    }
  }

  lemma AnchorableRanges(lines: seq<string>)
    requires WellFormed(lines)
    ensures var ranges := Coalesce(AddedRanges(Chunks(lines)));
            Separated(ranges) && forall i :: 0 <= i < |ranges| ==> ranges[i].start > 0
  {
    hide AddedRanges, Chunks, ChunkOk;
    var added := AddedRanges(Chunks(lines));
    ParsedRangesArePositive(Chunks(lines));
    CoalesceSeparates(added[0], added[1..]);
    var ranges := Coalesce(added);
    assert forall i :: 0 <= i < |ranges| ==> ranges[0].start <= ranges[i].start;
  }
}
