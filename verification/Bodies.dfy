/** What happens to a comment body between building and rescanning: the marker is appended
    as the last line, a store may change line endings, and both the marker and the visible
    text have to be found again. */
module Bodies {
  import opened Text
  import opened Marker

  function Lines(body: string): seq<string> {
    Split(NormalizeNewlines(body), '\n')
  }

  /** The last line of a body, not counting one trailing newline. */
  function FinalLine(body: string): string {
    var normalized := NormalizeNewlines(body);
    var text := if normalized != "" && Last(normalized) == '\n' then normalized[..|normalized| - 1] else normalized;
    if text == "" then "" else Last(Split(text, '\n'))
  }

  /** markers.py, `scan_final_line_marker`: an empty body has no final line. */
  function ScanFinalLine(body: string): Option<Marker> {
    if body == "" then None else ParseByRegex(FinalLine(body))
  }

  /** The canonical body with one trailing marker line removed. */
  function CanonicalVisibleBody(text: string): string {
    var canonical := CanonicalTextBody(text);
    var lines := Split(canonical, '\n');
    if |lines| >= 2 && IsMarkerLine(lines[|lines| - 2])
    then RStripNewlines(Join(lines[..|lines| - 2], '\n')) + "\n"
    else canonical
  }

  function MarkerLines(lines: seq<string>): seq<string> {
    if lines == [] then []
    else (if IsMarkerLine(lines[0]) then [lines[0]] else []) + MarkerLines(lines[1..])
  }

  predicate MarkerFree(body: string) {
    forall line :: line in Lines(body) ==> !IsMarkerLine(line)
  }

  function WithMarker(visible: string, line: string): string {
    CanonicalTextBody(visible) + line + "\n"
  }

  /** A store that may change line endings and may drop the one trailing newline. */
  predicate StoredAs(body: string, stored: string) {
    body != "" && Last(body) == '\n'
    && (NormalizeNewlines(stored) == body || NormalizeNewlines(stored) == body[..|body| - 1])
  }

  lemma {:induction false} StoresKeepBodies(body: string)
    requires IsCanonical(body)
    ensures StoredAs(body, body) && StoredAs(body, ToCrLf(body)) && StoredAs(body, body[..|body| - 1])
  {
    NormalizeFixesCrFree(body);
    NormalizeFixesCrFree(body[..|body| - 1]);
    NormalizeUndoesCrLf(body);
  }

  // ----- the shape of a body with a marker -----

  lemma {:induction false} WithMarkerShape(visible: string, line: string)
    requires OneLine(line) && line != ""
    ensures IsCanonical(WithMarker(visible, line))
    ensures var x := RStripNewlines(NormalizeNewlines(visible));
      WithMarker(visible, line) == x + "\n" + line + "\n"
      && Split(WithMarker(visible, line), '\n') == Split(x, '\n') + [line, ""]
      && Split(x + "\n" + line, '\n') == Split(x, '\n') + [line]
  {
    var x := RStripNewlines(NormalizeNewlines(visible));
    CanonicalBodyIsCanonical(visible);
    SplitWhole(line, '\n');
    SplitConcat(x, '\n', line);
    SplitConcat(x + "\n" + line, '\n', "");
    assert x + ['\n'] + line == x + "\n" + line;
    assert (x + "\n" + line) + ['\n'] + "" == WithMarker(visible, line);
    assert Split(x, '\n') + [line] + [""] == Split(x, '\n') + [line, ""];
  }

  /** Scanning recovers the marker from every stored form of the body. */
  lemma {:induction false} FinalLineRecovered(visible: string, line: string, stored: string)
    requires OneLine(line) && line != ""
    requires StoredAs(WithMarker(visible, line), stored)
    ensures stored != "" && FinalLine(stored) == line
  {
    WithMarkerShape(visible, line);
    var x := RStripNewlines(NormalizeNewlines(visible));
    var n := NormalizeNewlines(stored);
    assert (x + "\n" + line + "\n")[..|x| + 1 + |line|] == x + "\n" + line;
    assert Last(x + "\n" + line) == Last(line);
    assert Last(Split(x, '\n') + [line]) == line;
  }

  /** Stripping recovers the canonical body from every stored form, whatever the body holds. */
  lemma {:induction false} VisibleBodyRecovered(visible: string, line: string, stored: string)
    requires IsMarkerLine(line)
    requires StoredAs(WithMarker(visible, line), stored)
    ensures CanonicalTextBody(stored) == WithMarker(visible, line)
    ensures CanonicalVisibleBody(stored) == CanonicalTextBody(visible)
  {
    MarkerLineIsOneLine(line);
    WithMarkerShape(visible, line);
    var body := WithMarker(visible, line);
    var x := RStripNewlines(NormalizeNewlines(visible));
    CanonicalFixesCanonical(body);
    NormalizeFixesCrFree(body);
    NormalizeFixesCrFree(body[..|body| - 1]);
    var lines := Split(body, '\n');
    assert lines[..|lines| - 2] == Split(x, '\n');
    assert lines[|lines| - 2] == line;
    JoinSplit(x, '\n');
    RStripIsPrefix(NormalizeNewlines(visible));
    RStripStops(x);
  }

  lemma RStripStops(x: string)
    requires x == "" || Last(x) != '\n'
    ensures RStripNewlines(x) == x
  {}

  /** The markers of the finished body are those of the visible text and then the appended one. */
  lemma {:induction false} MarkerLinesOfWithMarker(visible: string, line: string)
    requires IsMarkerLine(line)
    ensures MarkerLines(Lines(WithMarker(visible, line))) == [line]
       <==> MarkerFree(CanonicalTextBody(visible))
  {
    MarkerLineIsOneLine(line);
    WithMarkerShape(visible, line);
    var x := RStripNewlines(NormalizeNewlines(visible));
    NormalizeFixesCrFree(WithMarker(visible, line));
    MarkerLinesConcat(Split(x, '\n'), [line, ""]);
    EmptyIsNoMarker();
    assert [line, ""][1..] == [""];
    assert [""][1..] == [];
    assert MarkerLines([""]) == [];
    assert MarkerLines([line, ""]) == [line];
    MarkerLinesEmpty(Split(x, '\n'));
    CanonicalBodyIsCanonical(visible);
    NormalizeFixesCrFree(CanonicalTextBody(visible));
    SplitConcat(x, '\n', "");
    assert x + ['\n'] + "" == x + "\n";
    assert Lines(CanonicalTextBody(visible)) == Split(x, '\n') + [""];
  }

  lemma EmptyIsNoMarker()
    ensures !IsMarkerLine("")
  {
    if IsMarkerLine("") {
      MarkerLineIsOneLine("");
    }
  }

  lemma {:induction false} MarkerLinesConcat(a: seq<string>, b: seq<string>)
    ensures MarkerLines(a + b) == MarkerLines(a) + MarkerLines(b)
  {
    hide IsMarkerLine;
    if a == [] {
      assert a + b == b;
    } else {
      assert (a + b)[0] == a[0] && (a + b)[1..] == a[1..] + b;
      MarkerLinesConcat(a[1..], b);
      Assoc(if IsMarkerLine(a[0]) then [a[0]] else [], MarkerLines(a[1..]), MarkerLines(b));
    }
  }

  lemma {:induction false} MarkerLinesEmpty(lines: seq<string>)
    ensures MarkerLines(lines) == [] <==> forall line :: line in lines ==> !IsMarkerLine(line)
  {
    hide IsMarkerLine;
    if lines != [] {
      MarkerLinesEmpty(lines[1..]);
      assert forall line :: line in lines <==> line == lines[0] || line in lines[1..];
    }
  }

  lemma VisibleOfCanonical(text: string)
    ensures CanonicalVisibleBody(CanonicalTextBody(text)) == CanonicalVisibleBody(text)
  {
    CanonicalBodyIsCanonical(text);
    CanonicalFixesCanonical(CanonicalTextBody(text));
  }

  // ----- how far stripping is idempotent -----

  predicate EndsWithMarker(canonical: string) {
    var lines := Split(canonical, '\n');
    |lines| >= 2 && IsMarkerLine(lines[|lines| - 2])
  }

  lemma {:induction false} VisibleBodyIsCanonical(text: string)
    ensures IsCanonical(CanonicalVisibleBody(text))
    ensures EndsWithMarker(CanonicalTextBody(text))
       ==> |CanonicalVisibleBody(text)| < |CanonicalTextBody(text)|
  {
    CanonicalBodyIsCanonical(text);
    var canonical := CanonicalTextBody(text);
    if EndsWithMarker(canonical) {
      var lines := Split(canonical, '\n');
      JoinSplit(canonical, '\n');
      JoinLastTwo(lines, '\n');
      assert lines[|lines| - 2] != "" by { MarkerLineIsOneLine(lines[|lines| - 2]); }
      RestoredNewline(Join(lines[..|lines| - 2], '\n'), canonical);
    }
  }

  lemma {:induction false} RestoredNewline(kept: string, whole: string)
    requires kept <= whole && |kept| + 2 <= |whole| && '\r' !in whole
    ensures IsCanonical(RStripNewlines(kept) + "\n") && |RStripNewlines(kept) + "\n"| < |whole|
  {
    RStripIsPrefix(kept);
    assert forall c :: c in RStripNewlines(kept) ==> c in whole;
  }

  /** Dropping the last two parts leaves a prefix that is shorter by at least those parts. */
  lemma {:induction false} JoinLastTwo(parts: seq<string>, sep: char)
    requires |parts| >= 2
    ensures Join(parts[..|parts| - 2], sep) <= Join(parts, sep)
    ensures |Join(parts[..|parts| - 2], sep)| + |parts[|parts| - 2]| + 1 <= |Join(parts, sep)|
  {
    if |parts| == 2 {
      assert parts[..0] == [];
    } else if |parts| == 3 {
      assert parts[..1] == [parts[0]];
      assert Join(parts[1..], sep) == parts[1] + [sep] + Join(parts[1..][1..], sep);
    } else {
      JoinLastTwo(parts[1..], sep);
      assert parts[1..][..|parts| - 3] == parts[..|parts| - 2][1..];
    }
  }

  /** The lines of the canonical text. */
  function BodyLines(text: string): seq<string> {
    var parts := Split(CanonicalTextBody(text), '\n');
    parts[..|parts| - 1]
  }

  function LastNonEmpty(lines: seq<string>): string {
    if lines == [] then "" else if Last(lines) != "" then Last(lines) else LastNonEmpty(lines[..|lines| - 1])
  }

  /** The last line is a marker, and so is the last line before it that is not empty. */
  predicate StackedMarkers(text: string) {
    var lines := BodyLines(text);
    lines != [] && IsMarkerLine(Last(lines)) && IsMarkerLine(LastNonEmpty(lines[..|lines| - 1]))
  }

  /** What is left after cutting trailing newlines ends in the last line that is not empty. */
  lemma {:induction false} StrippedLastLine(lines: seq<string>)
    requires forall i :: 0 <= i < |lines| ==> '\n' !in lines[i]
    ensures Last(Split(RStripNewlines(Join(lines, '\n')), '\n')) == LastNonEmpty(lines)
  {
    if lines != [] {
      var shorter, last := lines[..|lines| - 1], Last(lines);
      var text := Join(lines, '\n');
      if last != "" {
        SplitJoin(lines, '\n');
        if shorter != [] {
          JoinSnoc(shorter, '\n', last);
          assert shorter + [last] == lines;
        }
        assert Last(text) == Last(last) && Last(last) in last;
      } else if shorter != [] {
        JoinSnoc(shorter, '\n', last);
        assert shorter + [last] == lines && text[..|text| - 1] == Join(shorter, '\n');
        StrippedLastLine(shorter);
      }
    }
  }

  lemma EndsWithLastLine(kept: string)
    ensures EndsWithMarker(kept + "\n") <==> IsMarkerLine(Last(Split(kept, '\n')))
  {
    hide IsMarkerLine, Split;
    SplitWhole("", '\n');
    SplitConcat(kept, '\n', "");
    assert kept + ['\n'] + "" == kept + "\n";
  }

  /** One strip uncovers a second final marker exactly when the text ends in stacked markers. */
  lemma UncoversMarkerIff(text: string)
    ensures EndsWithMarker(CanonicalVisibleBody(text)) <==> StackedMarkers(text)
  {
    hide IsMarkerLine, CanonicalTextBody, LastNonEmpty, Split, Join, RStripNewlines;
    var parts, lines := Split(CanonicalTextBody(text), '\n'), BodyLines(text);
    SplitPartsLackSep(CanonicalTextBody(text), '\n');
    if EndsWithMarker(CanonicalTextBody(text)) {
      var kept := lines[..|lines| - 1];
      assert parts[..|parts| - 2] == kept && Last(lines) == parts[|parts| - 2];
      StrippedLastLine(kept);
      EndsWithLastLine(RStripNewlines(Join(kept, '\n')));
    }
  }

  /** Stripping twice equals stripping once exactly for a text that does not end in two markers with
      nothing but empty lines between them. */
  lemma {:induction false} StripIdempotentIff(text: string)
    ensures CanonicalVisibleBody(CanonicalVisibleBody(text)) == CanonicalVisibleBody(text) <==> !StackedMarkers(text)
  {
    hide IsMarkerLine, StackedMarkers, Split, Join, RStripNewlines;
    VisibleBodyIsCanonical(text);
    VisibleBodyIsCanonical(CanonicalVisibleBody(text));
    CanonicalFixesCanonical(CanonicalVisibleBody(text));
    UncoversMarkerIff(text);
  }

  /** Two markers in a row: one strip leaves a marker behind, the second takes it away. */
  lemma {:induction false} StripNotIdempotent(first: string, second: string)
    requires IsMarkerLine(first) && IsMarkerLine(second)
    ensures var text := first + "\n" + second + "\n";
      CanonicalVisibleBody(text) == first + "\n"
      && CanonicalVisibleBody(CanonicalVisibleBody(text)) == "\n"
  {
    MarkerLineIsOneLine(first);
    MarkerLineIsOneLine(second);
    var text := first + "\n" + second + "\n";
    NormalizeFixesCrFree(first);
    RStripStops(first);
    assert WithMarker(first, second) == text;
    WithMarkerShape(first, second);
    StoresKeepBodies(text);
    VisibleBodyRecovered(first, second, text);
    LoneMarkerStripsAway(first);
  }

  lemma {:induction false} LoneMarkerStripsAway(line: string)
    requires IsMarkerLine(line)
    ensures CanonicalVisibleBody(line + "\n") == "\n"
  {
    MarkerLineIsOneLine(line);
    var text := line + "\n";
    assert text[..|text| - 1] == line;
    CanonicalFixesCanonical(text);
    SplitWhole(line, '\n');
    SplitConcat(line, '\n', "");
    assert line + ['\n'] + "" == text;
    assert Split(text, '\n') == [line, ""];
    assert [line, ""][..0] == [];
    assert Join([], '\n') == "";
    assert RStripNewlines("") == "";
  }
}
