/** Which lines are heads of hunks, and what numbers they give. */
module HunkHeads {
  import opened Text
  import D = Diff

  /** One side as it is written: digits, and perhaps a comma and digits. */
  datatype SideText = SideText(start: string, count: Option<string>)

  predicate Digits(s: string) { s != "" && D.AllDigits(s) }

  predicate Proper(s: SideText) { Digits(s.start) && (s.count.Some? ==> Digits(s.count.value)) }

  function Written(s: SideText): string {
    s.start + (if s.count.Some? then "," + s.count.value else "")
  }

  /** The numbers written; a count that is left out is one. */
  function ValueOf(s: SideText): D.Side
    requires Proper(s)
  {
    D.Side(D.Number(s.start), if s.count.Some? then D.Number(s.count.value) else 1)
  }

  /** The line is a head with these sides, and nothing or a space and a title after it. */
  ghost predicate IsHead(line: string, source: SideText, target: SideText, title: string) {
    && Proper(source) && Proper(target) && (title == "" || title[0] == ' ')
    && line == "@@ -" + Written(source) + " +" + Written(target) + " @@" + title
  }

  lemma SideParses(s: SideText, rest: string)
    requires Proper(s) && rest != "" && !D.IsDigit(rest[0]) && rest[0] != ','
    ensures D.ParseSide(Written(s) + rest) == Some((ValueOf(s), rest))
  {
    hide D.DigitRun, D.Number, D.AllDigits;
    if s.count.None? {
      assert Written(s) + rest == s.start + rest;
      D.DigitRunStops(s.start, rest);
      assert (s.start + rest)[|s.start|..] == rest && (s.start + rest)[..|s.start|] == s.start;
    } else {
      var count := s.count.value;
      var tail := "," + count + rest;
      assert Written(s) + rest == s.start + tail;
      D.DigitRunStops(s.start, tail);
      assert (s.start + tail)[|s.start|..] == tail && (s.start + tail)[..|s.start|] == s.start;
      assert tail[1..] == count + rest;
      D.DigitRunStops(count, rest);
      assert (count + rest)[..|count|] == count && tail[1 + |count|..] == rest;
    }
  }

  lemma ParsedSide(line: string) returns (s: SideText)
    requires D.ParseSide(line).Some?
    ensures Proper(s) && D.ParseSide(line).value.0 == ValueOf(s)
    ensures line == Written(s) + D.ParseSide(line).value.1
  {
    hide D.DigitRun, D.Number;
    var n := D.DigitRun(line);
    var rest := line[n..];
    var m := if rest != "" && rest[0] == ',' then D.DigitRun(rest[1..]) else 0;
    assert line == line[..n] + rest;
    if m > 0 {
      s := SideText(line[..n], Some(rest[1..][..m]));
      assert rest == "," + rest[1..][..m] + rest[1 + m..];
    } else {
      s := SideText(line[..n], None);
    }
  }

  /** A line parses as a head exactly when it is written as one, and gives the numbers written. */
  lemma HeadParsesIff(line: string)
    ensures D.ParseHeader(line).Some? <==> exists source, target, title :: IsHead(line, source, target, title)
    ensures forall source, target, title :: IsHead(line, source, target, title) ==>
              D.ParseHeader(line) == Some(D.Header(ValueOf(source), ValueOf(target)))
  {
    hide D.ParseSide, Written, ValueOf;
    forall source, target, title | IsHead(line, source, target, title)
      ensures D.ParseHeader(line) == Some(D.Header(ValueOf(source), ValueOf(target)))
    {
      HeadParses(line, source, target, title);
    }
    if D.ParseHeader(line).Some? {
      var source := ParsedSide(line[4..]);
      var after := D.ParseSide(line[4..]).value.1;
      var target := ParsedSide(after[2..]);
      var title := D.ParseSide(after[2..]).value.1[3..];
      assert line == "@@ -" + line[4..] && after == " +" + after[2..];
      assert D.ParseSide(after[2..]).value.1 == " @@" + title;
      assert line == "@@ -" + Written(source) + " +" + Written(target) + " @@" + title;
      assert IsHead(line, source, target, title);
    }
  }

  lemma HeadParses(line: string, source: SideText, target: SideText, title: string)
    requires IsHead(line, source, target, title)
    ensures D.ParseHeader(line) == Some(D.Header(ValueOf(source), ValueOf(target)))
  {
    hide D.ParseSide, Written, ValueOf;
    var close := " @@" + title;
    var second := Written(target) + close;
    var first := Written(source) + (" +" + second);
    assert line == "@@ -" + first;
    assert line[4..] == first;
    SideParses(source, " +" + second);
    assert (" +" + second)[2..] == second;
    SideParses(target, close);
  }
}
