/** What can be read off the line of an approved finding. */
module FindingText {
  import opened Text
  import opened Approval
  import Diff

  /** A text is cut in one way at the first occurrence of a character. */
  lemma FirstCut(a: string, b: string, a': string, b': string, c: char)
    requires a + [c] + b == a' + [c] + b' && c !in a && c !in a'
    ensures a == a' && b == b'
  {
    var whole, whole' := a + [c] + b, a' + [c] + b';
    assert whole[|a|] == c && whole'[|a'|] == c;
    assert whole[|a'|] == whole'[|a'|] && whole'[|a|] == whole[|a|];
    assert a == whole[..|a|] && a' == whole'[..|a'|] && b == whole[|a| + 1..] && b' == whole'[|a'| + 1..];
  }

  /** And in one way at the last. */
  lemma LastCut(a: string, b: string, a': string, b': string, c: char)
    requires a + [c] + b == a' + [c] + b' && c !in b && c !in b'
    ensures a == a' && b == b'
  {
    var whole, whole' := a + [c] + b, a' + [c] + b';
    assert whole[|a|] == c && whole'[|a'|] == c;
    assert whole[|a'|] == whole'[|a'|] && whole'[|a|] == whole[|a|];
    assert a == whole[..|a|] && a' == whole'[..|a'|] && b == whole[|a| + 1..] && b' == whole'[|a'| + 1..];
  }

  lemma SameNumber(m: nat, n: nat)
    requires Decimal(m) == Decimal(n)
    ensures m == n
  {
    Diff.DecimalReadsBack(m);
    Diff.DecimalReadsBack(n);
  }

  lemma {:induction false} DigitsOnly(n: nat)
    ensures forall i :: 0 <= i < |Decimal(n)| ==> '0' <= Decimal(n)[i] <= '9'
  {
    if n >= 10 {
      DigitsOnly(n / 10);
    }
  }

  /** The line from the title on, and from the body on. */
  function FromTitle(f: Finding): string { f.title + [':'] + (" " + FromBody(f)) }

  function FromBody(f: Finding): string { Middle(f) + [':'] + Decimal(f.line) + ")" }

  function Middle(f: Finding): string { (f.body + " ") + ['('] + f.path }

  lemma LineParts(f: Finding)
    ensures FindingLine(f) == "- P" + (Decimal(f.priority) + [' '] + FromTitle(f))
  {
    hide Decimal;
    var p, l := Decimal(f.priority), Decimal(f.line);
    var tail := " (" + f.path + ":" + l + ")";
    assert Middle(f) + [':'] + l + ")" == f.body + tail;
    assert FindingLine(f) == "- P" + p + " " + f.title + ": " + (f.body + tail);
  }

  lemma SameTitles(f: Finding, g: Finding)
    requires FindingLine(f) == FindingLine(g) && ':' !in f.title && ':' !in g.title
    ensures f.priority == g.priority && f.title == g.title && FromBody(f) == FromBody(g)
  {
    hide Decimal, FindingLine, FromBody, FromTitle;
    LineParts(f);
    LineParts(g);
    DigitsOnly(f.priority);
    DigitsOnly(g.priority);
    assert FindingLine(f)[3..] == Decimal(f.priority) + [' '] + FromTitle(f);
    assert FindingLine(g)[3..] == Decimal(g.priority) + [' '] + FromTitle(g);
    FirstCut(Decimal(f.priority), FromTitle(f), Decimal(g.priority), FromTitle(g), ' ');
    SameNumber(f.priority, g.priority);
    TitleParts(f);
    TitleParts(g);
    FirstCut(f.title, " " + FromBody(f), g.title, " " + FromBody(g), ':');
    assert (" " + FromBody(f))[1..] == FromBody(f) && (" " + FromBody(g))[1..] == FromBody(g);
  }

  lemma TitleParts(f: Finding)
    ensures FromTitle(f) == f.title + [':'] + (" " + FromBody(f))
  {}

  /** Two findings with one line are the same in all that it shows, when no title holds a colon and no path an
      opening bracket. */
  lemma LineTellsFinding(f: Finding, g: Finding)
    requires FindingLine(f) == FindingLine(g)
    requires ':' !in f.title && ':' !in g.title && '(' !in f.path && '(' !in g.path
    ensures f.priority == g.priority && f.title == g.title && f.body == g.body && f.path == g.path && f.line == g.line
  {
    hide Decimal, FindingLine, Middle;
    SameTitles(f, g);
    DigitsOnly(f.line);
    DigitsOnly(g.line);
    var x, y := FromBody(f), FromBody(g);
    assert x[..|x| - 1] == Middle(f) + [':'] + Decimal(f.line);
    assert y[..|y| - 1] == Middle(g) + [':'] + Decimal(g.line);
    LastCut(Middle(f), Decimal(f.line), Middle(g), Decimal(g.line), ':');
    SameNumber(f.line, g.line);
    SameMiddles(f, g);
  }

  lemma SameMiddles(f: Finding, g: Finding)
    requires Middle(f) == Middle(g) && '(' !in f.path && '(' !in g.path
    ensures f.body == g.body && f.path == g.path
  {
    LastCut(f.body + " ", f.path, g.body + " ", g.path, '(');
    assert (f.body + " ")[..|f.body|] == f.body && (g.body + " ")[..|g.body|] == g.body;
  }

  /** Otherwise one line can stand for two findings. */
  lemma ColonInTitleConfuses()
    ensures var f, g := Finding("a: b", "c", "p", 1, 1, "x"), Finding("a", "b: c", "p", 1, 1, "x");
      FindingLine(f) == FindingLine(g) && f.title != g.title
  {
    hide Decimal;
    assert "a: b" + ": " + "c" == "a" + ": " + "b: c";
  }
}
