/** Cutting a text into lines the way the program's language does it: at more characters than newlines. */
module LineBreaks {
  import opened Text

  /** Line feed, carriage return, vertical tab, form feed, the three separators of ASCII, next line, and the
      line and paragraph separators of Unicode. */
  predicate IsBreak(c: char) {
    '\U{0A}' <= c <= '\U{0D}' || '\U{1C}' <= c <= '\U{1E}' || c == '\U{85}' || c == '\U{2028}' || c == '\U{2029}'
  }

  /** By their codes. */
  lemma BreaksSpelledOut(c: char)
    ensures IsBreak(c) <==> c as int in {10, 11, 12, 13, 28, 29, 30, 133, 8232, 8233}
  {}

  predicate BreakFree(s: string) {
    forall i :: 0 <= i < |s| ==> !IsBreak(s[i])
  }

  /** CR LF is one break, and a break at the end opens no further line. */
  function SplitLines(s: string): seq<string> {
    if s == "" then []
    else if |s| > 1 && s[0] == '\r' && s[1] == '\n' then [""] + SplitLines(s[2..])
    else if IsBreak(s[0]) then [""] + SplitLines(s[1..])
    else Prefixed(s[0], SplitLines(s[1..]))
  }

  /** The character in front of the first line. */
  function Prefixed(c: char, lines: seq<string>): seq<string> {
    if lines == [] then [[c]] else [[c] + lines[0]] + lines[1..]
  }

  function Unlines(lines: seq<string>): string {
    if lines == [] then "" else lines[0] + "\n" + Unlines(lines[1..])
  }

  lemma {:induction false} LinesAreBreakFree(s: string)
    ensures forall i :: 0 <= i < |SplitLines(s)| ==> BreakFree(SplitLines(s)[i])
  {
    if s != "" {
      if |s| > 1 && s[0] == '\r' && s[1] == '\n' {
        LinesAreBreakFree(s[2..]);
      } else {
        LinesAreBreakFree(s[1..]);
      }
    }
  }

  /** A newline separates: what is before it and what is after it are cut on their own. */
  lemma {:induction false} SplitAtNewline(a: string, b: string)
    ensures SplitLines(a + "\n" + b) == SplitLines(a + "\n") + SplitLines(b)
    ensures SplitLines(a + "\n") != []
  {
    hide Prefixed;
    var s, t := a + "\n" + b, a + "\n";
    if a == "" {
      assert s[1..] == b && t[1..] == "";
    } else if a[0] == '\r' && |a| == 1 {
      assert s[2..] == b && t[2..] == "";
    } else if a[0] == '\r' && a[1] == '\n' {
      assert s[2..] == a[2..] + "\n" + b && t[2..] == a[2..] + "\n";
      SplitAtNewline(a[2..], b);
    } else {
      assert s[1..] == a[1..] + "\n" + b && t[1..] == a[1..] + "\n";
      SplitAtNewline(a[1..], b);
      PrefixedConcat(a[0], SplitLines(t[1..]), SplitLines(b));
    }
  }

  lemma PrefixedConcat(c: char, lines: seq<string>, more: seq<string>)
    ensures Prefixed(c, lines) != []
    ensures lines != [] ==> Prefixed(c, lines + more) == Prefixed(c, lines) + more
  {}

  lemma {:induction false} SplitOneLine(line: string)
    requires BreakFree(line)
    ensures SplitLines(line + "\n") == [line] && (line != "" ==> SplitLines(line) == [line])
  {
    if line == "" {
      assert (line + "\n")[1..] == "";
    } else {
      assert (line + "\n")[1..] == line[1..] + "\n";
      SplitOneLine(line[1..]);
      assert [line[0]] + line[1..] == line && [line[1..]][1..] == [];
      if |line| == 1 {
        assert line[1..] == "" && [line[0]] == line;
      }
    }
  }

  /** A break other than CR LF ends a line that has none. */
  lemma {:induction false} SplitAtBreak(line: string, c: char, rest: string)
    requires BreakFree(line) && IsBreak(c) && c != '\r'
    ensures SplitLines(line + [c] + rest) == [line] + SplitLines(rest)
  {
    var s := line + [c] + rest;
    if line == "" {
      assert s[0] == c && s[1..] == rest;
    } else {
      assert s[0] == line[0] && s[1..] == line[1..] + [c] + rest;
      SplitAtBreak(line[1..], c, rest);
      assert [line[0]] + line[1..] == line;
      assert ([line[1..]] + SplitLines(rest))[1..] == SplitLines(rest);
    }
  }

  /** Lines are printed and cut back exactly when none of them holds a break. */
  lemma {:induction false} UnlinesReadsBackIff(lines: seq<string>)
    ensures SplitLines(Unlines(lines)) == lines <==> forall i :: 0 <= i < |lines| ==> BreakFree(lines[i])
  {
    LinesAreBreakFree(Unlines(lines));
    if forall i :: 0 <= i < |lines| ==> BreakFree(lines[i]) {
      BreakFreeReadsBack(lines);
    }
  }

  lemma {:induction false} BreakFreeReadsBack(lines: seq<string>)
    requires forall i :: 0 <= i < |lines| ==> BreakFree(lines[i])
    ensures SplitLines(Unlines(lines)) == lines
  {
    hide BreakFree, SplitLines;
    if lines == [] {
      NothingToSplit();
    } else {
      BreakFreeReadsBack(lines[1..]);
      SplitAtNewline(lines[0], Unlines(lines[1..]));
      SplitOneLine(lines[0]);
      assert [lines[0]] + lines[1..] == lines;
    }
  }

  lemma NothingToSplit()
    ensures SplitLines("") == []
  {}

  /** The newline at the end of a text may be left out after a line that is not empty. */
  lemma {:induction false} LastNewlineOptional(s: string)
    requires s != "" && !IsBreak(Last(s))
    ensures SplitLines(s + "\n") == SplitLines(s) && SplitLines(s) != []
  {
    if |s| == 1 {
      SplitOneLine(s);
    } else if s[0] == '\r' && s[1] == '\n' {
      assert (s + "\n")[2..] == s[2..] + "\n";
      LastNewlineOptional(s[2..]);
    } else {
      assert (s + "\n")[1..] == s[1..] + "\n";
      LastNewlineOptional(s[1..]);
    }
  }

  lemma UnlinesConcat(a: seq<string>, b: seq<string>)
    ensures Unlines(a + b) == Unlines(a) + Unlines(b)
  {
    if a == [] {
      Unit(b);
    } else {
      assert (a + b)[1..] == a[1..] + b;
      UnlinesConcat(a[1..], b);
      assert a[0] + "\n" + (Unlines(a[1..]) + Unlines(b)) == a[0] + "\n" + Unlines(a[1..]) + Unlines(b);
    }
  }
}
