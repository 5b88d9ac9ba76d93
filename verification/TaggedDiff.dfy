/** Patches as tagged lines: which of them parse, and what their ranges cover, by the tags and the header alone. */
module TaggedDiff {
  import opened Text
  import opened LineBreaks
  import opened Ranges
  import D = Diff

  /** A line that the patch adds, removes or keeps, a remark on the line before, or anything else. */
  datatype Line = Added(text: string) | Removed(text: string) | Kept(text: string) | Remark(text: string) |
                  Other(text: string)

  function Printed(l: Line): string {
    match l
    case Added(text) => "+" + text
    case Removed(text) => "-" + text
    case Kept(text) => " " + text
    case Remark(text) => "\\" + text
    case Other(text) => text
  }

  /** Anything else looks neither like one of these lines nor like the head of a hunk. */
  predicate Proper(l: Line) {
    l.Other? && l.text != "" ==> l.text[0] !in {'+', '-', ' ', '\\'} && !(|l.text| >= 2 && l.text[..2] == "@@")
  }

  /** A hunk with the numbers that its head declares. */
  datatype Hunk = Hunk(sourceStart: nat, sourceCount: nat, targetStart: nat, targetCount: nat, short: bool,
                       section: string, lines: seq<Line>)

  function OldLines(ls: seq<Line>): nat {
    if ls == [] then 0 else OldLines(ls[..|ls| - 1]) + (if Last(ls).Removed? || Last(ls).Kept? then 1 else 0)
  }

  function NewLines(ls: seq<Line>): nat {
    if ls == [] then 0 else NewLines(ls[..|ls| - 1]) + (if Last(ls).Added? || Last(ls).Kept? then 1 else 0)
  }

  predicate Adds(h: Hunk) {
    exists i :: 0 <= i < |h.lines| && h.lines[i].Added?
  }

  /** The declared counts are those of the lines; the new file has lines there, numbered from one; so has the old
      file, unless the hunk has none of its lines, as when a file is created; and every line is tagged. */
  predicate Sound(h: Hunk) {
    && h.sourceCount == OldLines(h.lines) && h.targetCount == NewLines(h.lines)
    && h.targetStart > 0 && NewLines(h.lines) > 0 && (h.sourceStart > 0 || OldLines(h.lines) == 0)
    && forall i :: 0 <= i < |h.lines| ==> !h.lines[i].Other?
  }

  /** The lines of a hunk in print. */
  function PrintedLines(ls: seq<Line>): (r: seq<string>)
    ensures |r| == |ls| && forall i :: 0 <= i < |ls| ==> r[i] == Printed(ls[i])
  {
    if ls == [] then [] else PrintedLines(ls[..|ls| - 1]) + [Printed(Last(ls))]
  }

  function InPrint(h: Hunk): D.Hunk {
    D.Hunk(D.Header(D.Side(h.sourceStart, h.sourceCount), D.Side(h.targetStart, h.targetCount)), h.short, h.section,
           PrintedLines(h.lines))
  }

  function AllInPrint(hs: seq<Hunk>): (r: seq<D.Hunk>)
    ensures |r| == |hs| && forall i :: 0 <= i < |hs| ==> r[i] == InPrint(hs[i])
  {
    if hs == [] then [] else AllInPrint(hs[..|hs| - 1]) + [InPrint(Last(hs))]
  }

  function PatchText(preamble: string, hs: seq<Hunk>): string { D.PrintText(preamble, AllInPrint(hs)) }

  /** No line and no title is cut in two by a line break inside it. */
  predicate Unbroken(hs: seq<Hunk>) {
    forall i :: 0 <= i < |hs| ==>
      BreakFree(hs[i].section) && forall j :: 0 <= j < |hs[i].lines| ==> BreakFree(hs[i].lines[j].text)
  }

  predicate AllProper(hs: seq<Hunk>) {
    forall i, j :: 0 <= i < |hs| && 0 <= j < |hs[i].lines| ==> Proper(hs[i].lines[j])
  }

  // ----- tags and kinds -----

  lemma HeadBegins(line: string)
    ensures D.StartsHunk(line) <==> |line| >= 2 && line[..2] == "@@"
  {}

  lemma KindOfTag(l: Line)
    requires Proper(l)
    ensures !D.StartsHunk(Printed(l))
    ensures D.KindOf(Printed(l)) == match l
              case Added(_) => D.Plus
              case Removed(_) => D.Minus
              case Kept(_) => D.Context
              case Remark(_) => D.NoNewline
              case Other(_) => D.Unknown
  {
    D.HeaderStart(Printed(l));
    HeadBegins(Printed(l));
  }

  lemma BreaksOfTag(l: Line)
    ensures BreakFree(Printed(l)) <==> BreakFree(l.text)
  {
    var front := Printed(l)[..|Printed(l)| - |l.text|];
    assert Printed(l) == front + l.text;
    D.BreakFreeConcat(front, l.text);
  }

  lemma {:induction false} CountsOfTags(ls: seq<Line>)
    requires forall i :: 0 <= i < |ls| ==> Proper(ls[i])
    ensures D.SourceLines(PrintedLines(ls)) == OldLines(ls) && D.TargetLines(PrintedLines(ls)) == NewLines(ls)
    ensures D.KnownLines(PrintedLines(ls)) <==> forall i :: 0 <= i < |ls| ==> !ls[i].Other?
    ensures D.HasAddition(PrintedLines(ls)) <==> exists i :: 0 <= i < |ls| && ls[i].Added?
    ensures D.NoHeads(PrintedLines(ls))
    decreases |ls|
  {
    hide Proper, Printed, D.KindOf, D.StartsHunk, D.SourceLines, D.TargetLines, D.KnownLines, D.HasAddition, D.NoHeads;
    if ls == [] {
      NothingCounted();
    } else {
      var shorter, last := ls[..|ls| - 1], Last(ls);
      CountsOfTags(shorter);
      KindOfTag(last);
      D.BodyStep(PrintedLines(shorter), Printed(last));
      NoHeadsGrow(PrintedLines(shorter), Printed(last));
      assert forall i :: 0 <= i < |shorter| ==> ls[i] == shorter[i];
      assert ls[|shorter|] == last;
    }
  }

  lemma NothingCounted()
    ensures D.SourceLines([]) == D.TargetLines([]) == 0 && D.KnownLines([]) && !D.HasAddition([]) && D.NoHeads([])
  {}

  lemma NoHeadsGrow(body: seq<string>, line: string)
    ensures D.NoHeads(body + [line]) <==> D.NoHeads(body) && !D.StartsHunk(line)
  {
    hide D.StartsHunk;
    var longer := body + [line];
    assert longer[|body|] == line && forall i :: 0 <= i < |body| ==> longer[i] == body[i];
  }

  lemma SoundIsOk(h: Hunk)
    requires forall i :: 0 <= i < |h.lines| ==> Proper(h.lines[i])
    ensures D.HunkOk(InPrint(h)) <==> Sound(h)
    ensures D.HasAddition(InPrint(h).body) <==> Adds(h)
    ensures D.NoHeads(InPrint(h).body)
  {
    hide D.KnownLines, D.SourceLines, D.TargetLines, D.HasAddition, D.NoHeads, Proper, OldLines, NewLines;
    CountsOfTags(h.lines);
  }

  lemma UnbrokenInPrint(hs: seq<Hunk>)
    requires Unbroken(hs)
    ensures D.Unbroken(AllInPrint(hs))
  {
    hide BreakFree;
    forall i, j | 0 <= i < |hs| && 0 <= j < |hs[i].lines| ensures BreakFree(InPrint(hs[i]).body[j]) {
      BreaksOfTag(hs[i].lines[j]);
    }
  }

  // ----- which patches parse -----

  /** A patch text of tagged lines parses exactly when every hunk is sound and one of them adds a line. */
  lemma PatchParsesIff(preamble: string, hs: seq<Hunk>)
    requires D.IsPreamble(preamble) && Unbroken(hs) && AllProper(hs)
    ensures D.WellFormed(SplitLines(PatchText(preamble, hs)))
       <==> (forall i :: 0 <= i < |hs| ==> Sound(hs[i])) && exists i :: 0 <= i < |hs| && Adds(hs[i])
  {
    hide D.HasAddition, D.HunkOk, D.WellFormed, D.PrintText, SplitLines, Unbroken, D.Unbroken, D.NoHeads, Sound, Adds,
         InPrint, D.PrintPatch, D.AddedRanges, D.Chunks, Proper;
    UnbrokenInPrint(hs);
    forall i | 0 <= i < |hs|
      ensures D.HunkOk(AllInPrint(hs)[i]) <==> Sound(hs[i])
      ensures D.HasAddition(AllInPrint(hs)[i].body) <==> Adds(hs[i])
      ensures D.NoHeads(AllInPrint(hs)[i].body)
    {
      SoundIsOk(hs[i]);
    }
    D.TextReadsBackIff(preamble, AllInPrint(hs));
    D.PrintedLinesParse(SplitLines(preamble), AllInPrint(hs));
    PreambleHasNoHeads(preamble);
  }

  /** The line is one of the new file that the hunk shows, and the hunk adds some line. */
  predicate Shows(h: Hunk, line: int) {
    Adds(h) && h.targetStart <= line < h.targetStart + NewLines(h.lines)
  }

  /** What a patch with its hunks in order gives: separate ranges that cover exactly the lines of the new file that
      hunks with an added line show. */
  lemma PatchCovers(preamble: string, hs: seq<Hunk>, line: int)
    requires D.IsPreamble(preamble) && Unbroken(hs) && AllProper(hs)
    requires forall i :: 0 <= i < |hs| ==> Sound(hs[i])
    requires exists i :: 0 <= i < |hs| && Adds(hs[i])
    requires forall i, j :: 0 <= i < j < |hs| ==> hs[i].targetStart <= hs[j].targetStart
    ensures var ranges := D.AddedRanges(D.Chunks(SplitLines(PatchText(preamble, hs))));
      && ranges != [] && Separated(Coalesce(ranges))
      && (Covers(Coalesce(ranges), line) <==> exists i :: 0 <= i < |hs| && Shows(hs[i], line))
  {
    hide D.HasAddition, D.HunkOk, D.PrintText, SplitLines, Unbroken, D.Unbroken, D.NoHeads, Adds, D.AddedRanges,
         D.Chunks, Coalesce, Proper, OldLines, NewLines, Separated, Covers, D.IsPreamble, PrintedLines;
    UnbrokenInPrint(hs);
    var printed := AllInPrint(hs);
    forall i | 0 <= i < |hs|
      ensures D.HunkOk(printed[i]) && (D.HasAddition(printed[i].body) <==> Adds(hs[i]))
      ensures D.HunkCovers(printed[i], line) <==> Shows(hs[i], line)
    {
      SoundIsOk(hs[i]);
    }
    D.PrintedPatchCovers(preamble, printed, line);
  }

  lemma PreambleHasNoHeads(preamble: string)
    requires D.IsPreamble(preamble)
    ensures D.NoHeads(SplitLines(preamble))
  {}
}
