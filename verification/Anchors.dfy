/** Anchoring findings to the changed lines of a pull request. */
module Anchors {
  import opened Text
  import opened LineBreaks
  import opened Ranges
  import Diff

  datatype File = File(path: string, previousPath: Option<string>, status: string, available: bool,
                       ranges: seq<Range>)

  datatype Anchor = Anchor(path: string, oldPath: Option<string>, fileStatus: string, line: int, startLine: int,
                           hunk: Range, sha: string)

  datatype Finding = Finding(path: string, line: int, lineEnd: Option<int>, anchor: Option<Anchor>)

  const INLINEABLE := {"added", "modified", "renamed"}

  function EndOf(f: Finding): int {
    match f.lineEnd
    case None => f.line
    case Some(end) => end
  }

  predicate IsFileFor(file: File, f: Finding) {
    file.path == f.path && Covers(file.ranges, f.line)
  }

  predicate HoldsFinding(r: Range, f: Finding) {
    r.start <= f.line <= EndOf(f) <= r.end
  }

  function FileFor(files: seq<File>, f: Finding): (file: Option<File>)
    ensures file.Some? ==> file.value in files && IsFileFor(file.value, f)
  {
    if files == [] then None
    else if IsFileFor(files[0], f) then Some(files[0])
    else FileFor(files[1..], f)
  }

  /** The first file of the finding's path that changed its first line; None when there is none. */
  lemma {:induction false} FileForIsFirst(files: seq<File>, f: Finding) returns (i: nat)
    ensures FileFor(files, f).None? <==>
              forall j :: 0 <= j < |files| ==> files[j].path != f.path || !Covers(files[j].ranges, f.line)
    ensures FileFor(files, f).Some? ==>
              i < |files| && FileFor(files, f).value == files[i]
              && forall j :: 0 <= j < i ==> files[j].path != f.path || !Covers(files[j].ranges, f.line)
  {
    hide Covers;
    i := 0;
    if files != [] && !IsFileFor(files[0], f) {
      i := FileForIsFirst(files[1..], f);
      i := i + 1;
      assert forall j :: 0 < j < |files| ==> files[j] == files[1..][j - 1];
    }
  }

  function RangeFor(ranges: seq<Range>, f: Finding): (r: Option<Range>)
    ensures r.Some? ==> r.value in ranges && HoldsFinding(r.value, f)
    ensures r.Some? <==> exists i :: 0 <= i < |ranges| && HoldsFinding(ranges[i], f)
  {
    if ranges == [] then None
    else if HoldsFinding(ranges[0], f) then Some(ranges[0])
    else
      var r := RangeFor(ranges[1..], f);
      assert forall i :: 0 < i < |ranges| ==> ranges[i] == ranges[1..][i - 1];
      r
  }

  function Derive(files: seq<File>, sha: string, f: Finding): Option<Anchor> {
    match FileFor(files, f)
    case None => None
    case Some(file) =>
      if !file.available || file.status !in INLINEABLE then None
      else match RangeFor(file.ranges, f)
        case None => None
        case Some(r) => Some(Anchor(file.path, file.previousPath, file.status, f.line, f.line, r, sha))
  }

  /** The constructor of an anchor does not raise. */
  predicate Constructible(a: Anchor) {
    a.path != "" && a.line > 0 && 0 < a.hunk.start <= a.hunk.end && a.sha != "" && a.startLine > 0
  }

  /** The check that later gates make of an anchored finding. */
  predicate ValidatesLocation(a: Anchor, path: string, line: int, sha: string, lineEnd: Option<int>) {
    && a.path == path && a.line == line && a.sha == sha
    && a.hunk.start <= a.startLine <= a.line <= (match lineEnd case None => line case Some(end) => end) <= a.hunk.end
    && a.hunk.start <= a.line <= a.hunk.end
  }

  /** Ranges as the diff parser leaves them. */
  predicate Parsed(files: seq<File>) {
    forall i :: 0 <= i < |files| ==>
      Separated(files[i].ranges) && forall j :: 0 <= j < |files[i].ranges| ==> files[i].ranges[j].start > 0
  }

  /** A derived anchor can be constructed and points at the finding it was derived for. */
  lemma DerivedAnchorValidates(files: seq<File>, sha: string, f: Finding)
    requires Parsed(files) && f.path != "" && f.line > 0 && sha != "" && Derive(files, sha, f).Some?
    ensures var a := Derive(files, sha, f).value;
            Constructible(a) && ValidatesLocation(a, f.path, f.line, sha, f.lineEnd)
  {}

  /** What a derived anchor says: the finding's own place, in the file and the range that hold it. */
  lemma DerivedAnchorIs(files: seq<File>, sha: string, f: Finding)
    requires Derive(files, sha, f).Some?
    ensures var a := Derive(files, sha, f).value;
      && a.path == f.path && a.line == a.startLine == f.line && a.sha == sha
      && exists i :: 0 <= i < |files| && FileFor(files, f) == Some(files[i])
           && a.oldPath == files[i].previousPath && a.fileStatus == files[i].status && a.hunk in files[i].ranges
           && a.hunk.start <= f.line <= EndOf(f) <= a.hunk.end
  {
    var i := FileForIsFirst(files, f);
  }

  /** A derived anchor can be constructed exactly when path, line and commit can be. */
  lemma DerivedConstructibleIff(files: seq<File>, sha: string, f: Finding)
    requires Parsed(files) && Derive(files, sha, f).Some?
    ensures Constructible(Derive(files, sha, f).value) <==> f.path != "" && f.line > 0 && sha != ""
  {
    DerivedAnchorIs(files, sha, f);
  }

  /** It validates its finding's place and no other one, except for another end within the same range. */
  lemma DerivedValidatesIff(files: seq<File>, sha: string, f: Finding, path: string, line: int, commit: string,
                            lineEnd: Option<int>)
    requires Derive(files, sha, f).Some?
    ensures ValidatesLocation(Derive(files, sha, f).value, path, line, commit, lineEnd) <==>
              && path == f.path && line == f.line && commit == sha
              && line <= (if lineEnd.Some? then lineEnd.value else line)
              && (if lineEnd.Some? then lineEnd.value else line) <= Derive(files, sha, f).value.hunk.end
  {
    DerivedAnchorIs(files, sha, f);
  }

  predicate AllLinesChanged(ranges: seq<Range>, first: int, last: int) {
    forall line :: first <= line <= last ==> Covers(ranges, line)
  }

  lemma GapAfterRange(ranges: seq<Range>, i: nat)
    requires Separated(ranges) && i < |ranges|
    ensures !Covers(ranges, ranges[i].end + 1)
  {
    forall j | 0 <= j < |ranges| ensures !(ranges[j].start <= ranges[i].end + 1 <= ranges[j].end) {
      if j < i {
        assert ranges[j].end + 1 < ranges[i].start;
      } else if i < j {
        assert ranges[i].end + 1 < ranges[j].start;
      }
    }
  }

  /** With a gap between neighbours, lines that are all changed lie in one range. */
  lemma OneRangeHoldsThemAll(ranges: seq<Range>, i: nat, first: int, last: int)
    requires Separated(ranges) && AllLinesChanged(ranges, first, last)
    requires i < |ranges| && first <= ranges[i].end
    ensures last <= ranges[i].end
  {
    GapAfterRange(ranges, i);
  }

  /** A finding is anchored exactly when its lines are in order, and the first file that changed its first
      line changed all of them and can carry inline comments. */
  lemma AnchoredIffEveryLineChanged(files: seq<File>, sha: string, f: Finding)
    requires Parsed(files)
    ensures Derive(files, sha, f).Some? <==>
              match FileFor(files, f)
              case None => false
              case Some(file) =>
                && file.available && file.status in INLINEABLE
                && f.line <= EndOf(f) && AllLinesChanged(file.ranges, f.line, EndOf(f))
  {
    if FileFor(files, f).Some? {
      var file := FileFor(files, f).value;
      var k :| 0 <= k < |files| && files[k] == file;
      assert Separated(files[k].ranges);
      var i :| 0 <= i < |file.ranges| && file.ranges[i].start <= f.line <= file.ranges[i].end;
      if f.line <= EndOf(f) && AllLinesChanged(file.ranges, f.line, EndOf(f)) {
        OneRangeHoldsThemAll(file.ranges, i, f.line, EndOf(f));
        assert HoldsFinding(file.ranges[i], f);
      }
    }
  }

  /** Only findings without an anchor are touched, and only their anchor. */
  function Attached(files: seq<File>, sha: string, f: Finding): Finding {
    if f.anchor.Some? then f else f.(anchor := Derive(files, sha, f))
  }

  /** An anchor is kept, and a missing one derived when it can be; nothing else of the finding changes. */
  lemma AttachedKeeps(files: seq<File>, sha: string, f: Finding)
    ensures var g := Attached(files, sha, f);
      && g.path == f.path && g.line == f.line && g.lineEnd == f.lineEnd
      && (f.anchor.Some? ==> g.anchor == f.anchor)
      && (f.anchor.None? ==> g.anchor == Derive(files, sha, f))
  {}

  method AttachDiffAnchors(files: seq<File>, sha: string, findings: seq<Finding>) returns (anchored: seq<Finding>)
    ensures |anchored| == |findings|
    ensures forall i :: 0 <= i < |findings| ==> anchored[i] == Attached(files, sha, findings[i])
  {
    anchored := [];
    for i := 0 to |findings|
      invariant |anchored| == i
      invariant forall k :: 0 <= k < i ==> anchored[k] == Attached(files, sha, findings[k])
    {
      var finding := findings[i];
      if finding.anchor.Some? {
        anchored := anchored + [finding];
        continue;
      }
      var anchor := Derive(files, sha, finding);
      anchored := anchored + [if anchor == None then finding else finding.(anchor := anchor)];
    }
  }

  /** From the patch to the anchor: a file whose ranges come from a patch that parses gives anchors
      that validate. */
  lemma ParsedPatchAnchors(file: File, patch: string, sha: string, f: Finding)
    requires Diff.WellFormed(SplitLines(patch))
    requires file.ranges == Coalesce(Diff.AddedRanges(Diff.Chunks(SplitLines(patch))))
    requires f.path != "" && f.line > 0 && sha != "" && Derive([file], sha, f).Some?
    ensures var a := Derive([file], sha, f).value;
            Constructible(a) && ValidatesLocation(a, f.path, f.line, sha, f.lineEnd)
  {
    hide Diff.WellFormed, Diff.Chunks, Diff.AddedRanges, Coalesce, Derive, SplitLines;
    Diff.AnchorableRanges(SplitLines(patch));
    DerivedAnchorValidates([file], sha, f);
  }
}
