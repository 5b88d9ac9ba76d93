/** The budget that trims a pull request and its conversation before the review: a limit on changed
    files, on patch bytes and on memory bytes. */
module InputBudget {
  import opened Text
  import opened BudgetMerge

  // ----- sizes -----

  /** Bytes of the UTF-8 encoding. */
  function CharBytes(c: char): nat {
    if c as int < 0x80 then 1 else if c as int < 0x800 then 2 else if c as int < 0x1_0000 then 3 else 4
  }

  function Bytes(s: string): nat {
    if s == "" then 0 else CharBytes(s[0]) + Bytes(s[1..])
  }

  function OrEmpty(s: Option<string>): string {
    match s
    case None => ""
    case Some(text) => text
  }

  // ----- changed files -----

  datatype File = File(path: string, patch: Option<string>, patchStatus: string)

  const AVAILABLE := "available"
  const BUDGET_TRUNCATED := "budget_truncated"

  function PatchBytes(f: File): nat { Bytes(OrEmpty(f.patch)) }

  predicate Unpatched(f: File) {
    f.patch == None && f.patchStatus != AVAILABLE
  }

  function Stripped(f: File): File {
    f.(patch := None, patchStatus := BUDGET_TRUNCATED)
  }

  datatype Reason = TooManyFiles | PatchMissing | PatchTooBig | MemoryTooBig

  /** One omission: what was left out, why, and the bytes that were there. */
  datatype Omission = Omission(id: string, reason: Reason, originalBytes: Option<nat>)

  datatype Trimmed<T> = Trimmed(kept: seq<T>, omitted: seq<Omission>, retainedBytes: nat)

  function TrimFiles(files: seq<File>, room: nat, bytes: nat): (t: Trimmed<File>)
    ensures |t.kept| <= |files|
  {
    if files == [] then Trimmed([], [], 0)
    else
      var f, rest := files[0], files[1..];
      if room == 0 then
        var t := TrimFiles(rest, 0, bytes);
        t.(omitted := [Omission(f.path, TooManyFiles, None)] + t.omitted)
      else if Unpatched(f) then
        var t := TrimFiles(rest, room - 1, bytes);
        Trimmed([f] + t.kept, [Omission(f.path, PatchMissing, None)] + t.omitted, t.retainedBytes)
      else if PatchBytes(f) > bytes then
        var t := TrimFiles(rest, room - 1, bytes);
        Trimmed([Stripped(f)] + t.kept, [Omission(f.path, PatchTooBig, Some(PatchBytes(f)))] + t.omitted,
            t.retainedBytes)
      else
        var t := TrimFiles(rest, room - 1, bytes - PatchBytes(f));
        Trimmed([f] + t.kept, t.omitted, PatchBytes(f) + t.retainedBytes)
  }

  method ApplyFileBudget(files: seq<File>, maxFiles: nat, maxBytes: nat) returns (trimmed: Trimmed<File>)
    ensures trimmed == TrimFiles(files, maxFiles, maxBytes)
  {
    hide TrimFiles, PatchBytes, Unpatched, Stripped;
    var kept: seq<File>, omitted: seq<Omission> := [], [];
    var retainedBytes, remaining := 0, maxBytes;
    StartsEmpty(TrimFiles(files, maxFiles, maxBytes));
    for i := 0 to |files|
      invariant |kept| <= maxFiles && 0 <= retainedBytes && 0 <= remaining
      invariant TrimFiles(files, maxFiles, maxBytes)
             == After(kept, omitted, retainedBytes, TrimFiles(files[i..], maxFiles - |kept|, remaining))
    {
      var file := files[i];
      assert files[i..][0] == file && files[i..][1..] == files[i + 1..];
      FileStep(files[i..], maxFiles - |kept|, remaining);
      ghost var rest := TrimFiles(files[i..], maxFiles - |kept|, remaining);
      ghost var state := (kept, omitted, retainedBytes);
      if |kept| >= maxFiles {
        omitted := omitted + [Omission(file.path, TooManyFiles, None)];
      } else if Unpatched(file) {
        kept, omitted := kept + [file], omitted + [Omission(file.path, PatchMissing, None)];
      } else if PatchBytes(file) > remaining {
        kept := kept + [Stripped(file)];
        omitted := omitted + [Omission(file.path, PatchTooBig, Some(PatchBytes(file)))];
      } else {
        kept := kept + [file];
        retainedBytes, remaining := retainedBytes + PatchBytes(file), remaining - PatchBytes(file);
      }
      ghost var tail := TrimFiles(files[i + 1..], maxFiles - |kept|, remaining);
      Regroup(state.0, kept, tail.kept, rest.kept);
      Regroup(state.1, omitted, tail.omitted, rest.omitted);
    }
    assert files[|files|..] == [];
    NothingLeft(maxFiles - |kept|, remaining);
    Unit(kept);
    Unit(omitted);
    trimmed := Trimmed(kept, omitted, retainedBytes);
  }

  function After<T>(kept: seq<T>, omitted: seq<Omission>, bytes: nat, t: Trimmed<T>): Trimmed<T> {
    Trimmed(kept + t.kept, omitted + t.omitted, bytes + t.retainedBytes)
  }

  lemma StartsEmpty<T>(t: Trimmed<T>)
    ensures After([], [], 0, t) == t
  {}

  lemma NothingLeft(room: nat, bytes: nat)
    ensures TrimFiles([], room, bytes) == Trimmed([], [], 0)
  {}

  /** Moving what was added to a list from the front of the tail to the end of the head. */
  lemma Regroup<T>(before: seq<T>, after: seq<T>, tail: seq<T>, whole: seq<T>)
    ensures before <= after && whole == after[|before|..] + tail ==> before + whole == after + tail
  {}

  /** One step of the pass, in terms of the lists it extends. */
  lemma FileStep(files: seq<File>, room: nat, bytes: nat)
    requires files != []
    ensures var f, t := files[0], TrimFiles(files, room, bytes);
            if room == 0 then
              var u := TrimFiles(files[1..], 0, bytes);
              t == Trimmed(u.kept, [Omission(f.path, TooManyFiles, None)] + u.omitted, u.retainedBytes)
            else if Unpatched(f) then
              var u := TrimFiles(files[1..], room - 1, bytes);
              t == Trimmed([f] + u.kept, [Omission(f.path, PatchMissing, None)] + u.omitted, u.retainedBytes)
            else if PatchBytes(f) > bytes then
              var u := TrimFiles(files[1..], room - 1, bytes);
              t == Trimmed([Stripped(f)] + u.kept, [Omission(f.path, PatchTooBig, Some(PatchBytes(f)))] + u.omitted,
                  u.retainedBytes)
            else
              var u := TrimFiles(files[1..], room - 1, bytes - PatchBytes(f));
              t == Trimmed([f] + u.kept, u.omitted, PatchBytes(f) + u.retainedBytes)
  {
    hide PatchBytes, Unpatched, Stripped;
    var t := TrimFiles(files[1..], 0, bytes);
    assert TrimFiles(files, 0, bytes).kept == t.kept;
  }

  function TotalPatchBytes(files: seq<File>): nat {
    if files == [] then 0 else PatchBytes(files[0]) + TotalPatchBytes(files[1..])
  }

  function ReportedBytes(omitted: seq<Omission>): nat {
    if omitted == [] then 0
    else (if omitted[0].originalBytes.Some? then omitted[0].originalBytes.value else 0) + ReportedBytes(omitted[1..])
  }

  /** Kept are the first files in order, and each keeps its path. */
  lemma {:induction false} KeepsFirstFiles(files: seq<File>, room: nat, bytes: nat)
    ensures var t := TrimFiles(files, room, bytes);
            && |t.kept| == (if room < |files| then room else |files|)
            && forall i :: 0 <= i < |t.kept| ==> t.kept[i].path == files[i].path
    decreases |files|
  {
    hide Unpatched, PatchBytes;
    if files != [] {
      FileStep(files, room, bytes);
      KeepsFirstFiles(files[1..], if room == 0 then 0 else room - 1, bytes);
      if room > 0 && !Unpatched(files[0]) && PatchBytes(files[0]) <= bytes {
        KeepsFirstFiles(files[1..], room - 1, bytes - PatchBytes(files[0]));
      }
    }
  }

  /** The reported bytes are those really left in the kept files, and they fit. */
  lemma {:induction false} RetainedBytesAreReal(files: seq<File>, room: nat, bytes: nat)
    ensures var t := TrimFiles(files, room, bytes);
            t.retainedBytes == TotalPatchBytes(t.kept) <= bytes
    decreases |files|
  {
    hide PatchBytes, Unpatched, Stripped;
    if files != [] {
      var f, t := files[0], TrimFiles(files, room, bytes);
      FileStep(files, room, bytes);
      NoPatchNoBytes(f);
      var fits := room > 0 && !Unpatched(f) && PatchBytes(f) <= bytes;
      var next, left := if room == 0 then 0 else room - 1, if fits then bytes - PatchBytes(f) else bytes;
      RetainedBytesAreReal(files[1..], next, left);
      if room > 0 {
        assert t.kept[1..] == TrimFiles(files[1..], next, left).kept;
      }
    }
  }

  /** No byte is lost from the account of the pass: what was there is what was kept, what it notes as
      omitted, and the files beyond the limit. */
  lemma {:induction false} FileBytesConserved(files: seq<File>, room: nat, bytes: nat)
    ensures var t := TrimFiles(files, room, bytes);
            TotalPatchBytes(files) == t.retainedBytes + ReportedBytes(t.omitted) + TotalPatchBytes(files[|t.kept|..])
    decreases |files|
  {
    hide PatchBytes, Unpatched, Stripped;
    if files != [] {
      var f, t := files[0], TrimFiles(files, room, bytes);
      FileStep(files, room, bytes);
      NoPatchNoBytes(f);
      if room == 0 {
        var u := TrimFiles(files[1..], 0, bytes);
        FileBytesConserved(files[1..], 0, bytes);
        KeepsFirstFiles(files, 0, bytes);
        KeepsFirstFiles(files[1..], 0, bytes);
        assert t.omitted[1..] == u.omitted && files[0..] == files && files[1..][0..] == files[1..];
      } else {
        var fits := !Unpatched(f) && PatchBytes(f) <= bytes;
        var left := if fits then bytes - PatchBytes(f) else bytes;
        var u := TrimFiles(files[1..], room - 1, left);
        FileBytesConserved(files[1..], room - 1, left);
        assert |t.kept| == |u.kept| + 1 && files[|t.kept|..] == files[1..][|u.kept|..];
        if !fits {
          assert t.omitted[1..] == u.omitted;
        }
      }
    }
  }

  lemma NoPatchNoBytes(f: File)
    ensures Unpatched(f) ==> PatchBytes(f) == 0
    ensures PatchBytes(Stripped(f)) == 0 && Unpatched(Stripped(f))
  {}

  /** Which patches are stripped: exactly those bigger than what the kept files before them leave. */
  lemma {:induction false} StrippedWhenTooBig(files: seq<File>, room: nat, bytes: nat, i: nat)
    requires i < |files| && i < room
    ensures var kept := TrimFiles(files, room, bytes).kept;
            && i < |kept|
            && kept[i] == if !Unpatched(files[i]) && PatchBytes(files[i]) > bytes - TotalPatchBytes(kept[..i])
                          then Stripped(files[i]) else files[i]
    decreases |files|
  {
    hide PatchBytes, Unpatched, Stripped, TrimFiles;
    var f, kept := files[0], TrimFiles(files, room, bytes).kept;
    FileStep(files, room, bytes);
    NoPatchNoBytes(f);
    if i > 0 {
      var next := if Unpatched(f) || PatchBytes(f) > bytes then bytes else bytes - PatchBytes(f);
      var u := TrimFiles(files[1..], room - 1, next);
      StrippedWhenTooBig(files[1..], room - 1, next, i - 1);
      assert kept[1..] == u.kept && kept[..i][1..] == u.kept[..i - 1];
    }
  }

  /** A second pass over the files changes nothing. */
  lemma {:induction false} FileBudgetIdempotent(files: seq<File>, room: nat, bytes: nat)
    ensures var t := TrimFiles(files, room, bytes);
            TrimFiles(t.kept, room, bytes).kept == t.kept
                && TrimFiles(t.kept, room, bytes).retainedBytes == t.retainedBytes
    decreases |files|
  {
    hide PatchBytes, Unpatched, Stripped;
    if files != [] {
      var f, t := files[0], TrimFiles(files, room, bytes);
      FileStep(files, room, bytes);
      NoPatchNoBytes(f);
      if room == 0 {
        KeepsFirstFiles(files, room, bytes);
        FileBudgetIdempotent(files[1..], 0, bytes);
      } else {
        var next := if Unpatched(f) || PatchBytes(f) > bytes then bytes else bytes - PatchBytes(f);
        FileBudgetIdempotent(files[1..], room - 1, next);
        FileStep(t.kept, room, bytes);
        assert t.kept[1..] == TrimFiles(files[1..], room - 1, next).kept;
      }
    }
  }

  /** What is noted of a file: that it came too late, that it has no patch and is not said to have one, or that its
      patch is bigger than what the kept files before it leave. */
  function NoteOf(f: File, i: nat, room: nat, left: int): seq<Omission> {
    if i >= room then [Omission(f.path, TooManyFiles, None)]
    else if f.patch.None? && f.patchStatus != "available" then [Omission(f.path, PatchMissing, None)]
    else if PatchBytes(f) > left then [Omission(f.path, PatchTooBig, Some(PatchBytes(f)))]
    else []
  }

  function NotesUpTo(files: seq<File>, kept: seq<File>, room: nat, bytes: nat, n: nat): seq<Omission>
    requires n <= |files| && (n <= |kept| || room <= |kept|)
  {
    if n == 0 then []
    else
      NotesUpTo(files, kept, room, bytes, n - 1)
      + NoteOf(files[n - 1], n - 1, room, if n - 1 < room then bytes - TotalPatchBytes(kept[..n - 1]) else 0)
  }

  /** The omissions are exactly those notes, in the order of the files. */
  lemma {:induction false} OmissionsAreNotes(files: seq<File>, room: nat, bytes: nat)
    ensures var t := TrimFiles(files, room, bytes);
      && |t.kept| == (if room < |files| then room else |files|)
      && t.omitted == NotesUpTo(files, t.kept, room, bytes, |files|)
    decreases |files|
  {
    hide PatchBytes, NotesUpTo, TotalPatchBytes, TrimFiles;
    KeepsFirstFiles(files, room, bytes);
    if files == [] {
      NothingLeft(room, bytes);
      NoNotes(files, [], room, bytes);
    } else {
      var f, t := files[0], TrimFiles(files, room, bytes);
      FileStep(files, room, bytes);
      NoPatchNoBytes(f);
      var next := if room == 0 then 0 else room - 1;
      var left := if room == 0 || Unpatched(f) || PatchBytes(f) > bytes then bytes else bytes - PatchBytes(f);
      var u := TrimFiles(files[1..], next, left);
      OmissionsAreNotes(files[1..], next, left);
      if room == 0 {
        NotesShiftLate(files, [], bytes, |files|);
      } else {
        assert t.kept == [t.kept[0]] + u.kept;
        FirstBytes(t.kept[0]);
        NotesShift(files, t.kept, room, bytes, left, |files|);
        assert t.kept[1..] == u.kept;
      }
    }
  }

  lemma FirstBytes(f: File)
    ensures TotalPatchBytes([f]) == PatchBytes(f) && TotalPatchBytes([]) == 0
  {
    assert [f][1..] == [];
  }

  lemma NoNotes(files: seq<File>, kept: seq<File>, room: nat, bytes: nat)
    ensures NotesUpTo(files, kept, room, bytes, 0) == []
  {}

  /** Beyond the limit nothing but the order matters. */
  lemma {:induction false} NotesShiftLate(files: seq<File>, kept: seq<File>, bytes: nat, n: nat)
    requires 1 <= n <= |files|
    ensures NotesUpTo(files, kept, 0, bytes, n)
         == [Omission(files[0].path, TooManyFiles, None)] + NotesUpTo(files[1..], kept, 0, bytes, n - 1)
  {
    if n > 1 {
      NotesShiftLate(files, kept, bytes, n - 1);
      Assoc([Omission(files[0].path, TooManyFiles, None)], NotesUpTo(files[1..], kept, 0, bytes, n - 2),
            NoteOf(files[n - 1], n - 1, 0, 0));
    }
  }

  /** The notes after the first file, as notes of the rest. */
  lemma {:induction false} NotesShift(files: seq<File>, kept: seq<File>, room: nat, bytes: nat, left: nat, n: nat)
    requires 1 <= n <= |files| && 1 <= room && kept != [] && left == bytes - PatchBytes(kept[0])
    requires n <= |kept| || room <= |kept|
    ensures NotesUpTo(files, kept, room, bytes, n)
         == NoteOf(files[0], 0, room, bytes) + NotesUpTo(files[1..], kept[1..], room - 1, left, n - 1)
  {
    hide NoteOf, PatchBytes;
    var first := NoteOf(files[0], 0, room, bytes);
    if n == 1 {
      assert kept[..0] == [];
      Unit(first);
    } else {
      NotesShift(files, kept, room, bytes, left, n - 1);
      if n - 1 < room {
        assert kept[..n - 1][0] == kept[0] && kept[..n - 1][1..] == kept[1..][..n - 2];
      }
      var last := if n - 1 < room then bytes - TotalPatchBytes(kept[..n - 1]) else 0;
      NoteLater(files[n - 1], n - 1, room, last);
      Assoc(first, NotesUpTo(files[1..], kept[1..], room - 1, left, n - 2), NoteOf(files[n - 1], n - 1, room, last));
    }
  }

  lemma NoteLater(f: File, i: nat, room: nat, left: int)
    requires 1 <= i && 1 <= room
    ensures NoteOf(f, i, room, left) == NoteOf(f, i - 1, room - 1, left)
  {}

  // ----- the reported omissions -----

  /** What the id of a report is made of: its namespace and the path. Later reports of one id are dropped. */
  const ReportKey := (o: Omission) => (o.reason == TooManyFiles, o.id)

  function Reported(t: Trimmed<File>): seq<Omission> { Dedupe(t.omitted, ReportKey) }

  function BytesOf(o: Omission): nat {
    if o.originalBytes.Some? then o.originalBytes.value else 0
  }

  lemma {:induction false} ReportedAppend(omitted: seq<Omission>, o: Omission)
    ensures ReportedBytes(omitted + [o]) == ReportedBytes(omitted) + BytesOf(o)
  {
    if omitted == [] {
      assert [] + [o] == [o] && [o][1..] == [];
    } else {
      assert (omitted + [o])[1..] == omitted[1..] + [o];
      ReportedAppend(omitted[1..], o);
    }
  }

  /** Every omission with bytes is the first of its key. */
  predicate FirstsCarryAll<K(==, !new)>(omitted: seq<Omission>, key: Omission -> K) {
    forall i :: 0 <= i < |omitted| && BytesOf(omitted[i]) > 0 ==> IsFirst(omitted, key, i)
  }

  lemma FirstsAppend<K(!new)>(omitted: seq<Omission>, key: Omission -> K, o: Omission)
    ensures FirstsCarryAll(omitted + [o], key)
       <==> FirstsCarryAll(omitted, key) && (BytesOf(o) > 0 ==> !HasKey(omitted, key, key(o)))
  {
    hide BytesOf;
    var longer := omitted + [o];
    forall i | 0 <= i < |omitted| ensures IsFirst(longer, key, i) <==> IsFirst(omitted, key, i) {
      assert forall j :: 0 <= j <= i ==> longer[j] == omitted[j];
    }
    assert IsFirst(longer, key, |omitted|) <==> !HasKey(omitted, key, key(o)) by {
      assert forall j :: 0 <= j < |omitted| ==> longer[j] == omitted[j];
    }
    assert forall i :: 0 <= i < |omitted| ==> longer[i] == omitted[i];
  }

  lemma {:induction false} DroppedBytes<K(!new)>(omitted: seq<Omission>, key: Omission -> K)
    ensures ReportedBytes(Dedupe(omitted, key)) <= ReportedBytes(omitted)
    ensures ReportedBytes(Dedupe(omitted, key)) == ReportedBytes(omitted) <==> FirstsCarryAll(omitted, key)
  {
    hide HasKey, BytesOf, Dedupe, ReportedBytes, FirstsCarryAll;
    if omitted == [] {
      DedupeNothing(key);
      NothingDropped(key);
    } else {
      var shorter, last := omitted[..|omitted| - 1], Last(omitted);
      assert omitted == shorter + [last];
      DroppedBytes(shorter, key);
      DedupeAppend(shorter, key, last);
      DedupeKeepsKeys(shorter, key, key(last));
      ReportedAppend(shorter, last);
      ReportedAppend(Dedupe(shorter, key), last);
      FirstsAppend(shorter, key, last);
    }
  }

  lemma NothingDropped<K(!new)>(key: Omission -> K)
    ensures FirstsCarryAll([], key)
  {}

  /** Only a patch that is too big is noted with its bytes, and it has some. */
  lemma {:induction false} TooBigHasBytes(files: seq<File>, room: nat, bytes: nat)
    ensures forall o :: o in TrimFiles(files, room, bytes).omitted ==> (BytesOf(o) > 0 <==> o.reason == PatchTooBig)
    decreases |files|
  {
    hide PatchBytes, Unpatched, Stripped, TrimFiles;
    if files == [] {
      NothingLeft(room, bytes);
    } else {
      FileStep(files, room, bytes);
      TooBigHasBytes(files[1..], if room == 0 then 0 else room - 1, bytes);
      if room > 0 && PatchBytes(files[0]) <= bytes {
        TooBigHasBytes(files[1..], room - 1, bytes - PatchBytes(files[0]));
      }
    }
  }

  /** The reports that leave the pass account for all bytes, too, if and only if no too big patch has the
      path of a patch noted before it; otherwise they account for less. */
  lemma ReportedBytesConservedIff(files: seq<File>, room: nat, bytes: nat)
    ensures var t := TrimFiles(files, room, bytes);
      var account := t.retainedBytes + ReportedBytes(Reported(t)) + TotalPatchBytes(files[|t.kept|..]);
      && account <= TotalPatchBytes(files)
      && (account == TotalPatchBytes(files) <==>
            forall i :: 0 <= i < |t.omitted| && t.omitted[i].reason == PatchTooBig ==> IsFirst(t.omitted, ReportKey, i))
  {
    hide TrimFiles, BytesOf, IsFirst, Dedupe, ReportedBytes, TotalPatchBytes;
    FileBytesConserved(files, room, bytes);
    DroppedBytes(TrimFiles(files, room, bytes).omitted, ReportKey);
    TooBigHasBytes(files, room, bytes);
  }

  predicate DistinctPaths(files: seq<File>) {
    forall i, j :: 0 <= i < j < |files| ==> files[i].path != files[j].path
  }

  lemma {:induction false} OmissionsApart(files: seq<File>, room: nat, bytes: nat)
    requires DistinctPaths(files)
    ensures var omitted := TrimFiles(files, room, bytes).omitted;
      && (forall o :: o in omitted ==> exists i :: 0 <= i < |files| && files[i].path == o.id)
      && forall i, j :: 0 <= i < j < |omitted| ==> omitted[i].id != omitted[j].id
    decreases |files|
  {
    hide PatchBytes, Unpatched, Stripped, TrimFiles;
    if files == [] {
      NothingLeft(room, bytes);
    } else {
      FileStep(files, room, bytes);
      assert forall i :: 0 <= i < |files[1..]| ==> files[1..][i].path == files[i + 1].path;
      OmissionsApart(files[1..], if room == 0 then 0 else room - 1, bytes);
      if room > 0 && PatchBytes(files[0]) <= bytes {
        OmissionsApart(files[1..], room - 1, bytes - PatchBytes(files[0]));
      }
    }
  }

  /** With distinct paths nothing is dropped from the reports. */
  lemma DistinctPathsAreReported(files: seq<File>, room: nat, bytes: nat)
    requires DistinctPaths(files)
    ensures var t := TrimFiles(files, room, bytes);
      && Reported(t) == t.omitted
      && TotalPatchBytes(files) == t.retainedBytes + ReportedBytes(Reported(t)) + TotalPatchBytes(files[|t.kept|..])
  {
    hide TrimFiles, ReportedBytes, TotalPatchBytes, Dedupe;
    FileBytesConserved(files, room, bytes);
    OmissionsApart(files, room, bytes);
    DedupeFixesDistinct(TrimFiles(files, room, bytes).omitted, ReportKey);
  }

  /** A path that occurs twice: the second patch is too big, and its report is dropped. */
  lemma RepeatedPathLosesReport()
    ensures var f := File("path", Some("a"), AVAILABLE);
      var t := TrimFiles([f, f], 2, 0);
      TotalPatchBytes([f, f]) == 2 && t.retainedBytes == 0 && |t.kept| == 2 && ReportedBytes(Reported(t)) == 1
  {
    var f := File("path", Some("a"), AVAILABLE);
    var o := Omission("path", PatchTooBig, Some(1));
    assert Bytes("a") == 1 by { assert "a"[1..] == ""; }
    assert [f, f][1..] == [f] && [f][1..] == [] && PatchBytes(f) == 1;
    assert TotalPatchBytes([f]) == 1;
    assert TrimFiles([f], 1, 0) == Trimmed([Stripped(f)], [o], 0);
    assert TrimFiles([f, f], 2, 0).omitted == [o, o];
    assert [o, o][..1] == [o] && [o][..0] == [] && [o][1..] == [];
    assert Dedupe([o], ReportKey) == [o];
    assert ReportKey([o][0]) == ReportKey(o);
    assert Dedupe([o, o], ReportKey) == [o] && ReportedBytes([o]) == 1;
  }

  // ----- conversation memory -----

  /** An entry of the conversation: its metadata fields, the first of which is its id, and its body. */
  datatype Memory = Memory(metadata: seq<string>, body: Option<string>)

  function Id(m: Memory): string {
    if m.metadata == [] then "" else m.metadata[0]
  }

  function MemoryBytes(m: Memory): nat {
    Bytes(Join(m.metadata + [OrEmpty(m.body)], '\n'))
  }

  function WithoutBody(m: Memory): Memory { m.(body := None) }

  function TrimMemory(entries: seq<Memory>, bytes: nat): Trimmed<Memory> {
    if entries == [] then Trimmed([], [], 0)
    else
      var m, cost := entries[0], MemoryBytes(entries[0]);
      if cost > bytes then
        var t := TrimMemory(entries[1..], bytes);
        Trimmed([WithoutBody(m)] + t.kept, [Omission(Id(m), MemoryTooBig, Some(cost))] + t.omitted, t.retainedBytes)
      else
        var t := TrimMemory(entries[1..], bytes - cost);
        Trimmed([m] + t.kept, t.omitted, cost + t.retainedBytes)
  }

  method ApplyMemoryBudget(entries: seq<Memory>, maxBytes: nat) returns (trimmed: Trimmed<Memory>)
    ensures trimmed == TrimMemory(entries, maxBytes)
  {
    hide MemoryBytes, WithoutBody, Id;
    var kept: seq<Memory>, omitted: seq<Omission> := [], [];
    var retainedBytes, remaining := 0, maxBytes;
    StartsEmpty(TrimMemory(entries, maxBytes));
    for i := 0 to |entries|
      invariant TrimMemory(entries, maxBytes)
             == After(kept, omitted, retainedBytes, TrimMemory(entries[i..], remaining))
    {
      var entry, cost := entries[i], MemoryBytes(entries[i]);
      assert entries[i..][0] == entry && entries[i..][1..] == entries[i + 1..];
      ghost var rest := TrimMemory(entries[i..], remaining);
      ghost var state := (kept, omitted);
      if cost > remaining {
        kept, omitted := kept + [WithoutBody(entry)], omitted + [Omission(Id(entry), MemoryTooBig, Some(cost))];
      } else {
        kept := kept + [entry];
        retainedBytes, remaining := retainedBytes + cost, remaining - cost;
      }
      ghost var tail := TrimMemory(entries[i + 1..], remaining);
      Regroup(state.0, kept, tail.kept, rest.kept);
      Regroup(state.1, omitted, tail.omitted, rest.omitted);
    }
    assert entries[|entries|..] == [];
    Unit(kept);
    Unit(omitted);
    trimmed := Trimmed(kept, omitted, retainedBytes);
  }

  /** Bytes that a pass has charged for the entries before `i`. */
  function Charged(entries: seq<Memory>, bytes: nat, i: nat): nat
    requires i <= |entries|
  {
    TrimMemory(entries[..i], bytes).retainedBytes
  }

  lemma {:induction false} ChargedFits(entries: seq<Memory>, bytes: nat)
    ensures TrimMemory(entries, bytes).retainedBytes <= bytes
    ensures |TrimMemory(entries, bytes).kept| == |entries|
    decreases |entries|
  {
    if entries != [] {
      ChargedFits(entries[1..], bytes);
      if MemoryBytes(entries[0]) <= bytes {
        ChargedFits(entries[1..], bytes - MemoryBytes(entries[0]));
      }
    }
  }

  /** Every entry stays, in order; its body goes exactly when the entry is bigger than what is left. */
  lemma {:induction false} BodyDroppedWhenTooBig(entries: seq<Memory>, bytes: nat, i: nat)
    requires i < |entries|
    ensures var kept := TrimMemory(entries, bytes).kept;
            && |kept| == |entries|
            && kept[i] == if MemoryBytes(entries[i]) > bytes - Charged(entries, bytes, i)
                then WithoutBody(entries[i]) else entries[i]
    decreases |entries|
  {
    hide MemoryBytes;
    ChargedFits(entries, bytes);
    if i > 0 {
      var rest := entries[1..];
      assert entries[..i][1..] == rest[..i - 1];
      if MemoryBytes(entries[0]) > bytes {
        BodyDroppedWhenTooBig(rest, bytes, i - 1);
      } else {
        BodyDroppedWhenTooBig(rest, bytes - MemoryBytes(entries[0]), i - 1);
      }
    }
  }

  /** What is noted of an entry: its id and its size, when it is bigger than what is left. */
  function MemoryNote(m: Memory, left: int): seq<Omission> {
    if MemoryBytes(m) > left then [Omission(Id(m), MemoryTooBig, Some(MemoryBytes(m)))] else []
  }

  function MemoryNotes(entries: seq<Memory>, bytes: nat, n: nat): seq<Omission>
    requires n <= |entries|
  {
    if n == 0 then []
    else MemoryNotes(entries, bytes, n - 1) + MemoryNote(entries[n - 1], bytes - Charged(entries, bytes, n - 1))
  }

  /** The omissions of the pass over the memory are exactly those notes, in the order of the entries. */
  lemma {:induction false} MemoryOmissionsAreNotes(entries: seq<Memory>, bytes: nat)
    ensures TrimMemory(entries, bytes).omitted == MemoryNotes(entries, bytes, |entries|)
    decreases |entries|
  {
    hide MemoryBytes, Id;
    if entries != [] {
      var cost := MemoryBytes(entries[0]);
      var left := if cost > bytes then bytes else bytes - cost;
      MemoryOmissionsAreNotes(entries[1..], left);
      MemoryNotesShift(entries, bytes, |entries|);
    }
  }

  lemma {:induction false} MemoryNotesShift(entries: seq<Memory>, bytes: nat, n: nat)
    requires 1 <= n <= |entries|
    ensures var cost := MemoryBytes(entries[0]);
      var left := if cost > bytes then bytes else bytes - cost;
      MemoryNotes(entries, bytes, n) == MemoryNote(entries[0], bytes) + MemoryNotes(entries[1..], left, n - 1)
  {
    hide MemoryBytes, Id, MemoryNote;
    var cost := MemoryBytes(entries[0]);
    var left := if cost > bytes then bytes else bytes - cost;
    var first := MemoryNote(entries[0], bytes);
    ChargedShifts(entries, bytes, n - 1);
    if n == 1 {
      Unit(first);
    } else {
      MemoryNotesShift(entries, bytes, n - 1);
      Assoc(first, MemoryNotes(entries[1..], left, n - 2),
            MemoryNote(entries[n - 1], bytes - Charged(entries, bytes, n - 1)));
    }
  }

  lemma ChargedShifts(entries: seq<Memory>, bytes: nat, i: nat)
    requires entries != [] && i < |entries|
    ensures i == 0 ==> Charged(entries, bytes, i) == 0
    ensures i > 0 ==>
              var cost := MemoryBytes(entries[0]);
              bytes - Charged(entries, bytes, i)
              == if cost > bytes then bytes - Charged(entries[1..], bytes, i - 1)
                 else (bytes - cost) - Charged(entries[1..], bytes - cost, i - 1)
  {
    hide MemoryBytes;
    if i > 0 {
      assert entries[..i][0] == entries[0] && entries[..i][1..] == entries[1..][..i - 1];
    }
  }

  /** A pass leaves a list alone exactly when every entry that has a body fits at its turn. */
  lemma MemoryUnchangedIff(entries: seq<Memory>, bytes: nat)
    ensures TrimMemory(entries, bytes).kept == entries <==>
              forall i :: 0 <= i < |entries| && entries[i].body.Some? ==>
                MemoryBytes(entries[i]) <= bytes - Charged(entries, bytes, i)
  {
    hide MemoryBytes, TrimMemory, Charged;
    var kept := TrimMemory(entries, bytes).kept;
    ChargedFits(entries, bytes);
    forall i | 0 <= i < |entries|
      ensures |kept| == |entries|
      ensures kept[i] == entries[i] <==>
                (entries[i].body.Some? ==> MemoryBytes(entries[i]) <= bytes - Charged(entries, bytes, i))
    {
      BodyDroppedWhenTooBig(entries, bytes, i);
    }
  }

  /** Read off the entries: `first` and `second` are what the two passes have left. An entry that the
      first pass trims costs its metadata in the second, and one that it keeps must fit again. */
  predicate FitsAgain(entries: seq<Memory>, first: nat, second: nat) {
    if entries == [] then true
    else
      var m, rest := entries[0], entries[1..];
      if MemoryBytes(m) > first then
        var trimmed := MemoryBytes(WithoutBody(m));
        FitsAgain(rest, first, if trimmed <= second then second - trimmed else second)
      else if MemoryBytes(m) <= second then FitsAgain(rest, first - MemoryBytes(m), second - MemoryBytes(m))
      else m.body == None && FitsAgain(rest, first - MemoryBytes(m), second)
  }

  lemma {:induction false} SecondPassIff(entries: seq<Memory>, first: nat, second: nat)
    ensures TrimMemory(TrimMemory(entries, first).kept, second).kept == TrimMemory(entries, first).kept
       <==> FitsAgain(entries, first, second)
    decreases |entries|
  {
    hide MemoryBytes;
    if entries != [] {
      var m := entries[0];
      var left := if MemoryBytes(m) > first then first else first - MemoryBytes(m);
      var once := TrimMemory(entries, first).kept;
      assert once[1..] == TrimMemory(entries[1..], left).kept;
      var cost := MemoryBytes(once[0]);
      var next := if cost > second then second else second - cost;
      SecondPassIff(entries[1..], left, next);
      assert TrimMemory(once, second).kept[1..] == TrimMemory(once[1..], next).kept;
      assert once == [once[0]] + once[1..];
    }
  }

  /** The memory budget is idempotent exactly when every entry that the first pass keeps with its body
      still fits after the trimmed entries before it have been charged for their metadata. */
  lemma MemoryBudgetIdempotentIff(entries: seq<Memory>, bytes: nat)
    ensures TrimMemory(TrimMemory(entries, bytes).kept, bytes).kept == TrimMemory(entries, bytes).kept
       <==> FitsAgain(entries, bytes, bytes)
  {
    SecondPassIff(entries, bytes, bytes);
  }

  /** The second pass charges a trimmed entry for its metadata, so it can drop a body that the first
      pass kept. */
  lemma {:induction false} MemoryBudgetNotIdempotent()
    ensures var entries := [Memory(["a"], Some("bbbbbb")), Memory(["c"], Some("ddd"))];
            var once := TrimMemory(entries, 5).kept;
            once == [Memory(["a"], None), entries[1]]
                && TrimMemory(once, 5).kept == [Memory(["a"], None), Memory(["c"], None)]
  {
    hide MemoryBytes;
    var a, c := Memory(["a"], Some("bbbbbb")), Memory(["c"], Some("ddd"));
    SmallMemory("a", a.body);
    SmallMemory("c", c.body);
    SmallMemory("a", None);
    assert Bytes("") == 0 && Bytes("d") == 1 && Bytes("dd") == 1 + Bytes("dd"[1..])
        && Bytes("ddd") == 1 + Bytes("ddd"[1..]);
    assert "dd"[1..] == "d" && "ddd"[1..] == "dd" && Bytes("ddd") == 3;
    assert "bbbbbb"[1..] == "bbbbb" && "bbbbb"[1..] == "bbbb" && "bbbb"[1..] == "bbb" && "bbb"[1..] == "bb"
        && "bb"[1..] == "b";
    assert Bytes("bbbbb") == 5 && Bytes("bbbbbb") == 6;
    assert [a, c][1..] == [c] && [c][1..] == [] && [WithoutBody(a), c][1..] == [c];
  }

  lemma SmallMemory(id: string, body: Option<string>)
    ensures MemoryBytes(Memory([id], body)) == Bytes(id) + 1 + Bytes(OrEmpty(body))
  {
    var text := OrEmpty(body);
    var parts := [id] + [text];
    assert parts[1..] == [text] && Join(parts, '\n') == id + ['\n'] + text;
    BytesConcat(id + ['\n'], text);
    BytesConcat(id, ['\n']);
  }

  lemma {:induction false} BytesConcat(a: string, b: string)
    ensures Bytes(a + b) == Bytes(a) + Bytes(b)
  {
    if a == "" {
      assert a + b == b;
    } else {
      assert (a + b)[1..] == a[1..] + b;
      BytesConcat(a[1..], b);
    }
  }
}
