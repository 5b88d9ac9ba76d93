/** What one comment does to the verdict of a scan, by its own fields and its last line. */
module Sightings {
  import opened Text
  import opened Marker
  import opened Bodies
  import opened Reconcile

  /** Written on GitHub by the approved actor, or by a bot that is trusted by name. */
  predicate SpokenFor(t: Trust, c: Comment) {
    c.provider == "github" && c.login != "" && c.kind != ""
    && (if t.fold(c.kind) == "user" then c.login == t.actor
        else t.fold(c.kind) == "bot" && (c.login == t.actor || c.login in t.bots))
  }

  /** Everything that a scan says but its counts. */
  predicate SameFinding(r: Scan, r': Scan) {
    r.status == r'.status && r.reason == r'.reason && r.actor == r'.actor && r.existingId == r'.existingId
    && r.duplicates == r'.duplicates
  }

  /** The last line opens as a marker does. */
  predicate OpensAsMarker(c: Comment) {
    |FinalLine(c.body)| >= 17 && FinalLine(c.body)[..17] == "<!-- reviewgraph:"
  }

  lemma FilterMiddle<T>(p: T -> bool, before: seq<T>, x: T, after: seq<T>)
    ensures Filter(p, before + [x] + after) == Filter(p, before) + (if p(x) then [x] else []) + Filter(p, after)
    ensures Filter(p, before + after) == Filter(p, before) + Filter(p, after)
  {
    FilterConcat(p, before + [x], after);
    FilterConcat(p, before, [x]);
    FilterConcat(p, before, after);
    assert [x][1..] == [];
  }

  lemma SightingOf(t: Trust, e: Expected, c: Comment)
    ensures Trusted(t, c) <==> SpokenFor(t, c)
    ensures CountsAsMarker(c) <==> ScanFinalLine(c.body).Some? || OpensAsMarker(c)
    ensures Look(e, c) == match ScanFinalLine(c.body)
              case None => if OpensAsMarker(c) then Malformed else Nothing
              case Some(m) =>
                if m.target == e.target && m.findings == e.findings
                then (if m.payload == e.payload then Match else Conflict) else Unrelated
  {
    hide ScanFinalLine, FinalLine;
  }

  /** A comment that nobody answers for changes nothing but the counts, and neither does one whose last line is no
      marker, or one for other hashes. A marker for the same target and findings and another payload, or a last
      line that only opens like a marker, fails the scan; one with the payload, too, is found. */
  lemma CommentCounts(t: Trust, e: Expected, before: seq<Comment>, c: Comment, after: seq<Comment>, pages: nat)
    ensures var r, rest := Verdict(t, e, before + [c] + after, pages), Verdict(t, e, before + after, pages);
      && r.comments == rest.comments + 1 && r.pages == rest.pages
      && r.markers == rest.markers + (if ScanFinalLine(c.body).Some? || OpensAsMarker(c) then 1 else 0)
      && if !SpokenFor(t, c) then SameFinding(r, rest)
         else match ScanFinalLine(c.body)
           case None =>
             if OpensAsMarker(c) then
               r.status == FailedClosed && (rest.status != FailedClosed ==> r.reason == TrustedMalformed)
             else SameFinding(r, rest)
           case Some(m) =>
             if m.target != e.target || m.findings != e.findings then SameFinding(r, rest)
             else if m.payload != e.payload then
               r.status == FailedClosed && (rest.status != FailedClosed ==> r.reason == TrustedConflict)
             else if rest.status == FailedClosed then SameFinding(r, rest)
             else r.status == ReconciledExisting && c.id in [r.existingId.value] + r.duplicates
  {
    hide Trusted, Look, CountsAsMarker, SpokenFor, OpensAsMarker, Filter, ScanFinalLine;
    SightingOf(t, e, c);
    FilterMiddle(Blocking(t, e), before, c, after);
    FilterMiddle(Matching(t, e), before, c, after);
    FilterMiddle(CountsAsMarker, before, c, after);
    if Matching(t, e)(c) {
      NamedAmong(Filter(Matching(t, e), before), c, Filter(Matching(t, e), after));
    }
  }

  lemma NamedAmong(before: seq<Comment>, c: Comment, after: seq<Comment>)
    ensures var all := before + [c] + after; c.id in [all[0].id] + Ids(all[1..])
  {
    var all := before + [c] + after;
    assert all[|before|] == c;
    if before != [] {
      assert all[1..][|before| - 1] == c;
      assert Ids(all[1..])[|before| - 1] == c.id;
    }
  }

  lemma {:induction false} FirstKept<T>(p: T -> bool, xs: seq<T>) returns (i: nat)
    requires Filter(p, xs) != []
    ensures i < |xs| && p(xs[i]) && Filter(p, xs)[0] == xs[i] && forall j :: 0 <= j < i ==> !p(xs[j])
  {
    if p(xs[0]) {
      i := 0;
    } else {
      i := FirstKept(p, xs[1..]);
      i := i + 1;
      assert forall j :: 0 < j < i ==> xs[j] == xs[1..][j - 1];
    }
  }

  /** The verdict names the first comment that decides it: the first that blocks, or else the first match. */
  lemma FirstDecides(t: Trust, e: Expected, cs: seq<Comment>, pages: nat) returns (i: nat)
    requires Verdict(t, e, cs, pages).status != SafeToPost
    ensures i < |cs| && SpokenFor(t, cs[i])
    ensures var r := Verdict(t, e, cs, pages);
      if r.status == ReconciledExisting then
        && Look(e, cs[i]) == Match && r.existingId == Some(cs[i].id) && r.actor == Some(cs[i].login)
        && forall j :: 0 <= j < i ==> !(SpokenFor(t, cs[j]) && Look(e, cs[j]) == Match)
      else
        && Look(e, cs[i]) == (if r.reason == TrustedMalformed then Malformed else Conflict)
        && r.reason in {TrustedMalformed, TrustedConflict}
        && forall j :: 0 <= j < i ==> !(SpokenFor(t, cs[j]) && Look(e, cs[j]) in {Malformed, Conflict})
  {
    hide Trusted, Look, CountsAsMarker, SpokenFor, ScanFinalLine, Filter;
    forall c | c in cs ensures Trusted(t, c) <==> SpokenFor(t, c) {
      SightingOf(t, e, c);
    }
    if Verdict(t, e, cs, pages).status == ReconciledExisting {
      i := FirstKept(Matching(t, e), cs);
    } else {
      i := FirstKept(Blocking(t, e), cs);
    }
  }
}
