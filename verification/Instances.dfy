/** That the guarantees are about something: an attempt that posts, and two interleaved ones that both
    do, for every digest. */
module Instances {
  import opened Text
  import opened Marker
  import opened Bodies
  import opened Payload
  import opened Approval
  import opened Reconcile
  import opened Finalization
  import opened Protocol

  const TARGET := ReviewTarget("owner/repo", 7, "base", "head", Some("merge"), "merge_base")
  const PLAN: seq<PlanItem> := [PlanItem("item", POSTABLE, ReviewBodyItem, true, Some("print"))]
  const FINDINGS: Findings := map["item" := Finding("title", "body", "path", 1, 0, "print")]
  const TRUST := Trust("actor", [], (s: string) => s)

  function Posting(h: Hashes): Option<FinalPayload> {
    Build(h, "run", TARGET, "x", ["print"], true)
  }

  /** The approved actor posts to a pull request without comments. */
  function Poster(h: Hashes, id: string): Attempt {
    var p := Posting(h);
    var hash, body := if p.Some? then p.value.finalPayloadHash else "", if p.Some? then p.value.body else "";
    var decision := Decision(true, ["item"], hash, TARGET, TargetHash(h, TARGET), "actor");
    Attempt(decision, PLAN, FINDINGS, true, None, p, None, Serve([[]], []), Limits(1, 0), body, id, "user")
  }

  lemma ShortIsNoMarker(line: string)
    requires |line| <= 1
    ensures !IsMarkerLine(line)
  {
    hide Split, Inner, WellFormed, NamedInOrder, ParseByRegex;
    ParsersAgree(line);
  }

  lemma PlainTextIsMarkerFree()
    ensures MarkerFree(CanonicalTextBody("x"))
  {
    hide IsMarkerLine;
    NormalizeFixesCrFree("x");
    NormalizeFixesCrFree("x\n");
    assert RStripNewlines("x") == "x";
    assert "x" + "\n" == "x\n" && "x" + ['\n'] + "" == "x\n";
    SplitWhole("x", '\n');
    SplitWhole("", '\n');
    SplitConcat("x", '\n', "");
    ShortIsNoMarker("x");
    ShortIsNoMarker("");
  }

  lemma PostingValidates(h: Hashes)
    ensures Posting(h).Some? && Validate(h, Posting(h).value).Pass?
  {
    hide Build, Validate, MarkerFree, CanonicalTextBody;
    PlainTextIsMarkerFree();
    BuiltPayloadValidatesIff(h, "run", TARGET, "x", ["print"], true);
  }

  lemma NothingObjected()
    ensures NoObjection(true, ["item"], PLAN, FINDINGS)
  {
    assert PLAN[0].id == "item" && FINDINGS["item"].fingerprint == "print";
    assert Find(PLAN, "item") == Some(PLAN[0]);
  }

  lemma ListsEmptyLog()
    ensures Listed(Serve([[]], []), Limits(1, 0))
    ensures forall pages :: Listing(Serve([[]], []), Limits(1, 0), pages) ==> CommentsOf(pages) == []
  {
    var page := Page([], NoCursor, true);
    assert [page][..0] == [] && CommentsOf([]) == [];
    assert CommentsOf([page]) == [];
    assert Serve([[]], [])(0, NoCursor) == Got(page);
    assert Listing(Serve([[]], []), Limits(1, 0), [page]);
  }

  lemma PosterIsHonest(h: Hashes, id: string)
    ensures Honest(TRUST, [], Try(Poster(h, id)))
  {
    hide Listing, Posting, NormalizeNewlines, StoredAs, TargetHash, Serve, CommentsOf;
    ListsEmptyLog();
  }

  /** For every digest there is an honest attempt that posts. */
  lemma SomeAttemptPosts(h: Hashes, id: string)
    ensures Honest(TRUST, [], Try(Poster(h, id))) && Poster(h, id).builder.Some?
    ensures OutcomeOf(h, TRUST, Try(Poster(h, id))) == Posted
  {
    hide Listed, Posting, Honest, OutcomeOf, Validate, NoObjection, Trusted, Look, TargetHash, IsStrictHash, Serve;
    PosterIsHonest(h, id);
    PostingValidates(h);
    NothingObjected();
    ListsEmptyLog();
    PostsIff(h, TRUST, [], Poster(h, id));
  }

  /** A run of one such attempt leaves exactly one trusted marker, so post-once is about runs that post. */
  lemma OneRunOneMarker(h: Hashes, id: string)
    ensures HonestRun(h, TRUST, [], [Try(Poster(h, id))]) && Poster(h, id).builder.Some?
    ensures var p := Poster(h, id).builder.value;
      Markers(TRUST, p.markerTarget, p.markerFindings, Run(h, TRUST, [], [Try(Poster(h, id))])) == 1
  {
    hide Honest, OutcomeOf, Step, Bears, Poster, TargetHash;
    SomeAttemptPosts(h, id);
    var p, e := Poster(h, id).builder.value, Try(Poster(h, id));
    assert [e][1..] == [];
    StepPostsOnce(h, TRUST, [], e, p.markerTarget, p.markerFindings);
  }

  /** Two attempts that both scan before either posts leave two trusted markers for one pair. */
  lemma TwoInterleavedAttemptsPost(h: Hashes)
    ensures var a, b := Poster(h, "1"), Poster(h, "2");
      && a.builder.Some? && OutcomeOf(h, TRUST, Try(a)) == Posted && OutcomeOf(h, TRUST, Try(b)) == Posted
      && Markers(TRUST, a.builder.value.markerTarget, a.builder.value.markerFindings,
                 [] + [PostedComment(a)] + [PostedComment(b)]) == 2
  {
    hide Honest, OutcomeOf, Posting, Markers;
    SomeAttemptPosts(h, "1");
    SomeAttemptPosts(h, "2");
    InterleavedAttemptsPostTwice(h, TRUST, [], Poster(h, "1"), Poster(h, "2"));
  }
}
