/** Scanning the comments of a pull request for markers of earlier posts: the paginated, trust-aware
    scan and the older flat one. */
module Reconcile {
  import opened Text
  import opened Marker
  import opened Bodies

  datatype Comment = Comment(id: string, body: string, login: string, kind: string, provider: string)

  /** Whose markers count. `fold` is case folding of the author type. */
  datatype Trust = Trust(actor: string, bots: seq<string>, fold: string -> string)

  predicate Trusted(t: Trust, c: Comment) {
    c.provider == "github" && c.login != "" && c.kind != "" && t.fold(c.kind) in ["user", "bot"]
    && (c.login == t.actor || (t.fold(c.kind) == "bot" && c.login in t.bots))
  }

  datatype Expected = Expected(target: string, payload: string, findings: string)

  const LOOKS_LIKE := "<!-- reviewgraph:"

  predicate LooksLikeMarker(c: Comment) { LOOKS_LIKE <= FinalLine(c.body) }

  predicate CountsAsMarker(c: Comment) { ScanFinalLine(c.body).Some? || LooksLikeMarker(c) }

  /** What one comment means to a scan that expects e. */
  datatype Sighting = Nothing | Malformed | Unrelated | Match | Conflict

  function Look(e: Expected, c: Comment): Sighting {
    match ScanFinalLine(c.body)
    case None => if LooksLikeMarker(c) then Malformed else Nothing
    case Some(m) =>
      if m.target != e.target || m.findings != e.findings then Unrelated
      else if m.payload == e.payload then Match
      else Conflict
  }

  function Filter<T>(p: T -> bool, xs: seq<T>): seq<T> {
    if xs == [] then [] else (if p(xs[0]) then [xs[0]] else []) + Filter(p, xs[1..])
  }

  lemma FilterMember<T>(p: T -> bool, xs: seq<T>, x: T)
    ensures x in Filter(p, xs) <==> x in xs && p(x)
  {}

  lemma {:induction false} FilterConcat<T>(p: T -> bool, xs: seq<T>, ys: seq<T>)
    ensures Filter(p, xs + ys) == Filter(p, xs) + Filter(p, ys)
  {
    if xs == [] {
      assert xs + ys == ys;
    } else {
      assert (xs + ys)[0] == xs[0] && (xs + ys)[1..] == xs[1..] + ys;
      FilterConcat(p, xs[1..], ys);
      Assoc(if p(xs[0]) then [xs[0]] else [], Filter(p, xs[1..]), Filter(p, ys));
    }
  }

  function Both<T>(p: T -> bool, q: T -> bool): T -> bool {
    x => p(x) && q(x)
  }

  lemma {:induction false} FilterTwice<T>(p: T -> bool, q: T -> bool, xs: seq<T>)
    ensures Filter(p, Filter(q, xs)) == Filter(Both(q, p), xs)
  {
    if xs != [] {
      FilterTwice(p, q, xs[1..]);
      FilterConcat(p, if q(xs[0]) then [xs[0]] else [], Filter(q, xs[1..]));
    }
  }

  function Blocking(t: Trust, e: Expected): Comment -> bool {
    (c: Comment) => Trusted(t, c) && Look(e, c) in [Malformed, Conflict]
  }

  function Matching(t: Trust, e: Expected): Comment -> bool {
    (c: Comment) => Trusted(t, c) && Look(e, c) == Match
  }

  function Ids(cs: seq<Comment>): (ids: seq<string>)
    ensures |ids| == |cs| && forall i :: 0 <= i < |cs| ==> ids[i] == cs[i].id
  {
    if cs == [] then [] else [cs[0].id] + Ids(cs[1..])
  }

  // ----- the paginated scan -----

  datatype Status = SafeToPost | ReconciledExisting | FailedClosed

  datatype TransportReason = Timeout | RateLimited | Forbidden | NotFound | Unavailable | BadPage | UnknownFailure

  datatype Reason =
    Safe | MatchedExisting | TrustedMalformed | TrustedConflict | Transport(why: TransportReason) |
    PageCapExceeded | CommentCapExceeded | MalformedPage | PaginationIncomplete | RepeatedCursor

  datatype Scan = Scan(status: Status, reason: Reason, actor: Option<string>, existingId: Option<string>,
                       duplicates: seq<string>, pages: nat, comments: nat, markers: nat)

  datatype Cursor = NoCursor | Token(text: string) | Opaque(tag: int)

  datatype Page = Page(comments: seq<Comment>, next: Cursor, completed: bool)

  datatype Fetch = Got(page: Page) | Failed(why: TransportReason) | Raised | NotAPage

  /** A transport that reports a malformed page reports the code the scan itself uses. */
  function Code(why: TransportReason): Reason { if why == BadPage then MalformedPage else Transport(why) }

  datatype Limits = Limits(maxPages: nat, maxComments: nat)

  /** Answers the n-th request; a transport may answer the same cursor differently later. */
  type Source = (nat, Cursor) -> Fetch

  /** How the page walk ends and which comments were looked at before. `counted` is the reported
      comment count, which already includes the page that broke the cap. */
  datatype Reading =
    Complete(pages: nat, seen: seq<Comment>) |
    Stopped(reason: Reason, pages: nat, counted: nat, seen: seq<Comment>)

  function PageProblem(page: Page): Option<Reason> {
    if page.completed && page.next != NoCursor then Some(MalformedPage)
    else if !page.completed && page.next == NoCursor then Some(PaginationIncomplete)
    else if !page.completed && !(page.next.Token? && page.next.text != "") then Some(MalformedPage)
    else None
  }

  function Read(source: Source, limits: Limits, cursor: Cursor, used: set<Cursor>, pages: nat,
                seen: seq<Comment>): Reading
    decreases limits.maxPages - pages
  {
    if pages >= limits.maxPages then Stopped(PageCapExceeded, pages, |seen|, seen)
    else match source(pages, cursor)
      case Failed(why) => Stopped(Code(why), pages, |seen|, seen)
      case Raised => Stopped(Transport(UnknownFailure), pages, |seen|, seen)
      case NotAPage => Stopped(MalformedPage, pages, |seen|, seen)
      case Got(page) =>
        var all := seen + page.comments;
        if PageProblem(page).Some? then Stopped(PageProblem(page).value, pages + 1, |seen|, seen)
        else if |all| > limits.maxComments then Stopped(CommentCapExceeded, pages + 1, |all|, seen)
        else if page.completed then Complete(pages + 1, all)
        else if page.next in used then Stopped(RepeatedCursor, pages + 1, |all|, all)
        else Read(source, limits, page.next, used + {page.next}, pages + 1, all)
  }

  function ReadAll(source: Source, limits: Limits): Reading {
    Read(source, limits, NoCursor, {NoCursor}, 0, [])
  }

  /** What the scan reports for a complete read: it depends on nothing but the comments in order. */
  function Verdict(t: Trust, e: Expected, cs: seq<Comment>, pages: nat): Scan {
    var blocking := Filter(Blocking(t, e), cs);
    var matches := Filter(Matching(t, e), cs);
    var markers := |Filter(CountsAsMarker, cs)|;
    if blocking != [] then
      Scan(FailedClosed, if Look(e, blocking[0]) == Malformed then TrustedMalformed else TrustedConflict,
           None, None, [], pages, |cs|, markers)
    else if matches != [] then
      Scan(ReconciledExisting, MatchedExisting, Some(matches[0].login), Some(matches[0].id),
           Ids(matches[1..]), pages, |cs|, markers)
    else
      Scan(SafeToPost, Safe, None, None, [], pages, |cs|, markers)
  }

  function ScanOf(t: Trust, e: Expected, reading: Reading): Scan {
    match reading
    case Complete(pages, cs) => Verdict(t, e, cs, pages)
    case Stopped(reason, pages, counted, cs) =>
      Scan(FailedClosed, reason, None, None, [], pages, counted, |Filter(CountsAsMarker, cs)|)
  }

  // ----- the chain of pages that a scan follows -----

  /** The cursor of the n-th request: the one that the page before it names. */
  function CursorFor(pages: seq<Page>, n: nat): Cursor
    requires n <= |pages|
  {
    if n == 0 then NoCursor else pages[n - 1].next
  }

  function CommentsOf(pages: seq<Page>): seq<Comment> {
    if pages == [] then [] else CommentsOf(pages[..|pages| - 1]) + Last(pages).comments
  }

  /** Pages answered to one request after another, each of which names a further page by a fresh token. */
  ghost predicate Followed(source: Source, limits: Limits, pages: seq<Page>) {
    |pages| <= limits.maxPages && |CommentsOf(pages)| <= limits.maxComments
    && (forall i :: 0 <= i < |pages| ==> source(i, CursorFor(pages, i)) == Got(pages[i]))
    && (forall i :: 0 <= i < |pages| ==> !pages[i].completed && pages[i].next.Token? && pages[i].next.text != "")
    && forall i, j :: 0 <= i < j < |pages| ==> pages[i].next != pages[j].next
  }

  /** A whole listing: pages that lead on to each other, and one that says it is the last. */
  ghost predicate Listing(source: Source, limits: Limits, pages: seq<Page>) {
    pages != [] && |pages| <= limits.maxPages && |CommentsOf(pages)| <= limits.maxComments
    && Followed(source, limits, pages[..|pages| - 1])
    && source(|pages| - 1, CursorFor(pages, |pages| - 1)) == Got(Last(pages))
    && Last(pages).completed && Last(pages).next == NoCursor
  }

  ghost predicate Listed(source: Source, limits: Limits) {
    exists pages :: Listing(source, limits, pages)
  }

  /** The cursors that were used up to here. */
  ghost function CursorsOf(pages: seq<Page>): set<Cursor> {
    {NoCursor} + set i | 0 <= i < |pages| :: pages[i].next
  }

  lemma CommentsGrow(pages: seq<Page>, page: Page)
    ensures CommentsOf(pages + [page]) == CommentsOf(pages) + page.comments
  {
    assert (pages + [page])[..|pages|] == pages;
  }

  /** What a further page has to be. */
  ghost predicate LeadsOn(source: Source, limits: Limits, pages: seq<Page>, page: Page) {
    |pages| < limits.maxPages && |CommentsOf(pages)| + |page.comments| <= limits.maxComments
    && source(|pages|, CursorFor(pages, |pages|)) == Got(page)
    && !page.completed && page.next.Token? && page.next.text != "" && page.next !in CursorsOf(pages)
  }

  lemma FollowedStep(source: Source, limits: Limits, pages: seq<Page>, page: Page)
    ensures Followed(source, limits, pages + [page]) <==>
              Followed(source, limits, pages) && LeadsOn(source, limits, pages, page)
    ensures page.next !in CursorsOf(pages) ==> CursorsOf(pages + [page]) == CursorsOf(pages) + {page.next}
  {
    hide CommentsOf;
    var more := pages + [page];
    CommentsGrow(pages, page);
    assert |CommentsOf(more)| == |CommentsOf(pages)| + |page.comments|;
    assert forall i :: 0 <= i < |pages| ==> more[i] == pages[i];
    assert forall i :: 0 <= i <= |pages| ==> CursorFor(more, i) == CursorFor(pages, i);
    assert more[|pages|] == page;
  }

  /** Reading goes on from wherever a chain of pages has led. */
  lemma {:induction false} ReadsAlong(source: Source, limits: Limits, pages: seq<Page>)
    requires Followed(source, limits, pages)
    ensures ReadAll(source, limits)
         == Read(source, limits, CursorFor(pages, |pages|), CursorsOf(pages), |pages|, CommentsOf(pages))
    decreases |pages|
  {
    hide Followed, CommentsOf;
    if pages == [] {
      NoPagesYet();
    } else {
      var before, page := pages[..|pages| - 1], Last(pages);
      assert pages == before + [page];
      FollowedStep(source, limits, before, page);
      ReadsAlong(source, limits, before);
      CommentsGrow(before, page);
      FollowedFacts(source, limits, pages);
    }
  }

  lemma NoPagesYet()
    ensures CommentsOf([]) == [] && CursorsOf([]) == {NoCursor}
  {}

  lemma FollowedFacts(source: Source, limits: Limits, pages: seq<Page>)
    requires Followed(source, limits, pages)
    ensures |pages| <= limits.maxPages && |CommentsOf(pages)| <= limits.maxComments
    ensures pages != [] ==> !Last(pages).completed && Last(pages).next.Token? && Last(pages).next.text != ""
  {}

  /** A whole listing is read to its end, and the scan reports the verdict on its comments in order. */
  lemma ListingIsRead(source: Source, limits: Limits, pages: seq<Page>)
    requires Listing(source, limits, pages)
    ensures ReadAll(source, limits) == Complete(|pages|, CommentsOf(pages))
  {
    hide Followed, CommentsOf;
    var before := pages[..|pages| - 1];
    assert pages == before + [Last(pages)];
    ReadsAlong(source, limits, before);
    CommentsGrow(before, Last(pages));
  }

  /** The scan fails closed and reports no comment. */
  predicate ClosedWith(r: Scan, reason: Reason, pages: nat, comments: nat) {
    r.status == FailedClosed && r.reason == reason && r.pages == pages && r.comments == comments
    && r.actor.None? && r.existingId.None? && r.duplicates == []
  }

  /** A request that is not answered by a page closes the scan, with its own reason. */
  lemma NoAnswerCloses(source: Source, t: Trust, e: Expected, limits: Limits, pages: seq<Page>)
    requires Followed(source, limits, pages)
    ensures var r, n, count := ScanOf(t, e, ReadAll(source, limits)), |pages|, |CommentsOf(pages)|;
      if n == limits.maxPages then ClosedWith(r, PageCapExceeded, n, count)
      else match source(n, CursorFor(pages, n))
        case Failed(BadPage) => ClosedWith(r, MalformedPage, n, count)
        case Failed(why) => ClosedWith(r, Transport(why), n, count)
        case Raised => ClosedWith(r, Transport(UnknownFailure), n, count)
        case NotAPage => ClosedWith(r, MalformedPage, n, count)
        case Got(_) => true
  {
    ReadsAlong(source, limits, pages);
    hide Followed, CommentsOf, ReadAll, CursorsOf, Filter;
    FollowedFacts(source, limits, pages);
  }

  /** So does the first page that does not belong to a listing. */
  lemma BadPageCloses(source: Source, t: Trust, e: Expected, limits: Limits, pages: seq<Page>, page: Page)
    requires Followed(source, limits, pages) && |pages| < limits.maxPages
    requires source(|pages|, CursorFor(pages, |pages|)) == Got(page)
    ensures var r, n, count := ScanOf(t, e, ReadAll(source, limits)), |pages|, |CommentsOf(pages)|;
      var total := count + |page.comments|;
      if page.completed && page.next != NoCursor then ClosedWith(r, MalformedPage, n + 1, count)
      else if !page.completed && page.next == NoCursor then ClosedWith(r, PaginationIncomplete, n + 1, count)
      else if page.next.Opaque? || page.next == Token("") then ClosedWith(r, MalformedPage, n + 1, count)
      else if total > limits.maxComments then ClosedWith(r, CommentCapExceeded, n + 1, total)
      else !page.completed && (exists i :: 0 <= i < n && pages[i].next == page.next) ==>
        ClosedWith(r, RepeatedCursor, n + 1, total)
  {
    hide Followed, CommentsOf, ReadAll, Filter, Read, CursorsOf, PageProblem;
    ReadsAlong(source, limits, pages);
    FollowedFacts(source, limits, pages);
    StopsAtPage(source, limits, CursorFor(pages, |pages|), CursorsOf(pages), |pages|, CommentsOf(pages), page);
    RepeatedIsUsed(pages, page.next);
  }

  lemma RepeatedIsUsed(pages: seq<Page>, cursor: Cursor)
    ensures (exists i :: 0 <= i < |pages| && pages[i].next == cursor) ==> cursor in CursorsOf(pages)
  {}

  lemma StopsAtPage(source: Source, limits: Limits, cursor: Cursor, used: set<Cursor>, n: nat, seen: seq<Comment>,
                    page: Page)
    requires n < limits.maxPages && source(n, cursor) == Got(page)
    ensures var reading := Read(source, limits, cursor, used, n, seen);
      var all := seen + page.comments;
      if page.completed && page.next != NoCursor then reading == Stopped(MalformedPage, n + 1, |seen|, seen)
      else if !page.completed && page.next == NoCursor then
        reading == Stopped(PaginationIncomplete, n + 1, |seen|, seen)
      else if page.next.Opaque? || page.next == Token("") then reading == Stopped(MalformedPage, n + 1, |seen|, seen)
      else if |all| > limits.maxComments then reading == Stopped(CommentCapExceeded, n + 1, |all|, seen)
      else !page.completed && page.next in used ==> reading == Stopped(RepeatedCursor, n + 1, |all|, all)
  {}

  /** Every scan follows a chain: to the end of a whole listing, or to where it breaks. */
  lemma {:induction false} FollowsFrom(source: Source, limits: Limits, pages: seq<Page>)
    returns (all: seq<Page>)
    requires Followed(source, limits, pages)
    ensures var reading := ReadAll(source, limits);
      if reading.Complete? then Listing(source, limits, all) else Followed(source, limits, all)
    decreases limits.maxPages - |pages|
  {
    hide Followed, CommentsOf, CursorsOf;
    ReadsAlong(source, limits, pages);
    FollowedFacts(source, limits, pages);
    all := pages;
    if |pages| < limits.maxPages && source(|pages|, CursorFor(pages, |pages|)).Got? {
      var page := source(|pages|, CursorFor(pages, |pages|)).page;
      var n := |CommentsOf(pages)| + |page.comments|;
      if PageProblem(page).None? && n <= limits.maxComments {
        if page.completed {
          all := pages + [page];
          CommentsGrow(pages, page);
          assert all[..|all| - 1] == pages && CursorFor(all, |pages|) == CursorFor(pages, |pages|);
        } else if page.next !in CursorsOf(pages) {
          FollowedStep(source, limits, pages, page);
          all := FollowsFrom(source, limits, pages + [page]);
        }
      }
    }
  }

  /** A scan that does not fail closed has read a whole listing, and reports the verdict on its comments. */
  lemma OpenScanReadListing(source: Source, t: Trust, e: Expected, limits: Limits) returns (pages: seq<Page>)
    requires ScanOf(t, e, ReadAll(source, limits)).status != FailedClosed
    ensures Listing(source, limits, pages)
    ensures ScanOf(t, e, ReadAll(source, limits)) == Verdict(t, e, CommentsOf(pages), |pages|)
  {
    hide Listing, Verdict;
    StartsFollowed(source, limits);
    pages := FollowsFrom(source, limits, []);
    ListingIsRead(source, limits, pages);
  }

  lemma StartsFollowed(source: Source, limits: Limits)
    ensures Followed(source, limits, [])
  {}

  /** A scan reads to the end exactly when there is a whole listing to read. */
  lemma CompleteIffListed(source: Source, limits: Limits)
    ensures ReadAll(source, limits).Complete? <==> Listed(source, limits)
  {
    hide Listing, Followed, ReadAll;
    StartsFollowed(source, limits);
    var pages := FollowsFrom(source, limits, []);
    if Listed(source, limits) {
      var all :| Listing(source, limits, all);
      ListingIsRead(source, limits, all);
    }
  }

  /** A scan reports the verdict on every whole listing, and fails closed when there is none. */
  ghost predicate TellsOfListings(source: Source, t: Trust, e: Expected, limits: Limits, r: Scan) {
    (forall pages :: Listing(source, limits, pages) ==> r == Verdict(t, e, CommentsOf(pages), |pages|))
    && (r.status != FailedClosed ==> Listed(source, limits))
  }

  lemma ScanFollowsListings(source: Source, t: Trust, e: Expected, limits: Limits)
    ensures TellsOfListings(source, t, e, limits, ScanOf(t, e, ReadAll(source, limits)))
  {
    hide Listing, Verdict, CommentsOf, ReadAll;
    forall pages | Listing(source, limits, pages)
      ensures ScanOf(t, e, ReadAll(source, limits)) == Verdict(t, e, CommentsOf(pages), |pages|)
    {
      ListingIsRead(source, limits, pages);
    }
    CompleteIffListed(source, limits);
  }

  /** The scan as written: one pass that keeps the first match, the later matches and the first
      blocking comment while it follows cursors. */
  method ReconcilePaginated(source: Source, t: Trust, e: Expected, limits: Limits) returns (r: Scan)
    ensures r == ScanOf(t, e, ReadAll(source, limits))
    ensures TellsOfListings(source, t, e, limits, r)
  {
    hide Tracks, Filter, Listing, CommentsOf, TellsOfListings, Verdict, Listed;
    ScanFollowsListings(source, t, e, limits);
    var cursor, used := NoCursor, {NoCursor};
    var pageCount: nat, commentCount: nat, markerCount: nat := 0, 0, 0;
    var trustedMatch: Option<Comment>, duplicates: seq<string>, deferred: Option<Reason> := None, [], None;
    ghost var seen: seq<Comment> := [];
    TracksNothing(t, e);
    while true
      invariant pageCount <= limits.maxPages
      invariant Read(source, limits, cursor, used, pageCount, seen) == ReadAll(source, limits)
      invariant commentCount == |seen|
      invariant Tracks(t, e, seen, trustedMatch, duplicates, deferred, markerCount)
      decreases limits.maxPages - pageCount
    {
      TracksCount(t, e, seen, trustedMatch, duplicates, deferred, markerCount);
      if pageCount >= limits.maxPages {
        return Failure(PageCapExceeded, pageCount, commentCount, markerCount);
      }
      var answer := source(pageCount, cursor);
      match answer {
        case Failed(why) => return Failure(Code(why), pageCount, commentCount, markerCount);
        case Raised => return Failure(Transport(UnknownFailure), pageCount, commentCount, markerCount);
        case NotAPage => return Failure(MalformedPage, pageCount, commentCount, markerCount);
        case Got(page) =>
          pageCount := pageCount + 1;
          if PageProblem(page).Some? {
            return Failure(PageProblem(page).value, pageCount, commentCount, markerCount);
          }
          commentCount := commentCount + |page.comments|;
          if commentCount > limits.maxComments {
            return Failure(CommentCapExceeded, pageCount, commentCount, markerCount);
          }
          trustedMatch, duplicates, deferred, markerCount :=
            ScanPage(t, e, page.comments, trustedMatch, duplicates, deferred, markerCount, seen);
          seen := seen + page.comments;
          TracksCount(t, e, seen, trustedMatch, duplicates, deferred, markerCount);
          if page.completed {
            break;
          }
          if page.next in used {
            return Failure(RepeatedCursor, pageCount, commentCount, markerCount);
          }
          used, cursor := used + {page.next}, page.next;
      }
    }
    TracksVerdict(t, e, seen, trustedMatch, duplicates, deferred, markerCount, pageCount);
    if deferred.Some? {
      return Failure(deferred.value, pageCount, commentCount, markerCount);
    }
    if trustedMatch.Some? {
      return Scan(ReconciledExisting, MatchedExisting, Some(trustedMatch.value.login), Some(trustedMatch.value.id),
                  duplicates, pageCount, commentCount, markerCount);
    }
    return Scan(SafeToPost, Safe, None, None, [], pageCount, commentCount, markerCount);
  }

  /** The inner loop over the comments of one page. */
  method ScanPage(t: Trust, e: Expected, comments: seq<Comment>, match0: Option<Comment>, duplicates0: seq<string>,
                  deferred0: Option<Reason>, markers0: nat, ghost before: seq<Comment>)
    returns (trustedMatch: Option<Comment>, duplicates: seq<string>, deferred: Option<Reason>, markers: nat)
    requires Tracks(t, e, before, match0, duplicates0, deferred0, markers0)
    ensures Tracks(t, e, before + comments, trustedMatch, duplicates, deferred, markers)
  {
    hide Trusted, Look, CountsAsMarker, Filter, Tracks;
    trustedMatch, duplicates, deferred, markers := match0, duplicates0, deferred0, markers0;
    assert before + comments[..0] == before;
    for i := 0 to |comments|
      invariant Tracks(t, e, before + comments[..i], trustedMatch, duplicates, deferred, markers)
    {
      var c := comments[i];
      assert before + comments[..i + 1] == before + comments[..i] + [c];
      ghost var was := (trustedMatch, duplicates, deferred, markers);
      if CountsAsMarker(c) {
        markers := markers + 1;
      }
      if Trusted(t, c) {
        var sighting := Look(e, c);
        if sighting == Malformed && deferred.None? {
          deferred := Some(TrustedMalformed);
        } else if sighting == Conflict && deferred.None? {
          deferred := Some(TrustedConflict);
        } else if sighting == Match {
          if trustedMatch.None? {
            trustedMatch := Some(c);
          } else {
            duplicates := duplicates + [c.id];
          }
        }
      }
      TrackStep(t, e, before + comments[..i], c, was.0, was.1, was.2, was.3, trustedMatch, duplicates, deferred,
          markers);
    }
    assert comments[..|comments|] == comments;
  }

  function Failure(reason: Reason, pages: nat, comments: nat, markers: nat): Scan {
    Scan(FailedClosed, reason, None, None, [], pages, comments, markers)
  }

  ghost predicate Tracks(t: Trust, e: Expected, cs: seq<Comment>, trustedMatch: Option<Comment>,
                         duplicates: seq<string>, deferred: Option<Reason>, markers: nat)
  {
    var blocking := Filter(Blocking(t, e), cs);
    var matches := Filter(Matching(t, e), cs);
    markers == |Filter(CountsAsMarker, cs)|
    && deferred == (if blocking == [] then None
                    else Some(if Look(e, blocking[0]) == Malformed then TrustedMalformed else TrustedConflict))
    && trustedMatch == (if matches == [] then None else Some(matches[0]))
    && duplicates == (if matches == [] then [] else Ids(matches[1..]))
  }

  lemma TracksNothing(t: Trust, e: Expected)
    ensures Tracks(t, e, [], None, [], None, 0)
  {}

  lemma TracksVerdict(t: Trust, e: Expected, cs: seq<Comment>, trustedMatch: Option<Comment>, duplicates: seq<string>,
                      deferred: Option<Reason>, markers: nat, pages: nat)
    requires Tracks(t, e, cs, trustedMatch, duplicates, deferred, markers)
    ensures markers == |Filter(CountsAsMarker, cs)|
    ensures Verdict(t, e, cs, pages) ==
      if deferred.Some? then Failure(deferred.value, pages, |cs|, markers)
      else if trustedMatch.Some? then
        Scan(ReconciledExisting, MatchedExisting, Some(trustedMatch.value.login), Some(trustedMatch.value.id),
             duplicates, pages, |cs|, markers)
      else Scan(SafeToPost, Safe, None, None, [], pages, |cs|, markers)
  {
    hide Look, CountsAsMarker;
  }

  lemma TracksCount(t: Trust, e: Expected, cs: seq<Comment>, trustedMatch: Option<Comment>, duplicates: seq<string>,
                    deferred: Option<Reason>, markers: nat)
    requires Tracks(t, e, cs, trustedMatch, duplicates, deferred, markers)
    ensures markers == |Filter(CountsAsMarker, cs)|
  {
    hide Look, CountsAsMarker;
  }

  lemma {:induction false} TrackStep(t: Trust, e: Expected, cs: seq<Comment>, c: Comment,
      match0: Option<Comment>, duplicates0: seq<string>, deferred0: Option<Reason>, markers0: nat,
      match1: Option<Comment>, duplicates1: seq<string>, deferred1: Option<Reason>, markers1: nat)
    requires Tracks(t, e, cs, match0, duplicates0, deferred0, markers0)
    requires markers1 == markers0 + (if CountsAsMarker(c) then 1 else 0)
    requires deferred1 == if !Blocking(t, e)(c) || deferred0.Some? then deferred0
                          else Some(if Look(e, c) == Malformed then TrustedMalformed else TrustedConflict)
    requires match1 == if Matching(t, e)(c) && match0.None? then Some(c) else match0
    requires duplicates1 == if Matching(t, e)(c) && match0.Some? then duplicates0 + [c.id] else duplicates0
    ensures Tracks(t, e, cs + [c], match1, duplicates1, deferred1, markers1)
  {
    hide Trusted, Look, CountsAsMarker;
    TrackOne(t, e, cs, c);
    assert [c][1..] == [];
  }

  lemma {:induction false} TrackOne(t: Trust, e: Expected, cs: seq<Comment>, c: Comment)
    ensures Filter(Blocking(t, e), cs + [c]) == Filter(Blocking(t, e), cs) + (if Blocking(t, e)(c) then [c] else [])
    ensures Filter(Matching(t, e), cs + [c]) == Filter(Matching(t, e), cs) + (if Matching(t, e)(c) then [c] else [])
    ensures Filter(CountsAsMarker, cs + [c]) == Filter(CountsAsMarker, cs) + (if CountsAsMarker(c) then [c] else [])
    ensures var m := Filter(Matching(t, e), cs); m != [] ==> Ids((m + [c])[1..]) == Ids(m[1..]) + [c.id]
  {
    hide Trusted, Look, CountsAsMarker;
    FilterConcat(Blocking(t, e), cs, [c]);
    FilterConcat(Matching(t, e), cs, [c]);
    FilterConcat(CountsAsMarker, cs, [c]);
    assert [c][1..] == [];
    var m := Filter(Matching(t, e), cs);
    if m != [] {
      assert (m + [c])[1..] == m[1..] + [c];
    }
  }

  // ----- however the comments are paged -----

  function Concat<T>(chunks: seq<seq<T>>): seq<T> {
    if chunks == [] then [] else chunks[0] + Concat(chunks[1..])
  }

  lemma {:induction false} ConcatTake<T>(chunks: seq<seq<T>>, i: nat)
    requires i < |chunks|
    ensures Concat(chunks[..i + 1]) == Concat(chunks[..i]) + chunks[i]
    ensures |Concat(chunks[..i + 1])| <= |Concat(chunks)|
  {
    if i == 0 {
      assert chunks[..1] == [chunks[0]];
      assert chunks[..1][1..] == [];
    } else {
      ConcatTake(chunks[1..], i - 1);
      assert chunks[1..][..i - 1] == chunks[..i][1..];
      assert chunks[1..][..i] == chunks[..i + 1][1..];
    }
  }

  /** Page i of the given chunks; the cursor after it is tokens[i]. */
  function ChunkPage(chunks: seq<seq<Comment>>, tokens: seq<string>, i: nat): Fetch {
    if i >= |chunks| then NotAPage
    else Got(Page(chunks[i], if i < |tokens| then Token(tokens[i]) else NoCursor, i >= |tokens|))
  }

  function TokenIndex(tokens: seq<string>, text: string): nat {
    if tokens == [] || tokens[0] == text then 0 else 1 + TokenIndex(tokens[1..], text)
  }

  function Serve(chunks: seq<seq<Comment>>, tokens: seq<string>): Source {
    (n: nat, cursor: Cursor) =>
      match cursor
      case NoCursor => ChunkPage(chunks, tokens, 0)
      case Token(text) => ChunkPage(chunks, tokens, TokenIndex(tokens, text) + 1)
      case Opaque(_) => NotAPage
  }

  ghost predicate Splits(chunks: seq<seq<Comment>>, tokens: seq<string>) {
    |chunks| == |tokens| + 1
    && (forall i :: 0 <= i < |tokens| ==> tokens[i] != "")
    && forall i, j :: 0 <= i < j < |tokens| ==> tokens[i] != tokens[j]
  }

  lemma {:induction false} TokenFound(tokens: seq<string>, i: nat)
    requires i < |tokens| && forall j, k :: 0 <= j < k < |tokens| ==> tokens[j] != tokens[k]
    ensures TokenIndex(tokens, tokens[i]) == i
  {
    if i > 0 {
      assert tokens[1..][i - 1] == tokens[i];
      TokenFound(tokens[1..], i - 1);
    }
  }

  ghost function UsedUpTo(tokens: seq<string>, i: nat): set<Cursor>
    requires i <= |tokens|
  {
    {NoCursor} + (set j | 0 <= j < i :: Token(tokens[j]))
  }

  lemma {:induction false} ReadServed(chunks: seq<seq<Comment>>, tokens: seq<string>, limits: Limits, i: nat)
    requires Splits(chunks, tokens) && i < |chunks|
    requires |Concat(chunks[..i])| <= limits.maxComments
    ensures var cursor := if i == 0 then NoCursor else Token(tokens[i - 1]);
      var r := Read(Serve(chunks, tokens), limits, cursor, UsedUpTo(tokens, i), i, Concat(chunks[..i]));
      if |chunks| <= limits.maxPages && |Concat(chunks)| <= limits.maxComments
      then r == Complete(|chunks|, Concat(chunks))
      else r.Stopped? && r.reason in [PageCapExceeded, CommentCapExceeded]
    decreases |chunks| - i
  {
    ConcatTake(chunks, i);
    var cursor := if i == 0 then NoCursor else Token(tokens[i - 1]);
    if i > 0 {
      TokenFound(tokens, i - 1);
    }
    assert Serve(chunks, tokens)(i, cursor) == ChunkPage(chunks, tokens, i);
    if i < limits.maxPages && |Concat(chunks[..i + 1])| <= limits.maxComments {
      if i < |tokens| {
        assert Token(tokens[i]) !in UsedUpTo(tokens, i);
        assert UsedUpTo(tokens, i + 1) == UsedUpTo(tokens, i) + {Token(tokens[i])};
        ReadServed(chunks, tokens, limits, i + 1);
      } else {
        assert chunks[..i + 1] == chunks;
      }
    }
  }

  /** Every splitting of the comments into pages with distinct cursors is read completely exactly
      when it keeps within both caps, and then the scan reports the verdict on the flat list. */
  lemma {:induction false} PageSplitIndependence(t: Trust, e: Expected, limits: Limits,
                                                 chunks: seq<seq<Comment>>, tokens: seq<string>)
    requires Splits(chunks, tokens)
    ensures var r := ScanOf(t, e, ReadAll(Serve(chunks, tokens), limits));
      if |chunks| <= limits.maxPages && |Concat(chunks)| <= limits.maxComments
      then r == Verdict(t, e, Concat(chunks), |chunks|)
      else r.status == FailedClosed && r.reason in [PageCapExceeded, CommentCapExceeded]
  {
    assert chunks[..0] == [];
    assert UsedUpTo(tokens, 0) == {NoCursor};
    ReadServed(chunks, tokens, limits, 0);
  }

  // ----- the flat scan of already trusted comments -----

  datatype FlatStatus = Matched | NoMatch | DeferredConflict | DeferredMalformed

  datatype FlatScan = FlatScan(status: FlatStatus, id: Option<string>)

  function Seen(e: Expected, s: Sighting): Comment -> bool {
    (c: Comment) => Look(e, c) == s
  }

  function FlatVerdict(e: Expected, cs: seq<Comment>): FlatScan {
    var malformed := Filter(Seen(e, Malformed), cs);
    var conflicts := Filter(Seen(e, Conflict), cs);
    var matches := Filter(Seen(e, Match), cs);
    if malformed != [] then FlatScan(DeferredMalformed, Some(Last(malformed).id))
    else if conflicts != [] then FlatScan(DeferredConflict, Some(Last(conflicts).id))
    else if matches != [] then FlatScan(Matched, Some(Last(matches).id))
    else FlatScan(NoMatch, None)
  }

  /** The loop as written keeps the last comment of each kind. */
  method ReconcileExisting(comments: seq<Comment>, e: Expected) returns (r: FlatScan)
    ensures r == FlatVerdict(e, comments)
  {
    hide Look;
    var matched: Option<Comment>, conflict: Option<Comment>, malformed: Option<Comment> := None, None, None;
    for i := 0 to |comments|
      invariant matched == LastSeen(e, Match, comments[..i])
      invariant conflict == LastSeen(e, Conflict, comments[..i])
      invariant malformed == LastSeen(e, Malformed, comments[..i])
    {
      var c := comments[i];
      assert comments[..i + 1] == comments[..i] + [c];
      LastSeenStep(e, Match, comments[..i], c);
      LastSeenStep(e, Conflict, comments[..i], c);
      LastSeenStep(e, Malformed, comments[..i], c);
      match Look(e, c) {
        case Malformed => malformed := Some(c);
        case Match => matched := Some(c);
        case Conflict => conflict := Some(c);
        case _ =>
      }
    }
    assert comments[..|comments|] == comments;
    if malformed.Some? {
      return FlatScan(DeferredMalformed, Some(malformed.value.id));
    }
    if conflict.Some? {
      return FlatScan(DeferredConflict, Some(conflict.value.id));
    }
    if matched.Some? {
      return FlatScan(Matched, Some(matched.value.id));
    }
    return FlatScan(NoMatch, None);
  }

  function LastSeen(e: Expected, s: Sighting, cs: seq<Comment>): Option<Comment> {
    var seen := Filter(Seen(e, s), cs);
    if seen == [] then None else Some(Last(seen))
  }

  lemma LastSeenStep(e: Expected, s: Sighting, cs: seq<Comment>, c: Comment)
    ensures LastSeen(e, s, cs + [c]) == if Look(e, c) == s then Some(c) else LastSeen(e, s, cs)
  {
    hide Look;
    FilterConcat(Seen(e, s), cs, [c]);
  }

  lemma FilterSame<T>(p: T -> bool, q: T -> bool, xs: seq<T>)
    requires forall i :: 0 <= i < |xs| ==> p(xs[i]) == q(xs[i])
    ensures Filter(p, xs) == Filter(q, xs)
  {}

  function TrustedBy(t: Trust): Comment -> bool {
    (c: Comment) => Trusted(t, c)
  }

  /** The two scans agree: on the trusted comments alone the flat scan defers exactly when the
      paginated one fails closed, and finds a match exactly when it reconciles. They name the same
      comment only when there is a single match: one keeps the first hit, the other the last. */
  lemma {:induction false} ScansAgree(t: Trust, e: Expected, cs: seq<Comment>, pages: nat)
    ensures var flat := FlatVerdict(e, Filter(TrustedBy(t), cs));
      var paged := Verdict(t, e, cs, pages);
      (paged.status == FailedClosed <==> flat.status in [DeferredMalformed, DeferredConflict])
      && (paged.status == ReconciledExisting <==> flat.status == Matched)
      && (paged.status == SafeToPost <==> flat.status == NoMatch)
      && (paged.status == ReconciledExisting ==>
           flat.id == Some(Last([paged.existingId.value] + paged.duplicates)))
  {
    hide Trusted, Look, CountsAsMarker;
    BlockedIffDeferred(t, e, cs);
    var trusted := Filter(TrustedBy(t), cs);
    FilterTwice(Seen(e, Match), TrustedBy(t), cs);
    FilterSame(Matching(t, e), Both(TrustedBy(t), Seen(e, Match)), cs);
    var matches := Filter(Matching(t, e), cs);
    if matches != [] {
      LastId(matches);
    }
  }

  lemma LastId(cs: seq<Comment>)
    requires cs != []
    ensures Last([cs[0].id] + Ids(cs[1..])) == Last(cs).id
  {}

  lemma {:induction false} BlockedIffDeferred(t: Trust, e: Expected, cs: seq<Comment>)
    ensures var trusted := Filter(TrustedBy(t), cs);
      Filter(Blocking(t, e), cs) != []
      <==> Filter(Seen(e, Malformed), trusted) != [] || Filter(Seen(e, Conflict), trusted) != []
  {
    hide Trusted, Look;
    var trusted := Filter(TrustedBy(t), cs);
    var blocking := Filter(Blocking(t, e), cs);
    if blocking != [] {
      var c := blocking[0];
      FilterMember(Blocking(t, e), cs, c);
      FilterMember(TrustedBy(t), cs, c);
      FilterMember(Seen(e, Look(e, c)), trusted, c);
    }
    var malformed, conflicts := Filter(Seen(e, Malformed), trusted), Filter(Seen(e, Conflict), trusted);
    if malformed != [] {
      FilterMember(Seen(e, Malformed), trusted, malformed[0]);
      FilterMember(TrustedBy(t), cs, malformed[0]);
      FilterMember(Blocking(t, e), cs, malformed[0]);
    }
    if conflicts != [] {
      FilterMember(Seen(e, Conflict), trusted, conflicts[0]);
      FilterMember(TrustedBy(t), cs, conflicts[0]);
      FilterMember(Blocking(t, e), cs, conflicts[0]);
    }
  }
}
