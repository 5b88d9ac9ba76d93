/** Pagination from outside: which page lists load, and what the collector makes of any source, along the chain of
    pages that it follows. */
module PageChains {
  import opened Text
  import opened Pages

  // ----- the lists that load -----

  /** The last page: items, or an error with what it says. */
  datatype Final<T> = Rest(items: seq<T>) | Broke(reason: TextField, message: TextField)

  /** A listing: the items of the pages that go on, the cursors that they name, and the last page. */
  datatype Script<T> = Script(chunks: seq<seq<T>>, tokens: seq<string>, last: Final<T>)

  /** Cursors are not empty and different; an error may leave out its reason or its message, or have null there. */
  predicate Proper<T>(s: Script<T>) {
    && |s.chunks| == |s.tokens| && (forall i :: 0 <= i < |s.tokens| ==> s.tokens[i] != "") && Distinct(s.tokens)
    && (s.last.Broke? ==> !s.last.reason.BadText? && s.last.reason != Text("") && !s.last.message.BadText?)
  }

  /** The page as it is written, with no key that does not belong there. */
  function PageOf<T>(s: Script<T>, i: nat): Page<T>
    requires i <= |s.chunks| == |s.tokens|
  {
    if i < |s.chunks| then Page(NoError, Items(s.chunks[i]), Bool(true), Text(s.tokens[i]), false)
    else match s.last
      case Rest(items) => Page(NoError, Items(items), Bool(false), NoText, false)
      case Broke(reason, message) => Page(Error(reason, message, false), NoItems, NoBool, NoText, false)
  }

  ghost predicate Writes<T>(s: Script<T>, pages: seq<Page<T>>) {
    |s.chunks| == |s.tokens| && |pages| == |s.chunks| + 1
    && forall i :: 0 <= i < |pages| ==> pages[i] == PageOf(s, i)
  }

  /** The script of pages that load. */
  function ScriptOf<T>(pages: seq<Page<T>>): Script<T>
    requires Accepted(pages)
  {
    var n, last := |pages| - 1, Last(pages);
    Script(seq(n, i requires 0 <= i < n => pages[i].items.items),
           seq(n, i requires 0 <= i < n => pages[i].next.value),
           if last.error.Error? then Broke(last.error.reason, last.error.message) else Rest(last.items.items))
  }

  lemma ScriptWrites<T>(pages: seq<Page<T>>)
    requires Accepted(pages)
    ensures Proper(ScriptOf(pages)) && Writes(ScriptOf(pages), pages)
  {
    var s := ScriptOf(pages);
    forall i, j | 0 <= i < j < |s.tokens| ensures s.tokens[i] != s.tokens[j] {
      assert CursorAt(pages, i + 1) == Some(s.tokens[i]) && CursorAt(pages, j + 1) == Some(s.tokens[j]);
    }
    assert Ends(pages[|pages| - 1]);
  }

  lemma WrittenLoads<T>(s: Script<T>, pages: seq<Page<T>>)
    requires Proper(s) && Writes(s, pages)
    ensures Accepted(pages)
  {
    forall i | 0 <= i < |pages| - 1 ensures Continues(pages[i]) {
      assert pages[i] == PageOf(s, i);
    }
    assert Last(pages) == PageOf(s, |s.chunks|);
    forall i | 0 < i < |pages| ensures CursorAt(pages, i) == Some(s.tokens[i - 1]) {
      assert pages[i - 1] == PageOf(s, i - 1);
    }
  }

  /** A page list loads exactly when it writes out a proper listing. */
  lemma LoadsIff<T>(pages: seq<Page<T>>)
    ensures Accepted(pages) <==> exists s: Script<T> :: Proper(s) && Writes(s, pages)
  {
    hide Accepted, Proper, Writes;
    if Accepted(pages) {
      ScriptWrites(pages);
    }
    if s: Script<T> :| Proper(s) && Writes(s, pages) {
      WrittenLoads(s, pages);
    }
  }

  // ----- the chain that the collector follows -----

  /** A page of items. */
  predicate Lists<T(==)>(p: Page<T>, items: seq<T>, more: bool) {
    p.Page? && (p.error.NoError? || p.error.NullError?) && p.items == Items(items) && p.hasNext == Bool(more)
  }

  /** The pages reached one after another, with their items; the last cursor is not followed yet. */
  ghost predicate Chain<T>(m: map<Cursor, Page<T>>, cursors: seq<Cursor>, chunks: seq<seq<T>>) {
    && |cursors| == |chunks| + 1 && cursors[0] == None && Distinct(cursors)
    && forall i :: 0 <= i < |chunks| ==> Leads(m, cursors[i], chunks[i], cursors[i + 1])
  }

  /** The page at the cursor has these items and names the next cursor. */
  predicate Leads<T(==)>(m: map<Cursor, Page<T>>, cursor: Cursor, items: seq<T>, next: Cursor) {
    cursor in m && Lists(m[cursor], items, true) && next.Some? && m[cursor].next == Text(next.value)
  }

  function Flat<T>(chunks: seq<seq<T>>): seq<T> {
    if chunks == [] then [] else Flat(chunks[..|chunks| - 1]) + Last(chunks)
  }

  /** The cursors that the collector remembers. */
  ghost function Followed(cursors: seq<Cursor>): set<Cursor> {
    set i | 0 < i < |cursors| :: cursors[i]
  }

  lemma ChainShortens<T>(m: map<Cursor, Page<T>>, cursors: seq<Cursor>, chunks: seq<seq<T>>)
    requires Chain(m, cursors, chunks) && chunks != []
    ensures var before := cursors[..|cursors| - 1];
      && Chain(m, before, chunks[..|chunks| - 1]) && Last(before) in m
      && Judge(m[Last(before)]) == More(Last(chunks), Last(cursors).value) && Last(cursors).Some?
      && Last(cursors) !in Followed(before) && Followed(cursors) == Followed(before) + {Last(cursors)}
  {
    var before, shorter := cursors[..|cursors| - 1], chunks[..|chunks| - 1];
    assert forall i :: 0 <= i < |before| ==> before[i] == cursors[i];
    assert forall i :: 0 <= i < |shorter| ==> shorter[i] == chunks[i];
    assert Last(before) == cursors[|shorter|] && Last(chunks) == chunks[|shorter|];
    assert Last(cursors) == cursors[|shorter| + 1];
  }

  /** The collector goes on from wherever the chain has led. */
  lemma {:induction false} WalksAlong<T>(m: map<Cursor, Page<T>>, cursors: seq<Cursor>, chunks: seq<seq<T>>)
    requires Chain(m, cursors, chunks)
    ensures var rest := Walk(m, Last(cursors), Followed(cursors), |cursors|);
      Walk(m, None, {}, 1) == (Prepend(Flat(chunks), rest.0), cursors[..|cursors| - 1] + rest.1)
    decreases |chunks|
  {
    hide Chain, Walk, Judge;
    StartsAtNone(m, cursors, chunks);
    var rest := Walk(m, Last(cursors), Followed(cursors), |cursors|);
    if chunks == [] {
      assert cursors[..0] == [];
      Unit(rest.1);
      UnitOutcome(rest.0);
    } else {
      var before, shorter := cursors[..|cursors| - 1], chunks[..|chunks| - 1];
      ChainShortens(m, cursors, chunks);
      WalksAlong(m, before, shorter);
      WalkStep(m, Last(before), Followed(before), |before|);
      assert before == before[..|before| - 1] + [Last(before)];
      Assoc(before[..|before| - 1], [Last(before)], rest.1);
      PrependTwice(Flat(shorter), Last(chunks), rest.0);
    }
  }

  lemma StartsAtNone<T>(m: map<Cursor, Page<T>>, cursors: seq<Cursor>, chunks: seq<seq<T>>)
    requires Chain(m, cursors, chunks)
    ensures |cursors| == |chunks| + 1 && cursors[0] == None
    ensures chunks == [] ==> Last(cursors) == None && Followed(cursors) == {} && |cursors| == 1
  {}

  lemma UnitOutcome<T>(o: Outcome<T>)
    ensures Prepend([], o) == o
  {}

  lemma PrependTwice<T>(a: seq<T>, b: seq<T>, o: Outcome<T>)
    ensures Prepend(a, Prepend(b, o)) == Prepend(a + b, o)
  {
    if o.Complete? {
      Assoc(a, b, o.items);
    }
  }

  /** What an error page says: its reason, or that the source is unavailable; nothing when it is malformed. */
  function Told(reason: TextField, message: TextField): string {
    if reason.BadText? || reason == Text("") || message.BadText? then "pagination_incomplete"
    else if reason.Text? then reason.value else "unavailable"
  }

  /** What the collector makes of the page at the end of a chain: it fails on an unknown cursor, with the error of an
      error page, and on anything malformed or repeated; it completes on a last page, with the items of all pages in
      order. The cursors of the chain are what it fetched. */
  lemma ChainEnds<T>(m: map<Cursor, Page<T>>, cursors: seq<Cursor>, chunks: seq<seq<T>>)
    requires Chain(m, cursors, chunks)
    ensures var (outcome, calls) := Walk(m, None, {}, 1);
      var n, cursor := |cursors|, Last(cursors);
      if cursor !in m then outcome == Failed(n, "timeout") && calls == cursors
      else match m[cursor]
        case NotAnObject => outcome == Failed(n, "pagination_incomplete") && calls == cursors
        case Page(Error(reason, message, _), _, _, _, _) =>
          outcome == Failed(n, Told(reason, message)) && calls == cursors
        case Page(BadError, _, _, _, _) => outcome == Failed(n, "pagination_incomplete") && calls == cursors
        case Page(_, items, hasNext, next, _) =>
          if items.Items? && hasNext == Bool(false) then
            outcome == Complete(Flat(chunks) + items.items) && calls == cursors
          else
            !items.Items? || !hasNext.Bool? || !next.Text? || Some(next.value) in cursors ==>
              outcome == Failed(n, "pagination_incomplete") && calls == cursors
  {
    hide Chain, Walk;
    StartsAtNone(m, cursors, chunks);
    WalksAlong(m, cursors, chunks);
    WalkStep(m, Last(cursors), Followed(cursors), |cursors|);
    assert cursors == cursors[..|cursors| - 1] + [Last(cursors)];
    assert forall c :: c in cursors && c != None ==> c in Followed(cursors);
  }

  /** Whatever is collected was listed: a chain of pages, and a last page after it. */
  lemma {:induction false} CompletedWasListed<T>(m: map<Cursor, Page<T>>, cursors: seq<Cursor>, chunks: seq<seq<T>>)
    returns (all: seq<Cursor>, lists: seq<seq<T>>)
    requires Chain(m, cursors, chunks) && Walk(m, None, {}, 1).0.Complete?
    ensures Chain(m, all, lists) && Last(all) in m && m[Last(all)].Page? && m[Last(all)].items.Items?
    ensures Lists(m[Last(all)], m[Last(all)].items.items, false)
    ensures Walk(m, None, {}, 1) == (Complete(Flat(lists) + m[Last(all)].items.items), all)
    decreases |m.Keys - Followed(cursors)|, Last(cursors) in m
  {
    hide Chain, Walk, Followed;
    StartsAtNone(m, cursors, chunks);
    ChainEnds(m, cursors, chunks);
    var page := m[Last(cursors)];
    if page.hasNext == Bool(false) {
      all, lists := cursors, chunks;
    } else {
      var next := Some(page.next.value);
      ChainGrows(m, cursors, chunks);
      SeenShrinks(m.Keys, Followed(cursors), next);
      all, lists := CompletedWasListed(m, cursors + [next], chunks + [page.items.items]);
    }
  }

  lemma ChainGrows<T>(m: map<Cursor, Page<T>>, cursors: seq<Cursor>, chunks: seq<seq<T>>)
    requires Chain(m, cursors, chunks) && Last(cursors) in m && m[Last(cursors)].Page?
    requires var p := m[Last(cursors)];
      p.items.Items? && p.next.Text? && Lists(p, p.items.items, true) && Some(p.next.value) !in cursors
    ensures var p := m[Last(cursors)];
      && Chain(m, cursors + [Some(p.next.value)], chunks + [p.items.items])
      && Some(p.next.value) !in Followed(cursors)
      && Followed(cursors + [Some(p.next.value)]) == Followed(cursors) + {Some(p.next.value)}
  {
    var p := m[Last(cursors)];
    var next := Some(p.next.value);
    var longer, more := cursors + [next], chunks + [p.items.items];
    assert forall i :: 0 <= i < |cursors| ==> longer[i] == cursors[i];
    assert longer[|cursors|] == next && more[|chunks|] == p.items.items;
    assert forall i :: 0 <= i < |chunks| ==> more[i] == chunks[i];
  }
}
