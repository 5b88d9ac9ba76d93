/** Cursor pagination: the loader that turns a page list into a page map, and the collector that
    follows cursors until the last page. */
module Pages {
  import opened Text

  // ----- pages as they come from outside -----

  datatype TextField = NoText | NullText | BadText | Text(value: string)

  datatype BoolField = NoBool | BadBool | Bool(value: bool)

  datatype ItemsField<T> = NoItems | BadItems | Items(items: seq<T>)

  datatype ErrorField = NoError | NullError | BadError | Error(reason: TextField, message: TextField, otherKeys: bool)

  /** A page: not an object, or an object whose fields may each be absent (`No...`) or malformed (`Bad...`),
      and that may have keys nobody expects. */
  datatype Page<T> =
    | NotAnObject
    | Page(error: ErrorField, items: ItemsField<T>, hasNext: BoolField, next: TextField, otherKeys: bool)

  type Cursor = Option<string>

  predicate IsNull(t: TextField) { t.NoText? || t.NullText? }

  // ----- the loader -----

  predicate ValidErrorPage<T>(p: Page<T>) {
    && p.Page? && p.error.Error? && !p.error.otherKeys && !p.otherKeys
    && p.items.NoItems? && p.hasNext.NoBool? && p.next.NoText?
    && (IsNull(p.error.reason) || (p.error.reason.Text? && p.error.reason.value != ""))
    && (IsNull(p.error.message) || p.error.message.Text?)
  }

  predicate ValidItemsPage<T>(p: Page<T>) {
    && p.Page? && p.error.NoError? && !p.otherKeys && p.items.Items? && p.hasNext.Bool?
    && (if p.hasNext.value then p.next.Text? && p.next.value != "" else p.next.NoText?)
  }

  predicate Continues<T>(p: Page<T>) {
    ValidItemsPage(p) && p.hasNext.value
  }

  predicate Ends<T>(p: Page<T>) {
    ValidErrorPage(p) || (ValidItemsPage(p) && !p.hasNext.value)
  }

  /** The cursor that page `i` is reached by. */
  function CursorAt<T>(pages: seq<Page<T>>, i: nat): Cursor
    requires i <= |pages|
  {
    if i == 0 || pages[i - 1].NotAnObject? || !pages[i - 1].next.Text? then None else Some(pages[i - 1].next.value)
  }

  predicate FreshCursors<T>(pages: seq<Page<T>>, n: nat)
    requires n <= |pages|
  {
    forall i, j :: 0 <= i < j < n ==> CursorAt(pages, i) != CursorAt(pages, j)
  }

  /** All pages but the last continue, the last one ends, and no cursor is used twice. */
  predicate Accepted<T>(pages: seq<Page<T>>) {
    && pages != [] && Ends(Last(pages)) && FreshCursors(pages, |pages|)
    && forall i :: 0 <= i < |pages| - 1 ==> Continues(pages[i])
  }

  ghost predicate IsPageMap<T>(m: map<Cursor, Page<T>>, pages: seq<Page<T>>, n: nat)
    requires n <= |pages|
  {
    && (forall i :: 0 <= i < n ==> CursorAt(pages, i) in m && m[CursorAt(pages, i)] == pages[i])
    && (forall c :: c in m ==> exists i :: 0 <= i < n && c == CursorAt(pages, i))
  }

  lemma MapHasPage<T>(m: map<Cursor, Page<T>>, pages: seq<Page<T>>, n: nat, i: nat)
    requires n <= |pages| && IsPageMap(m, pages, n) && i < n
    ensures CursorAt(pages, i) in m && m[CursorAt(pages, i)] == pages[i]
  {}

  lemma MapExtends<T>(m: map<Cursor, Page<T>>, pages: seq<Page<T>>, i: nat)
    requires i < |pages| && IsPageMap(m, pages, i) && FreshCursors(pages, i)
    ensures CursorAt(pages, i) !in m ==>
              IsPageMap(m[CursorAt(pages, i) := pages[i]], pages, i + 1) && FreshCursors(pages, i + 1)
    ensures CursorAt(pages, i) in m ==> !FreshCursors(pages, |pages|)
  {
    hide CursorAt;
    if CursorAt(pages, i) !in m {
      forall k | 0 <= k < i ensures CursorAt(pages, k) != CursorAt(pages, i) {
        MapHasPage(m, pages, i, k);
      }
      var longer := m[CursorAt(pages, i) := pages[i]];
      forall c | c in longer ensures exists k :: 0 <= k < i + 1 && c == CursorAt(pages, k) {
        if c in m {
          var k :| 0 <= k < i && c == CursorAt(pages, k);
        }
      }
    }
  }

  lemma NotAccepted<T>(pages: seq<Page<T>>, i: nat)
    requires i < |pages|
    ensures i + 1 < |pages| && !Continues(pages[i]) ==> !Accepted(pages)
    ensures !Continues(pages[i]) && !Ends(pages[i]) ==> !Accepted(pages)
  {
    hide Continues, Ends, FreshCursors;
    assert Last(pages) == pages[|pages| - 1];
  }

  method LoadPageMap<T>(pages: seq<Page<T>>) returns (loaded: Option<map<Cursor, Page<T>>>)
    ensures loaded.Some? <==> Accepted(pages)
    ensures loaded.Some? ==> IsPageMap(loaded.value, pages, |pages|) && |loaded.value| == |pages|
  {
    hide ValidErrorPage, ValidItemsPage, FreshCursors, IsPageMap;
    if pages == [] {
      return None;
    }
    var pageMap: map<Cursor, Page<T>> := map[];
    var cursor: Cursor := None;
    NoPages(pages);
    for i := 0 to |pages|
      invariant forall k :: 0 <= k < i ==> Continues(pages[k])
      invariant cursor == CursorAt(pages, i)
      invariant FreshCursors(pages, i) && IsPageMap(pageMap, pages, i) && |pageMap| == i
    {
      var page := pages[i];
      ErrorPagesHaveErrors(page);
      NotAccepted(pages, i);
      MapExtends(pageMap, pages, i);
      if page.NotAnObject? {
        return None;
      }
      if cursor in pageMap {
        return None;
      }
      pageMap := pageMap[cursor := page];
      if !page.error.NoError? {
        if !ValidErrorPage(page) || i + 1 != |pages| {
          return None;
        }
        return Some(pageMap);
      }
      if !ValidItemsPage(page) {
        return None;
      }
      ItemsPagesHaveNext(page);
      if !page.hasNext.value {
        if i + 1 != |pages| {
          return None;
        }
        return Some(pageMap);
      }
      cursor := Some(page.next.value);
    }
    EndingDoesNotContinue(Last(pages));
    return None;
  }

  lemma NoPages<T>(pages: seq<Page<T>>)
    ensures FreshCursors(pages, 0) && IsPageMap(map[], pages, 0) && CursorAt(pages, 0) == None
  {}

  lemma ErrorPagesHaveErrors<T>(p: Page<T>)
    ensures p.NotAnObject? ==> !ValidErrorPage(p) && !ValidItemsPage(p)
    ensures p.Page? && !p.error.NoError? ==> !ValidItemsPage(p)
    ensures p.Page? && p.error.NoError? ==> !ValidErrorPage(p)
  {}

  lemma ItemsPagesHaveNext<T>(p: Page<T>)
    requires ValidItemsPage(p)
    ensures p.Page? && p.hasNext.Bool? && (p.hasNext.value ==> p.next.Text?)
  {}

  lemma EndingDoesNotContinue<T>(p: Page<T>)
    ensures !(Ends(p) && Continues(p))
  {}

  // ----- the collector -----

  const INCOMPLETE := "pagination_incomplete"

  /** What one payload means to the collector, before it looks at the cursors it has seen. */
  datatype Step<T> = Done(items: seq<T>) | More(items: seq<T>, next: string) | Broken(reason: string)

  function Judge<T>(p: Page<T>): Step<T> {
    if p.NotAnObject? || p.error.BadError? then Broken(INCOMPLETE)
    else if p.error.Error? then
      if !IsNull(p.error.reason) && (p.error.reason.BadText? || p.error.reason.value == "") then Broken(INCOMPLETE)
      else if p.error.message.BadText? then Broken(INCOMPLETE)
      else Broken(if p.error.reason.Text? then p.error.reason.value else "unavailable")
    else if !p.items.Items? || !p.hasNext.Bool? then Broken(INCOMPLETE)
    else if !p.hasNext.value then Done(p.items.items)
    else if !p.next.Text? then Broken(INCOMPLETE)
    else More(p.items.items, p.next.value)
  }

  datatype Outcome<T> = Complete(items: seq<T>) | Failed(page: nat, reason: string)

  function Prepend<T>(items: seq<T>, o: Outcome<T>): Outcome<T> {
    if o.Complete? then Complete(items + o.items) else o
  }

  /** The outcome of following cursors from one on, and the fetches made. */
  ghost function Walk<T>(pages: map<Cursor, Page<T>>, cursor: Cursor, seen: set<Cursor>, number: nat)
    : (r: (Outcome<T>, seq<Cursor>))
    ensures r.1 != [] && r.1[0] == cursor
    decreases |pages.Keys - seen|, cursor in pages
  {
    if cursor !in pages then (Failed(number, "timeout"), [cursor])
    else match Judge(pages[cursor])
      case Broken(reason) => (Failed(number, reason), [cursor])
      case Done(items) => (Complete(items), [cursor])
      case More(items, next) =>
        if Some(next) in seen then (Failed(number, INCOMPLETE), [cursor])
        else
          SeenShrinks(pages.Keys, seen, Some(next));
          var rest := Walk(pages, Some(next), seen + {Some(next)}, number + 1);
          (Prepend(items, rest.0), [cursor] + rest.1)
  }

  lemma SeenShrinks(keys: set<Cursor>, seen: set<Cursor>, next: Cursor)
    requires next !in seen
    ensures next in keys ==> |keys - (seen + {next})| < |keys - seen|
    ensures next !in keys ==> keys - (seen + {next}) == keys - seen
  {
    if next in keys {
      assert keys - seen == (keys - (seen + {next})) + {next};
    }
  }

  /** A paginated source that keeps a log of the cursors it was asked for. */
  class PaginatedTransport<T(==)> {
    const pages: map<Cursor, Page<T>>
    var calls: seq<Cursor>

    constructor (pages: map<Cursor, Page<T>>)
      ensures this.pages == pages && calls == []
    {
      this.pages := pages;
      calls := [];
    }

    /** Raises for a cursor it does not know; the call is logged all the same. */
    method GetPage(cursor: Cursor) returns (page: Option<Page<T>>)
      modifies this`calls
      ensures calls == old(calls) + [cursor]
      ensures page == if cursor in pages then Some(pages[cursor]) else None
    {
      calls := calls + [cursor];
      page := if cursor in pages then Some(pages[cursor]) else None;
    }

    /** Follows the cursors. The loop ends for every source, since no cursor is followed twice. */
    method CollectPages() returns (outcome: Outcome<T>)
      modifies this`calls
      ensures outcome == Walk(pages, None, {}, 1).0
      ensures calls == old(calls) + Walk(pages, None, {}, 1).1
    {
      hide Walk, Judge;
      var cursor: Cursor := None;
      var pageNumber := 1;
      var items: seq<T> := [];
      var seen: set<Cursor> := {};
      while true
        invariant Walk(pages, None, {}, 1).0 == Prepend(items, Walk(pages, cursor, seen, pageNumber).0)
        invariant old(calls) + Walk(pages, None, {}, 1).1 == calls + Walk(pages, cursor, seen, pageNumber).1
        decreases |pages.Keys - seen|, cursor in pages
      {
        WalkStep(pages, cursor, seen, pageNumber);
        var payload := GetPage(cursor);
        if payload == None {
          return Failed(pageNumber, "timeout");
        }
        var step := Judge(payload.value);
        if step.Broken? {
          return Failed(pageNumber, step.reason);
        }
        items := items + step.items;
        if step.Done? {
          return Complete(items);
        }
        if Some(step.next) in seen {
          return Failed(pageNumber, INCOMPLETE);
        }
        SeenShrinks(pages.Keys, seen, Some(step.next));
        seen := seen + {Some(step.next)};
        cursor := Some(step.next);
        pageNumber := pageNumber + 1;
      }
    }
  }

  lemma WalkStep<T>(pages: map<Cursor, Page<T>>, cursor: Cursor, seen: set<Cursor>, number: nat)
    ensures
      Walk(pages, cursor, seen, number) ==
        if cursor !in pages then (Failed(number, "timeout"), [cursor])
        else match Judge(pages[cursor])
          case Broken(reason) => (Failed(number, reason), [cursor])
          case Done(items) => (Complete(items), [cursor])
          case More(items, next) =>
            if Some(next) in seen then (Failed(number, INCOMPLETE), [cursor])
            else
              var rest := Walk(pages, Some(next), seen + {Some(next)}, number + 1);
              (Prepend(items, rest.0), [cursor] + rest.1)
  {
    hide Judge;
  }

  /** Whatever the source serves, no cursor is fetched twice, and at most one unknown one is tried. */
  lemma {:induction false} NeverFetchesTwice<T>(pages: map<Cursor, Page<T>>, cursor: Cursor, seen: set<Cursor>,
          number: nat)
    requires cursor == None || cursor in seen
    ensures var calls := Walk(pages, cursor, seen, number).1;
            && Distinct(calls)
            && (forall i :: 0 < i < |calls| ==> calls[i].Some? && calls[i] !in seen)
            && (forall i :: 0 <= i < |calls| - 1 ==> calls[i] in pages)
    decreases |pages.Keys - seen|, cursor in pages
  {
    hide Judge;
    if cursor in pages && Judge(pages[cursor]).More? && Some(Judge(pages[cursor]).next) !in seen {
      var next := Some(Judge(pages[cursor]).next);
      SeenShrinks(pages.Keys, seen, next);
      NeverFetchesTwice(pages, next, seen + {next}, number + 1);
      var calls, rest := Walk(pages, cursor, seen, number).1, Walk(pages, next, seen + {next}, number + 1).1;
      assert calls == [cursor] + rest;
    }
  }

  // ----- loader and collector together -----

  function AllItems<T>(pages: seq<Page<T>>): seq<T> {
    if pages == [] then []
    else (if pages[0].Page? && pages[0].items.Items? then pages[0].items.items else []) + AllItems(pages[1..])
  }

  function Cursors<T>(pages: seq<Page<T>>, i: nat): seq<Cursor>
    requires i <= |pages|
    decreases |pages| - i
  {
    if i == |pages| then [] else [CursorAt(pages, i)] + Cursors(pages, i + 1)
  }

  /** The reason that an accepted error page gives. */
  function ReasonOf<T>(p: Page<T>): string
    requires ValidErrorPage(p)
  {
    if p.error.reason.Text? then p.error.reason.value else "unavailable"
  }

  /** What the collector should find: everything in order, or the error of the last page. */
  function Expected<T>(pages: seq<Page<T>>, i: nat): Outcome<T>
    requires Accepted(pages) && i <= |pages|
  {
    if ValidErrorPage(Last(pages)) then Failed(|pages|, ReasonOf(Last(pages))) else Complete(AllItems(pages[i..]))
  }

  lemma {:induction false} WalksAcceptedPages<T>(pages: seq<Page<T>>, m: map<Cursor, Page<T>>, seen: set<Cursor>,
          i: nat)
    requires Accepted(pages) && IsPageMap(m, pages, |pages|) && i < |pages|
    requires forall c :: c in seen ==> exists j :: 0 < j <= i && c == CursorAt(pages, j)
    ensures Walk(m, CursorAt(pages, i), seen, i + 1) == (Expected(pages, i), Cursors(pages, i))
    decreases |pages| - i
  {
    hide ValidErrorPage, ValidItemsPage, Judge, IsNull, Walk, IsPageMap, Continues, Ends;
    var cursor, page := CursorAt(pages, i), pages[i];
    MapHasPage(m, pages, |pages|, i);
    assert pages[i..][0] == page && pages[i..][1..] == pages[i + 1..];
    WalkStep(m, cursor, seen, i + 1);
    if i == |pages| - 1 {
      assert page == Last(pages) && pages[i + 1..] == [];
      JudgesEnd(page);
      Unit([cursor]);
      if !ValidErrorPage(page) {
        assert AllItems(pages[i..]) == page.items.items + AllItems(pages[i + 1..]);
        Unit(page.items.items);
      }
    } else {
      JudgesContinue(page);
      var next := CursorAt(pages, i + 1);
      assert next !in seen;
      WalksAcceptedPages(pages, m, seen + {next}, i + 1);
    }
  }

  lemma JudgesContinue<T>(p: Page<T>)
    requires Continues(p)
    ensures p.Page? && p.items.Items? && p.next.Text? && Judge(p) == More(p.items.items, p.next.value)
  {}

  lemma JudgesEnd<T>(p: Page<T>)
    requires Ends(p)
    ensures ValidErrorPage(p) ==> Judge(p) == Broken(ReasonOf(p))
    ensures !ValidErrorPage(p) ==> p.Page? && p.items.Items? && Judge(p) == Done(p.items.items)
  {}

  /** Every page list that loads is collected in exactly that many fetches, each with a new cursor:
      all items in order, or the failure of the last page if and only if that is an error. */
  lemma LoaderAndCollectorAgree<T>(pages: seq<Page<T>>, m: map<Cursor, Page<T>>)
    requires Accepted(pages) && IsPageMap(m, pages, |pages|)
    ensures Walk(m, None, {}, 1).0 ==
              if ValidErrorPage(Last(pages)) then Failed(|pages|, ReasonOf(Last(pages)))
                  else Complete(AllItems(pages))
    ensures Walk(m, None, {}, 1).1 == Cursors(pages, 0)
    ensures |Cursors(pages, 0)| == |pages| && Distinct(Cursors(pages, 0))
  {
    hide Walk, ValidErrorPage, ValidItemsPage, IsPageMap;
    WalksAcceptedPages(pages, m, {}, 0);
    NeverFetchesTwice(m, None, {}, 1);
    CursorsCount(pages, 0);
    assert pages[0..] == pages;
  }

  lemma {:induction false} CursorsCount<T>(pages: seq<Page<T>>, i: nat)
    requires i <= |pages|
    ensures |Cursors(pages, i)| == |pages| - i
    decreases |pages| - i
  {
    if i < |pages| {
      CursorsCount(pages, i + 1);
    }
  }
}
