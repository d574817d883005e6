/**
 Server-side pagination (frontend relay-workflows-lib useServerSidePagination.ts, with the cursors of
 graph-proxy graphql/workflows.rs) over a list that does not change.
 */
module Pagination {
  import opened Wrappers

  // ---------------------------------------------------------------- the server

  /** A cursor is the number of workflows before the page; None is the missing cursor. */
  type Cursor = Option<nat>

  datatype PageInfo = PageInfo(hasNextPage: bool, endCursor: Cursor)

  function Offset(cursor: Cursor): nat {
    if cursor.Some? then cursor.value else 0
  }

  /** The workflows of one response. */
  function Shown<T>(items: seq<T>, cursor: Cursor, limit: nat): seq<T> {
    var start := Offset(cursor);
    if start >= |items| then [] else if start + limit < |items| then items[start..start + limit] else items[start..]
  }

  /** The page info of one response: edge cursors count on from the cursor asked for. */
  function InfoOf<T>(items: seq<T>, cursor: Cursor, limit: nat): PageInfo {
    var shown := |Shown(items, cursor, limit)|;
    PageInfo(Offset(cursor) + limit < |items|, if shown == 0 then None else Some(Offset(cursor) + shown))
  }

  // ---------------------------------------------------------------- the hook

  type History = map<nat, Cursor>

  datatype View = View(cursor: Cursor, history: History, currentPage: nat, totalPages: nat, limit: nat)

  /** The cursor known for a page; null and undefined both count as none. */
  function Known(history: History, page: nat): Cursor {
    if page in history then history[page] else None
  }

  function Updated(v: View, info: PageInfo): View {
    var count := |v.history|;
    v.(totalPages := if info.hasNextPage && Known(v.history, v.currentPage + 1).None? then count + 1 else count,
       history := if info.hasNextPage && info.endCursor.Some? && info.endCursor !in v.history.Values
                  then v.history[v.currentPage + 1 := info.endCursor] else v.history)
  }

  function Went(v: View, page: nat, info: PageInfo): View {
    var target := Known(v.history, page);
    if target.None? && page == v.currentPage + 1 && info.hasNextPage && info.endCursor.Some?
    then v.(cursor := info.endCursor, currentPage := page)
    else v.(cursor := target, currentPage := page)
  }

  function Limited(v: View, limit: nat): View {
    v.(limit := limit, history := map[1 := None], currentPage := 1, cursor := None)
  }

  function Initial(limit: nat): View {
    View(None, map[1 := None], 1, 1, limit)
  }

  /** useServerSidePagination. */
  class Pager {
    var cursor: Cursor
    var cursorHistory: History
    var currentPage: nat
    var totalPages: nat
    var selectedLimit: nat

    function State(): View
      reads this
    {
      View(cursor, cursorHistory, currentPage, totalPages, selectedLimit)
    }

    constructor (initialLimit: nat)
      ensures State() == Initial(initialLimit)
      ensures cursor == None && cursorHistory == map[1 := None] && currentPage == totalPages == 1
    {
      cursor, cursorHistory, currentPage, totalPages, selectedLimit := None, map[1 := None], 1, 1, initialLimit;
    }

    method UpdatePageInfo(hasNextPage: bool, endCursor: Cursor)
      modifies this`totalPages, this`cursorHistory
      ensures State() == Updated(old(State()), PageInfo(hasNextPage, endCursor))
      ensures totalPages == |old(cursorHistory)|
                            + if hasNextPage && Known(old(cursorHistory), currentPage + 1).None? then 1 else 0
    {
      var currentPageCount := |cursorHistory|;
      if hasNextPage && Known(cursorHistory, currentPage + 1).None? {
        totalPages := currentPageCount + 1;
      } else {
        totalPages := currentPageCount;
      }
      if hasNextPage && endCursor.Some? && endCursor !in cursorHistory.Values {
        cursorHistory := cursorHistory[currentPage + 1 := endCursor];
      }
    }

    method GoToPage(page: nat, endCursor: Cursor, hasNextPage: bool)
      modifies this`cursor, this`currentPage
      ensures State() == Went(old(State()), page, PageInfo(hasNextPage, endCursor))
      ensures currentPage == page
      ensures cursor == if page in cursorHistory && cursorHistory[page].Some? then cursorHistory[page]
                        else if page == old(currentPage) + 1 && hasNextPage then endCursor
                        else None
    {
      var targetCursor := Known(cursorHistory, page);
      if targetCursor.None? && page == currentPage + 1 && hasNextPage && endCursor.Some? {
        cursor := endCursor;
        currentPage := page;
      } else {
        cursor := targetCursor;
        currentPage := page;
      }
    }

    method ChangeLimit(limit: nat)
      modifies this`selectedLimit, this`cursorHistory, this`currentPage, this`cursor
      ensures State() == Limited(old(State()), limit)
      ensures selectedLimit == limit && cursor == None && cursorHistory == map[1 := None] && currentPage == 1
    {
      selectedLimit := limit;
      cursorHistory := map[1 := None];
      currentPage := 1;
      cursor := None;
    }
  }

  // ---------------------------------------------------------------- the screen

  /** The hook, and the page info that was loaded last. */
  datatype Screen = Screen(view: View, info: PageInfo)

  /** The response to the present query arrives; the effect that updates the page info runs again, perhaps with an
      answer to an earlier query; a page is chosen; a limit is chosen. */
  datatype Event = Respond | Rerun | Click(page: nat) | Limit(limit: nat)

  function Step<T>(s: Screen, e: Event, items: seq<T>): Screen {
    match e
    case Respond =>
      var info := InfoOf(items, s.view.cursor, s.view.limit);
      Screen(Updated(s.view, info), info)
    case Rerun => s.(view := Updated(s.view, s.info))
    case Click(page) => s.(view := Went(s.view, page, s.info))
    case Limit(limit) => s.(view := Limited(s.view, limit))
  }

  function After<T>(s: Screen, events: seq<Event>, items: seq<T>): Screen {
    if events == [] then s else Step(After(s, events[..|events| - 1], items), events[|events| - 1], items)
  }

  /** Before the first response there is no page info. */
  function Start(limit: nat): Screen {
    Screen(Initial(limit), PageInfo(false, None))
  }

  /** The hook drives the screen: any sequence of events, handled by its methods. */
  method Drive<T>(limit: nat, events: seq<Event>, items: seq<T>) returns (pager: Pager, info: PageInfo)
    ensures Screen(pager.State(), info) == After(Start(limit), events, items)
  {
    pager := new Pager(limit);
    info := PageInfo(false, None);
    for i := 0 to |events|
      invariant fresh(pager)
      invariant Screen(pager.State(), info) == After(Start(limit), events[..i], items)
    {
      assert events[..i + 1][..i] == events[..i];
      match events[i] {
        case Respond =>
          info := InfoOf(items, pager.cursor, pager.selectedLimit);
          pager.UpdatePageInfo(info.hasNextPage, info.endCursor);
        case Rerun =>
          pager.UpdatePageInfo(info.hasNextPage, info.endCursor);
        case Click(page) =>
          pager.GoToPage(page, info.endCursor, info.hasNextPage);
        case Limit(limit) =>
          pager.ChangeLimit(limit);
      }
    }
    assert events[..|events|] == events;
  }

  // ---------------------------------------------------------------- good states

  /** Where a page begins. */
  function CursorOf(page: nat, limit: nat): Cursor
    requires page >= 1
  {
    if page == 1 then None else Some((page - 1) * limit)
  }

  /** The known pages are 1..n, each with the cursor of its first workflow; the current page is one of them. */
  ghost predicate Good(v: View, total: nat) {
    && v.limit >= 1
    && 1 <= v.currentPage <= |v.history|
    && (forall page :: page in v.history <==> 1 <= page <= |v.history|)
    && (forall page :: page in v.history ==> v.history[page] == CursorOf(page, v.limit))
    && v.cursor == CursorOf(v.currentPage, v.limit)
    && (|v.history| == 1 || (|v.history| - 1) * v.limit < total)
  }

  /** Page info as a server gives it: a next page comes with a cursor inside the list. */
  predicate IsServed(info: PageInfo, total: nat) {
    info.hasNextPage ==> info.endCursor.Some? && 0 < info.endCursor.value < total
  }

  ghost predicate GoodScreen(s: Screen, total: nat) {
    Good(s.view, total) && IsServed(s.info, total)
  }

  /** Updating with this page info would record no wrong cursor: there is no next page, its cursor is known already,
      or it is the cursor of the page after the current one. */
  predicate IsHarmless(v: View, info: PageInfo) {
    info.hasNextPage ==> info.endCursor in v.history.Values || info.endCursor == Some(v.currentPage * v.limit)
  }

  predicate IsAllowed(s: Screen, e: Event) {
    match e
    case Respond => true
    case Rerun => IsHarmless(s.view, s.info)
    case Click(page) => page in s.view.history
    case Limit(limit) => limit >= 1
  }

  lemma {:induction false} MultiplesDiffer(a: nat, b: nat, limit: nat)
    requires limit >= 1
    ensures a * limit == b * limit <==> a == b
    ensures a < b ==> a * limit < b * limit
  {
    if a < b {
      assert b * limit - a * limit == (b - a) * limit >= 1;
    } else if b < a {
      assert a * limit - b * limit == (a - b) * limit >= 1;
    }
  }

  /** A cursor is known exactly if it begins a known page. */
  lemma {:induction false} KnownCursors(v: View, total: nat, page: nat)
    requires Good(v, total) && page >= 1
    ensures CursorOf(page, v.limit) in v.history.Values <==> page in v.history
  {
    if page in v.history { assert v.history[page] in v.history.Values; }
    if CursorOf(page, v.limit) in v.history.Values {
      var other :| other in v.history && v.history[other] == CursorOf(page, v.limit);
      MultiplesDiffer(page - 1, other - 1, v.limit);
    }
  }

  lemma {:induction false} Recording(v: View, total: nat)
    requires Good(v, total) && v.currentPage == |v.history| && v.currentPage * v.limit < total
    ensures Good(v.(history := v.history[v.currentPage + 1 := Some(v.currentPage * v.limit)]), total)
  {
    var n := |v.history|;
    var history := v.history[n + 1 := Some(n * v.limit)];
    assert history.Keys == v.history.Keys + {n + 1};
    assert |history.Keys| == n + 1;
    assert |history| == |history.Keys|;
  }

  lemma {:induction false} KeepsTotals(v: View, total: nat, totalPages: nat)
    ensures Good(v.(totalPages := totalPages), total) == Good(v, total)
  {
  }

  /** Updating keeps the known pages right exactly if the page info is harmless. */
  lemma {:induction false} UpdatingExactly(v: View, info: PageInfo, total: nat)
    requires Good(v, total) && IsServed(info, total)
    ensures Good(Updated(v, info), total) <==> IsHarmless(v, info)
  {
    var after := Updated(v, info);
    var c := v.currentPage;
    KeepsTotals(v.(history := after.history), total, after.totalPages);
    if info.hasNextPage && info.endCursor !in v.history.Values {
      assert after.history == v.history[c + 1 := info.endCursor];
      if info.endCursor == Some(c * v.limit) {
        KnownCursors(v, total, c + 1);
        Recording(v, total);
      } else {
        WrongRecording(v, info.endCursor, after.totalPages, total);
      }
    } else {
      assert after.history == v.history;
    }
  }

  lemma WrongRecording(v: View, endCursor: Cursor, totalPages: nat, total: nat)
    requires endCursor != CursorOf(v.currentPage + 1, v.limit)
    ensures !Good(v.(history := v.history[v.currentPage + 1 := endCursor], totalPages := totalPages), total)
  {
    assert v.currentPage + 1 in v.history[v.currentPage + 1 := endCursor];
  }

  /** What the server answers to a good state. */
  lemma {:induction false} AnswerToGood<T>(v: View, items: seq<T>)
    requires Good(v, |items|)
    ensures var info := InfoOf(items, v.cursor, v.limit);
            && IsServed(info, |items|) && IsHarmless(v, info)
            && (info.hasNextPage <==> v.currentPage * v.limit < |items|)
            && (info.hasNextPage ==> info.endCursor == Some(v.currentPage * v.limit))
  {
    var start, end := (v.currentPage - 1) * v.limit, v.currentPage * v.limit;
    PageEnds(v.currentPage, v.limit);
    assert Offset(v.cursor) == start;
    AnswerAt(items, v.cursor, start, v.limit);
    assert v.currentPage > 1 ==> start < |items| by { PageInside(v, |items|); }
  }

  /** The end of a page is its start and the limit. */
  lemma {:induction false} PageEnds(page: nat, limit: nat)
    requires page >= 1
    ensures page * limit == (page - 1) * limit + limit
    ensures page == 1 ==> (page - 1) * limit == 0
  {
  }

  lemma {:induction false} PageInside(v: View, total: nat)
    requires Good(v, total)
    ensures v.currentPage > 1 ==> (v.currentPage - 1) * v.limit < total
  {
    if v.currentPage < |v.history| { MultiplesDiffer(v.currentPage - 1, |v.history| - 1, v.limit); }
  }

  lemma {:induction false} AnswerAt<T>(items: seq<T>, cursor: Cursor, start: nat, limit: nat)
    requires limit >= 1 && Offset(cursor) == start
    ensures var info := InfoOf(items, cursor, limit);
            && (info.hasNextPage <==> start + limit < |items|)
            && (info.hasNextPage ==> info.endCursor == Some(start + limit))
  {
  }

  /** One event keeps the known pages and the current cursor right exactly if it is allowed. */
  lemma {:induction false} StepExactly<T>(s: Screen, e: Event, items: seq<T>)
    requires GoodScreen(s, |items|)
    ensures GoodScreen(Step(s, e, items), |items|) <==> IsAllowed(s, e)
  {
    match e
    case Respond =>
      AnswerToGood(s.view, items);
      UpdatingExactly(s.view, InfoOf(items, s.view.cursor, s.view.limit), |items|);
    case Rerun => UpdatingExactly(s.view, s.info, |items|);
    case Click(page) =>
    case Limit(limit) => assert Limited(s.view, limit).history.Keys == {1};
  }
}
