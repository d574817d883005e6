/** Runs of server-side pagination: what they show, and what goes wrong when page info is out of date. */
module PaginationRuns {
  import opened Pagination
  import opened Wrappers

  // ---------------------------------------------------------------- allowed runs

  ghost predicate AllAllowed<T>(s: Screen, events: seq<Event>, items: seq<T>) {
    forall k :: 0 <= k < |events| ==> IsAllowed(After(s, events[..k], items), events[k])
  }

  /** On every run of allowed events the known pages are 1..n with the right cursors, and the current page is one of
      them. */
  lemma {:induction false} AllowedRunsStayGood<T>(limit: nat, events: seq<Event>, items: seq<T>)
    requires limit >= 1 && AllAllowed(Start(limit), events, items)
    ensures GoodScreen(After(Start(limit), events, items), |items|)
  {
    if events == [] {
      assert Initial(limit).history.Keys == {1};
    } else {
      var front, k := events[..|events| - 1], |events| - 1;
      forall j | 0 <= j < |front|
        ensures IsAllowed(After(Start(limit), front[..j], items), front[j])
      {
        assert front[..j] == events[..j];
      }
      AllowedRunsStayGood(limit, front, items);
      assert IsAllowed(After(Start(limit), events[..k], items), events[k]);
      StepExactly(After(Start(limit), front, items), events[k], items);
    }
  }

  // ---------------------------------------------------------------- what is shown

  /** The workflows from number a up to number b, as far as there are any. */
  function Slice<T>(items: seq<T>, a: nat, b: nat): seq<T> {
    if a >= |items| || b <= a then [] else if b < |items| then items[a..b] else items[a..]
  }

  /** In a good state the response shows exactly the slice of the current page. */
  lemma {:induction false} ShownIsThePage<T>(v: View, items: seq<T>)
    requires Good(v, |items|)
    ensures Shown(items, v.cursor, v.limit) == Slice(items, (v.currentPage - 1) * v.limit, v.currentPage * v.limit)
  {
    PageEnds(v.currentPage, v.limit);
    GoodOffset(v, |items|);
    ShownIsSlice(items, v.cursor, v.limit);
  }

  lemma GoodOffset(v: View, total: nat)
    requires Good(v, total)
    ensures Offset(v.cursor) == (v.currentPage - 1) * v.limit && v.limit >= 1
  {
    PageEnds(v.currentPage, v.limit);
  }

  lemma ShownIsSlice<T>(items: seq<T>, cursor: Cursor, limit: nat)
    requires limit >= 1
    ensures Shown(items, cursor, limit) == Slice(items, Offset(cursor), Offset(cursor) + limit)
  {
  }

  /** The first pages, one after the other. */
  function Pages<T>(items: seq<T>, pages: nat, limit: nat): seq<T> {
    if pages == 0 then [] else Pages(items, pages - 1, limit) + Slice(items, (pages - 1) * limit, pages * limit)
  }

  /** Put together, the pages are the front of the list: nothing is left out, nothing repeated. */
  lemma {:induction false} PagesCover<T>(items: seq<T>, pages: nat, limit: nat)
    ensures Pages(items, pages, limit) == Slice(items, 0, pages * limit)
    ensures pages * limit >= |items| ==> Pages(items, pages, limit) == items
  {
    if pages > 0 {
      PagesCover(items, pages - 1, limit);
      assert pages * limit == (pages - 1) * limit + limit;
      SlicesJoin(items, (pages - 1) * limit, pages * limit);
    }
  }

  lemma SlicesJoin<T>(items: seq<T>, a: nat, b: nat)
    requires a <= b
    ensures Slice(items, 0, a) + Slice(items, a, b) == Slice(items, 0, b)
  {
  }

  // ---------------------------------------------------------------- settled states

  /** The state after a response: the number of pages is the number of known pages, and the next page is known
      if there is one. */
  ghost predicate Settled<T>(s: Screen, items: seq<T>) {
    && GoodScreen(s, |items|) && s.view.totalPages == |s.view.history|
    && s.info == InfoOf(items, s.view.cursor, s.view.limit)
    && (s.view.currentPage * s.view.limit < |items| ==> s.view.currentPage + 1 in s.view.history)
  }

  lemma {:induction false} RespondSettles<T>(s: Screen, items: seq<T>)
    requires GoodScreen(s, |items|)
    ensures Settled(Step(s, Respond, items), items)
    ensures Step(s, Respond, items).view.currentPage == s.view.currentPage
    ensures Step(s, Respond, items).view.limit == s.view.limit
  {
    var v, c := s.view, s.view.currentPage;
    var info := InfoOf(items, v.cursor, v.limit);
    AnswerToGood(v, items);
    StepExactly(s, Respond, items);
    if info.hasNextPage {
      KnownCursors(v, |items|, c + 1);
      NextPageKnown(v, |items|);
      assert Known(v.history, c + 1).None? <==> c + 1 !in v.history;
      if c + 1 !in v.history {
        assert v.history[c + 1 := info.endCursor].Keys == v.history.Keys + {c + 1};
      }
    }
  }

  lemma NextPageKnown(v: View, total: nat)
    requires Good(v, total)
    ensures Known(v.history, v.currentPage + 1).None? <==> v.currentPage + 1 !in v.history
  {
  }

  /** Choosing any of the pages on offer is safe, even if the effect runs again before the response arrives;
      then the response shows that page. */
  lemma {:induction false} ChoosingAPage<T>(s: Screen, page: nat, items: seq<T>)
    requires Settled(s, items) && 1 <= page <= s.view.totalPages
    ensures var clicked := Step(s, Click(page), items);
            && GoodScreen(clicked, |items|) && GoodScreen(Step(clicked, Rerun, items), |items|)
            && Settled(Step(clicked, Respond, items), items)
            && Settled(Step(Step(clicked, Rerun, items), Respond, items), items)
            && Step(Step(clicked, Rerun, items), Respond, items).view.currentPage == page
            && Step(clicked, Respond, items).view.currentPage == page
  {
    var clicked := Step(s, Click(page), items);
    StepExactly(s, Click(page), items);
    AnswerToGood(s.view, items);
    if s.info.hasNextPage {
      KnownCursors(s.view, |items|, s.view.currentPage + 1);
    }
    StepExactly(clicked, Rerun, items);
    RespondSettles(clicked, items);
    RespondSettles(Step(clicked, Rerun, items), items);
  }

  /** Choosing a limit is safe if the response arrives before the effect runs again. */
  lemma {:induction false} ChoosingALimit<T>(s: Screen, limit: nat, items: seq<T>)
    requires Settled(s, items) && limit >= 1
    ensures var after := Step(Step(s, Limit(limit), items), Respond, items);
            Settled(after, items) && after.view.currentPage == 1 && after.view.limit == limit
  {
    StepExactly(s, Limit(limit), items);
    RespondSettles(Step(s, Limit(limit), items), items);
  }

  // ---------------------------------------------------------------- paging through

  /** From the first page on to a later one, waiting for each response. */
  function Walk(page: nat): seq<Event>
    requires page >= 1
  {
    if page == 1 then [Respond] else Walk(page - 1) + [Click(page), Respond]
  }

  lemma {:induction false} AfterOneMore<T>(s: Screen, events: seq<Event>, e: Event, items: seq<T>)
    ensures After(s, events + [e], items) == Step(After(s, events, items), e, items)
  {
    assert (events + [e])[..|events|] == events;
  }

  lemma {:induction false} AfterTwoMore<T>(s: Screen, events: seq<Event>, a: Event, b: Event, items: seq<T>)
    ensures After(s, events + [a, b], items) == Step(Step(After(s, events, items), a, items), b, items)
  {
    var one := events + [a];
    assert events + [a, b] == one + [b];
    AfterOneMore(s, one, b, items);
    AfterOneMore(s, events, a, items);
  }

  /** The screen at the end of the walk. */
  function Walked<T>(limit: nat, page: nat, items: seq<T>): Screen
    requires page >= 1
  {
    if page == 1 then Step(Start(limit), Respond, items)
    else Step(Step(Walked(limit, page - 1, items), Click(page), items), Respond, items)
  }

  lemma {:induction false} WalkedIsAfterWalk<T>(limit: nat, page: nat, items: seq<T>)
    requires page >= 1
    ensures After(Start(limit), Walk(page), items) == Walked(limit, page, items)
  {
    if page == 1 {
      AfterOneMore(Start(limit), [], Respond, items);
      assert [] + [Respond] == Walk(1);
    } else {
      WalkedIsAfterWalk(limit, page - 1, items);
      AfterTwoMore(Start(limit), Walk(page - 1), Click(page), Respond, items);
    }
  }

  /** Settled on a page. */
  ghost predicate IsOn<T>(s: Screen, page: nat, limit: nat, items: seq<T>) {
    Settled(s, items) && s.view.currentPage == page && s.view.limit == limit
  }

  lemma {:induction false} TurnOver<T>(s: Screen, last: nat, page: nat, limit: nat, items: seq<T>)
    requires IsOn(s, last, limit, items) && page == last + 1 && last * limit < |items|
    ensures IsOn(Step(Step(s, Click(page), items), Respond, items), page, limit, items)
  {
    StepExactly(s, Click(page), items);
    RespondSettles(Step(s, Click(page), items), items);
  }

  lemma {:induction false} WalkBegins<T>(limit: nat, items: seq<T>)
    requires limit >= 1
    ensures IsOn(Step(Start(limit), Respond, items), 1, limit, items)
  {
    assert Initial(limit).history.Keys == {1};
    RespondSettles(Start(limit), items);
  }

  /** The page begins inside the list; the first page always does. */
  predicate Begins(page: nat, limit: nat, total: nat)
    requires page >= 1
  {
    page == 1 || (page - 1) * limit < total
  }

  lemma EarlierPageBegins(limit: nat, page: nat, total: nat)
    requires page >= 2 && Begins(page, limit, total)
    ensures Begins(page - 1, limit, total)
  {
    assert (page - 1) * limit == (page - 2) * limit + limit;
  }

  lemma {:induction false} WalkGoesOn<T>(limit: nat, last: nat, page: nat, items: seq<T>)
    requires last >= 1 && page == last + 1 && Begins(page, limit, |items|)
    requires IsOn(Walked(limit, last, items), last, limit, items)
    ensures IsOn(Walked(limit, page, items), page, limit, items)
  {
    TurnOver(Walked(limit, last, items), last, page, limit, items);
  }

  /** Every page that begins inside the list can be walked to, and the next one is then known if there is one. */
  lemma {:induction false} WalkReaches<T>(limit: nat, page: nat, items: seq<T>)
    requires limit >= 1 && page >= 1 && Begins(page, limit, |items|)
    ensures IsOn(Walked(limit, page, items), page, limit, items)
  {
    if page == 1 {
      WalkBegins(limit, items);
    } else {
      EarlierPageBegins(limit, page, |items|);
      WalkReaches(limit, page - 1, items);
      WalkGoesOn(limit, page - 1, page, items);
    }
  }

  /** What is shown on the pages walked through. */
  function WalkShown<T>(limit: nat, page: nat, items: seq<T>): seq<T> {
    if page == 0 then []
    else
      var v := Walked(limit, page, items).view;
      WalkShown(limit, page - 1, items) + Shown(items, v.cursor, v.limit)
  }

  lemma {:induction false} WalkShowsPages<T>(limit: nat, page: nat, items: seq<T>)
    requires limit >= 1 && (page >= 1 ==> Begins(page, limit, |items|))
    ensures WalkShown(limit, page, items) == Pages(items, page, limit)
  {
    if page > 0 {
      if page > 1 { EarlierPageBegins(limit, page, |items|); }
      WalkShowsPages(limit, page - 1, items);
      WalkReaches(limit, page, items);
      ShownIsThePage(Walked(limit, page, items).view, items);
    }
  }

  /** Paging on until there is no next page shows the whole list, once. */
  lemma {:induction false} WalkShowsEverything<T>(limit: nat, page: nat, items: seq<T>)
    requires limit >= 1 && page >= 1 && Begins(page, limit, |items|)
    ensures !After(Start(limit), Walk(page), items).info.hasNextPage <==> page * limit >= |items|
    ensures !After(Start(limit), Walk(page), items).info.hasNextPage ==> WalkShown(limit, page, items) == items
  {
    WalkedIsAfterWalk(limit, page, items);
    WalkReaches(limit, page, items);
    AnswerToGood(Walked(limit, page, items).view, items);
    WalkShowsPages(limit, page, items);
    PagesCover(items, page, limit);
  }

  // ---------------------------------------------------------------- where page info is out of date

  /** A second click before the response: page 3 is on offer already, and shows what belongs to page 2. */
  lemma {:induction false} SecondClickTooSoon<T>(limit: nat, items: seq<T>)
    requires 1 <= limit < |items|
    ensures var waiting := After(Start(limit), [Respond, Click(2), Rerun], items);
            var after := Step(waiting, Click(3), items);
            && waiting.view.totalPages == 3
            && after.view.currentPage == 3 && after.view.cursor == CursorOf(2, limit)
  {
    FirstResponse(limit, items);
    AfterOneMore(Start(limit), [], Respond, items);
    AfterOneMore(Start(limit), [Respond], Click(2), items);
    AfterOneMore(Start(limit), [Respond, Click(2)], Rerun, items);
    assert [] + [Respond] == [Respond] && [Respond] + [Click(2)] == [Respond, Click(2)];
    assert [Respond, Click(2)] + [Rerun] == [Respond, Click(2), Rerun];
    var first := Step(Start(limit), Respond, items);
    assert first.view.history[2] in first.view.history.Values;
  }

  lemma FirstResponse<T>(limit: nat, items: seq<T>)
    requires 1 <= limit < |items|
    ensures Step(Start(limit), Respond, items)
            == Screen(View(None, map[1 := None, 2 := Some(limit)], 1, 2, limit), PageInfo(true, Some(limit)))
  {
    var history := Initial(limit).history;
    assert history[2 := Some(limit)] == map[1 := None, 2 := Some(limit)];
    assert history.Keys == {1} && |history| == |history.Keys|;
    assert forall cursor :: cursor in history.Values ==> cursor == None;
  }

  /** A larger limit, and the effect runs again before the response: a second page is recorded and stays on offer
      although everything fits on the first. */
  lemma {:induction false} LimitChangedTooSoon<T>(limit: nat, larger: nat, items: seq<T>)
    requires 1 <= limit < |items| <= larger
    ensures var after := After(Start(limit), [Respond, Limit(larger), Rerun, Respond], items);
            after.view.totalPages == 2 && after.view.history == map[1 := None, 2 := Some(limit)]
  {
    FirstResponse(limit, items);
    AfterOneMore(Start(limit), [], Respond, items);
    AfterOneMore(Start(limit), [Respond], Limit(larger), items);
    AfterOneMore(Start(limit), [Respond, Limit(larger)], Rerun, items);
    AfterOneMore(Start(limit), [Respond, Limit(larger), Rerun], Respond, items);
    assert [] + [Respond] == [Respond] && [Respond] + [Limit(larger)] == [Respond, Limit(larger)];
    assert [Respond, Limit(larger)] + [Rerun] == [Respond, Limit(larger), Rerun];
    assert [Respond, Limit(larger), Rerun] + [Respond] == [Respond, Limit(larger), Rerun, Respond];
    RecordedTooSoon(limit, larger);
  }

  lemma RecordedTooSoon(limit: nat, larger: nat)
    ensures var limited := Limited(View(None, map[1 := None, 2 := Some(limit)], 1, 2, limit), larger);
            Updated(limited, PageInfo(true, Some(limit))) == View(None, map[1 := None, 2 := Some(limit)], 1, 2, larger)
    ensures |map[1 := None, 2 := Some(limit)]| == 2
  {
    var limited := Limited(View(None, map[1 := None, 2 := Some(limit)], 1, 2, limit), larger);
    assert forall cursor :: cursor in limited.history.Values ==> cursor == None;
    assert |limited.history| == |limited.history.Keys|;
    var history := limited.history[2 := Some(limit)];
    assert history == map[1 := None, 2 := Some(limit)] && history.Keys == {1, 2};
    assert |history| == |history.Keys|;
  }
}
