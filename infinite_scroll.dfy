/** The web2 `InfiniteScroll` component: when the sentinel comes into view it
    asks for the next page, unless none is left or one is already on its way,
    and its footer shows a spinner while fetching and an end marker once the
    last page is in. */
module InfiniteScroll {
  import opened Wrappers
  import opened Web2Hooks

  /** What the component sees: the sentinel's visibility and the query's flags. */
  datatype ScrollState = ScrollState(inView: bool, hasNextPage: bool, isFetchingNextPage: bool)

  /** The effect's guard: fetch the next page now? */
  predicate ShouldFetch(s: ScrollState)
  {
    s.inView && s.hasNextPage && !s.isFetchingNextPage
  }

  /** What the footer shows. */
  datatype Footer = Footer(spinner: bool, endMarker: bool)

  function Render(s: ScrollState): Footer
  {
    Footer(s.isFetchingNextPage, !s.hasNextPage)
  }

  /** The spinner shows exactly while a fetch is in flight, the end marker exactly
      when no page is left; a visible end marker means no fetch can start. */
  lemma {:induction false} FooterShows(s: ScrollState)
    ensures Render(s).spinner <==> s.isFetchingNextPage
    ensures Render(s).endMarker <==> !s.hasNextPage
    ensures Render(s).endMarker ==> !ShouldFetch(s)
    ensures Render(s).spinner ==> !ShouldFetch(s)
  {
  }

  /** The state the component sees once `last` is the newest page fetched:
      the query has a next page exactly when `getNextPageParam` gives one. */
  function StateAfter(inView: bool, last: PageInfo, fetching: bool): ScrollState
  {
    ScrollState(inView, NextPageParam(last).Some?, fetching)
  }

  /** Wired to an infinite query, the end marker appears exactly when the newest
      page is the last one (or past it), and a visible sentinel with nothing in
      flight fetches exactly the following page until then. */
  lemma {:induction false} EndMarkerAtLastPage(inView: bool, last: PageInfo, fetching: bool)
    ensures Render(StateAfter(inView, last, fetching)).endMarker <==> last.page >= last.totalPages
    ensures ShouldFetch(StateAfter(inView, last, fetching)) <==>
      inView && !fetching && last.page < last.totalPages
    ensures ShouldFetch(StateAfter(inView, last, fetching)) ==> NextPageParam(last) == Some(last.page + 1)
  {
    NextPageParamIff(last);
  }
}
