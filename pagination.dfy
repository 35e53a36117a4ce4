/** The previous/next links of the web client's `Pagination` component: each
    link, when shown, asks for the days `[start, start + increment)`. */
module Pagination {
  import opened Wrappers

  /** The range a link hands to `onChange`. */
  datatype PageRange = PageRange(start: int, end: int)

  /** `onClick(newPage)`: the range of `increment` days starting at `newPage`. */
  function RangeFrom(newPage: int, increment: int): (r: PageRange)
    ensures r.start == newPage && r.end - r.start == increment
  {
    PageRange(newPage, newPage + increment)
  }

  /** The "prev" link as written: shown on every page after the first, and it
      steps back by the current page's increment without a lower bound. */
  function PrevRange(current: int, increment: int): Option<PageRange>
  {
    if current > 0 then Some(RangeFrom(current - increment, increment)) else None
  }

  /** The "prev" link as evidently intended: the same step, clamped at day 0. */
  function ClampedPrevRange(current: int, increment: int): Option<PageRange>
  {
    if current > 0 then
      Some(RangeFrom(if current - increment < 0 then 0 else current - increment, increment))
    else None
  }

  /** The "next" link: shown while days remain past the current page. */
  function NextRange(current: int, increment: int, numItems: int): Option<PageRange>
  {
    if current + increment < numItems then Some(RangeFrom(current + increment, increment)) else None
  }

  /** "prev" appears exactly after the first page and goes back by the increment. */
  lemma {:induction false} PrevShown(current: int, increment: int)
    ensures PrevRange(current, increment).Some? <==> current > 0
    ensures PrevRange(current, increment).Some? ==>
      PrevRange(current, increment).value.start == current - increment &&
      PrevRange(current, increment).value.end == current
  {
  }

  /** "next" appears exactly while the page after this one starts inside the
      timeline, and it starts where this page ends. */
  lemma {:induction false} NextShown(current: int, increment: int, numItems: int)
    ensures NextRange(current, increment, numItems).Some? <==> current + increment < numItems
    ensures NextRange(current, increment, numItems).Some? ==>
      var r := NextRange(current, increment, numItems).value;
      r.start == current + increment && r.start < numItems && r.end - r.start == increment
  {
  }

  /** With a positive, unchanged increment, "next" and then "prev" return to the
      page one started from. */
  lemma {:induction false} NextThenPrev(current: int, increment: int, numItems: int)
    requires current >= 0 && increment > 0
    requires NextRange(current, increment, numItems).Some?
    ensures var r := NextRange(current, increment, numItems).value;
      PrevRange(r.start, increment) == Some(PageRange(current, current + increment))
  {
  }

  /** The clamped "prev" appears on the same pages as the written one, never
      leaves the timeline, moves strictly back when the increment is positive, and
      agrees with the written one whenever that stays at or after day 0. */
  lemma {:induction false} ClampedPrevInRange(current: int, increment: int)
    requires increment >= 0
    ensures ClampedPrevRange(current, increment).Some? <==> PrevRange(current, increment).Some?
    ensures ClampedPrevRange(current, increment).Some? ==>
      var r := ClampedPrevRange(current, increment).value;
      0 <= r.start <= current && (increment > 0 ==> r.start < current) &&
      r.end - r.start == increment
    ensures current - increment >= 0 ==> ClampedPrevRange(current, increment) == PrevRange(current, increment)
  {
  }
}
