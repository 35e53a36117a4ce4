/** The web client's chronological page: the `page` and `search` query
    parameters, the number of days one page shows (`calculateIncrement`), the
    days shown, and the query strings its links and search box push. */
module Chronological {
  import opened Wrappers
  import opened Ordering
  import opened Text
  import opened Grouping
  import opened DataServiceModel
  import opened Pagination

  const DEFAULT_INCREMENT := 2
  const MAX_ITEMS_PER_PAGE := 100

  /** The longest prefix of decimal digits. */
  function DigitRun(s: string): (r: string)
    ensures |r| <= |s| && r == s[..|r|]
    ensures forall i :: 0 <= i < |r| ==> '0' <= r[i] <= '9'
    ensures |r| < |s| ==> !('0' <= s[|r|] <= '9')
  {
    if s != [] && '0' <= s[0] <= '9' then [s[0]] + DigitRun(s[1..]) else []
  }

  /** The value of the leading digits, or `None` when there are none. */
  function LeadingNumber(u: string): Option<nat>
  {
    var digits := DigitRun(u);
    if digits == [] then None else Some(DigitsValue(digits))
  }

  /** The number after an optional sign, negated for `-`. */
  function SignedNumber(t: string): Option<int>
  {
    if t != [] && t[0] == '-' then
      (if LeadingNumber(t[1..]).None? then None else Some(-(LeadingNumber(t[1..]).value as int)))
    else if t != [] && t[0] == '+' then
      (if LeadingNumber(t[1..]).None? then None else Some(LeadingNumber(t[1..]).value as int))
    else if LeadingNumber(t).None? then None
    else Some(LeadingNumber(t).value as int)
  }

  /** `parseInt` in base 10: leading whitespace, an optional sign, then the
      longest run of digits; no digits give `NaN`, written `None`. */
  function ParseInt(s: string): Option<int>
  {
    SignedNumber(StripLeft(s, JavaScript))
  }

  lemma {:induction false} DigitRunOfDigits(s: string)
    requires forall i :: 0 <= i < |s| ==> '0' <= s[i] <= '9'
    ensures DigitRun(s) == s
  {
    if s != [] {
      DigitRunOfDigits(s[1..]);
    }
  }

  /** A run of digits is read whole. */
  lemma {:induction false} LeadingNumberOfDigits(u: string)
    requires u != [] && forall i :: 0 <= i < |u| ==> '0' <= u[i] <= '9'
    ensures LeadingNumber(u) == Some(DigitsValue(u))
  {
    DigitRunOfDigits(u);
  }

  /** Text that starts with neither whitespace nor a sign is read from its start. */
  lemma {:induction false} StripLeftDigit(s: string)
    requires s != [] && '0' <= s[0] <= '9'
    ensures StripLeft(s, JavaScript) == s
  {
  }

  lemma {:induction false} StripLeftMinus(s: string)
    requires s != [] && s[0] == '-'
    ensures StripLeft(s, JavaScript) == s
  {
  }

  lemma {:induction false} ParseNegative(m: nat, s: string)
    requires s == "-" + NatToString(m)
    ensures ParseInt(s) == Some(-(m as int))
  {
    var digits := NatToString(m);
    assert StripLeft(s, JavaScript) == s by { StripLeftMinus(s); }
    assert LeadingNumber(s[1..]) == Some(m) by {
      assert s[1..] == digits;
      LeadingNumberOfDigits(digits);
      NatToStringValue(m);
    }
  }

  lemma {:induction false} ParseNonNegative(m: nat, s: string)
    requires s == NatToString(m)
    ensures ParseInt(s) == Some(m)
  {
    assert StripLeft(s, JavaScript) == s by { StripLeftDigit(s); }
    assert LeadingNumber(s) == Some(m) by {
      LeadingNumberOfDigits(s);
      NatToStringValue(m);
    }
  }

  /** `parseInt` reads back what `toString` wrote. */
  lemma {:induction false} ParseIntToString(n: int)
    ensures ParseInt(IntToString(n)) == Some(n)
  {
    if n < 0 {
      ParseNegative(-n, IntToString(n));
    } else {
      ParseNonNegative(n, IntToString(n));
    }
  }

  /** `parseInt("0")` is 0. */
  lemma {:induction false} ParseZero()
    ensures ParseInt("0") == Some(0)
  {
    ParseIntToString(0);
    assert IntToString(0) == "0";
  }

  /** `parseInt(page || "0")`: a missing or empty `page` is page 0. */
  function PageStart(page: Option<string>): Option<int>
  {
    ParseInt(if page.None? || page.value == "" then "0" else page.value)
  }

  /** A `page` parameter written from a day index reads back as that index. */
  lemma {:induction false} PageStartOf(n: int)
    ensures PageStart(Some(IntToString(n))) == Some(n)
  {
    var s := IntToString(n);
    assert s != "" && (if Some(s).None? || s == "" then "0" else s) == s;
    ParseIntToString(n);
  }

  /** The number of items on some consecutive days. */
  function DaySum(days: seq<AppDayData>): nat
  {
    if days == [] then 0 else |days[0].items| + DaySum(days[1..])
  }

  /** The days `calculateIncrement`'s loop counts over `days`, starting from a
      running total of `total` items: it stops after the day that brings the
      total to `MAX_ITEMS_PER_PAGE`, or at the end of the timeline. */
  function CountedDays(days: seq<AppDayData>, total: int): (n: nat)
    ensures n <= |days| && (days != [] ==> n >= 1)
  {
    if days == [] then 0
    else if total + |days[0].items| >= MAX_ITEMS_PER_PAGE then 1
    else 1 + CountedDays(days[1..], total + |days[0].items|)
  }

  /** Reading `timeline[i].items` at a negative index, where the array holds
      `undefined`, is a `TypeError`. */
  datatype IncrementError = UndefinedDay(index: int)

  /** What `calculateIncrement` returns for a page starting at `start`. */
  function Increment(timeline: seq<AppDayData>, start: int): Result<int, IncrementError>
  {
    if |timeline| == 0 then Ok(DEFAULT_INCREMENT)
    else if start < 0 then Err(UndefinedDay(start))
    else
      var days := if start < |timeline| then CountedDays(timeline[start..], 0) else 0;
      Ok(Max(days, Min(DEFAULT_INCREMENT, |timeline| - start)))
  }

  /** `calculateIncrement`, loop and early exits as written. */
  method CalculateIncrement(timeline: seq<AppDayData>, pageStart: int) returns (r: Result<int, IncrementError>)
    ensures r == Increment(timeline, pageStart)
  {
    if |timeline| == 0 {
      return Ok(DEFAULT_INCREMENT);
    }
    var totalItems := 0;
    var daysToShow := 0;
    var i := pageStart;
    while i < |timeline|
      invariant pageStart <= i && (pageStart < |timeline| ==> i <= |timeline|)
      invariant pageStart >= |timeline| || pageStart < 0 ==> i == pageStart
      invariant daysToShow == i - pageStart
      invariant 0 <= pageStart < |timeline| ==>
        (totalItems < MAX_ITEMS_PER_PAGE &&
         CountedDays(timeline[pageStart..], 0) == daysToShow + CountedDays(timeline[i..], totalItems))
    {
      if i < 0 {
        return Err(UndefinedDay(i));
      }
      assert timeline[i..][1..] == timeline[i + 1..];
      totalItems := totalItems + |timeline[i].items|;
      daysToShow := daysToShow + 1;
      if daysToShow >= DEFAULT_INCREMENT && totalItems >= MAX_ITEMS_PER_PAGE {
        break;
      }
      if totalItems >= MAX_ITEMS_PER_PAGE {
        break;
      }
      i := i + 1;
    }
    return Ok(Max(daysToShow, Min(DEFAULT_INCREMENT, |timeline| - pageStart)));
  }

  /** The counted days are the shortest run from the start whose items reach
      `MAX_ITEMS_PER_PAGE`: every shorter run stays below it, and the counted
      run reaches it unless it is the whole rest of the timeline. */
  lemma {:induction false} CountedDaysStop(days: seq<AppDayData>, total: int)
    requires total < MAX_ITEMS_PER_PAGE
    ensures forall k :: 0 <= k < CountedDays(days, total) ==> total + DaySum(days[..k]) < MAX_ITEMS_PER_PAGE
    ensures var n := CountedDays(days, total);
      n == |days| || total + DaySum(days[..n]) >= MAX_ITEMS_PER_PAGE
  {
    if days != [] {
      var n := CountedDays(days, total);
      var t := total + |days[0].items|;
      forall k | 0 <= k < n ensures total + DaySum(days[..k]) < MAX_ITEMS_PER_PAGE {
        if k > 0 {
          CountedDaysStop(days[1..], t);
          assert days[..k][1..] == days[1..][..k - 1];
        }
      }
      if t < MAX_ITEMS_PER_PAGE {
        CountedDaysStop(days[1..], t);
        assert days[..n][1..] == days[1..][..n - 1];
      } else {
        assert days[..1][1..] == [];
      }
    }
  }

  /** On a page that starts inside the timeline, the increment is at least two
      days (or all that remain) and never runs past the end; beyond two days it
      is the counted run of `CountedDaysStop`. */
  lemma {:induction false} IncrementInRange(timeline: seq<AppDayData>, start: int)
    requires 0 <= start < |timeline|
    ensures Increment(timeline, start).Ok?
    ensures var inc := Increment(timeline, start).value;
      Min(DEFAULT_INCREMENT, |timeline| - start) <= inc <= |timeline| - start
    ensures var inc := Increment(timeline, start).value;
      inc > DEFAULT_INCREMENT ==>
        DaySum(timeline[start..start + inc - 1]) < MAX_ITEMS_PER_PAGE &&
        (start + inc == |timeline| || DaySum(timeline[start..start + inc]) >= MAX_ITEMS_PER_PAGE)
  {
    var rest := timeline[start..];
    var n := CountedDays(rest, 0);
    CountedDaysStop(rest, 0);
    if n > DEFAULT_INCREMENT {
      assert rest[..n - 1] == timeline[start..start + n - 1];
      assert rest[..n] == timeline[start..start + n];
    }
  }

  /** No timeline yet: two days, whatever the page. */
  lemma {:induction false} IncrementEmpty(start: int)
    ensures Increment([], start) == Ok(DEFAULT_INCREMENT)
  {
  }

  /** A negative page over a loaded timeline fails, and a page past its end
      shows no days. */
  lemma {:induction false} IncrementOutside(timeline: seq<AppDayData>, start: int)
    requires |timeline| > 0
    ensures start < 0 ==> Increment(timeline, start).Err?
    ensures start >= |timeline| ==> Increment(timeline, start) == Ok(0)
  {
  }

  /** An index of `Array.prototype.slice`: negative counts from the end. */
  function SliceIndex(i: int, len: nat): (r: nat)
    ensures r <= len
  {
    if i < 0 then Max(len + i, 0) else Min(i, len)
  }

  /** `Array.prototype.slice(start, end)`. */
  function JsSlice<T>(s: seq<T>, start: int, end: int): seq<T>
  {
    var a := SliceIndex(start, |s|);
    var b := SliceIndex(end, |s|);
    if a < b then s[a..b] else []
  }

  /** What the page renders. */
  datatype PageView =
    | Loading
    | Crashed(error: IncrementError)
    | Shown(days: seq<AppDayData>, prev: Option<PageRange>, next: Option<PageRange>)

  /** The page for a timeline and the day index read from the `page`
      parameter, its "prev" link given by `prevLink`. `calculateIncrement` runs
      before the empty timeline is checked, so a failure there wins; a `page`
      that is not a number shows no days and no links. */
  function RenderPage(timeline: seq<AppDayData>, pageStart: Option<int>,
                      prevLink: (int, int) -> Option<PageRange>): PageView
  {
    match pageStart
    case None => if |timeline| == 0 then Loading else Shown([], None, None)
    case Some(start) =>
      match Increment(timeline, start)
      case Err(e) => Crashed(e)
      case Ok(inc) =>
        if |timeline| == 0 then Loading
        else Shown(JsSlice(timeline, start, start + inc),
                   prevLink(start, inc), NextRange(start, inc, |timeline|))
  }

  /** The page as written: "prev" steps back a whole increment, even past
      day 0 (see `PrevLeavesTimeline`). */
  function Page(timeline: seq<AppDayData>, page: Option<string>): PageView
  {
    RenderPage(timeline, PageStart(page), PrevRange)
  }

  /** The page with the "prev" link clamped at day 0, as evidently intended. */
  function CorrectedPage(timeline: seq<AppDayData>, page: Option<string>): PageView
  {
    RenderPage(timeline, PageStart(page), ClampedPrevRange)
  }

  /** Inside the timeline a page shows at least one day and none past the end. */
  lemma {:induction false} IncrementBounds(timeline: seq<AppDayData>, start: int)
    requires 0 <= start < |timeline|
    ensures Increment(timeline, start).Ok?
    ensures 1 <= Increment(timeline, start).value <= |timeline| - start
  {
    IncrementInRange(timeline, start);
  }

  /** The page a day index inside the timeline renders: the increment's days,
      "next" from the increment, and "prev" a whole increment back as written,
      clamped at day 0 once corrected. */
  lemma {:induction false} PageAt(timeline: seq<AppDayData>, start: int)
    requires 0 <= start < |timeline|
    ensures Increment(timeline, start).Ok?
    ensures var inc := Increment(timeline, start).value;
      Page(timeline, Some(IntToString(start))) ==
        Shown(JsSlice(timeline, start, start + inc), PrevRange(start, inc), NextRange(start, inc, |timeline|))
    ensures var inc := Increment(timeline, start).value;
      CorrectedPage(timeline, Some(IntToString(start))) ==
        Shown(JsSlice(timeline, start, start + inc), ClampedPrevRange(start, inc), NextRange(start, inc, |timeline|))
  {
    PageStartOf(start);
    RenderPageAt(timeline, start, PrevRange);
    RenderPageAt(timeline, start, ClampedPrevRange);
  }

  /** At a day index inside the timeline, whatever the "prev" link, the page
      shows the increment's days with that link and the "next" link. */
  lemma {:induction false} RenderPageAt(timeline: seq<AppDayData>, start: int, prevLink: (int, int) -> Option<PageRange>)
    requires 0 <= start < |timeline|
    ensures Increment(timeline, start).Ok?
    ensures var inc := Increment(timeline, start).value;
      RenderPage(timeline, Some(start), prevLink) ==
        Shown(JsSlice(timeline, start, start + inc), prevLink(start, inc), NextRange(start, inc, |timeline|))
  {
    IncrementBounds(timeline, start);
  }

  /** A page inside the timeline shows `increment` consecutive days from its
      start, with "prev" exactly when it is not the first page and "next"
      exactly when days remain after it. */
  lemma {:induction false} PageShown(timeline: seq<AppDayData>, start: int)
    requires 0 <= start < |timeline|
    ensures var v := Page(timeline, Some(IntToString(start)));
      v.Shown? && |v.days| == Increment(timeline, start).value &&
      v.days == timeline[start..start + |v.days|] &&
      (v.prev.Some? <==> start > 0) &&
      (v.next.Some? <==> start + |v.days| < |timeline|)
  {
    IncrementBounds(timeline, start);
    PageAt(timeline, start);
    var inc := Increment(timeline, start).value;
    assert JsSlice(timeline, start, start + inc) == timeline[start..start + inc] by {
      assert SliceIndex(start, |timeline|) == start;
      assert SliceIndex(start + inc, |timeline|) == start + inc;
    }
  }

  /** The corrected page shows the same days and "next" link as the page as
      written, and its "prev" link under the same condition. */
  lemma {:induction false} CorrectedPageShown(timeline: seq<AppDayData>, start: int)
    requires 0 <= start < |timeline|
    ensures var v := CorrectedPage(timeline, Some(IntToString(start)));
      v.Shown? && v.days == Page(timeline, Some(IntToString(start))).days &&
      v.next == Page(timeline, Some(IntToString(start))).next &&
      (v.prev.Some? <==> start > 0)
  {
    PageAt(timeline, start);
    var inc := Increment(timeline, start).value;
    ClampedPrevInRange(start, inc);
  }

  /** Following a link from a corrected page inside the timeline never fails:
      "next" leads to a page inside the timeline and "prev" to one at or after
      day 0. */
  lemma {:induction false} LinksStayInside(timeline: seq<AppDayData>, start: int)
    requires 0 <= start < |timeline|
    ensures var v := CorrectedPage(timeline, Some(IntToString(start)));
      v.Shown? &&
      (v.prev.Some? ==>
         (0 <= v.prev.value.start < start &&
          CorrectedPage(timeline, Some(IntToString(v.prev.value.start))).Shown?)) &&
      (v.next.Some? ==>
         (start < v.next.value.start < |timeline| &&
          CorrectedPage(timeline, Some(IntToString(v.next.value.start))).Shown?))
  {
    IncrementBounds(timeline, start);
    PageAt(timeline, start);
    var inc := Increment(timeline, start).value;
    ClampedPrevInRange(start, inc);
    var prev, next := ClampedPrevRange(start, inc), NextRange(start, inc, |timeline|);
    if prev.Some? {
      PageAt(timeline, prev.value.start);
    }
    if next.Some? {
      PageAt(timeline, next.value.start);
    }
  }

  /** The number of items of each day. */
  function DaySizes(timeline: seq<AppDayData>): (r: seq<nat>)
    ensures |r| == |timeline|
  {
    seq(|timeline|, i requires 0 <= i < |timeline| => |timeline[i].items|)
  }

  /** The written "prev" link can leave the timeline: with days of 50, 50, 1, 1,
      1, 1 and 1 items, page 0 shows two days and links "next" to day 2; day 2
      shows the five remaining days, whose "prev" asks for day -3, and that page
      fails reading `timeline[-3]`. */
  lemma {:induction false} PrevLeavesTimeline(timeline: seq<AppDayData>)
    requires DaySizes(timeline) == [50, 50, 1, 1, 1, 1, 1]
    ensures Increment(timeline, 0) == Ok(2)
    ensures NextRange(0, 2, |timeline|) == Some(PageRange(2, 4))
    ensures Increment(timeline, 2) == Ok(5)
    ensures PrevRange(2, 5) == Some(PageRange(-3, 2))
    ensures Increment(timeline, -3) == Err(UndefinedDay(-3))
    ensures ClampedPrevRange(2, 5) == Some(PageRange(0, 5)) && Increment(timeline, 0).Ok?
  {
    var sizes := DaySizes(timeline);
    assert sizes[0] == 50 && sizes[1] == 50 && sizes[2] == 1 && sizes[3] == 1;
    assert sizes[4] == 1 && sizes[5] == 1 && sizes[6] == 1;
    var rest := timeline[2..];
    assert CountedDays(rest[4..], 4) == 1;
    assert CountedDays(rest[3..], 3) == 2;
    assert CountedDays(rest[2..], 2) == 3;
    assert CountedDays(rest[1..], 1) == 4;
    assert CountedDays(rest, 0) == 5;
    assert CountedDays(timeline[1..], 50) == 1;
    assert CountedDays(timeline[0..], 0) == 2;
  }

  /** On the same timeline the page as written at day 2 links "prev" to day -3,
      and the page there crashes; the corrected page links back to day 0, whose
      page renders. */
  lemma {:induction false} PrevLinkCrashes(timeline: seq<AppDayData>)
    requires DaySizes(timeline) == [50, 50, 1, 1, 1, 1, 1]
    ensures Page(timeline, Some(IntToString(2))) == Shown(timeline[2..], Some(PageRange(-3, 2)), None)
    ensures Page(timeline, Some(IntToString(-3))) == Crashed(UndefinedDay(-3))
    ensures CorrectedPage(timeline, Some(IntToString(2))) == Shown(timeline[2..], Some(PageRange(0, 5)), None)
    ensures CorrectedPage(timeline, Some(IntToString(0))).Shown?
  {
    PrevLeavesTimeline(timeline);
    assert |timeline| == 7;
    PageAt(timeline, 2);
    assert JsSlice(timeline, 2, 7) == timeline[2..];
    PageStartOf(-3);
    PageAt(timeline, 0);
  }

  /** The query parameters of a URL, in order. */
  type Params = seq<(string, string)>

  /** `URLSearchParams.get`: the first value under `key`, or `null`. */
  function Get(params: Params, key: string): (r: Option<string>)
    ensures r.Some? <==> exists i :: 0 <= i < |params| && params[i].0 == key
    ensures r.Some? ==> exists i :: (0 <= i < |params| && params[i].0 == key && r.value == params[i].1 &&
      forall j :: 0 <= j < i ==> params[j].0 != key)
  {
    if params == [] then None
    else if params[0].0 == key then Some(params[0].1)
    else
      var r := Get(params[1..], key);
      if r.Some? then
        FirstKeyShifts(params, key, r.value);
        r
      else r
  }

  /** A first pair under `key` in the tail, behind a head with another key, is
      the first pair under `key` of the whole. */
  lemma {:induction false} FirstKeyShifts(params: Params, key: string, v: string)
    requires |params| > 0 && params[0].0 != key
    requires exists i :: (0 <= i < |params[1..]| && params[1..][i].0 == key && v == params[1..][i].1 &&
      forall j :: 0 <= j < i ==> params[1..][j].0 != key)
    ensures exists i :: (0 <= i < |params| && params[i].0 == key && v == params[i].1 &&
      forall j :: 0 <= j < i ==> params[j].0 != key)
  {
    var i :| (0 <= i < |params[1..]| && params[1..][i].0 == key && v == params[1..][i].1 &&
      forall j :: 0 <= j < i ==> params[1..][j].0 != key);
    assert params[i + 1] == params[1..][i];
    forall j | 0 <= j < i + 1 ensures params[j].0 != key {
      if j > 0 { assert params[j] == params[1..][j - 1]; }
    }
  }

  /** `query.get("search") || ""`. */
  function SearchOf(params: Params): string
  {
    match Get(params, "search")
    case None => ""
    case Some(s) => s
  }

  /** `onPageChange`: the new page, and the current search when there is one. */
  function PageChangeParams(search: string, pageStart: int): Params
  {
    [("page", IntToString(pageStart))] + (if search != "" then [("search", search)] else [])
  }

  /** `onSearchChange`: back to page 0, with the new term when there is one. */
  function SearchChangeParams(searchTerm: string): Params
  {
    [("page", "0")] + (if searchTerm != "" then [("search", searchTerm)] else [])
  }

  /** Changing the page moves to that page and keeps the search. */
  lemma {:induction false} PageChangeKeepsSearch(search: string, pageStart: int)
    ensures PageStart(Get(PageChangeParams(search, pageStart), "page")) == Some(pageStart)
    ensures SearchOf(PageChangeParams(search, pageStart)) == search
  {
    var ps := PageChangeParams(search, pageStart);
    assert Get(ps, "page") == Some(IntToString(pageStart));
    PageStartOf(pageStart);
    assert "page"[0] != "search"[0];
    assert ps[1..] == (if search != "" then [("search", search)] else []);
    assert Get(ps, "search") == Get(ps[1..], "search");
  }

  /** Changing the search returns to the first page with the new term. */
  lemma {:induction false} SearchChangeResetsPage(searchTerm: string)
    ensures PageStart(Get(SearchChangeParams(searchTerm), "page")) == Some(0)
    ensures SearchOf(SearchChangeParams(searchTerm)) == searchTerm
  {
    ParseZero();
    var ps := SearchChangeParams(searchTerm);
    assert "page"[0] != "search"[0];
    assert ps[1..] == (if searchTerm != "" then [("search", searchTerm)] else []);
    assert Get(ps, "search") == Get(ps[1..], "search");
  }
}
