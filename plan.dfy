/** The per-route open plan (`open_plan_for_route`): the ordered tabs a
    route's page opens, each a label, a status URL and a delay in
    milliseconds. */
module Plan {
  import opened Calendar
  import opened Wrappers
  import opened Names
  import opened Bounds
  import opened Text
  import Url

  /** One planned tab, `(label, url, delay_ms)`. */
  datatype PlanEntry = PlanEntry(caption: string, url: string, delayMs: int)

  const BaseDelayMs: int := 200
  const DayStepMs: int := 350
  const OutboundLagMs: int := 60
  const WeekendGapMs: int := 200

  /** The separator between a label's subject and its direction. */
  const Dash: string := " \U{2014} "

  /** The `dateTypeSelect` values of the two date filters. */
  const FutureDate: string := "Future%20date"
  const ThisWeekend: string := "This%20weekend"

  /** `len(days)`: the days of the inclusive window, none when `end` is before `start`. */
  function DayCount(start: Date, end: Date): nat
  {
    if end < start then 0 else end - start + 1
  }

  /** `[start + timedelta(days=i) for i in range((end - start).days + 1)]`. */
  function Days(start: Date, end: Date): (days: seq<Date>)
    ensures |days| == DayCount(start, end)
    ensures forall i | 0 <= i < |days| :: days[i] == start + i
  {
    seq(DayCount(start, end), (i: int) requires 0 <= i < DayCount(start, end) => start + i)
  }

  /** A date-scoped URL for one day of the window. */
  function DayUrl(base: string, bounds: (string, string)): string
  {
    base + "&dateTypeSelect=" + FutureDate + "&startDate=" + bounds.0 + "&endDate=" + bounds.1
  }

  /** The URL for the coming weekend; its parameters come in another order. */
  function WeekendUrl(base: string, bounds: (string, string)): string
  {
    base + "&startDate=" + bounds.0 + "&endDate=" + bounds.1 + "&dateTypeSelect=" + ThisWeekend
  }

  /** Entries alternate inbound, outbound. */
  function DirectionAt(k: nat): Direction
  {
    if k % 2 == 0 then Inbound else Outbound
  }

  /** The outbound tab of a pair opens 60 ms after the inbound one. */
  function Lag(dir: Direction): int
  {
    if dir == Inbound then 0 else OutboundLagMs
  }

  /** The live-status tab of the route, opened at once. */
  function NowEntry(route: string, dir: Direction): PlanEntry
  {
    PlanEntry("Now" + Dash + dir.Name(), UrlFor(route, dir.Name()), Lag(dir))
  }

  /** The tab of day `d`, the `i`-th day of the window. */
  function DayEntry(route: string, d: Date, i: nat, dir: Direction): PlanEntry
  {
    PlanEntry(IsoDate(d) + Dash + dir.Name(), DayUrl(UrlFor(route, dir.Name()), DayBounds(d)),
              BaseDelayMs + i * DayStepMs + Lag(dir))
  }

  /** The weekend tab, after a window of `n` days. */
  function WeekendEntry(route: string, weekend: (string, string), n: nat, dir: Direction): PlanEntry
  {
    PlanEntry("This weekend" + Dash + dir.Name(), WeekendUrl(UrlFor(route, dir.Name()), weekend),
              BaseDelayMs + n * DayStepMs + WeekendGapMs + Lag(dir))
  }

  /** The delay of entry `k` of a plan over `n` days, by its position. */
  function DelayAt(n: nat, k: nat): int
  {
    var lag := if k % 2 == 0 then 0 else OutboundLagMs;
    if k < 2 then lag
    else if k < 2 * n + 2 then BaseDelayMs + (k - 2) / 2 * DayStepMs + lag
    else BaseDelayMs + n * DayStepMs + WeekendGapMs + lag
  }

  /** The "Now" tabs and the tabs of the first `n` days from `start`, in the
      order the loop over the window appends them. */
  function DaysPlan(route: string, start: Date, n: nat): seq<PlanEntry>
    requires start + n <= MaxOrdinal + 1
  {
    if n == 0 then [NowEntry(route, Inbound), NowEntry(route, Outbound)]
    else DaysPlan(route, start, n - 1)
         + [DayEntry(route, start + (n - 1), n - 1, Inbound), DayEntry(route, start + (n - 1), n - 1, Outbound)]
  }

  /** The whole plan, the weekend bounds being `weekend`. */
  function OpenPlan(route: string, start: Date, end: Date, weekend: (string, string)): seq<PlanEntry>
  {
    var n := DayCount(start, end);
    DaysPlan(route, start, n) + [WeekendEntry(route, weekend, n, Inbound), WeekendEntry(route, weekend, n, Outbound)]
  }

  /** Entry `k` of a plan among the "Now" and day entries, by position alone. */
  function LeadingEntry(route: string, start: Date, k: nat): PlanEntry
    requires k < 2 || start + (k - 2) / 2 <= MaxOrdinal
  {
    if k < 2 then NowEntry(route, DirectionAt(k))
    else DayEntry(route, start + (k - 2) / 2, (k - 2) / 2, DirectionAt(k))
  }

  /** Entry `k` of the whole plan, by position alone. */
  function EntryAt(route: string, start: Date, end: Date, weekend: (string, string), k: nat): PlanEntry
    requires k < 2 * DayCount(start, end) + 4
  {
    if k < 2 * DayCount(start, end) + 2 then LeadingEntry(route, start, k)
    else WeekendEntry(route, weekend, DayCount(start, end), DirectionAt(k))
  }

  /** `open_plan_for_route(route, start_date, end_date, today_for_weekend)`:
      two "Now" tabs, two tabs per day of the window in date order, two
      weekend tabs. `None` stands for the OverflowError of the weekend bounds. */
  method OpenPlanForRoute(route: string, startDate: Date, endDate: Date, todayForWeekend: Date)
    returns (result: Option<seq<PlanEntry>>)
    ensures result.Some? <==> WeekendBounds(todayForWeekend).Some?
    ensures result.Some? ==> result.value == OpenPlan(route, startDate, endDate, WeekendBounds(todayForWeekend).value)
  {
    hide DayEntry, NowEntry, WeekendEntry;
    var plan: seq<PlanEntry> := [NowEntry(route, Inbound), NowEntry(route, Outbound)];
    var days := Days(startDate, endDate);
    for i := 0 to |days|
      invariant plan == DaysPlan(route, startDate, i)
    {
      plan := plan + [DayEntry(route, days[i], i, Inbound), DayEntry(route, days[i], i, Outbound)];
    }

    var weekend := WeekendBounds(todayForWeekend);
    if weekend.None? {
      return None;
    }
    plan := plan + [WeekendEntry(route, weekend.value, |days|, Inbound), WeekendEntry(route, weekend.value, |days|, Outbound)];
    result := Some(plan);
  }

  lemma {:induction false} DaysPlanLength(route: string, start: Date, n: nat)
    requires start + n <= MaxOrdinal + 1
    ensures |DaysPlan(route, start, n)| == 2 * n + 2
  {
    hide DayEntry;
    if n > 0 {
      DaysPlanLength(route, start, n - 1);
    }
  }

  /** The two entries appended for day `n - 1` sit where the positional
      definition puts them. */
  lemma LastDayEntries(route: string, start: Date, n: nat)
    requires 0 < n && start + n <= MaxOrdinal + 1
    ensures LeadingEntry(route, start, 2 * n) == DayEntry(route, start + (n - 1), n - 1, Inbound)
    ensures LeadingEntry(route, start, 2 * n + 1) == DayEntry(route, start + (n - 1), n - 1, Outbound)
  {
    hide DayEntry;
    assert (2 * n - 2) / 2 == n - 1 && (2 * n) % 2 == 0;
    assert (2 * n + 1 - 2) / 2 == n - 1 && (2 * n + 1) % 2 == 1;
  }

  /** The loop's plan agrees, entry by entry, with the positional definition. */
  lemma {:induction false} DaysPlanEntries(route: string, start: Date, n: nat)
    requires start + n <= MaxOrdinal + 1
    ensures |DaysPlan(route, start, n)| == 2 * n + 2
    ensures forall k | 0 <= k < 2 * n + 2 :: DaysPlan(route, start, n)[k] == LeadingEntry(route, start, k)
  {
    hide DayEntry, NowEntry;
    DaysPlanLength(route, start, n);
    if n > 0 {
      DaysPlanEntries(route, start, n - 1);
      LastDayEntries(route, start, n);
    }
  }

  /** The plan agrees, entry by entry, with the positional definition: two
      "Now" tabs, then day `i` of the window at positions `2 + 2i` and
      `3 + 2i`, then the weekend tabs last. */
  lemma OpenPlanEntries(route: string, start: Date, end: Date, weekend: (string, string))
    ensures |OpenPlan(route, start, end, weekend)| == 2 * DayCount(start, end) + 4
    ensures forall k | 0 <= k < 2 * DayCount(start, end) + 4 ::
      OpenPlan(route, start, end, weekend)[k] == EntryAt(route, start, end, weekend, k)
  {
    hide DayEntry, NowEntry, WeekendEntry;
    var n := DayCount(start, end);
    DaysPlanEntries(route, start, n);
    assert (2 * n + 2) % 2 == 0 && (2 * n + 3) % 2 == 1;
  }

  /** The delay of every entry is the one its position calls for. */
  lemma EntryDelay(route: string, start: Date, end: Date, weekend: (string, string), k: nat)
    requires k < 2 * DayCount(start, end) + 4
    ensures EntryAt(route, start, end, weekend, k).delayMs == DelayAt(DayCount(start, end), k)
  {
  }

  lemma DelaysNonDecreasing(n: nat, j: nat, k: nat)
    requires j <= k < 2 * n + 4
    ensures DelayAt(n, j) <= DelayAt(n, k)
  {
    assert (j - 2) / 2 <= (k - 2) / 2;
  }

  /** Delays never go down along a plan, so the scheduled opening order is
      the plan's order. */
  lemma OpenPlanDelaysNonDecreasing(route: string, start: Date, end: Date, weekend: (string, string))
    ensures forall j, k | 0 <= j <= k < |OpenPlan(route, start, end, weekend)| ::
      OpenPlan(route, start, end, weekend)[j].delayMs <= OpenPlan(route, start, end, weekend)[k].delayMs
  {
    hide DayEntry, NowEntry, WeekendEntry;
    var plan := OpenPlan(route, start, end, weekend);
    OpenPlanEntries(route, start, end, weekend);
    forall j, k | 0 <= j <= k < |plan|
      ensures plan[j].delayMs <= plan[k].delayMs
    {
      EntryDelay(route, start, end, weekend, j);
      EntryDelay(route, start, end, weekend, k);
      DelaysNonDecreasing(DayCount(start, end), j, k);
    }
  }

  /** A window of three days opens its tabs at 0, 60, 200, 260, 550, 610,
      900, 960, 1450 and 1510 ms. */
  lemma ThreeDayDelays(route: string, start: Date, weekend: (string, string))
    requires start + 2 <= MaxOrdinal
    ensures var plan := OpenPlan(route, start, start + 2, weekend);
      && |plan| == 10
      && (forall k | 0 <= k < 10 :: plan[k].delayMs == [0, 60, 200, 260, 550, 610, 900, 960, 1450, 1510][k])
  {
    hide DayEntry, NowEntry, WeekendEntry;
    var plan := OpenPlan(route, start, start + 2, weekend);
    OpenPlanEntries(route, start, start + 2, weekend);
    forall k | 0 <= k < 10
      ensures plan[k].delayMs == [0, 60, 200, 260, 550, 610, 900, 960, 1450, 1510][k]
    {
      EntryDelay(route, start, start + 2, weekend, k);
    }
  }

  /** The keys and values the date filters add: none of them can end a
      value early, and no key holds a `=`. */
  lemma DateTypeSelectIsPlain()
    ensures Url.PlainKey("dateTypeSelect")
  {
  }

  lemma DateKeysArePlain()
    ensures Url.PlainKey("startDate") && Url.PlainKey("endDate")
  {
  }

  lemma FutureDateIsPlain()
    ensures Url.PlainValue(FutureDate)
  {
  }

  lemma ThisWeekendIsPlain()
    ensures Url.PlainValue(ThisWeekend)
  {
  }

  lemma FutureDateParts()
    ensures FutureDate == "Future" + ("%20" + "date")
    ensures "Future date" == "Future" + (" " + "date")
  {
  }

  lemma ThisWeekendParts()
    ensures ThisWeekend == "This" + ("%20" + "weekend")
    ensures "This weekend" == "This" + (" " + "weekend")
  {
  }

  /** The date selectors read back as "Future date" and "This weekend". */
  lemma FutureDateDecodes()
    ensures Url.PercentDecode(FutureDate) == "Future date"
  {
    hide Url.PercentDecode;
    Url.DecodeNoPercent("date");
    Url.DecodeSpace("date");
    Url.DecodePlain("Future", "%20" + "date");
    FutureDateParts();
  }

  lemma ThisWeekendDecodes()
    ensures Url.PercentDecode(ThisWeekend) == "This weekend"
  {
    hide Url.PercentDecode;
    Url.DecodeNoPercent("weekend");
    Url.DecodeSpace("weekend");
    Url.DecodePlain("This", "%20" + "weekend");
    ThisWeekendParts();
  }

  /** The separators written before each filter value. */
  lemma FilterKeyParts()
    ensures "&dateTypeSelect=" == "&" + "dateTypeSelect" + "="
    ensures "&startDate=" == "&" + "startDate" + "="
    ensures "&endDate=" == "&" + "endDate" + "="
  {
  }

  lemma DayUrlShape(base: string, s: string, e: string)
    ensures DayUrl(base, (s, e))
         == base + "&" + "dateTypeSelect" + "=" + FutureDate + "&" + "startDate" + "=" + s + "&" + "endDate" + "=" + e
  {
    FilterKeyParts();
    Url.KeyJoin(base, "dateTypeSelect", FutureDate);
    var u1 := base + "&" + "dateTypeSelect" + "=" + FutureDate;
    Url.KeyJoin(u1, "startDate", s);
    var u2 := u1 + "&" + "startDate" + "=" + s;
    Url.KeyJoin(u2, "endDate", e);
  }

  lemma WeekendUrlShape(base: string, s: string, e: string)
    ensures WeekendUrl(base, (s, e))
         == base + "&" + "startDate" + "=" + s + "&" + "endDate" + "=" + e + "&" + "dateTypeSelect" + "=" + ThisWeekend
  {
    FilterKeyParts();
    Url.KeyJoin(base, "startDate", s);
    var u1 := base + "&" + "startDate" + "=" + s;
    Url.KeyJoin(u1, "endDate", e);
    var u2 := u1 + "&" + "endDate" + "=" + e;
    Url.KeyJoin(u2, "dateTypeSelect", ThisWeekend);
  }

  /** A day's URL keeps the status page and its parameters and adds the
      "Future date" selector with the day's two bounds. */
  lemma DayUrlParams(base: string, bounds: (string, string))
    requires '?' in base && '#' !in base
    requires Url.PlainValue(bounds.0) && Url.PlainValue(bounds.1)
    ensures Url.Path(DayUrl(base, bounds)) == Url.Path(base)
    ensures Url.Params(DayUrl(base, bounds))
         == Url.Params(base) + [("dateTypeSelect", FutureDate), ("startDate", bounds.0), ("endDate", bounds.1)]
  {
    DateTypeSelectIsPlain();
    DateKeysArePlain();
    FutureDateIsPlain();
    DayUrlShape(base, bounds.0, bounds.1);
    Url.AppendThreeParams(base, "dateTypeSelect", FutureDate, "startDate", bounds.0, "endDate", bounds.1);
  }

  /** The weekend URL adds the two bounds first and the "This weekend"
      selector last. */
  lemma WeekendUrlParams(base: string, bounds: (string, string))
    requires '?' in base && '#' !in base
    requires Url.PlainValue(bounds.0) && Url.PlainValue(bounds.1)
    ensures Url.Path(WeekendUrl(base, bounds)) == Url.Path(base)
    ensures Url.Params(WeekendUrl(base, bounds))
         == Url.Params(base) + [("startDate", bounds.0), ("endDate", bounds.1), ("dateTypeSelect", ThisWeekend)]
  {
    DateTypeSelectIsPlain();
    DateKeysArePlain();
    ThisWeekendIsPlain();
    WeekendUrlShape(base, bounds.0, bounds.1);
    Url.AppendThreeParams(base, "startDate", bounds.0, "endDate", bounds.1, "dateTypeSelect", ThisWeekend);
  }

  /** The parameters of the route's live-status page in direction `dir`. */
  function StatusParams(route: string, dir: Direction): seq<(string, string)>
  {
    [("input", Strip(route)), ("lineIds", Strip(route)), ("direction", dir.Name())]
  }

  lemma DirectionIsPlain(dir: Direction)
    ensures Url.PlainValue(dir.Name())
  {
  }

  /** A "Now" tab opens the route's status page with no date filter. */
  lemma NowEntryMeaning(route: string, dir: Direction)
    requires Url.PlainValue(Strip(route))
    ensures var e := NowEntry(route, dir);
      && Url.Path(e.url) == StatusBase
      && Url.Params(e.url) == StatusParams(route, dir)
      && e.delayMs == Lag(dir)
  {
    DirectionIsPlain(dir);
    UrlForParams(route, dir.Name());
  }

  /** The tab of day `d` opens the route's status page filtered to the
      whole of that day. */
  lemma DayEntryMeaning(route: string, d: Date, i: nat, dir: Direction)
    requires Url.PlainValue(Strip(route))
    ensures var e := DayEntry(route, d, i, dir); var params := Url.Params(e.url);
      && Url.Path(e.url) == StatusBase
      && params == StatusParams(route, dir) + [("dateTypeSelect", FutureDate), ("startDate", DayBounds(d).0), ("endDate", DayBounds(d).1)]
      && Url.PercentDecode(params[4].1) == IsoDate(d) + "T00:00:00"
      && Url.PercentDecode(params[5].1) == IsoDate(d) + "T23:59:59"
  {
    hide Url.PercentDecode, IsoDate;
    var base := UrlFor(route, dir.Name());
    DirectionIsPlain(dir);
    UrlForParams(route, dir.Name());
    DayBoundsMeaning(d);
    DayUrlParams(base, DayBounds(d));
    assert DayEntry(route, d, i, dir).url == DayUrl(base, DayBounds(d));
  }

  /** The label of the tab of day `d` reads back as that day. */
  lemma DayEntryLabel(route: string, d: Date, i: nat, dir: Direction)
    ensures var c := DayEntry(route, d, i, dir).caption;
      && |c| >= 10
      && ParseIsoDate(c[..10]) == ToCivil(d)
  {
    var c := DayEntry(route, d, i, dir).caption;
    assert c == IsoDate(d) + (Dash + dir.Name());
    assert c[..10] == IsoDate(d);
    IsoDateRoundTrip(d);
  }

  /** A weekend tab opens the route's status page filtered to the coming
      Saturday and Sunday. */
  lemma WeekendEntryMeaning(route: string, today: Date, n: nat, dir: Direction)
    requires Url.PlainValue(Strip(route))
    requires WeekendBounds(today).Some?
    ensures var e := WeekendEntry(route, WeekendBounds(today).value, n, dir); var params := Url.Params(e.url);
      var sat := UpcomingSaturday(today);
      && Url.Path(e.url) == StatusBase
      && params == StatusParams(route, dir) + [("startDate", WeekendBounds(today).value.0), ("endDate", WeekendBounds(today).value.1), ("dateTypeSelect", ThisWeekend)]
      && Url.PercentDecode(params[3].1) == IsoDate(sat) + "T00:00:00"
      && Url.PercentDecode(params[4].1) == IsoDate(sat + 1) + "T23:59:59"
  {
    hide Url.PercentDecode, IsoDate, WeekendBounds;
    var base := UrlFor(route, dir.Name());
    DirectionIsPlain(dir);
    UrlForParams(route, dir.Name());
    WeekendBoundsMeaning(today);
    WeekendUrlParams(base, WeekendBounds(today).value);
  }
}
