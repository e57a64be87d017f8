# TfL bus status page generator — verified model of its core

`generate.py` builds static pages, one per London bus route. Each page opens a
fixed sequence of browser tabs on the Transport for London status site. It
runs at most once a day and publishes to an output branch. This project
models, in Dafny, the parts of the generator that decide what gets opened and
when:

- **The open plan of a route** (`open_plan_for_route`). It produces two "Now"
  tabs, then two tabs (inbound, outbound) for each day of the date window, in
  date order, then two "This weekend" tabs. Each tab is a label, a status URL
  and a delay in milliseconds. This is modelled as an imperative method
  (`Plan.OpenPlanForRoute`) with a loop over the window. It is proved equal
  to a recursive specification (`Plan.OpenPlan`). An indexed reference
  definition (`Plan.EntryAt`) and lemmas about delays, URLs and labels
  complete it.
- **The date bounds** (`day_bounds_encoded`, `weekend_bounds_encoded`). A day
  runs from `YYYY-MM-DDT00%3A00%3A00` to `YYYY-MM-DDT23%3A59%3A59`. The weekend
  runs from the coming Saturday (today, if it is a Saturday) to the Sunday
  after it. Dates are Python's proleptic Gregorian ordinals
  (1 = 0001-01-01, 3652059 = 9999-12-31). Python's `date.weekday()` and
  `isoformat` are written out and proved: ISO text reads back as the civil
  date, and distinct dates render differently.
- **The naming helpers**. `safe_name` maps every maximal run of characters
  outside `[A-Za-z0-9._-]` to a single `_`. `url_for` builds the status URL
  of a stripped route. The URLs are read back through a query-string parser
  and a percent-decoder (section 2.1 of RFC 3986). This shows which parameters
  every tab asks for.
- **The once-a-day gate** (`already_succeeded_today`). The run is skipped only
  when the marker file on the output branch records `success` for today's
  date. Every failure fails open.
- **Route loading** in `main`. Lines are stripped and blank ones dropped,
  keeping file order. The run stops when no route is left or when a route is
  listed twice.

Modules: `Wrappers` (Option, Result), `Text` (`str.strip`), `Url` (query
parsing, percent-decoding), `Calendar` (ordinals, weekdays, ISO dates),
`Names`, `Bounds`, `Plan`, `Gate` and `Routes`.

## Model

| member | source | states |
|---|---|---|
| Plan.OpenPlanForRoute | generate.py:122-162 | The method returns a plan exactly when the weekend bounds exist. The plan it returns is `OpenPlan`: two "Now" tabs, two tabs per day of the window in date order, and two weekend tabs, built by the loop over the window. |
| Plan.Days | generate.py:141-142 | The window has `end - start + 1` days (none when `end` is before `start`). Day `i` is `start + i`. |
| Plan.DaysPlanEntries | generate.py:134-152 | After `n` days there are `2n + 2` tabs. Tab `k` is the "Now" tab for `k < 2`. Otherwise it is the tab of day `start + (k-2)/2` at window index `(k-2)/2`, inbound on even `k`, outbound on odd. |
| Plan.OpenPlanEntries | generate.py:122-162 | The whole plan has `2 * days + 4` tabs. Each tab equals the position-only reference `EntryAt`, with the weekend tabs last. |
| Plan.EntryDelay | generate.py:137-160 | Tab `k` opens after `DelayAt(days, k)` ms: 0/60 for "Now", `200 + 350 i` (+60 outbound) for day `i`, and `200 + 350 * days + 200` (+60 outbound) for the weekend. |
| Plan.DelaysNonDecreasing | generate.py:137-160 | Delays never decrease along the positions of a plan. |
| Plan.OpenPlanDelaysNonDecreasing | generate.py:137-160 | In every plan, a later tab never opens earlier than an earlier tab. |
| Plan.ThreeDayDelays | generate.py:137-160 | A three-day window gives 10 tabs with delays 0, 60, 200, 260, 550, 610, 900, 960, 1450, 1510. |
| Plan.NowEntryMeaning | generate.py:131-138 | A "Now" tab opens the status page with parameters `input`, `lineIds` (both the stripped route) and `direction`, and no date filter. Its delay is 0 inbound and 60 outbound. |
| Plan.DayEntryMeaning | generate.py:145-152 | A day tab opens the status page with the route parameters, then `dateTypeSelect=Future%20date`, `startDate` and `endDate`. Its start and end decode to that day at 00:00:00 and 23:59:59. |
| Plan.DayEntryLabel | generate.py:147-152 | A day tab's label begins with 10 characters that parse back to the civil date of that day. |
| Plan.WeekendEntryMeaning | generate.py:154-160 | A weekend tab opens the status page with the route parameters, then `startDate`, `endDate` and `dateTypeSelect=This%20weekend`. Start and end decode to the coming Saturday at 00:00:00 and the following Sunday at 23:59:59. |
| Plan.DayUrlParams | generate.py:148-149 | Appending the day filter keeps the URL's path and adds exactly the three filter parameters after the existing ones. |
| Plan.WeekendUrlParams | generate.py:156-157 | Appending the weekend filter keeps the path and adds `startDate`, `endDate`, `dateTypeSelect`, in that order. |
| Plan.FutureDateDecodes | generate.py:148 | The day filter value decodes to `Future date`. |
| Plan.ThisWeekendDecodes | generate.py:156 | The weekend filter value decodes to `This weekend`. |
| Url.AppendThreeParams | generate.py:148-149 | Writing `&k=v` three times after a URL with a query keeps its path and appends those three parameters, in order, to its parsed parameters. |
| Bounds.DayBoundsMeaning | generate.py:76-78 | Both bounds of a day contain no `&` or `#`. They percent-decode to the day's ISO date followed by `T00:00:00` and `T23:59:59`. |
| Bounds.DecodeStartOfDay | generate.py:78 | `T00%3A00%3A00` decodes to `T00:00:00`. |
| Bounds.DecodeEndOfDay | generate.py:78 | `T23%3A59%3A59` decodes to `T23:59:59`. |
| Bounds.UpcomingSaturday | generate.py:80-83 | `today + (5 - weekday) % 7` is a Saturday between today and six days on. |
| Bounds.UpcomingSaturdayIsFirst | generate.py:80-83 | No day from today up to that Saturday is a Saturday: it is the first one. |
| Bounds.SaturdayStartsItsOwnWeekend | generate.py:81-83 | On a Saturday the weekend starts today. |
| Bounds.SundayLooksToNextWeekend | generate.py:81-83 | On a Sunday the weekend starts six days later. |
| Bounds.WeekendBounds | generate.py:80-87 | Bounds exist exactly when the Sunday after the coming Saturday is still a representable date. Otherwise Python raises OverflowError. |
| Bounds.WeekendBoundsMeaning | generate.py:80-87 | The weekend bounds decode to the coming Saturday at 00:00:00 and the Sunday after it at 23:59:59. Neither contains `&` or `#`. |
| Bounds.WeekendOverflowsOnlyAtTheEnd | generate.py:83-84 | The weekend computation fails exactly for the last six representable dates. |
| Calendar.Weekday | generate.py:81 | The weekday of an ordinal is in 0..6 (Monday = 0). |
| Calendar.ToCivilSpec | generate.py:77 | Every ordinal converts to a valid civil date whose ordinal is that ordinal. |
| Calendar.CivilRoundTrip | generate.py:77 | Every valid civil date has an ordinal within range, and converting it back yields the same civil date. |
| Calendar.CivilOrdinalInjective | generate.py:77 | Two valid civil dates with the same ordinal are equal. |
| Calendar.IsoDate | generate.py:77 | The `%Y-%m-%d` text is 10 characters long, with `-` at positions 4 and 7 and digits elsewhere. |
| Calendar.IsoDateRoundTrip | generate.py:77 | Parsing a date's ISO text gives back its civil date. |
| Calendar.IsoDateInjective | generate.py:77 | Two dates with the same ISO text are the same date. |
| Names.SafeName | generate.py:69-70 | The result uses only `[A-Za-z0-9._-]`, is no longer than the input, and is empty exactly when the input is. |
| Names.SafeNameFixedPoints | generate.py:69-70 | A name is left unchanged exactly when it consists of safe characters only. |
| Names.SafeNameIdempotent | generate.py:69-70 | Renaming twice is the same as renaming once. |
| Names.RunBecomesOneUnderscore | generate.py:69-70 | A maximal run of unsafe characters becomes exactly one `_`. The text on either side is renamed on its own. |
| Names.SafeCharKept | generate.py:69-70 | A safe character is copied unchanged in place. |
| Names.SafeNameSplitsAfterSafe | generate.py:69-70 | Text ending in a safe character is renamed independently of what follows it. |
| Names.UrlForParams | generate.py:72-74 | The status URL has path `https://tfl.gov.uk/bus/status/` and parameters `input` = stripped route, `lineIds` = stripped route, `direction` = the direction, in that order. |
| Text.StripUnique | generate.py:73 | `strip()` is the slice from the first to past the last non-whitespace character. |
| Text.StripIdempotent | generate.py:426 | A stripped string has no whitespace at either end and strips to itself. |
| Text.StripEmptyIffBlank | generate.py:426 | A line strips to the empty string exactly when it is all whitespace. |
| Gate.FailuresNeverSkip | generate.py:100-108 | A failed request, a 404, any 4xx/5xx status, or a body that is not a JSON object never skips the run. |
| Gate.MarkerSkipsOnlyItsOwnDay | generate.py:106 | A `success` marker read with a non-error status skips the run exactly when it is dated today. |
| Gate.OnlySuccessSkips | generate.py:106 | A marker with any status other than `success` never skips the run. |
| Gate.SkipsOnAtMostOneDay | generate.py:106 | Whatever the response, it can skip the run on at most one date. |
| Routes.StrippedNonBlank | generate.py:426 | Every loaded route is non-empty with no whitespace at either end. There are no more routes than lines. |
| Routes.StrippedNonBlankAppend | generate.py:426 | Loading keeps file order: the routes of two consecutive pieces of the file are the routes of the first followed by those of the second. |
| Routes.OneLine | generate.py:426 | A blank line contributes nothing. Any other line contributes its stripped text. |
| Routes.RouteFromLine | generate.py:426 | A string is a loaded route exactly when it is non-empty and some line strips to it. |
| Routes.NoRoutesIffAllBlank | generate.py:426-428 | No route is loaded exactly when every line is blank. |
| Routes.DistinctIffNoSizeLoss | generate.py:429-430 | `len(routes) == len(set(routes))` holds exactly when no route is listed twice. |
| Routes.LoadRoutesOutcome | generate.py:426-430 | Route loading fails with "no routes" exactly when all lines are blank. It fails with "duplicates" exactly when some route repeats. Otherwise it succeeds with the stripped non-blank lines in file order. |
| Routes.AcceptedRoutes | generate.py:426-430 | An accepted route list is non-empty and pairwise distinct. Each route is non-empty and trimmed. |

## Left out

- HTTP and the GitHub REST API (fetching `routes.txt`, committing pages, `detect_owner_repo`) are not modelled. The gate takes the fetch outcome as a parameter, and route loading takes the file's lines.
- The clock and the Europe/London time zone (`datetime.now(TZ)`, `london_today_iso`) are not modelled. Today's date, the window and the weekend reference date are parameters.
- `html_for_route` is not modelled. Its HTML and JavaScript, and the browser's opening of tabs, are presentation only.
- `success_state_payload` and `files_to_commit` are not modelled. The gate reads a marker that is described only by the members it inspects (`Gate.Marker`).
- `str.splitlines` is not modelled: route loading starts from the list of lines.
- `strftime("%Y")` is not modelled for years below 1000: its padding is platform dependent, and the model always writes four digits, as `isoformat` does.
- The route is not URL-encoded by the source. The URL-reading lemmas therefore require a stripped route without `&` or `#`. For other routes the URL is still built exactly as written, but its parameters are not read back.
- `Url.PercentDecode` decodes each `%HH` to the code point `HH`. This is exact for the ASCII escapes the generator writes (`%3A`, `%20`), but does not decode UTF-8 sequences.
- The OverflowError of `timedelta` arithmetic near 9999-12-31 becomes `None` (`Bounds.WeekendBounds`, `Plan.OpenPlanForRoute`). Any other exception is out of scope. Start and end dates are assumed to lie within `date`'s range, and the window is assumed not to run past 9999-12-31.
- Bounds.DayBounds: the contract is stated separately, in `Bounds.DayBoundsMeaning`, so that proofs about plans do not carry it.
- Bounds.WeekendBounds: its own contract says only when it exists. What it contains is stated in `Bounds.WeekendBoundsMeaning`.
- Calendar.ToCivil: the contract is stated in `Calendar.ToCivilSpec`. The same holds for `Calendar.FindYear` (`FindYearSpec`) and `Calendar.FindMonth` (`FindMonthSpec`).
- Gate.AlreadySucceededToday: the contract is stated in the lemmas `Gate.FailuresNeverSkip`, `Gate.MarkerSkipsOnlyItsOwnDay`, `Gate.OnlySuccessSkips` and `Gate.SkipsOnAtMostOneDay`.
- Routes.LoadRoutes: the contract is stated in `Routes.LoadRoutesOutcome` and `Routes.AcceptedRoutes`.
