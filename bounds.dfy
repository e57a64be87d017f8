/** The encoded timestamp bounds the generator puts into date-scoped status
    URLs: the first and last second of a day (`day_bounds_encoded`) and of
    the coming weekend (`weekend_bounds_encoded`). The `:` of a time is
    written `%3A`, its percent-encoding (section 2.1 of RFC 3986). */
module Bounds {
  import opened Calendar
  import opened Wrappers
  import Url

  /** No character of a rendered date can end or escape a query value. */
  lemma IsoDateIsPlain(d: Date)
    ensures '%' !in IsoDate(d) && Url.PlainValue(IsoDate(d))
  {
    var s := IsoDate(d);
    assert forall i | 0 <= i < |s| :: s[i] == '-' || IsDigit(s[i]);
  }

  /** Decoding `T<h>%3A<m>%3A<s>` gives the wall-clock text `T<h>:<m>:<s>`. */
  lemma DecodeTime(h: string, m: string, s: string)
    requires '%' !in h && '%' !in m && '%' !in s
    ensures Url.PercentDecode("T" + (h + ("%3A" + (m + ("%3A" + s)))))
         == "T" + (h + (":" + (m + (":" + s))))
  {
    Url.DecodeNoPercent(s);
    var t := "%3A" + s;
    Url.DecodeColon(s);
    var u := m + t;
    Url.DecodePlain(m, t);
    var v := "%3A" + u;
    Url.DecodeColon(u);
    var w := h + v;
    Url.DecodePlain(h, v);
    Url.DecodePlain("T", w);
  }

  const StartOfDay: string := "T00%3A00%3A00"
  const EndOfDay: string := "T23%3A59%3A59"

  lemma StartOfDayShape()
    ensures StartOfDay == "T" + ("00" + ("%3A" + ("00" + ("%3A" + "00"))))
    ensures "T00:00:00" == "T" + ("00" + (":" + ("00" + (":" + "00"))))
  {
  }

  lemma EndOfDayShape()
    ensures EndOfDay == "T" + ("23" + ("%3A" + ("59" + ("%3A" + "59"))))
    ensures "T23:59:59" == "T" + ("23" + (":" + ("59" + (":" + "59"))))
  {
  }

  lemma TimesArePlain()
    ensures Url.PlainValue(StartOfDay) && Url.PlainValue(EndOfDay)
  {
  }

  /** The fixed time suffixes decode to the wall-clock times they encode. */
  lemma DecodeStartOfDay()
    ensures Url.PercentDecode(StartOfDay) == "T00:00:00"
  {
    DecodeTime("00", "00", "00");
    StartOfDayShape();
  }

  lemma DecodeEndOfDay()
    ensures Url.PercentDecode(EndOfDay) == "T23:59:59"
  {
    DecodeTime("23", "59", "59");
    EndOfDayShape();
  }

  /** `day_bounds_encoded(day)`: `day` at 00:00:00 and at 23:59:59. */
  function DayBounds(d: Date): (string, string)
  {
    (IsoDate(d) + StartOfDay, IsoDate(d) + EndOfDay)
  }

  /** Read back, the day bounds are the day at its first and its last
      second, and neither can end or escape a query value. */
  lemma DayBoundsMeaning(d: Date)
    ensures Url.PercentDecode(DayBounds(d).0) == IsoDate(d) + "T00:00:00"
    ensures Url.PercentDecode(DayBounds(d).1) == IsoDate(d) + "T23:59:59"
    ensures Url.PlainValue(DayBounds(d).0) && Url.PlainValue(DayBounds(d).1)
  {
    var iso := IsoDate(d);
    IsoDateIsPlain(d);
    TimesArePlain();
    Url.PlainAppend(iso, StartOfDay);
    Url.PlainAppend(iso, EndOfDay);
    DecodeStartOfDay();
    DecodeEndOfDay();
    Url.DecodePlain(iso, StartOfDay);
    Url.DecodePlain(iso, EndOfDay);
  }

  /** `today + timedelta(days=(5 - today.weekday()) % 7)`: the first Saturday
      on or after `ref`, which may lie past the last representable date. */
  function UpcomingSaturday(ref: Date): (sat: int)
    ensures ref <= sat <= ref + 6
    ensures Weekday(sat) == Saturday
  {
    ref + (Saturday - Weekday(ref)) % 7
  }

  /** No Saturday is skipped: every day from `ref` up to the chosen one is
      another day of the week. */
  lemma UpcomingSaturdayIsFirst(ref: Date, d: int)
    requires ref <= d < UpcomingSaturday(ref)
    ensures Weekday(d) != Saturday
  {
  }

  /** `weekend_bounds_encoded(today)`: the coming Saturday at 00:00:00 and
      the Sunday after it at 23:59:59. `None` stands for the OverflowError
      Python raises when either day lies past 9999-12-31. */
  function WeekendBounds(ref: Date): (r: Option<(string, string)>)
    ensures r.Some? <==> UpcomingSaturday(ref) + 1 <= MaxOrdinal
  {
    var sat := UpcomingSaturday(ref);
    if sat > MaxOrdinal then None
    else if sat + 1 > MaxOrdinal then None
    else
      var saturday := DayBounds(sat);
      var sunday := DayBounds(sat + 1);
      Some((saturday.0, sunday.1))
  }

  /** Read back, the weekend bounds are the coming Saturday at 00:00:00 and
      the Sunday after it at 23:59:59, and neither can end or escape a
      query value. */
  lemma WeekendBoundsMeaning(ref: Date)
    requires WeekendBounds(ref).Some?
    ensures var sat := UpcomingSaturday(ref); var b := WeekendBounds(ref).value;
      && Url.PercentDecode(b.0) == IsoDate(sat) + "T00:00:00"
      && Url.PercentDecode(b.1) == IsoDate(sat + 1) + "T23:59:59"
      && Url.PlainValue(b.0) && Url.PlainValue(b.1)
  {
    var sat := UpcomingSaturday(ref);
    var b := WeekendBounds(ref).value;
    assert b == (DayBounds(sat).0, DayBounds(sat + 1).1);
    DayBoundsMeaning(sat);
    DayBoundsMeaning(sat + 1);
  }

  /** A Saturday's weekend starts that same day. */
  lemma SaturdayStartsItsOwnWeekend(ref: Date)
    requires Weekday(ref) == Saturday
    ensures UpcomingSaturday(ref) == ref
  {
  }

  /** A Sunday's weekend is the next one, six days later, never the one ending that day. */
  lemma SundayLooksToNextWeekend(ref: Date)
    requires Weekday(ref) == Sunday
    ensures UpcomingSaturday(ref) == ref + 6
  {
  }

  /** The weekend bounds fail exactly for the six days after the last
      representable Saturday, 9999-12-25; the check of the Sunday never fires
      on its own because 9999-12-31 is a Friday. */
  lemma WeekendOverflowsOnlyAtTheEnd(ref: Date)
    ensures WeekendBounds(ref).None? <==> ref > MaxOrdinal - 6
    ensures UpcomingSaturday(ref) <= MaxOrdinal ==> UpcomingSaturday(ref) + 1 <= MaxOrdinal
  {
    assert Weekday(MaxOrdinal - 6) == Saturday;
    if ref <= MaxOrdinal - 6 {
      assert UpcomingSaturday(ref) <= MaxOrdinal - 6;
    }
  }
}
