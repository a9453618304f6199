/** The typed view of the feed in my-weather/src/types.rs: reading titles
    into forecasts (`FromStr`, `parse_future_forecast`), the grouping pass
    with those readings (`to_forecast`) and the summary markup. */
module Forecasts {
  import opened Text
  import opened Feed
  import opened Types
  import opened Parsers
  import opened ParserProofs
  import opened Weekdays
  import opened Grouping

  /** `ForecastEntry` of this crate: slots hold parsed forecasts with their entries. */
  type LiveEntry = Grouping.ForecastEntry<ForecastWithEntry, CurrentForecastWithEntry>

  // ---------------------------------------------------------------------
  // `FromStr` for `Forecast` and `CurrentForecast`: the remainder is dropped

  function ForecastFromStr(s: string): (r: Option<Forecast>)
    ensures r.Some? <==> ParseForecast(s).Done?
    ensures r.Some? ==> StartsWith(s, DayOfWeekName(r.value.dayOfWeek))
    ensures r.Some? ==> r.value.fahrenheit == ToFahrenheit(r.value.celsius)
  {
    var p := ParseForecast(s);
    if p.Done? then Some(p.value) else None
  }

  function CurrentFromStr(s: string): (r: Option<CurrentForecast>)
    ensures r.Some? <==> ParseCurrentForecast(s).Done?
    ensures r.Some? ==> StartsWith(s, CurrentPrefix) && r.value.celsius.Current?
    ensures r.Some? ==> r.value.fahrenheit == ToFahrenheit(r.value.celsius)
  {
    var p := ParseCurrentForecast(s);
    if p.Done? then Some(p.value) else None
  }

  /** A well-formed title is accepted whatever text follows the temperature. */
  lemma ForecastFromStrIgnoresTail(dow: DayOfWeek, dn: DayNight, description: string, l: LeadIn,
                                   n: int, plus: bool, gap: string, tail: string)
    requires IsTrimmed(description) && NoLeadInUpTo(description, l)
    requires AllBlank(gap) && NoNumeralAhead(tail) && NoEarlierLeadIn(tail, l)
    ensures var c := Reading(l, n as real);
            ForecastFromStr(TitleText(dow, dn, description, l, n, plus, gap, tail))
            == Some(Forecast(c, ToFahrenheit(c), description, dn, dow))
  {
    ForecastRoundTrip(dow, dn, description, l, n, plus, gap, tail);
  }

  lemma CurrentFromStrIgnoresTail(description: string, neg: bool, whole: nat, fraction: string, rest: string)
    requires !Contains(description, ", ") && AllDigits(fraction) && EndsDecimal(rest)
    ensures var c: Temperature<Celsius> := Temperature.Current(DecimalValue(neg, whole, fraction));
            CurrentFromStr(CurrentPrefix + (description + ", " + (DecimalText(neg, whole, fraction) + rest)))
            == Some(CurrentForecast(c, ToFahrenheit(c), description))
  {
    CurrentForecastRoundTrip(description, neg, whole, fraction, rest);
  }

  // ---------------------------------------------------------------------
  // `parse_future_forecast` and the readings the pass is run with

  /** The weekday key and the parsed title of a forecast entry, when both exist;
      the key is always the weekday the title names. */
  function ParseFutureForecast(e: Entry): (r: Option<(DayOfWeek, Forecast)>)
    ensures r.Some? <==> DayKey(e).Some? && ParseForecast(e.title).Done?
    ensures r.Some? ==> e.term == ForeCast && r.value.0 == r.value.1.dayOfWeek
  {
    var key := DayKey(e);
    var forecast := ForecastFromStr(e.title);
    if key.None? || forecast.None? then None
    else
      DayKeyAgreesWithTitle(e);
      Some((key.value, forecast.value))
  }

  /** A forecast entry as the pass sees it: kept iff `parse_future_forecast`
      succeeds, for the weekday and period its title names, the slot getting
      the forecast together with the entry. */
  function FutureSighting(e: Entry): (r: Option<Sighting<ForecastWithEntry>>)
    ensures r.Some? <==> ParseFutureForecast(e).Some?
    ensures r.Some? ==> r.value.slot.entry == e
    ensures r.Some? ==> r.value.weekday == r.value.slot.forecast.dayOfWeek
    ensures r.Some? ==> r.value.period == r.value.slot.forecast.day
  {
    var p := ParseFutureForecast(e);
    if p.None? then None
    else Some(Sighting(p.value.0, p.value.1.day, ForecastWithEntry(p.value.1, e)))
  }

  /** A current-conditions entry as the pass sees it: kept iff its title parses. */
  function CurrentSighting(e: Entry): (r: Option<CurrentForecastWithEntry>)
    ensures r.Some? <==> CurrentFromStr(e.title).Some?
    ensures r.Some? ==> r.value == CurrentForecastWithEntry(CurrentFromStr(e.title).value, e)
  {
    var c := CurrentFromStr(e.title);
    if c.None? then None else Some(CurrentForecastWithEntry(c.value, e))
  }

  // ---------------------------------------------------------------------
  // `to_forecast`

  /** The current conditions whose titles parse and all warnings, in feed
      order, then one record per weekday by order of first sighting. */
  method ToForecast(entries: seq<Entry>) returns (r: seq<LiveEntry>)
    ensures var lead := Leading(entries, CurrentSighting);
            |lead| <= |r| && r[..|lead|] == lead && Arranged(r[|lead|..], DayMap(entries, FutureSighting))
  {
    r := GroupEntries(entries, FutureSighting, CurrentSighting);
  }

  /** Every filled slot of a weekday's record holds a forecast of the feed,
      for that weekday and for the slot's period. */
  lemma RecordSlotsFit(entries: seq<Entry>, k: DayOfWeek)
    requires k in DayMap<ForecastWithEntry, CurrentForecastWithEntry>(entries, FutureSighting)
    ensures var r := DayMap<ForecastWithEntry, CurrentForecastWithEntry>(entries, FutureSighting)[k];
            r.Future? &&
            (r.day.Some? ==> r.day.value.entry in entries && r.day.value.forecast.dayOfWeek == k &&
                             r.day.value.forecast.day == Day) &&
            (r.night.Some? ==> r.night.value.entry in entries && r.night.value.forecast.dayOfWeek == k &&
                               r.night.value.forecast.day == Night)
  {
    WeekdayRecord<ForecastWithEntry, CurrentForecastWithEntry>(entries, FutureSighting, k);
    LastSlotIsLast(entries, k, Day, FutureSighting);
    LastSlotIsLast(entries, k, Night, FutureSighting);
  }

  // ---------------------------------------------------------------------
  // `ForecastEntry::summary`

  /** The `remap_html` chain of replacements, applied left to right. */
  function RemapHtml(s: string): string {
    ReplaceAll(ReplaceAll(ReplaceAll(ReplaceAll(ReplaceAll(s, "&deg;", "°"), "<br/>", ""), ". ", ".\n"), "minus ", "-"), "plus ", "")
  }

  /** Text with none of the rewritten patterns passes through unchanged. */
  lemma RemapHtmlPlain(s: string)
    requires !Contains(s, "&deg;") && !Contains(s, "<br/>") && !Contains(s, ". ")
    requires !Contains(s, "minus ") && !Contains(s, "plus ")
    ensures RemapHtml(s) == s
  {
    ReplaceAllAbsent(s, "&deg;", "°");
    ReplaceAllAbsent(s, "<br/>", "");
    ReplaceAllAbsent(s, ". ", ".\n");
    ReplaceAllAbsent(s, "minus ", "-");
    ReplaceAllAbsent(s, "plus ", "");
  }

  function Summary(x: LiveEntry): (r: string)
    ensures x.Warning? ==> r == RemapHtml(x.entry.summary)
    ensures x.Current? ==> r == RemapHtml(x.current.entry.summary)
    ensures x.Future? ==> (r == [] <==> x.day.None? && x.night.None?)
    ensures x.Future? && x.day.Some? ==> StartsWith(r, DayHeading + RemapHtml(x.day.value.entry.summary))
    ensures x.Future? && x.day.None? && x.night.Some? ==>
              StartsWith(r, NightHeading + RemapHtml(x.night.value.entry.summary))
    ensures x.Future? && x.night.Some? ==>
              var night := NightHeading + RemapHtml(x.night.value.entry.summary);
              OccursAt(r, night, |r| - |night|)
  {
    match x
    case Warning(entry) => RemapHtml(entry.summary)
    case Current(c) => RemapHtml(c.entry.summary)
    case Future(_, day, night) =>
      PeriodsMarkup(if day.Some? then Some(RemapHtml(day.value.entry.summary)) else None,
                    if night.Some? then Some(RemapHtml(night.value.entry.summary)) else None)
  }

  /** Every record the pass produces has a summary: a record exists only
      once a forecast of its weekday has filled a slot. */
  lemma RecordSummaryNonEmpty(entries: seq<Entry>, k: DayOfWeek)
    requires k in DayMap<ForecastWithEntry, CurrentForecastWithEntry>(entries, FutureSighting)
    ensures Summary(DayMap<ForecastWithEntry, CurrentForecastWithEntry>(entries, FutureSighting)[k]) != []
  {
    RecordHasSlot<ForecastWithEntry, CurrentForecastWithEntry>(entries, FutureSighting, k);
  }
}
