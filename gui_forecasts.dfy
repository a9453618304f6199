/** The older grouping of my-weather-gui/src/types.rs: forecast entries are
    not parsed, a slot holds the raw entry, and the period is read off the
    title (`night:` anywhere in it means night). Current-conditions entries
    are kept unconditionally. */
module GuiForecasts {
  import opened Text
  import opened Feed
  import opened Types
  import opened Weekdays
  import opened Grouping
  import Forecasts

  /** `ForeCastEntry` of this crate: slots and current items hold raw entries. */
  type GuiEntry = Grouping.ForecastEntry<Entry, Entry>

  const NightMarker: string := "night:"

  /** A forecast entry as this pass sees it: kept iff `Day::try_from` finds a
      weekday; the night slot iff the title contains `night:`. */
  function GuiSighting(e: Entry): (r: Option<Sighting<Entry>>)
    ensures r.Some? <==> DayKey(e).Some?
    ensures r.Some? ==> r.value.weekday == DayKey(e).value && r.value.slot == e
    ensures r.Some? ==> (r.value.period == Night <==> Contains(e.title, NightMarker))
  {
    var key := DayKey(e);
    if key.None? then None
    else Some(Sighting(key.value, if Contains(e.title, NightMarker) then Night else Day, e))
  }

  /** Every current-conditions entry is kept as it is. */
  function GuiCurrent(e: Entry): Option<Entry> {
    Some(e)
  }

  /** `to_forecast` of this crate: all current-conditions and warning entries
      in feed order, then one record per weekday by order of first sighting. */
  method GuiToForecast(entries: seq<Entry>) returns (r: seq<GuiEntry>)
    ensures var lead := Leading(entries, GuiCurrent);
            |lead| <= |r| && r[..|lead|] == lead && Arranged(r[|lead|..], DayMap(entries, GuiSighting))
  {
    r := GroupEntries(entries, GuiSighting, GuiCurrent);
  }

  /** The item a current-conditions or warning entry becomes. */
  function Wrap(e: Entry): GuiEntry {
    if e.term == Warnings then Warning(e) else Grouping.ForecastEntry.Current(e)
  }

  function Wrapped(es: seq<Entry>): (r: seq<GuiEntry>)
    ensures |r| == |es|
    decreases |es|
  {
    if es == [] then [] else Wrapped(es[..|es| - 1]) + [Wrap(es[|es| - 1])]
  }

  lemma WrappedStep(es: seq<Entry>, e: Entry)
    ensures Wrapped(es + [e]) == Wrapped(es) + [Wrap(e)]
  {
    assert (es + [e])[..|es|] == es;
  }

  lemma CurrentViewStep(a: seq<Entry>, e: Entry)
    ensures CurrentForecastEntries(a + [e]) ==
            CurrentForecastEntries(a) + (if IsCurrentOrWarning(e) then [e] else [])
  {
    CurrentForecastEntriesInOrder(a, [e]);
    assert [e][..0] == [];
  }

  /** What comes ahead of the records is exactly the current-conditions view
      of the feed (`current_forecast` in my-weather/src/lib.rs), each entry
      wrapped as the item of its kind. */
  lemma {:induction false} GuiLeadingIsCurrentView(entries: seq<Entry>)
    ensures Leading<Entry, Entry>(entries, GuiCurrent) == Wrapped(CurrentForecastEntries(entries))
    decreases |entries|
  {
    if entries != [] {
      var a := entries[..|entries| - 1];
      var e := entries[|entries| - 1];
      GuiLeadingIsCurrentView(a);
      assert entries == a + [e];
      LeadingStep<Entry, Entry>(a, e, GuiCurrent);
      CurrentViewStep(a, e);
      if IsCurrentOrWarning(e) {
        WrappedStep(CurrentForecastEntries(a), e);
      } else {
        assert CurrentForecastEntries(a) + [] == CurrentForecastEntries(a);
      }
    }
  }

  /** Every filled slot of a weekday's record holds an entry of the feed whose
      title begins with that weekday's name; the night slot's title contains
      `night:` and the day slot's does not. */
  lemma GuiRecordSlotsFit(entries: seq<Entry>, k: DayOfWeek)
    requires k in DayMap<Entry, Entry>(entries, GuiSighting)
    ensures var r := DayMap<Entry, Entry>(entries, GuiSighting)[k];
            r.Future? &&
            (r.day.Some? ==> r.day.value in entries && StartsWith(r.day.value.title, DayOfWeekName(k)) &&
                             !Contains(r.day.value.title, NightMarker)) &&
            (r.night.Some? ==> r.night.value in entries && StartsWith(r.night.value.title, DayOfWeekName(k)) &&
                               Contains(r.night.value.title, NightMarker))
  {
    WeekdayRecord<Entry, Entry>(entries, GuiSighting, k);
    LastSlotIsLast(entries, k, Day, GuiSighting);
    LastSlotIsLast(entries, k, Night, GuiSighting);
  }

  // ---------------------------------------------------------------------
  // `ForeCastEntry::summary`

  /** This crate's `remap_html`: only the first three replacements of the
      library's chain; sign words are left as they are. */
  function GuiRemapHtml(s: string): string {
    ReplaceAll(ReplaceAll(ReplaceAll(s, "&deg;", "°"), "<br/>", ""), ". ", ".\n")
  }

  /** Text without a degree entity, a line break tag or a sentence break is
      left unchanged, sign words included. */
  lemma GuiRemapHtmlPlain(s: string)
    requires !Contains(s, "&deg;") && !Contains(s, "<br/>") && !Contains(s, ". ")
    ensures GuiRemapHtml(s) == s
  {
    ReplaceAllAbsent(s, "&deg;", "°");
    ReplaceAllAbsent(s, "<br/>", "");
    ReplaceAllAbsent(s, ". ", ".\n");
  }

  function GuiSummary(x: GuiEntry): (r: string)
    ensures x.Warning? ==> r == GuiRemapHtml(x.entry.summary)
    ensures x.Current? ==> r == GuiRemapHtml(x.current.summary)
    ensures x.Future? ==> (r == [] <==> x.day.None? && x.night.None?)
    ensures x.Future? && x.day.Some? ==> StartsWith(r, DayHeading + GuiRemapHtml(x.day.value.summary))
    ensures x.Future? && x.day.None? && x.night.Some? ==>
              StartsWith(r, NightHeading + GuiRemapHtml(x.night.value.summary))
    ensures x.Future? && x.night.Some? ==>
              var night := NightHeading + GuiRemapHtml(x.night.value.summary);
              OccursAt(r, night, |r| - |night|)
  {
    match x
    case Warning(entry) => GuiRemapHtml(entry.summary)
    case Current(entry) => GuiRemapHtml(entry.summary)
    case Future(_, day, night) =>
      PeriodsMarkup(if day.Some? then Some(GuiRemapHtml(day.value.summary)) else None,
                    if night.Some? then Some(GuiRemapHtml(night.value.summary)) else None)
  }

  /** Every record this pass produces has a summary. */
  lemma GuiRecordSummaryNonEmpty(entries: seq<Entry>, k: DayOfWeek)
    requires k in DayMap<Entry, Entry>(entries, GuiSighting)
    ensures GuiSummary(DayMap<Entry, Entry>(entries, GuiSighting)[k]) != []
  {
    RecordHasSlot<Entry, Entry>(entries, GuiSighting, k);
  }
}
