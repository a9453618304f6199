/** The grouping of src-tauri/src/types.rs. A weekday's record collects
    every parsed forecast of that weekday in a list, appending rather than
    replacing. The record is created by the first entry whose title begins
    with a weekday name, whether or not the rest of the title parses. A
    current-conditions title that does not parse stops the pass (`unwrap`).
    The title parsers of this crate are not part of this model, so the pass
    takes them as parameters. */
module TauriForecasts {
  import opened Text
  import opened Feed
  import opened Types
  import opened Ordering
  import opened Weekdays
  import Grouping
  import Forecasts

  /** `ForecastEntry` of this crate. */
  datatype TauriEntry =
    | Warning(entry: Entry)
    | Current(current: CurrentForecastWithEntry)
    | Future(sequence: nat, forecast: seq<ForecastWithEntry>)

  function TauriSequenceOf(r: TauriEntry): int {
    if r.Future? then r.sequence else 0
  }

  /** What an entry adds to its weekday's list: its forecast if the title
      parses, else nothing. */
  function Parsed(e: Entry, parseForecast: string -> Option<Forecast>): (r: seq<ForecastWithEntry>)
    ensures |r| <= 1
    ensures r != [] <==> parseForecast(e.title).Some?
    ensures r != [] ==> r[0] == ForecastWithEntry(parseForecast(e.title).value, e)
  {
    var f := parseForecast(e.title);
    if f.Some? then [ForecastWithEntry(f.value, e)] else []
  }

  // ---------------------------------------------------------------------
  // The reference definition of the pass

  /** One entry at position `index` applied to the weekday map: an entry with
      a weekday key appends what it parses to its weekday's record, creating
      the record if there is none yet; any other entry changes nothing. */
  function TauriRecord(m: map<DayOfWeek, TauriEntry>, index: nat, e: Entry,
                       parseForecast: string -> Option<Forecast>): map<DayOfWeek, TauriEntry>
  {
    var key := DayKey(e);
    if key.None? then m
    else
      var k := key.value;
      if k in m && m[k].Future? then m[k := m[k].(forecast := m[k].forecast + Parsed(e, parseForecast))]
      else m[k := Future(index, Parsed(e, parseForecast))]
  }

  function TauriDayMap(entries: seq<Entry>, parseForecast: string -> Option<Forecast>): map<DayOfWeek, TauriEntry>
    decreases |entries|
  {
    if entries == [] then map[]
    else TauriRecord(TauriDayMap(entries[..|entries| - 1], parseForecast), |entries| - 1, entries[|entries| - 1], parseForecast)
  }

  /** The pass stops at a current-conditions entry whose title does not parse. */
  ghost predicate Panics(entries: seq<Entry>, parseCurrent: string -> Option<CurrentForecast>) {
    exists i :: 0 <= i < |entries| && entries[i].term == Feed.Current && parseCurrent(entries[i].title).None?
  }

  function TauriLead(e: Entry, parseCurrent: string -> Option<CurrentForecast>): seq<TauriEntry> {
    match e.term
    case Current =>
      var c := parseCurrent(e.title);
      if c.Some? then [TauriEntry.Current(CurrentForecastWithEntry(c.value, e))] else []
    case Warnings => [Warning(e)]
    case ForeCast => []
  }

  function TauriLeading(entries: seq<Entry>, parseCurrent: string -> Option<CurrentForecast>): (r: seq<TauriEntry>)
    ensures forall x :: x in r ==> !x.Future?
    decreases |entries|
  {
    if entries == [] then []
    else TauriLeading(entries[..|entries| - 1], parseCurrent) + TauriLead(entries[|entries| - 1], parseCurrent)
  }

  ghost predicate TauriArranged(fs: seq<TauriEntry>, m: map<DayOfWeek, TauriEntry>) {
    StrictlyAscending(fs, TauriSequenceOf) && forall x :: x in fs <==> x in m.Values
  }

  // ---------------------------------------------------------------------
  // `to_forecast`

  /** The pass: `None` stands for the panic, which happens iff some
      current-conditions title does not parse. Otherwise the current
      conditions and warnings in feed order, then exactly the weekday
      records, by ascending sequence number. */
  method TauriToForecast(entries: seq<Entry>, parseForecast: string -> Option<Forecast>,
                         parseCurrent: string -> Option<CurrentForecast>)
    returns (r: Option<seq<TauriEntry>>)
    ensures r.None? <==> Panics(entries, parseCurrent)
    ensures r.Some? ==>
              var lead := TauriLeading(entries, parseCurrent);
              |lead| <= |r.value| && r.value[..|lead|] == lead &&
              TauriArranged(r.value[|lead|..], TauriDayMap(entries, parseForecast))
  {
    var dayMap: map<DayOfWeek, TauriEntry> := map[];
    var result: seq<TauriEntry> := [];
    var index := 0;
    while index < |entries|
      invariant 0 <= index <= |entries|
      invariant !Panics(entries[..index], parseCurrent)
      invariant dayMap == TauriDayMap(entries[..index], parseForecast)
      invariant result == TauriLeading(entries[..index], parseCurrent)
    {
      var entry := entries[index];
      TauriDayMapStep(entries[..index], entry, parseForecast);
      TauriLeadingStep(entries[..index], entry, parseCurrent);
      match entry.term {
        case Current =>
          var cf := parseCurrent(entry.title);
          if cf.None? {
            assert entries[index].term == Feed.Current && parseCurrent(entries[index].title).None?;
            return None;
          }
          result := result + [TauriEntry.Current(CurrentForecastWithEntry(cf.value, entry))];
        case Warnings =>
          result := result + [Warning(entry)];
        case ForeCast =>
          var key := DayKey(entry);
          if key.Some? {
            var parsed := Parsed(entry, parseForecast);
            if key.value in dayMap && dayMap[key.value].Future? {
              var record := dayMap[key.value];
              dayMap := dayMap[key.value := record.(forecast := record.forecast + parsed)];
            } else {
              dayMap := dayMap[key.value := Future(index, parsed)];
            }
          }
      }
      PanicsStep(entries[..index], entry, parseCurrent);
      assert entries[..index] + [entry] == entries[..index + 1];
      index := index + 1;
    }
    assert entries[..index] == entries;
    var values := ValuesIn(dayMap, AllDays);
    TauriCollectedDistinct(entries, parseForecast);
    var sorted := SortByKey(values, TauriSequenceOf);
    TauriSortedArranged(dayMap, sorted);
    r := Some(result + sorted);
    assert r.value[..|result|] == result && r.value[|result|..] == sorted;
  }

  lemma TauriDayMapStep(a: seq<Entry>, e: Entry, parseForecast: string -> Option<Forecast>)
    ensures TauriDayMap(a + [e], parseForecast) == TauriRecord(TauriDayMap(a, parseForecast), |a|, e, parseForecast)
  {
    var b := a + [e];
    assert b[..|b| - 1] == a && b[|b| - 1] == e;
  }

  lemma TauriLeadingStep(a: seq<Entry>, e: Entry, parseCurrent: string -> Option<CurrentForecast>)
    ensures TauriLeading(a + [e], parseCurrent) == TauriLeading(a, parseCurrent) + TauriLead(e, parseCurrent)
  {
    assert (a + [e])[..|a|] == a;
  }

  lemma PanicsStep(a: seq<Entry>, e: Entry, parseCurrent: string -> Option<CurrentForecast>)
    requires !Panics(a, parseCurrent)
    requires !(e.term == Feed.Current && parseCurrent(e.title).None?)
    ensures !Panics(a + [e], parseCurrent)
  {
    var b := a + [e];
    forall i | 0 <= i < |b| ensures !(b[i].term == Feed.Current && parseCurrent(b[i].title).None?) {
      if i < |a| {
        assert b[i] == a[i];
      }
    }
  }

  lemma TauriCollectedDistinct(entries: seq<Entry>, parseForecast: string -> Option<Forecast>)
    ensures DistinctKeys(ValuesIn(TauriDayMap(entries, parseForecast), AllDays), TauriSequenceOf)
  {
    TauriDistinctRecords(entries, parseForecast);
    AllDaysComplete();
    ValuesInDistinct(TauriDayMap(entries, parseForecast), AllDays, TauriSequenceOf);
  }

  lemma TauriSortedArranged(m: map<DayOfWeek, TauriEntry>, sorted: seq<TauriEntry>)
    requires StrictlyAscending(sorted, TauriSequenceOf)
    requires multiset(sorted) == multiset(ValuesIn(m, AllDays))
    ensures TauriArranged(sorted, m)
  {
    AllDaysValues(m);
    forall x ensures x in sorted <==> x in m.Values {
      assert x in sorted <==> x in multiset(sorted);
      assert x in ValuesIn(m, AllDays) <==> x in multiset(ValuesIn(m, AllDays));
    }
  }

  // ---------------------------------------------------------------------
  // What the weekday map holds

  /** Entry `e` carries weekday `k` (its title begins with the name). */
  predicate Keyed(e: Entry, k: DayOfWeek) {
    DayKey(e) == Some(k)
  }

  ghost predicate KeySeen(entries: seq<Entry>, k: DayOfWeek) {
    exists i :: 0 <= i < |entries| && Keyed(entries[i], k)
  }

  predicate FirstKeyed(entries: seq<Entry>, k: DayOfWeek, i: int) {
    0 <= i < |entries| && Keyed(entries[i], k) && forall j :: 0 <= j < i ==> !Keyed(entries[j], k)
  }

  /** The forecasts of weekday `k` that parse, in feed order. */
  function Collected(entries: seq<Entry>, k: DayOfWeek, parseForecast: string -> Option<Forecast>): seq<ForecastWithEntry>
    decreases |entries|
  {
    if entries == [] then []
    else
      var e := entries[|entries| - 1];
      Collected(entries[..|entries| - 1], k, parseForecast) + (if Keyed(e, k) then Parsed(e, parseForecast) else [])
  }

  /** A forecast is collected for `k` iff it is the parse of the title of an
      entry of the feed carrying weekday `k`. */
  lemma {:induction false} CollectedMembers(entries: seq<Entry>, k: DayOfWeek, parseForecast: string -> Option<Forecast>,
                                            fc: ForecastWithEntry)
    ensures fc in Collected(entries, k, parseForecast) <==>
            fc.entry in entries && Keyed(fc.entry, k) && parseForecast(fc.entry.title) == Some(fc.forecast)
    decreases |entries|
  {
    if entries != [] {
      var a := entries[..|entries| - 1];
      var e := entries[|entries| - 1];
      CollectedMembers(a, k, parseForecast, fc);
      assert entries == a + [e];
      if fc.entry in entries && fc.entry != e {
        assert fc.entry in a;
      }
    }
  }

  /** Collecting works entry by entry, so the list keeps the feed order. */
  lemma {:induction false} CollectedAppend(a: seq<Entry>, b: seq<Entry>, k: DayOfWeek, parseForecast: string -> Option<Forecast>)
    ensures Collected(a + b, k, parseForecast) == Collected(a, k, parseForecast) + Collected(b, k, parseForecast)
    decreases |b|
  {
    if b == [] {
      assert a + b == a;
    } else {
      var b' := b[..|b| - 1];
      assert (a + b)[..|a + b| - 1] == a + b';
      assert (a + b)[|a + b| - 1] == b[|b| - 1];
      CollectedAppend(a, b', k, parseForecast);
    }
  }

  ghost predicate TauriCovers(entries: seq<Entry>, m: map<DayOfWeek, TauriEntry>) {
    forall k :: k in m <==> KeySeen(entries, k)
  }

  /** Each record is numbered by its weekday's first keyed entry and holds the
      weekday's collected forecasts. */
  predicate TauriIndexed(entries: seq<Entry>, m: map<DayOfWeek, TauriEntry>, parseForecast: string -> Option<Forecast>) {
    forall k :: k in m ==>
      m[k].Future? && FirstKeyed(entries, k, m[k].sequence) && m[k].forecast == Collected(entries, k, parseForecast)
  }

  lemma TauriRecordFrame(m: map<DayOfWeek, TauriEntry>, index: nat, e: Entry, parseForecast: string -> Option<Forecast>)
    ensures forall k :: k in TauriRecord(m, index, e, parseForecast) <==> k in m || Keyed(e, k)
    ensures forall k :: k in m && !Keyed(e, k) ==> TauriRecord(m, index, e, parseForecast)[k] == m[k]
  {
  }

  /** An entry whose title begins with a weekday name creates its weekday's
      record even when the rest of the title does not parse. */
  lemma RecordWithoutForecast(m: map<DayOfWeek, TauriEntry>, index: nat, e: Entry, parseForecast: string -> Option<Forecast>)
    requires DayKey(e).Some? && DayKey(e).value !in m
    ensures TauriRecord(m, index, e, parseForecast)[DayKey(e).value] == Future(index, Parsed(e, parseForecast))
  {
  }

  /** A later entry for the weekday appends to the record's list; the
      sequence number stays. */
  lemma RecordAppends(m: map<DayOfWeek, TauriEntry>, index: nat, e: Entry, parseForecast: string -> Option<Forecast>)
    requires DayKey(e).Some? && DayKey(e).value in m && m[DayKey(e).value].Future?
    ensures var k := DayKey(e).value;
            TauriRecord(m, index, e, parseForecast)[k] == Future(m[k].sequence, m[k].forecast + Parsed(e, parseForecast))
  {
  }

  lemma TauriCoversStep(a: seq<Entry>, e: Entry, m: map<DayOfWeek, TauriEntry>, parseForecast: string -> Option<Forecast>)
    requires TauriCovers(a, m)
    ensures TauriCovers(a + [e], TauriRecord(m, |a|, e, parseForecast))
  {
    TauriRecordFrame(m, |a|, e, parseForecast);
    var b := a + [e];
    forall k ensures KeySeen(b, k) <==> KeySeen(a, k) || Keyed(e, k) {
      if KeySeen(a, k) {
        var i :| 0 <= i < |a| && Keyed(a[i], k);
        assert b[i] == a[i];
      }
      if Keyed(e, k) {
        assert b[|a|] == e;
      }
      if KeySeen(b, k) {
        var i :| 0 <= i < |b| && Keyed(b[i], k);
        if i < |a| {
          assert b[i] == a[i];
        }
      }
    }
  }

  lemma TauriIndexedStep(a: seq<Entry>, e: Entry, m: map<DayOfWeek, TauriEntry>, parseForecast: string -> Option<Forecast>)
    requires TauriCovers(a, m) && TauriIndexed(a, m, parseForecast)
    ensures TauriIndexed(a + [e], TauriRecord(m, |a|, e, parseForecast), parseForecast)
  {
    var b := a + [e];
    var m' := TauriRecord(m, |a|, e, parseForecast);
    TauriRecordFrame(m, |a|, e, parseForecast);
    assert b[..|b| - 1] == a && b[|b| - 1] == e;
    forall k | k in m'
      ensures m'[k].Future? && FirstKeyed(b, k, m'[k].sequence) && m'[k].forecast == Collected(b, k, parseForecast)
    {
      if k in m {
        var i := m[k].sequence;
        assert b[i] == a[i];
        forall j | 0 <= j < i ensures !Keyed(b[j], k) {
          assert b[j] == a[j];
        }
      } else {
        assert !KeySeen(a, k);
        forall j | 0 <= j < |a| ensures !Keyed(b[j], k) {
          assert b[j] == a[j];
        }
        CollectedUnseen(a, k, parseForecast);
      }
    }
  }

  lemma {:induction false} CollectedUnseen(entries: seq<Entry>, k: DayOfWeek, parseForecast: string -> Option<Forecast>)
    requires !KeySeen(entries, k)
    ensures Collected(entries, k, parseForecast) == []
    decreases |entries|
  {
    if entries != [] {
      var a := entries[..|entries| - 1];
      assert !Keyed(entries[|entries| - 1], k);
      forall i | 0 <= i < |a| ensures !Keyed(a[i], k) {
        assert a[i] == entries[i];
      }
      CollectedUnseen(a, k, parseForecast);
    }
  }

  /** There is a record exactly for each weekday some entry carries; it is
      numbered by the first such entry and lists the weekday's forecasts. */
  lemma {:induction false} TauriDayMapRecords(entries: seq<Entry>, parseForecast: string -> Option<Forecast>)
    ensures TauriCovers(entries, TauriDayMap(entries, parseForecast))
    ensures TauriIndexed(entries, TauriDayMap(entries, parseForecast), parseForecast)
    decreases |entries|
  {
    if entries != [] {
      var a := entries[..|entries| - 1];
      var e := entries[|entries| - 1];
      TauriDayMapRecords(a, parseForecast);
      TauriCoversStep(a, e, TauriDayMap(a, parseForecast), parseForecast);
      TauriIndexedStep(a, e, TauriDayMap(a, parseForecast), parseForecast);
      assert a + [e] == entries;
    }
  }

  lemma TauriDistinctRecords(entries: seq<Entry>, parseForecast: string -> Option<Forecast>)
    ensures forall k, l :: k in TauriDayMap(entries, parseForecast) && l in TauriDayMap(entries, parseForecast) && k != l ==>
              TauriSequenceOf(TauriDayMap(entries, parseForecast)[k]) != TauriSequenceOf(TauriDayMap(entries, parseForecast)[l])
  {
    TauriDayMapRecords(entries, parseForecast);
    var m := TauriDayMap(entries, parseForecast);
    forall k, l | k in m && l in m && k != l ensures TauriSequenceOf(m[k]) != TauriSequenceOf(m[l]) {
      assert FirstKeyed(entries, k, m[k].sequence) && FirstKeyed(entries, l, m[l].sequence);
    }
  }

  /** The record of a weekday some entry carries: numbered by the first such
      entry, listing exactly the forecasts of the weekday that parse, in feed
      order. */
  lemma TauriWeekdayRecord(entries: seq<Entry>, parseForecast: string -> Option<Forecast>, k: DayOfWeek)
    ensures k in TauriDayMap(entries, parseForecast) <==> KeySeen(entries, k)
    ensures k in TauriDayMap(entries, parseForecast) ==>
              exists i :: FirstKeyed(entries, k, i) &&
                          TauriDayMap(entries, parseForecast)[k] == Future(i, Collected(entries, k, parseForecast))
  {
    TauriDayMapRecords(entries, parseForecast);
    var m := TauriDayMap(entries, parseForecast);
    if k in m {
      assert FirstKeyed(entries, k, m[k].sequence);
    }
  }

  /** The arrangement of the records is unique, whatever the map's order. */
  lemma TauriArrangedUnique(fs: seq<TauriEntry>, gs: seq<TauriEntry>, m: map<DayOfWeek, TauriEntry>)
    requires TauriArranged(fs, m) && TauriArranged(gs, m)
    ensures fs == gs
  {
    StrictlySortedUnique(fs, gs, TauriSequenceOf);
  }

  // ---------------------------------------------------------------------
  // `ForecastEntry::summary`

  /** `find` of the first forecast of period `p` in a record's list. */
  function FirstOfPeriod(fs: seq<ForecastWithEntry>, p: DayNight): (r: Option<ForecastWithEntry>)
    decreases |fs|
  {
    if fs == [] then None
    else if fs[0].forecast.day == p then Some(fs[0])
    else FirstOfPeriod(fs[1..], p)
  }

  /** `FirstOfPeriod` is empty iff the list has no forecast of that period,
      and otherwise it is the first one. */
  lemma {:induction false} FirstOfPeriodIsFirst(fs: seq<ForecastWithEntry>, p: DayNight)
    ensures FirstOfPeriod(fs, p).None? <==> forall i :: 0 <= i < |fs| ==> fs[i].forecast.day != p
    ensures FirstOfPeriod(fs, p).Some? ==>
              exists i :: 0 <= i < |fs| && fs[i] == FirstOfPeriod(fs, p).value && fs[i].forecast.day == p &&
                          forall j :: 0 <= j < i ==> fs[j].forecast.day != p
    decreases |fs|
  {
    if fs != [] && fs[0].forecast.day != p {
      FirstOfPeriodIsFirst(fs[1..], p);
      forall i | 1 <= i < |fs| ensures fs[i] == fs[1..][i - 1] {
      }
      if FirstOfPeriod(fs[1..], p).Some? {
        var i :| 0 <= i < |fs[1..]| && fs[1..][i] == FirstOfPeriod(fs[1..], p).value && fs[1..][i].forecast.day == p &&
                 forall j :: 0 <= j < i ==> fs[1..][j].forecast.day != p;
        assert fs[i + 1] == fs[1..][i];
        forall j | 0 <= j < i + 1 ensures fs[j].forecast.day != p {
          if j > 0 {
            assert fs[j] == fs[1..][j - 1];
          }
        }
      }
    }
  }

  /** A non-empty list has a first forecast of some period. */
  lemma SomePeriod(fs: seq<ForecastWithEntry>)
    ensures fs == [] <==> FirstOfPeriod(fs, Day).None? && FirstOfPeriod(fs, Night).None?
  {
    if fs != [] {
      FirstOfPeriodIsFirst(fs, fs[0].forecast.day);
    }
  }

  function TauriSummary(x: TauriEntry): (r: string)
    ensures x.Warning? ==> r == Forecasts.RemapHtml(x.entry.summary)
    ensures x.Current? ==> r == Forecasts.RemapHtml(x.current.entry.summary)
    ensures x.Future? ==> (r == [] <==> x.forecast == [])
    ensures x.Future? && FirstOfPeriod(x.forecast, Day).Some? ==>
              StartsWith(r, Grouping.DayHeading + Forecasts.RemapHtml(FirstOfPeriod(x.forecast, Day).value.entry.summary))
    ensures x.Future? && FirstOfPeriod(x.forecast, Day).None? && FirstOfPeriod(x.forecast, Night).Some? ==>
              StartsWith(r, Grouping.NightHeading + Forecasts.RemapHtml(FirstOfPeriod(x.forecast, Night).value.entry.summary))
    ensures x.Future? && FirstOfPeriod(x.forecast, Night).Some? ==>
              var night := Grouping.NightHeading + Forecasts.RemapHtml(FirstOfPeriod(x.forecast, Night).value.entry.summary);
              OccursAt(r, night, |r| - |night|)
  {
    match x
    case Warning(entry) => Forecasts.RemapHtml(entry.summary)
    case Current(c) => Forecasts.RemapHtml(c.entry.summary)
    case Future(_, forecast) =>
      var day := FirstOfPeriod(forecast, Day);
      var night := FirstOfPeriod(forecast, Night);
      SomePeriod(forecast);
      Grouping.PeriodsMarkup(if day.Some? then Some(Forecasts.RemapHtml(day.value.entry.summary)) else None,
                    if night.Some? then Some(Forecasts.RemapHtml(night.value.entry.summary)) else None)
  }
}
