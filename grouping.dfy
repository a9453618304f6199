/** The grouping pass shared by my-weather/src/types.rs and
    my-weather-gui/src/types.rs (`to_forecast`). Current conditions and
    warnings are kept in feed order. Forecast entries are merged per weekday
    into a record with a day and a night slot. The records follow, in the
    order their weekday was first seen.

    The two crates differ only in what a slot holds (a parsed forecast or the
    raw entry) and in how an entry is read. Both readings are parameters
    here: `sight` reads a forecast entry as a weekday, a period and the slot
    content, and `current` reads a current-conditions entry. */
module Grouping {
  import opened Text
  import opened Feed
  import opened Types
  import opened Ordering
  import opened Weekdays

  /** `ForecastEntry`: one item of the grouped output. `S` is what a slot
      holds, `C` what a current-conditions item holds. */
  datatype ForecastEntry<S, C> =
    | Warning(entry: Entry)
    | Current(current: C)
    | Future(sequence: nat, day: Option<S>, night: Option<S>)

  /** A forecast entry read as the weekday it is for, its period and what its slot gets. */
  datatype Sighting<S> = Sighting(weekday: DayOfWeek, period: DayNight, slot: S)

  /** The `sort_by` key. Only Future records are ever sorted; the source's
      comparator calls every other pair equal. */
  function SequenceOf<S(!new), C(!new)>(r: ForecastEntry<S, C>): int {
    if r.Future? then r.sequence else 0
  }

  /** Entry `e` is a forecast entry for weekday `k` that the pass keeps. */
  predicate Sights<S>(e: Entry, k: DayOfWeek, sight: Entry -> Option<Sighting<S>>) {
    e.term == ForeCast && sight(e).Some? && sight(e).value.weekday == k
  }

  /** ... and it is for period `p`. */
  predicate SightsIn<S>(e: Entry, k: DayOfWeek, p: DayNight, sight: Entry -> Option<Sighting<S>>) {
    Sights(e, k, sight) && sight(e).value.period == p
  }

  // ---------------------------------------------------------------------
  // The reference definition of the pass

  /** One entry at position `index` applied to the weekday map: a kept
      forecast entry fills the slot of its period in its weekday's record,
      creating the record if there is none yet; any other entry changes nothing. */
  function Record<S(!new), C(!new)>(m: map<DayOfWeek, ForecastEntry<S, C>>, index: nat, e: Entry,
                        sight: Entry -> Option<Sighting<S>>): map<DayOfWeek, ForecastEntry<S, C>>
  {
    var s := sight(e);
    if e.term != ForeCast || s.None? then m
    else
      var k := s.value.weekday;
      var slot := Some(s.value.slot);
      var isDay := s.value.period == Day;
      if k in m && m[k].Future? then
        m[k := if isDay then m[k].(day := slot) else m[k].(night := slot)]
      else
        m[k := if isDay then Future(index, slot, None) else Future(index, None, slot)]
  }

  /** The weekday map after the whole feed. */
  function DayMap<S(!new), C(!new)>(entries: seq<Entry>, sight: Entry -> Option<Sighting<S>>): map<DayOfWeek, ForecastEntry<S, C>>
    decreases |entries|
  {
    if entries == [] then map[]
    else Record(DayMap(entries[..|entries| - 1], sight), |entries| - 1, entries[|entries| - 1], sight)
  }

  /** What one entry contributes ahead of the weekday records. */
  function Lead<S(!new), C(!new)>(e: Entry, current: Entry -> Option<C>): seq<ForecastEntry<S, C>> {
    match e.term
    case Current => if current(e).Some? then [ForecastEntry.Current(current(e).value)] else []
    case Warnings => [Warning(e)]
    case ForeCast => []
  }

  /** The current conditions and warnings, in feed order. */
  function Leading<S(!new), C(!new)>(entries: seq<Entry>, current: Entry -> Option<C>): (r: seq<ForecastEntry<S, C>>)
    ensures forall x :: x in r ==> !x.Future?
    decreases |entries|
  {
    if entries == [] then []
    else Leading(entries[..|entries| - 1], current) + Lead(entries[|entries| - 1], current)
  }

  /** `fs` holds exactly the records of `m`, by ascending sequence number. */
  ghost predicate Arranged<S(!new), C(!new)>(fs: seq<ForecastEntry<S, C>>, m: map<DayOfWeek, ForecastEntry<S, C>>) {
    StrictlyAscending(fs, SequenceOf) && forall x :: x in fs <==> x in m.Values
  }

  // ---------------------------------------------------------------------
  // `to_forecast`

  /** The pass: the current conditions and warnings in feed order, then
      exactly the weekday records, by ascending sequence number. */
  method GroupEntries<S(!new), C(!new)>(entries: seq<Entry>, sight: Entry -> Option<Sighting<S>>, current: Entry -> Option<C>)
    returns (r: seq<ForecastEntry<S, C>>)
    ensures var lead := Leading(entries, current);
            |lead| <= |r| && r[..|lead|] == lead && Arranged(r[|lead|..], DayMap(entries, sight))
  {
    var dayMap: map<DayOfWeek, ForecastEntry<S, C>> := map[];
    var result: seq<ForecastEntry<S, C>> := [];
    var index := 0;
    while index < |entries|
      invariant 0 <= index <= |entries|
      invariant dayMap == DayMap(entries[..index], sight)
      invariant result == Leading(entries[..index], current)
    {
      var entry := entries[index];
      DayMapStep<S, C>(entries[..index], entry, sight);
      LeadingStep<S, C>(entries[..index], entry, current);
      match entry.term {
        case Current =>
          var c := current(entry);
          if c.Some? {
            result := result + [ForecastEntry.Current(c.value)];
          }
        case Warnings =>
          result := result + [Warning(entry)];
        case ForeCast =>
          var s := sight(entry);
          if s.Some? {
            var key := s.value.weekday;
            var isDay := s.value.period == Day;
            var slot := Some(s.value.slot);
            if key in dayMap && dayMap[key].Future? {
              var record := dayMap[key];
              dayMap := dayMap[key := if isDay then record.(day := slot) else record.(night := slot)];
            } else {
              dayMap := dayMap[key := if isDay then Future(index, slot, None) else Future(index, None, slot)];
            }
          }
      }
      assert entries[..index] + [entry] == entries[..index + 1];
      index := index + 1;
    }
    assert entries[..index] == entries;
    var values := ValuesIn(dayMap, AllDays);
    CollectedDistinct<S, C>(entries, sight);
    var sorted := SortByKey(values, SequenceOf);
    SortedArranged(dayMap, sorted);
    r := result + sorted;
    assert r[..|result|] == result && r[|result|..] == sorted;
  }

  lemma DayMapStep<S(!new), C(!new)>(a: seq<Entry>, e: Entry, sight: Entry -> Option<Sighting<S>>)
    ensures DayMap<S, C>(a + [e], sight) == Record(DayMap(a, sight), |a|, e, sight)
  {
    var b := a + [e];
    assert b[..|b| - 1] == a && b[|b| - 1] == e;
  }

  lemma LeadingStep<S(!new), C(!new)>(a: seq<Entry>, e: Entry, current: Entry -> Option<C>)
    ensures Leading<S, C>(a + [e], current) == Leading(a, current) + Lead(e, current)
  {
    assert (a + [e])[..|a|] == a;
  }

  /** The collected records have pairwise distinct sequence numbers. */
  lemma CollectedDistinct<S(!new), C(!new)>(entries: seq<Entry>, sight: Entry -> Option<Sighting<S>>)
    ensures DistinctKeys(ValuesIn(DayMap<S, C>(entries, sight), AllDays), SequenceOf)
  {
    DistinctRecords<S, C>(entries, sight);
    AllDaysComplete();
    ValuesInDistinct(DayMap<S, C>(entries, sight), AllDays, SequenceOf);
  }

  /** Sorting the collected records arranges them. */
  lemma SortedArranged<S(!new), C(!new)>(m: map<DayOfWeek, ForecastEntry<S, C>>, sorted: seq<ForecastEntry<S, C>>)
    requires StrictlyAscending(sorted, SequenceOf)
    requires multiset(sorted) == multiset(ValuesIn(m, AllDays))
    ensures Arranged(sorted, m)
  {
    AllDaysValues(m);
    forall x ensures x in sorted <==> x in m.Values {
      assert x in sorted <==> x in multiset(sorted);
      assert x in ValuesIn(m, AllDays) <==> x in multiset(ValuesIn(m, AllDays));
    }
  }

  // ---------------------------------------------------------------------
  // One step of the pass

  /** The first kept entry for a weekday creates its record, numbered by the
      entry's position, with only the slot of the entry's period filled. */
  lemma RecordFirstSighting<S(!new), C(!new)>(m: map<DayOfWeek, ForecastEntry<S, C>>, index: nat, e: Entry,
                                  sight: Entry -> Option<Sighting<S>>)
    requires e.term == ForeCast && sight(e).Some? && sight(e).value.weekday !in m
    ensures var s := sight(e).value;
            var r := Record(m, index, e, sight)[s.weekday];
            r.Future? && r.sequence == index &&
            (if s.period == Day then r.day == Some(s.slot) && r.night.None?
             else r.night == Some(s.slot) && r.day.None?)
  {
  }

  /** A later kept entry for a weekday overwrites only the slot of its period:
      the sequence number and the other slot stay. */
  lemma RecordLaterSighting<S(!new), C(!new)>(m: map<DayOfWeek, ForecastEntry<S, C>>, index: nat, e: Entry,
                                  sight: Entry -> Option<Sighting<S>>)
    requires e.term == ForeCast && sight(e).Some?
    requires sight(e).value.weekday in m && m[sight(e).value.weekday].Future?
    ensures var s := sight(e).value;
            var before := m[s.weekday];
            var r := Record(m, index, e, sight)[s.weekday];
            r.Future? && r.sequence == before.sequence &&
            (if s.period == Day then r.day == Some(s.slot) && r.night == before.night
             else r.night == Some(s.slot) && r.day == before.day)
  {
  }

  /** An entry the pass does not keep leaves the map as it was. */
  lemma RecordDropped<S(!new), C(!new)>(m: map<DayOfWeek, ForecastEntry<S, C>>, index: nat, e: Entry,
                            sight: Entry -> Option<Sighting<S>>)
    requires e.term != ForeCast || sight(e).None?
    ensures Record(m, index, e, sight) == m
  {
  }

  /** Only the entry's own weekday can change: a weekday is present after the
      step iff it was before or the entry sights it, and every other record
      stays as it was. */
  lemma RecordFrame<S(!new), C(!new)>(m: map<DayOfWeek, ForecastEntry<S, C>>, index: nat, e: Entry,
                          sight: Entry -> Option<Sighting<S>>)
    ensures forall k :: k in Record(m, index, e, sight) <==> k in m || Sights(e, k, sight)
    ensures forall k :: k in m && !Sights(e, k, sight) ==> Record(m, index, e, sight)[k] == m[k]
  {
  }

  // ---------------------------------------------------------------------
  // What the weekday map holds after the whole feed

  /** Some entry of the feed sights weekday `k`. */
  ghost predicate Sighted<S>(entries: seq<Entry>, k: DayOfWeek, sight: Entry -> Option<Sighting<S>>) {
    exists i :: 0 <= i < |entries| && Sights(entries[i], k, sight)
  }

  /** `i` is the first position of the feed that sights weekday `k`. */
  predicate FirstSighting<S>(entries: seq<Entry>, k: DayOfWeek, i: int, sight: Entry -> Option<Sighting<S>>) {
    0 <= i < |entries| && Sights(entries[i], k, sight) &&
    forall j :: 0 <= j < i ==> !Sights(entries[j], k, sight)
  }

  /** `i` is the last position of the feed that sights weekday `k` in period `p`. */
  predicate LastSighting<S>(entries: seq<Entry>, k: DayOfWeek, p: DayNight, i: int, sight: Entry -> Option<Sighting<S>>) {
    0 <= i < |entries| && SightsIn(entries[i], k, p, sight) &&
    forall j :: i < j < |entries| ==> !SightsIn(entries[j], k, p, sight)
  }

  /** The slot content of the last entry that sights weekday `k` in period `p`. */
  function LastSlot<S>(entries: seq<Entry>, k: DayOfWeek, p: DayNight, sight: Entry -> Option<Sighting<S>>): Option<S>
    decreases |entries|
  {
    if entries == [] then None
    else if SightsIn(entries[|entries| - 1], k, p, sight) then Some(sight(entries[|entries| - 1]).value.slot)
    else LastSlot(entries[..|entries| - 1], k, p, sight)
  }

  /** `LastSlot` is empty iff no entry sights the weekday in that period, and
      otherwise it is the slot of the last such entry. */
  lemma {:induction false} LastSlotIsLast<S>(entries: seq<Entry>, k: DayOfWeek, p: DayNight,
                                             sight: Entry -> Option<Sighting<S>>)
    ensures LastSlot(entries, k, p, sight).None? <==>
            forall i :: 0 <= i < |entries| ==> !SightsIn(entries[i], k, p, sight)
    ensures LastSlot(entries, k, p, sight).Some? ==>
            exists i :: LastSighting(entries, k, p, i, sight) &&
                        sight(entries[i]).value.slot == LastSlot(entries, k, p, sight).value
    decreases |entries|
  {
    if entries != [] {
      var a := entries[..|entries| - 1];
      var n := |entries| - 1;
      LastSlotIsLast(a, k, p, sight);
      if SightsIn(entries[n], k, p, sight) {
        assert LastSighting(entries, k, p, n, sight);
      } else {
        forall i | 0 <= i < n ensures entries[i] == a[i] {
        }
        if LastSlot(a, k, p, sight).Some? {
          var i :| LastSighting(a, k, p, i, sight) && sight(a[i]).value.slot == LastSlot(a, k, p, sight).value;
          assert LastSighting(entries, k, p, i, sight);
        }
      }
    }
  }

  /** The map has a record exactly for the weekdays the feed sights. */
  ghost predicate Covers<S(!new), C(!new)>(entries: seq<Entry>, m: map<DayOfWeek, ForecastEntry<S, C>>, sight: Entry -> Option<Sighting<S>>) {
    forall k :: k in m <==> Sighted(entries, k, sight)
  }

  /** Each record is a Future numbered by its weekday's first sighting. */
  predicate Sequenced<S(!new), C(!new)>(entries: seq<Entry>, m: map<DayOfWeek, ForecastEntry<S, C>>, sight: Entry -> Option<Sighting<S>>) {
    forall k :: k in m ==> m[k].Future? && FirstSighting(entries, k, m[k].sequence, sight)
  }

  /** Each record's slots hold the last sighting of its weekday in their period. */
  ghost predicate Slotted<S(!new), C(!new)>(entries: seq<Entry>, m: map<DayOfWeek, ForecastEntry<S, C>>, sight: Entry -> Option<Sighting<S>>) {
    forall k :: k in m && m[k].Future? ==>
      m[k].day == LastSlot(entries, k, Day, sight) && m[k].night == LastSlot(entries, k, Night, sight)
  }

  lemma SightedExtend<S>(a: seq<Entry>, e: Entry, k: DayOfWeek, sight: Entry -> Option<Sighting<S>>)
    ensures Sighted(a + [e], k, sight) <==> Sighted(a, k, sight) || Sights(e, k, sight)
  {
    var b := a + [e];
    if Sighted(a, k, sight) {
      var i :| 0 <= i < |a| && Sights(a[i], k, sight);
      assert b[i] == a[i];
    }
    if Sights(e, k, sight) {
      assert b[|a|] == e;
    }
    if Sighted(b, k, sight) {
      var i :| 0 <= i < |b| && Sights(b[i], k, sight);
      if i < |a| {
        assert b[i] == a[i];
      }
    }
  }

  lemma FirstSightingExtend<S>(a: seq<Entry>, e: Entry, k: DayOfWeek, i: int, sight: Entry -> Option<Sighting<S>>)
    requires FirstSighting(a, k, i, sight)
    ensures FirstSighting(a + [e], k, i, sight)
  {
    var b := a + [e];
    assert b[i] == a[i];
    forall j | 0 <= j < i ensures !Sights(b[j], k, sight) {
      assert b[j] == a[j];
    }
  }

  /** A weekday the feed has not sighted has nothing in either slot. */
  lemma {:induction false} UnsightedEmpty<S>(entries: seq<Entry>, k: DayOfWeek, p: DayNight, sight: Entry -> Option<Sighting<S>>)
    requires !Sighted(entries, k, sight)
    ensures LastSlot(entries, k, p, sight).None?
    decreases |entries|
  {
    if entries != [] {
      var a := entries[..|entries| - 1];
      assert !Sights(entries[|entries| - 1], k, sight);
      forall i | 0 <= i < |a| ensures !Sights(a[i], k, sight) {
        assert a[i] == entries[i];
      }
      UnsightedEmpty(a, k, p, sight);
    }
  }

  lemma CoversStep<S(!new), C(!new)>(a: seq<Entry>, e: Entry, m: map<DayOfWeek, ForecastEntry<S, C>>, sight: Entry -> Option<Sighting<S>>)
    requires Covers(a, m, sight)
    ensures Covers(a + [e], Record(m, |a|, e, sight), sight)
  {
    RecordFrame(m, |a|, e, sight);
    forall k ensures k in Record(m, |a|, e, sight) <==> Sighted(a + [e], k, sight) {
      SightedExtend(a, e, k, sight);
    }
  }

  lemma SequencedStep<S(!new), C(!new)>(a: seq<Entry>, e: Entry, m: map<DayOfWeek, ForecastEntry<S, C>>, sight: Entry -> Option<Sighting<S>>)
    requires Covers(a, m, sight) && Sequenced(a, m, sight)
    ensures Sequenced(a + [e], Record(m, |a|, e, sight), sight)
  {
    var b := a + [e];
    var m' := Record(m, |a|, e, sight);
    RecordFrame(m, |a|, e, sight);
    forall k | k in m' ensures m'[k].Future? && FirstSighting(b, k, m'[k].sequence, sight) {
      if k in m {
        FirstSightingExtend(a, e, k, m[k].sequence, sight);
      } else {
        assert !Sighted(a, k, sight);
        assert b[|a|] == e;
        forall j | 0 <= j < |a| ensures !Sights(b[j], k, sight) {
          assert b[j] == a[j];
        }
      }
    }
  }

  lemma SlottedStep<S(!new), C(!new)>(a: seq<Entry>, e: Entry, m: map<DayOfWeek, ForecastEntry<S, C>>, sight: Entry -> Option<Sighting<S>>)
    requires Covers(a, m, sight) && Sequenced(a, m, sight) && Slotted(a, m, sight)
    ensures Slotted(a + [e], Record(m, |a|, e, sight), sight)
  {
    var b := a + [e];
    var m' := Record(m, |a|, e, sight);
    RecordFrame(m, |a|, e, sight);
    assert b[..|b| - 1] == a && b[|b| - 1] == e;
    forall k | k in m' && m'[k].Future?
      ensures m'[k].day == LastSlot(b, k, Day, sight) && m'[k].night == LastSlot(b, k, Night, sight)
    {
      if !Sights(e, k, sight) {
        assert m'[k] == m[k];
        assert !SightsIn(e, k, Day, sight) && !SightsIn(e, k, Night, sight);
      } else {
        if k !in m {
          UnsightedEmpty(a, k, Day, sight);
          UnsightedEmpty(a, k, Night, sight);
        }
        if sight(e).value.period == Day {
          assert LastSlot(b, k, Day, sight) == Some(sight(e).value.slot);
          assert !SightsIn(e, k, Night, sight);
        } else {
          assert LastSlot(b, k, Night, sight) == Some(sight(e).value.slot);
          assert !SightsIn(e, k, Day, sight);
        }
      }
    }
  }

  /** Every record of the weekday map is a Future numbered by its weekday's
      first sighting, with the slot contents of the last sighting in each
      period; and there is a record exactly for each sighted weekday. */
  lemma {:induction false} DayMapRecords<S(!new), C(!new)>(entries: seq<Entry>, sight: Entry -> Option<Sighting<S>>)
    ensures Covers(entries, DayMap<S, C>(entries, sight), sight)
    ensures Sequenced(entries, DayMap<S, C>(entries, sight), sight)
    ensures Slotted(entries, DayMap<S, C>(entries, sight), sight)
    decreases |entries|
  {
    if entries != [] {
      var a := entries[..|entries| - 1];
      var e := entries[|entries| - 1];
      DayMapRecords<S, C>(a, sight);
      CoversStep(a, e, DayMap<S, C>(a, sight), sight);
      SequencedStep(a, e, DayMap<S, C>(a, sight), sight);
      SlottedStep(a, e, DayMap<S, C>(a, sight), sight);
      assert a + [e] == entries;
    }
  }

  /** Distinct weekdays have distinct sequence numbers. */
  lemma DistinctRecords<S(!new), C(!new)>(entries: seq<Entry>, sight: Entry -> Option<Sighting<S>>)
    ensures forall k, l :: k in DayMap<S, C>(entries, sight) && l in DayMap<S, C>(entries, sight) && k != l ==>
              SequenceOf(DayMap<S, C>(entries, sight)[k]) != SequenceOf(DayMap<S, C>(entries, sight)[l])
  {
    DayMapRecords<S, C>(entries, sight);
    var m := DayMap<S, C>(entries, sight);
    forall k, l | k in m && l in m && k != l ensures SequenceOf(m[k]) != SequenceOf(m[l]) {
      assert FirstSighting(entries, k, m[k].sequence, sight) && FirstSighting(entries, l, m[l].sequence, sight);
    }
  }

  // ---------------------------------------------------------------------
  // What the output holds

  /** The record of a sighted weekday: numbered by the first entry that sights
      it, its day and night slots from the last entry that sights it in each
      period. Weekdays that no entry sights have no record. */
  lemma WeekdayRecord<S(!new), C(!new)>(entries: seq<Entry>, sight: Entry -> Option<Sighting<S>>, k: DayOfWeek)
    ensures k in DayMap<S, C>(entries, sight) <==> Sighted(entries, k, sight)
    ensures k in DayMap<S, C>(entries, sight) ==>
              exists i :: FirstSighting(entries, k, i, sight) &&
                          DayMap<S, C>(entries, sight)[k] ==
                          Future(i, LastSlot(entries, k, Day, sight), LastSlot(entries, k, Night, sight))
  {
    DayMapRecords<S, C>(entries, sight);
    var m := DayMap<S, C>(entries, sight);
    if k in m {
      assert FirstSighting(entries, k, m[k].sequence, sight);
    }
  }

  /** No record is empty: a record exists only once a forecast of its
      weekday has filled one of its slots. */
  lemma RecordHasSlot<S(!new), C(!new)>(entries: seq<Entry>, sight: Entry -> Option<Sighting<S>>, k: DayOfWeek)
    requires k in DayMap<S, C>(entries, sight)
    ensures DayMap<S, C>(entries, sight)[k].Future?
    ensures DayMap<S, C>(entries, sight)[k].day.Some? || DayMap<S, C>(entries, sight)[k].night.Some?
  {
    DayMapRecords<S, C>(entries, sight);
    var i :| 0 <= i < |entries| && Sights(entries[i], k, sight);
    var p := sight(entries[i]).value.period;
    assert SightsIn(entries[i], k, p, sight);
    LastSlotIsLast(entries, k, p, sight);
  }

  /** The arranged records are one per sighted weekday: every weekday's record
      appears, at exactly one position, and no record serves two weekdays. */
  lemma OneRecordPerWeekday<S(!new), C(!new)>(entries: seq<Entry>, sight: Entry -> Option<Sighting<S>>,
                                              m: map<DayOfWeek, ForecastEntry<S, C>>, fs: seq<ForecastEntry<S, C>>)
    requires m == DayMap(entries, sight) && Arranged(fs, m)
    ensures forall k :: k in m ==> exists i :: 0 <= i < |fs| && fs[i] == m[k]
    ensures forall k, l :: k in m && l in m && m[k] == m[l] ==> k == l
    ensures forall i, j :: 0 <= i < |fs| && 0 <= j < |fs| && fs[i] == fs[j] ==> i == j
  {
    DistinctRecords<S, C>(entries, sight);
    forall k | k in m ensures exists i :: 0 <= i < |fs| && fs[i] == m[k] {
      assert m[k] in m.Values;
    }
  }

  /** Records come out in the order their weekdays were first seen in the feed. */
  lemma FirstSeenFirst<S(!new), C(!new)>(entries: seq<Entry>, sight: Entry -> Option<Sighting<S>>, fs: seq<ForecastEntry<S, C>>,
                             i: int, j: int, k: DayOfWeek, l: DayOfWeek, fk: int, fl: int)
    requires Arranged(fs, DayMap(entries, sight))
    requires 0 <= i < j < |fs|
    requires k in DayMap<S, C>(entries, sight) && fs[i] == DayMap<S, C>(entries, sight)[k]
    requires l in DayMap<S, C>(entries, sight) && fs[j] == DayMap<S, C>(entries, sight)[l]
    requires FirstSighting(entries, k, fk, sight) && FirstSighting(entries, l, fl, sight)
    ensures fk < fl
  {
    DayMapRecords<S, C>(entries, sight);
    var m := DayMap<S, C>(entries, sight);
    assert FirstSighting(entries, k, m[k].sequence, sight);
    assert FirstSighting(entries, l, m[l].sequence, sight);
    FirstSightingUnique(entries, k, fk, m[k].sequence, sight);
    FirstSightingUnique(entries, l, fl, m[l].sequence, sight);
  }

  lemma FirstSightingUnique<S>(entries: seq<Entry>, k: DayOfWeek, i: int, j: int, sight: Entry -> Option<Sighting<S>>)
    requires FirstSighting(entries, k, i, sight) && FirstSighting(entries, k, j, sight)
    ensures i == j
  {
  }

  /** The arrangement of the records is unique, so the map's iteration order
      does not show in the output. */
  lemma ArrangedUnique<S(!new), C(!new)>(fs: seq<ForecastEntry<S, C>>, gs: seq<ForecastEntry<S, C>>, m: map<DayOfWeek, ForecastEntry<S, C>>)
    requires Arranged(fs, m) && Arranged(gs, m)
    ensures fs == gs
  {
    StrictlySortedUnique(fs, gs, SequenceOf);
  }

  // ---------------------------------------------------------------------
  // What comes ahead of the records

  /** Leading works entry by entry, so it keeps the feed order. */
  lemma {:induction false} LeadingAppend<S(!new), C(!new)>(a: seq<Entry>, b: seq<Entry>, current: Entry -> Option<C>)
    ensures Leading<S, C>(a + b, current) == Leading(a, current) + Leading(b, current)
    decreases |b|
  {
    if b == [] {
      assert a + b == a;
    } else {
      var b' := b[..|b| - 1];
      assert (a + b)[..|a + b| - 1] == a + b';
      assert (a + b)[|a + b| - 1] == b[|b| - 1];
      LeadingAppend<S, C>(a, b', current);
    }
  }

  /** An item is ahead of the records iff some entry of the feed contributes it. */
  lemma {:induction false} InLeading<S(!new), C(!new)>(entries: seq<Entry>, current: Entry -> Option<C>, x: ForecastEntry<S, C>)
    ensures x in Leading(entries, current) <==> exists e :: e in entries && x in Lead<S, C>(e, current)
    decreases |entries|
  {
    if entries != [] {
      var a := entries[..|entries| - 1];
      var e := entries[|entries| - 1];
      InLeading(a, current, x);
      assert entries == a + [e];
      if x in Leading(entries, current) && !(x in Lead<S, C>(e, current)) {
        var e' :| e' in a && x in Lead<S, C>(e', current);
        assert e' in entries;
      }
      if exists e' :: e' in entries && x in Lead<S, C>(e', current) {
        var e' :| e' in entries && x in Lead<S, C>(e', current);
        if e' != e {
          assert e' in a;
        }
      }
    }
  }

  /** Every warning of the feed is kept, and nothing else becomes a warning. */
  lemma WarningsKept<S(!new), C(!new)>(entries: seq<Entry>, current: Entry -> Option<C>, e: Entry)
    ensures Warning(e) in Leading<S, C>(entries, current) <==> e in entries && e.term == Warnings
  {
    InLeading<S, C>(entries, current, Warning(e));
    if e in entries && e.term == Warnings {
      assert Warning(e) in Lead<S, C>(e, current);
    }
  }

  /** A current-conditions item is kept iff some current-conditions entry reads as it. */
  lemma CurrentsKept<S(!new), C(!new)>(entries: seq<Entry>, current: Entry -> Option<C>, c: C)
    ensures ForecastEntry<S, C>.Current(c) in Leading<S, C>(entries, current) <==>
            exists e :: e in entries && e.term == Feed.Current && current(e) == Some(c)
  {
    InLeading<S, C>(entries, current, ForecastEntry<S, C>.Current(c));
    if exists e :: e in entries && e.term == Feed.Current && current(e) == Some(c) {
      var e :| e in entries && e.term == Feed.Current && current(e) == Some(c);
      assert ForecastEntry<S, C>.Current(c) in Lead<S, C>(e, current);
    }
  }

  // ---------------------------------------------------------------------
  // `summary` of a weekday record

  const DayHeading: string := "<b>Day:</b>\n"
  const NightHeading: string := "<b>Night:</b>\n"

  /** The markup of a weekday record from the texts of its day and night
      forecasts: a headed section per period present, day first, and nothing
      at all when neither is. */
  function PeriodsMarkup(day: Option<string>, night: Option<string>): (r: string)
    ensures r == [] <==> day.None? && night.None?
    ensures day.Some? ==> StartsWith(r, DayHeading + day.value)
    ensures day.None? && night.Some? ==> StartsWith(r, NightHeading + night.value)
    ensures night.Some? ==> OccursAt(r, NightHeading + night.value, |r| - |NightHeading + night.value|)
  {
    if day.Some? && night.Some? then
      var r := DayHeading + day.value + "\n\n" + (NightHeading + night.value);
      assert r[..|DayHeading + day.value|] == DayHeading + day.value;
      r
    else if day.Some? then
      var r := DayHeading + day.value;
      assert r[..|r|] == r;
      r
    else if night.Some? then
      var r := NightHeading + night.value;
      assert r[..|r|] == r;
      r
    else ""
  }
}
