/** The weekday key of a forecast entry (`Day::try_from`, identical in the
    three types.rs files) and the fixed list of weekdays. */
module Weekdays {
  import opened Text
  import opened Feed
  import opened Types
  import opened Parsers
  import opened ParserProofs
  import opened Ordering

  const AllDays: seq<DayOfWeek> := [Monday, Tuesday, Wednesday, Thursday, Friday, Saturday, Sunday]

  /** The position of a weekday in `AllDays`. */
  function DayIndex(d: DayOfWeek): (i: nat)
    ensures i < |AllDays| && AllDays[i] == d
  {
    match d
    case Monday => 0 case Tuesday => 1 case Wednesday => 2 case Thursday => 3
    case Friday => 4 case Saturday => 5 case Sunday => 6
  }

  lemma AllDaysComplete()
    ensures forall d :: d in AllDays
    ensures forall i, j :: 0 <= i < j < |AllDays| ==> AllDays[i] != AllDays[j]
  {
    forall d ensures d in AllDays {
      assert AllDays[DayIndex(d)] == d;
    }
  }

  /** Collecting a weekday map's values over all weekdays gives exactly its values. */
  lemma AllDaysValues<V(!new)>(m: map<DayOfWeek, V>)
    ensures forall v :: v in ValuesIn(m, AllDays) <==> v in m.Values
  {
    forall v | v in m.Values ensures v in ValuesIn(m, AllDays) {
      var k :| k in m && m[k] == v;
      var i := DayIndex(k);
      assert AllDays[i] in m && m[AllDays[i]] == v;
    }
  }

  /** `Day::try_from(&Entry)`: the weekday whose name begins the title of a
      forecast entry; entries of other terms and titles without a weekday
      name have none. */
  function DayKey(e: Entry): (r: Option<DayOfWeek>)
    ensures r.Some? ==> e.term == ForeCast
    ensures r.Some? ==> forall d :: StartsWith(e.title, DayOfWeekName(d)) <==> d == r.value
    ensures r.None? <==> e.term != ForeCast || forall d :: !StartsWith(e.title, DayOfWeekName(d))
  {
    var s := e.title;
    var r: Option<DayOfWeek> :=
      if e.term != ForeCast then None
      else if StartsWith(s, "Monday") then Some(Monday)
      else if StartsWith(s, "Tuesday") then Some(Tuesday)
      else if StartsWith(s, "Wednesday") then Some(Wednesday)
      else if StartsWith(s, "Thursday") then Some(Thursday)
      else if StartsWith(s, "Friday") then Some(Friday)
      else if StartsWith(s, "Saturday") then Some(Saturday)
      else if StartsWith(s, "Sunday") then Some(Sunday)
      else None;
    if r.Some? then
      OnlyOneName(s, r.value);
      r
    else r
  }

  /** No weekday name begins with another, so a title starts with at most one. */
  lemma OnlyOneName(s: string, d: DayOfWeek)
    requires StartsWith(s, DayOfWeekName(d))
    ensures forall e :: StartsWith(s, DayOfWeekName(e)) <==> e == d
  {
    var n := DayOfWeekName(d);
    assert s == n + s[|n|..];
    forall e ensures StartsWith(s, DayOfWeekName(e)) <==> e == d {
      DayNamesClash(d, e, s[|n|..]);
    }
  }

  /** The key of a forecast entry is the weekday the title grammar reads. */
  lemma DayKeyAgreesWithTitle(e: Entry)
    requires DayKey(e).Some? && ParseForecast(e.title).Done?
    ensures DayKey(e).value == ParseForecast(e.title).value.dayOfWeek
  {
  }

  /** Any forecast entry whose title begins with a weekday name gets that weekday. */
  lemma DayKeyOfName(d: DayOfWeek, rest: string, summary: string)
    ensures DayKey(Entry(DayOfWeekName(d) + rest, ForeCast, summary)) == Some(d)
  {
    var s := DayOfWeekName(d) + rest;
    assert s[..|DayOfWeekName(d)|] == DayOfWeekName(d);
  }
}
