/** The RSS feed records and the string logic of the feed deserializer
    (my-weather/src/lib.rs): summary truncation, the filter that drops
    "no warnings in effect" placeholders, and the current-conditions view. */
module Feed {
  import opened Text

  /** The `term` attribute of an entry's category. */
  datatype Term = Current | ForeCast | Warnings

  datatype Entry = Entry(title: string, term: Term, summary: string)

  predicate IsWarning(e: Entry) {
    e.term == Warnings
  }

  // ---------------------------------------------------------------------
  // Order-preserving filters

  function Filter<T>(s: seq<T>, keep: T -> bool): (r: seq<T>)
    ensures |r| <= |s|
    decreases |s|
  {
    if s == [] then []
    else Filter(s[..|s| - 1], keep) + (if keep(s[|s| - 1]) then [s[|s| - 1]] else [])
  }

  /** A filter keeps exactly the elements that pass its test. */
  lemma {:induction false} FilterMembership<T>(s: seq<T>, keep: T -> bool, x: T)
    ensures x in Filter(s, keep) <==> x in s && keep(x)
    decreases |s|
  {
    if s != [] {
      FilterMembership(s[..|s| - 1], keep, x);
      assert s == s[..|s| - 1] + [s[|s| - 1]];
    }
  }

  /** A filter works element by element, so it keeps the relative order. */
  lemma {:induction false} FilterAppend<T>(a: seq<T>, b: seq<T>, keep: T -> bool)
    ensures Filter(a + b, keep) == Filter(a, keep) + Filter(b, keep)
    decreases |b|
  {
    if b != [] {
      var b' := b[..|b| - 1];
      assert (a + b)[..|a + b| - 1] == a + b';
      FilterAppend(a, b', keep);
    } else {
      assert a + b == a;
    }
  }

  // ---------------------------------------------------------------------
  // `deserialize_entries`: drop the placeholder warning

  const NoWarnings: string := "No watches or warnings in effect"

  predicate IsInactiveWarning(e: Entry) {
    e.term == Warnings && StartsWith(e.title, NoWarnings)
  }

  function ActiveEntries(feed: seq<Entry>): seq<Entry> {
    Filter(feed, e => !IsInactiveWarning(e))
  }

  /** `visit_seq`: pushes every entry read from the feed except a warning
      entry whose title starts with the "no watches or warnings" text. */
  method DeserializeEntries(feed: seq<Entry>) returns (entries: seq<Entry>)
    ensures entries == ActiveEntries(feed)
    ensures forall e :: e in entries <==> e in feed && !IsInactiveWarning(e)
  {
    entries := [];
    var i := 0;
    while i < |feed|
      invariant 0 <= i <= |feed|
      invariant entries == ActiveEntries(feed[..i])
    {
      var next := feed[i];
      assert feed[..i + 1][..i] == feed[..i];
      if !(next.term == Warnings && StartsWith(next.title, NoWarnings)) {
        entries := entries + [next];
      }
      i := i + 1;
    }
    assert feed[..i] == feed;
    forall e ensures e in entries <==> e in feed && !IsInactiveWarning(e) {
      FilterMembership(feed, e => !IsInactiveWarning(e), e);
    }
  }

  /** The filter drops exactly the placeholder warnings. */
  lemma ActiveEntriesExactly(feed: seq<Entry>, e: Entry)
    ensures e in ActiveEntries(feed) <==> e in feed && !IsInactiveWarning(e)
  {
    FilterMembership(feed, e => !IsInactiveWarning(e), e);
  }

  /** The filter keeps the feed order: filtering a split feed is filtering its parts. */
  lemma ActiveEntriesInOrder(a: seq<Entry>, b: seq<Entry>)
    ensures ActiveEntries(a + b) == ActiveEntries(a) + ActiveEntries(b)
  {
    FilterAppend(a, b, e => !IsInactiveWarning(e));
  }

  // ---------------------------------------------------------------------
  // `ForeCast::current_forecast`

  predicate IsCurrentOrWarning(e: Entry) {
    e.term == Current || e.term == Warnings
  }

  function CurrentForecastEntries(feed: seq<Entry>): (r: seq<Entry>)
    ensures forall e :: e in r <==> e in feed && (e.term == Current || IsWarning(e))
  {
    var r := Filter(feed, IsCurrentOrWarning);
    forall e ensures e in r <==> e in feed && (e.term == Current || IsWarning(e)) {
      FilterMembership(feed, IsCurrentOrWarning, e);
    }
    r
  }

  lemma CurrentForecastEntriesInOrder(a: seq<Entry>, b: seq<Entry>)
    ensures CurrentForecastEntries(a + b) == CurrentForecastEntries(a) + CurrentForecastEntries(b)
  {
    FilterAppend(a, b, IsCurrentOrWarning);
  }

  // ---------------------------------------------------------------------
  // `deserialize_summary`: cut the summary at the last "Forecast issued"

  const ForecastIssued: string := "Forecast issued"

  function TruncateSummary(v: string): (r: string)
    ensures !Contains(v, ForecastIssued) ==> r == v
    ensures Contains(v, ForecastIssued) ==>
      exists i :: OccursAt(v, ForecastIssued, i) && r == Trim(v[..i])
                  && forall j :: i < j ==> !OccursAt(v, ForecastIssued, j)
  {
    match FindLast(v, ForecastIssued)
    case Some(i) => Trim(v[..i])
    case None => v
  }

  /** With the marker at a known last position, the result is the trimmed text before it. */
  lemma TruncateAtLastMarker(body: string, tail: string)
    requires forall j :: 0 < j ==> !OccursAt(ForecastIssued + tail, ForecastIssued, j)
    ensures TruncateSummary(body + ForecastIssued + tail) == Trim(body)
  {
    var v := body + ForecastIssued + tail;
    assert OccursAt(v, ForecastIssued, |body|);
    forall j | |body| < j ensures !OccursAt(v, ForecastIssued, j) {
      OccursShift(v, ForecastIssued, |body|, j - |body|);
      assert v[|body|..] == ForecastIssued + tail;
    }
    assert v[..|body|] == body;
  }
}
