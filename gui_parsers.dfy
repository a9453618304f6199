/** The older title grammar of the desktop front end (my-weather-gui/src/parsers.rs).
    It shares the weekday, period, signed-decimal and current-conditions parsers
    with the live library (the code is the same; see `Parsers`), and differs in
    the number, the temperature and the description:
    - a number needs a sign word (`minus`, `plus` or `zero`) and must end in `.`
      or a space, which is consumed;
    - only the sign text `minus ` (one space) negates;
    - a sign without digits is a panic (`expect`), not a parse error;
    - `Temperature falling to` is not a lead-in. */
module GuiParsers {
  import opened Text
  import opened Types
  import opened Parsers

  // ---------------------------------------------------------------------
  // `parse_number`

  /** `recognize(tuple((alt((tag("minus"), tag("plus"), tag("zero"))), space0)))`:
      the sign word, the blanks after it, and what follows them. */
  function GuiSign(t: string): (r: Option<(Sign, string, string)>)
    ensures r.Some? ==> AllBlank(r.value.1) && IsSuffix(r.value.2, t)
    ensures r.Some? ==> t == SignText(r.value.0) + r.value.1 + r.value.2
    ensures r.None? <==> SignWord(t).None?
  {
    match SignWord(t)
    case None => None
    case Some(g) =>
      var u := t[|SignText(g)|..];
      var b := BlankRun(u);
      SplitAfterSign(t, SignText(g), b);
      Some((g, u[..b], u[b..]))
  }

  /** Splitting what follows a sign word into its blanks and the rest. */
  lemma SplitAfterSign(t: string, word: string, b: nat)
    requires StartsWith(t, word) && b <= |t| - |word|
    ensures var u := t[|word|..];
            t == word + u[..b] + u[b..] && IsSuffix(u[b..], t)
  {
    var u := t[|word|..];
    assert u == u[..b] + u[b..];
    assert t == word + u;
  }

  /** `opt(digit1)` then `alt((char('.'), char(' ')))`: the digits, if any, and
      what follows the terminator. */
  function Terminated(v: string): (r: Option<(Option<nat>, string)>)
    ensures r.Some? ==> |r.value.1| < |v| && IsSuffix(r.value.1, v)
    ensures r.Some? ==> v[|v| - |r.value.1| - 1] == '.' || v[|v| - |r.value.1| - 1] == ' '
  {
    var d := DigitRun(v);
    var w := v[d..];
    if w == [] || !(w[0] == '.' || w[0] == ' ') then None
    else
      assert w[1..] == v[|v| - |w[1..]|..];
      Some((if d == 0 then None else Some(DigitsValue(v[..d])), w[1..]))
  }

  /** The value the older grammar gives a sign word, the blanks after it and a
      digit run: the sign text exactly `zero` gives 0, and only `minus ` negates. */
  function GuiValue(g: Sign, blanks: string, n: nat): int {
    if g == Zero && blanks == [] then 0
    else if g == Minus && blanks == " " then -(n as int)
    else n
  }

  /** Leading blanks, a sign word with the blanks after it, optional digits and
      a `.` or space. Any sign text other than `zero` needs digits, or the
      `expect` panics. */
  function GuiNumber(s: string): (r: IResult<int>)
    ensures r.Done? ==> IsSuffix(r.rest, s)
    ensures SignWord(SkipBlanks(s)).None? ==> r.Fail?
  {
    var t := SkipBlanks(s);
    var sign := GuiSign(t);
    if sign.None? then Fail
    else
      var g := sign.value.0;
      var blanks := sign.value.1;
      var end := Terminated(sign.value.2);
      if end.None? then Fail
      else
        var rest := end.value.1;
        SuffixTransitive(rest, sign.value.2, t);
        SuffixTransitive(rest, t, s);
        if g == Zero && blanks == [] then Done(rest, 0)
        else if end.value.0.None? then Panic
        else Done(rest, GuiValue(g, blanks, end.value.0.value))
  }

  // ---------------------------------------------------------------------
  // `parse_temp`

  /** `alt((tag("High"), tag("Temperature steady near"), tag("Temperature rising to")))`:
      no blank is part of the tag. */
  function GuiHighLeadIn(s: string): (r: Option<string>)
    ensures r.Some? ==> exists l :: IsHighLead(l) && StartsWith(s, Phrase(l)) && r.value == s[|Phrase(l)|..]
    ensures r.Some? ==> IsSuffix(r.value, s)
  {
    if StartsWith(s, "High") then
      assert Phrase(HighLead) == "High";
      Some(s[4..])
    else if StartsWith(s, "Temperature steady near") then
      assert Phrase(SteadyNear) == "Temperature steady near";
      Some(s[23..])
    else if StartsWith(s, "Temperature rising to") then
      assert Phrase(RisingTo) == "Temperature rising to";
      Some(s[21..])
    else None
  }

  /** `tag("Low")`, the only low lead-in of this grammar. */
  function GuiLowLeadIn(s: string): (r: Option<string>)
    ensures r.Some? ==> StartsWith(s, "Low") && r.value == s[3..]
    ensures r.Some? ==> IsSuffix(r.value, s)
  {
    if StartsWith(s, "Low") then Some(s[3..]) else None
  }

  /** `opt(char(' '))`. */
  function OptSpace(t: string): (r: string)
    ensures IsSuffix(r, t) && |t| - 1 <= |r|
  {
    if t != [] && t[0] == ' ' then t[1..] else t
  }

  /** `delimited(lead-in, parse_number, opt(char(' ')))`. */
  function GuiTagged(lead: Option<string>): (r: IResult<int>)
    ensures r.Done? ==> lead.Some? && IsSuffix(r.rest, lead.value)
  {
    match lead
    case None => Fail
    case Some(t) =>
      var n := GuiNumber(t);
      if n.Done? then
        assert IsSuffix(OptSpace(n.rest), t) by {
          SuffixTransitive(OptSpace(n.rest), n.rest, t);
        }
        Done(OptSpace(n.rest), n.value)
      else n
  }

  /** High for the three high lead-ins, then Low for `Low`; a panic in the
      high branch is not caught by `alt`. */
  function GuiTemp(s: string): (r: IResult<Temperature<Celsius>>)
    ensures r.Done? ==> IsSuffix(r.rest, s) && !r.value.Current?
    ensures r.Done? && r.value.Low? ==> StartsWith(s, "Low")
    ensures r.Done? && r.value.High? ==> exists l :: IsHighLead(l) && StartsWith(s, Phrase(l))
  {
    var high := GuiTagged(GuiHighLeadIn(s));
    if high.Done? then
      SuffixTransitive(high.rest, GuiHighLeadIn(s).value, s);
      Done(high.rest, High(high.value as real))
    else if high.Panic? then Panic
    else
      var low := GuiTagged(GuiLowLeadIn(s));
      if low.Done? then
        SuffixTransitive(low.rest, GuiLowLeadIn(s).value, s);
        Done(low.rest, Low(low.value as real))
      else if low.Panic? then Panic
      else Fail
  }

  // ---------------------------------------------------------------------
  // `parse_description`

  /** `alt` over `take_until("Low")`, `take_until("High")`, `take_until("Temperature
      steady near")` and `take_until("Temperature rising to")`. */
  function GuiDescriptionEnd(s: string): (r: Option<(nat, LeadIn)>)
    ensures r.None? ==> forall l :: l != FallingTo ==> !Contains(s, Phrase(l))
    ensures r.Some? ==> r.value.1 != FallingTo && FindFirst(s, Phrase(r.value.1)) == Some(r.value.0)
    ensures r.Some? ==> NoEarlierLeadIn(s, r.value.1)
    ensures Contains(s, "Low") ==> r.Some? && r.value.1 == LowLead
  {
    var low := FindFirst(s, Phrase(LowLead));
    if low.Some? then
      EarlierAbsent(s, LowLead);
      Some((low.value, LowLead))
    else
      var high := FindFirst(s, Phrase(HighLead));
      if high.Some? then
        EarlierAbsent(s, HighLead);
        Some((high.value, HighLead))
      else
        var steady := FindFirst(s, Phrase(SteadyNear));
        if steady.Some? then
          EarlierAbsent(s, SteadyNear);
          Some((steady.value, SteadyNear))
        else
          var rising := FindFirst(s, Phrase(RisingTo));
          if rising.Some? then
            EarlierAbsent(s, RisingTo);
            Some((rising.value, RisingTo))
          else None
  }

  /** The trimmed text before the first of the four stops. */
  function GuiParseDescription(s: string): (r: IResult<string>)
    ensures r.Fail? <==> forall l :: l != FallingTo ==> !Contains(s, Phrase(l))
    ensures r.Done? ==> IsSuffix(r.rest, s) && IsTrimmed(r.value)
    ensures r.Done? ==> r.value == Trim(s[..|s| - |r.rest|])
    ensures r.Done? ==> exists l :: l != FallingTo && StartsWith(r.rest, Phrase(l)) && NoEarlierLeadIn(s, l) &&
                                    forall j :: 0 <= j < |s| - |r.rest| ==> !OccursAt(s, Phrase(l), j)
    ensures !r.Panic?
  {
    match GuiDescriptionEnd(s)
    case Some((i, l)) =>
      FoundPrefix(s, Phrase(l), i);
      Done(s[i..], Trim(s[..i]))
    case None => Fail
  }

  // ---------------------------------------------------------------------
  // `parse_forecast`

  /** Weekday, marker, description, temperature, as in the live grammar, with
      this grammar's description and temperature; a panic in the temperature
      propagates. */
  function GuiForecast(s: string): (r: IResult<Forecast>)
    ensures r.Done? ==> IsSuffix(r.rest, s)
    ensures r.Done? ==> StartsWith(s, DayOfWeekName(r.value.dayOfWeek))
    ensures r.Done? ==> r.value.fahrenheit == ToFahrenheit(r.value.celsius) && !r.value.celsius.Current?
  {
    var dayOfWeek := ParseDayOfWeek(s);
    if !dayOfWeek.Done? then Fail
    else
      var dayNight := ParseDayNight(dayOfWeek.rest);
      if !dayNight.Done? then Fail
      else
        var description := GuiParseDescription(dayNight.rest);
        if !description.Done? then Fail
        else
          var temp := GuiTemp(description.rest);
          if temp.Panic? then Panic
          else if !temp.Done? then Fail
          else
            SuffixTransitive(temp.rest, description.rest, dayNight.rest);
            SuffixTransitive(temp.rest, dayNight.rest, dayOfWeek.rest);
            SuffixTransitive(temp.rest, dayOfWeek.rest, s);
            Done(temp.rest, Forecast(temp.value, ToFahrenheit(temp.value), description.value,
                                     dayNight.value, dayOfWeek.value))
  }
}
