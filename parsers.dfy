/** The forecast-title grammar of the live library (my-weather/src/parsers.rs).
    Every parser maps its input to the unconsumed remainder and a value, or
    fails; composition follows the nom combinators of the source: `alt` tries
    its alternatives in order on the same input, `opt` backs off to the input
    it was given, `take_until` stops before the first occurrence of its tag. */
module Parsers {
  import opened Text
  import opened Types

  // ---------------------------------------------------------------------
  // Shared combinators

  /** A mismatch within the tag rules the tag out. */
  lemma DiffersAt(s: string, p: string, i: nat)
    requires i < |p| && i < |s| && s[i] != p[i]
    ensures !StartsWith(s, p)
  {
    assert |p| <= |s| ==> s[..|p|][i] == s[i];
  }

  // ---------------------------------------------------------------------
  // `parse_number`

  datatype Sign = Minus | Plus | Zero

  function SignText(g: Sign): string {
    match g
    case Minus => "minus"
    case Plus => "plus"
    case Zero => "zero"
  }

  /** `alt((tag("minus"), tag("plus"), tag("zero")))`. */
  function SignWord(s: string): (r: Option<Sign>)
    ensures r.Some? ==> StartsWith(s, SignText(r.value))
  {
    if StartsWith(s, "minus") then Some(Minus)
    else if StartsWith(s, "plus") then Some(Plus)
    else if StartsWith(s, "zero") then Some(Zero)
    else None
  }

  predicate IsInitialOfSign(c: char) {
    c == 'm' || c == 'p' || c == 'z'
  }

  /** After skipping blanks, `s` does not start with a digit: nothing more can join a number. */
  predicate NoNumeralAhead(s: string) {
    var b := BlankRun(s);
    b == |s| || !IsDigit(s[b])
  }

  /** `preceded(space0, digit1)`: the value of the digit run after optional
      blanks, and what follows it. */
  function BlankDigits(t: string): (r: Option<(nat, string)>)
    ensures r.Some? ==> IsSuffix(r.value.1, t)
  {
    var b := BlankRun(t);
    var d := DigitRun(t[b..]);
    if d == 0 then None
    else
      assert t[b + d..] == t[|t| - |t[b + d..]|..];
      Some((DigitsValue(t[b..][..d]), t[b + d..]))
  }

  /** `opt(sign word)`: the sign, if any, and what follows it. */
  function SignPrefix(s: string): (r: (Option<Sign>, string))
    ensures IsSuffix(r.1, s)
    ensures StartsWith(s, "zero") ==> r.0 == Some(Zero)
  {
    ZeroSign(s);
    match SignWord(s)
    case Some(g) =>
      assert s[|SignText(g)|..] == s[|s| - |s[|SignText(g)|..]|..];
      (Some(g), s[|SignText(g)|..])
    case None => (None, s)
  }

  lemma ZeroSign(s: string)
    ensures StartsWith(s, "zero") ==> SignWord(s) == Some(Zero)
  {
    if StartsWith(s, "zero") {
      assert s == "zero" + s[4..];
      SignWordOf(Zero, s[4..]);
    }
  }

  function OptSignText(g: Option<Sign>): string {
    if g.Some? then SignText(g.value) else ""
  }

  /** An optional sign word, then an optional blank-prefixed digit run. The
      word `zero` gives 0 whatever follows; otherwise the digit run must be
      there, and `minus` negates it. */
  function ParseNumber(s: string): (r: IResult<int>)
    ensures r.Done? ==> IsSuffix(r.rest, s)
    ensures StartsWith(s, "zero") ==> r.Done? && r.value == 0
    ensures !r.Panic?
  {
    var (sign, t) := SignPrefix(s);
    var digits := BlankDigits(t);
    var rest := if digits.Some? then digits.value.1 else t;
    SuffixTransitive(rest, t, s);
    if sign == Some(Zero) then Done(rest, 0)
    else if digits.None? then Fail
    else
      var n: int := digits.value.0;
      Done(rest, if sign == Some(Minus) then -n else n)
  }

  /** The sign word a written number starts with. */
  function NumberSign(n: int, plus: bool): Option<Sign> {
    if n == 0 then Some(Zero) else if n < 0 then Some(Minus) else if plus then Some(Plus) else None
  }

  /** How the feed writes a whole number: `zero`, or an optional sign word,
      blanks and digits (`minus 9`, `plus 2`, `6`). */
  function NumberText(n: int, plus: bool, gap: string): string {
    if n == 0 then "zero"
    else OptSignText(NumberSign(n, plus)) + gap + ShowNat(if n < 0 then -n else n)
  }

  /** The sign word of a written number is recognised as itself. */
  lemma SignWordOf(g: Sign, x: string)
    ensures SignWord(SignText(g) + x) == Some(g)
  {
    var s := SignText(g) + x;
    assert s[..|SignText(g)|] == SignText(g);
    if g != Minus {
      assert s[0] == SignText(g)[0];
      DiffersAt(s, "minus", 0);
    }
    if g == Zero {
      DiffersAt(s, "plus", 0);
    }
  }

  // ---------------------------------------------------------------------
  // `parse_temp`

  /** The lead-in phrases that introduce a temperature in a title. */
  datatype LeadIn = HighLead | SteadyNear | RisingTo | LowLead | FallingTo

  function Phrase(l: LeadIn): string {
    match l
    case HighLead => "High"
    case SteadyNear => "Temperature steady near"
    case RisingTo => "Temperature rising to"
    case LowLead => "Low"
    case FallingTo => "Temperature falling to"
  }

  /** The order in which `parse_description` tries the lead-ins as stops. */
  function Rank(l: LeadIn): nat {
    match l
    case LowLead => 0
    case HighLead => 1
    case SteadyNear => 2
    case RisingTo => 3
    case FallingTo => 4
  }

  /** `s` holds none of the lead-ins tried before `l`. */
  predicate NoEarlierLeadIn(s: string, l: LeadIn) {
    forall m :: Rank(m) < Rank(l) ==> !Contains(s, Phrase(m))
  }

  /** `s` holds neither `l` nor any lead-in tried before it. */
  predicate NoLeadInUpTo(s: string, l: LeadIn) {
    forall m :: Rank(m) <= Rank(l) ==> !Contains(s, Phrase(m))
  }

  /** `High`, `Temperature steady near` and `Temperature rising to` give a high. */
  predicate IsHighLead(l: LeadIn) {
    l == HighLead || l == SteadyNear || l == RisingTo
  }

  function Reading(l: LeadIn, n: real): Temperature<Celsius> {
    if IsHighLead(l) then High(n) else Low(n)
  }

  /** `alt((tag("High "), tag("Temperature steady near "), tag("Temperature rising to ")))`. */
  function HighLeadIn(s: string): (r: Option<string>)
    ensures r.Some? ==> exists l :: IsHighLead(l) && StartsWith(s, Phrase(l) + " ") && r.value == s[|Phrase(l)| + 1..]
    ensures r.Some? ==> IsSuffix(r.value, s)
  {
    if StartsWith(s, "High ") then
      assert Phrase(HighLead) + " " == "High ";
      Some(s[5..])
    else if StartsWith(s, "Temperature steady near ") then
      assert Phrase(SteadyNear) + " " == "Temperature steady near ";
      Some(s[24..])
    else if StartsWith(s, "Temperature rising to ") then
      assert Phrase(RisingTo) + " " == "Temperature rising to ";
      Some(s[22..])
    else None
  }

  /** `alt((tag("Low "), tag("Temperature falling to ")))`. */
  function LowLeadIn(s: string): (r: Option<string>)
    ensures r.Some? ==> exists l :: !IsHighLead(l) && StartsWith(s, Phrase(l) + " ") && r.value == s[|Phrase(l)| + 1..]
    ensures r.Some? ==> IsSuffix(r.value, s)
  {
    if StartsWith(s, "Low ") then
      assert Phrase(LowLead) + " " == "Low ";
      Some(s[4..])
    else if StartsWith(s, "Temperature falling to ") then
      assert Phrase(FallingTo) + " " == "Temperature falling to ";
      Some(s[23..])
    else None
  }

  /** `preceded(lead-in, parse_number)`. */
  function TaggedNumber(lead: Option<string>): (r: IResult<int>)
    ensures r.Done? ==> lead.Some? && IsSuffix(r.rest, lead.value)
    ensures !r.Panic?
  {
    match lead
    case Some(t) => ParseNumber(t)
    case None => Fail
  }

  /** A lead-in followed by a number; the lead-in decides High or Low. */
  function ParseTemp(s: string): (r: IResult<Temperature<Celsius>>)
    ensures r.Done? ==> IsSuffix(r.rest, s) && !r.value.Current?
    ensures r.Done? && r.value.High? ==> exists l :: IsHighLead(l) && StartsWith(s, Phrase(l) + " ")
    ensures r.Done? && r.value.Low? ==> exists l :: !IsHighLead(l) && StartsWith(s, Phrase(l) + " ")
    ensures !r.Panic?
  {
    var high := TaggedNumber(HighLeadIn(s));
    if high.Done? then
      SuffixTransitive(high.rest, HighLeadIn(s).value, s);
      Done(high.rest, High(high.value as real))
    else
      var low := TaggedNumber(LowLeadIn(s));
      if low.Done? then
        SuffixTransitive(low.rest, LowLeadIn(s).value, s);
        Done(low.rest, Low(low.value as real))
      else Fail
  }

  // ---------------------------------------------------------------------
  // `parse_description`

  /** `alt` over `take_until("Low")`, `take_until("High")`, `take_until("Temperature
      steady near")`, `take_until("Temperature rising to")` and `take_until("Temperature
      falling to")`: the first of these stops that occurs at all, and where it first occurs. */
  function DescriptionEnd(s: string): (r: Option<(nat, LeadIn)>)
    ensures r.None? ==> forall l :: !Contains(s, Phrase(l))
    ensures r.Some? ==> FindFirst(s, Phrase(r.value.1)) == Some(r.value.0)
    ensures r.Some? ==> NoEarlierLeadIn(s, r.value.1)
    ensures Contains(s, "Low") ==> r.Some? && r.value.1 == LowLead
  {
    var low := FindFirst(s, Phrase(LowLead));
    if low.Some? then
      EarlierAbsent(s, LowLead);
      Some((low.value, LowLead))
    else
      var high := FindFirst(s, Phrase(HighLead));
      if high.Some? then
        EarlierAbsent(s, HighLead);
        Some((high.value, HighLead))
      else
        var steady := FindFirst(s, Phrase(SteadyNear));
        if steady.Some? then
          EarlierAbsent(s, SteadyNear);
          Some((steady.value, SteadyNear))
        else
          var rising := FindFirst(s, Phrase(RisingTo));
          if rising.Some? then
            EarlierAbsent(s, RisingTo);
            Some((rising.value, RisingTo))
          else
            var falling := FindFirst(s, Phrase(FallingTo));
            if falling.Some? then
              EarlierAbsent(s, FallingTo);
              Some((falling.value, FallingTo))
            else None
  }

  /** The stops `take_until` has not found are the ones tried before `l`. */
  lemma EarlierAbsent(s: string, l: LeadIn)
    requires Rank(l) > 0 ==> FindFirst(s, Phrase(LowLead)).None?
    requires Rank(l) > 1 ==> FindFirst(s, Phrase(HighLead)).None?
    requires Rank(l) > 2 ==> FindFirst(s, Phrase(SteadyNear)).None?
    requires Rank(l) > 3 ==> FindFirst(s, Phrase(RisingTo)).None?
    ensures NoEarlierLeadIn(s, l)
  {
  }

  /** `take_until` leaves its tag at the start of the remainder. */
  lemma FoundPrefix(s: string, p: string, i: nat)
    requires FindFirst(s, p) == Some(i)
    ensures i <= |s| && StartsWith(s[i..], p)
  {
    assert s[i..][..|p|] == s[i..i + |p|];
  }

  /** The trimmed text before the stop that `DescriptionEnd` finds; the stop
      stays in the remainder. */
  function ParseDescription(s: string): (r: IResult<string>)
    ensures r.Fail? <==> forall l :: !Contains(s, Phrase(l))
    ensures r.Done? ==> IsSuffix(r.rest, s) && IsTrimmed(r.value)
    ensures r.Done? ==> r.value == Trim(s[..|s| - |r.rest|])
    ensures r.Done? ==> exists l :: StartsWith(r.rest, Phrase(l)) && NoEarlierLeadIn(s, l) &&
                                    forall j :: 0 <= j < |s| - |r.rest| ==> !OccursAt(s, Phrase(l), j)
    ensures Contains(s, "Low") ==>
      r.Done? && StartsWith(r.rest, "Low") && forall j :: 0 <= j < |s| - |r.rest| ==> !OccursAt(s, "Low", j)
    ensures !r.Panic?
  {
    match DescriptionEnd(s)
    case Some((i, l)) =>
      FoundPrefix(s, Phrase(l), i);
      Done(s[i..], Trim(s[..i]))
    case None => Fail
  }

  // ---------------------------------------------------------------------
  // `parse_day_night`, `parse_day_of_week`

  /** `:` marks the day period; optional blanks then `night:` mark the night. */
  function ParseDayNight(s: string): (r: IResult<DayNight>)
    ensures r.Done? ==> IsSuffix(r.rest, s)
    ensures (r.Done? && r.value == Day) <==> StartsWith(s, ":")
    ensures !r.Panic?
  {
    if StartsWith(s, ":") then Done(s[1..], Day)
    else
      var b := BlankRun(s);
      if StartsWith(s[b..], "night:") then
        assert s[b + 6..] == s[|s| - |s[b + 6..]|..];
        Done(s[b + 6..], Night)
      else Fail
  }

  /** The marker as the feed writes it. */
  function MarkerText(dn: DayNight): string {
    match dn
    case Day => ":"
    case Night => " night:"
  }

  /** The weekday whose full name starts `s`; the name is consumed. */
  function ParseDayOfWeek(s: string): (r: IResult<DayOfWeek>)
    ensures r.Done? ==> StartsWith(s, DayOfWeekName(r.value)) && r.rest == s[|DayOfWeekName(r.value)|..]
    ensures r.Fail? <==> forall d :: !StartsWith(s, DayOfWeekName(d))
    ensures !r.Panic?
  {
    if StartsWith(s, "Monday") then Done(s[6..], Monday)
    else if StartsWith(s, "Tuesday") then Done(s[7..], Tuesday)
    else if StartsWith(s, "Wednesday") then Done(s[9..], Wednesday)
    else if StartsWith(s, "Thursday") then Done(s[8..], Thursday)
    else if StartsWith(s, "Friday") then Done(s[6..], Friday)
    else if StartsWith(s, "Saturday") then Done(s[8..], Saturday)
    else if StartsWith(s, "Sunday") then Done(s[6..], Sunday)
    else Fail
  }

  // ---------------------------------------------------------------------
  // `parse_forecast`

  /** weekday, marker, description, temperature; Fahrenheit derived from Celsius. */
  function ParseForecast(s: string): (r: IResult<Forecast>)
    ensures r.Done? ==> IsSuffix(r.rest, s)
    ensures r.Done? ==> StartsWith(s, DayOfWeekName(r.value.dayOfWeek))
    ensures r.Done? ==> r.value.fahrenheit == ToFahrenheit(r.value.celsius) && !r.value.celsius.Current?
    ensures !r.Panic?
  {
    var dayOfWeek := ParseDayOfWeek(s);
    if !dayOfWeek.Done? then Fail
    else
      var dayNight := ParseDayNight(dayOfWeek.rest);
      if !dayNight.Done? then Fail
      else
        var description := ParseDescription(dayNight.rest);
        if !description.Done? then Fail
        else
          var temp := ParseTemp(description.rest);
          if !temp.Done? then Fail
          else
            SuffixTransitive(temp.rest, description.rest, dayNight.rest);
            SuffixTransitive(temp.rest, dayNight.rest, dayOfWeek.rest);
            SuffixTransitive(temp.rest, dayOfWeek.rest, s);
            Done(temp.rest, Forecast(temp.value, ToFahrenheit(temp.value), description.value,
                                     dayNight.value, dayOfWeek.value))
  }

  /** The upper-case letters that begin a lead-in. */
  predicate IsInitial(c: char) {
    c == 'L' || c == 'H' || c == 'T'
  }

  predicate NoInitials(s: string) {
    forall i :: 0 <= i < |s| ==> !IsInitial(s[i])
  }

  /** What follows the marker in a title: the description, then a lead-in and `x`. */
  function TitleBody(description: string, l: LeadIn, x: string): string {
    " " + description + " " + Phrase(l) + " " + x
  }

  /** A title as the feed writes it. */
  function TitleText(dow: DayOfWeek, dn: DayNight, description: string, l: LeadIn,
                     n: int, plus: bool, gap: string, tail: string): string
  {
    DayOfWeekName(dow) + MarkerText(dn) + TitleBody(description, l, NumberText(n, plus, gap) + tail)
  }

  // ---------------------------------------------------------------------
  // `parse_signed_number`, `parse_current_forecast`

  /** `alt((recognize(digit1 '.' digit1), digit1))`: digits with an optional
      fraction, its exact value, and what follows. */
  function Decimal(u: string): (r: Option<(real, string)>)
    ensures r.Some? ==> IsSuffix(r.value.1, u)
  {
    var d := DigitRun(u);
    if d == 0 then None
    else
      var whole := DigitsValue(u[..d]) as real;
      var v := u[d..];
      match Fraction(v)
      case Some((f, after)) =>
        assert after == u[|u| - |after|..];
        Some((whole + f, after))
      case None => Some((whole, v))
  }

  /** The `'.' digit1` part of a decimal. */
  function Fraction(v: string): (r: Option<(real, string)>)
    ensures r.Some? ==> IsSuffix(r.value.1, v)
  {
    if v == [] || v[0] != '.' then None
    else
      var f := DigitRun(v[1..]);
      if f == 0 then None
      else
        assert v[1..][f..] == v[|v| - |v[1..][f..]|..];
        Some((FractionValue(v[1..][..f]), v[1..][f..]))
  }

  /** `space0`: drop the leading blanks. */
  function SkipBlanks(s: string): (r: string)
    ensures IsSuffix(r, s)
  {
    s[BlankRun(s)..]
  }

  /** `opt(char('-'))`: whether the minus sign is there, and what follows it. */
  function MinusSign(t: string): (r: (bool, string))
    ensures IsSuffix(r.1, t)
    ensures r.0 <==> t != [] && t[0] == '-'
  {
    if StartsWith(t, "-") then
      assert t[1..] == t[|t| - |t[1..]|..];
      (true, t[1..])
    else (false, t)
  }

  /** Blanks, an optional `-`, a decimal, blanks. */
  function ParseSignedNumber(s: string): (r: IResult<real>)
    ensures r.Done? ==> IsSuffix(r.rest, s)
    ensures !r.Panic?
  {
    var t := SkipBlanks(s);
    var (neg, u) := MinusSign(t);
    var decimal := Decimal(u);
    if decimal.None? then Fail
    else
      var rest := SkipBlanks(decimal.value.1);
      SuffixTransitive(rest, decimal.value.1, u);
      SuffixTransitive(rest, u, t);
      SuffixTransitive(rest, t, s);
      Done(rest, if neg then -decimal.value.0 else decimal.value.0)
  }

  /** A decimal as the current-conditions title writes it (`-3.4`, `12`). */
  function DecimalText(neg: bool, whole: nat, fraction: string): string
    requires AllDigits(fraction)
  {
    (if neg then "-" else "") + ShowNat(whole) + FractionText(fraction)
  }

  function FractionText(fraction: string): string {
    if fraction == [] then "" else "." + fraction
  }

  function DecimalValue(neg: bool, whole: nat, fraction: string): real
    requires AllDigits(fraction)
  {
    var m := whole as real + (if fraction == [] then 0.0 else FractionValue(fraction));
    if neg then -m else m
  }

  /** A character that cannot continue a decimal or its trailing blanks. */
  predicate EndsDecimal(rest: string) {
    rest == [] || !(IsBlank(rest[0]) || IsDigit(rest[0]) || rest[0] == '.')
  }

  function MinusText(neg: bool): string {
    if neg then "-" else ""
  }

  const CurrentPrefix: string := "Current Conditions: "

  /** `take_until(", ")` then `tag(", ")`: the text before the first `, ` and what follows it. */
  function ConditionsField(t: string): (r: Option<(string, string)>)
    ensures r.Some? ==> !Contains(r.value.0, ", ") && IsSuffix(r.value.1, t)
    ensures r.None? <==> !Contains(t, ", ")
  {
    match FindFirst(t, ", ")
    case None => None
    case Some(i) =>
      var description := t[..i];
      forall j | 0 <= j <= |description| ensures !OccursAt(description, ", ", j) {
        if OccursAt(description, ", ", j) {
          assert t[j..j + 2] == description[j..j + 2];
          assert OccursAt(t, ", ", j);
        }
      }
      assert t[i + 2..] == t[|t| - |t[i + 2..]|..];
      Some((description, t[i + 2..]))
  }

  /** `Current Conditions: <description>, <signed decimal>`: the description is
      the text up to the first `, `; the reading is tagged `Current`. */
  function ParseCurrentForecast(s: string): (r: IResult<CurrentForecast>)
    ensures r.Done? ==> StartsWith(s, CurrentPrefix) && IsSuffix(r.rest, s)
    ensures r.Done? ==> !Contains(r.value.description, ", ")
    ensures r.Done? ==> r.value.celsius.Current? && r.value.fahrenheit == ToFahrenheit(r.value.celsius)
    ensures !StartsWith(s, CurrentPrefix) ==> r.Fail?
    ensures !r.Panic?
  {
    if !StartsWith(s, CurrentPrefix) then Fail
    else
      var t := s[|CurrentPrefix|..];
      var field := ConditionsField(t);
      if field.None? then Fail
      else
        var number := ParseSignedNumber(field.value.1);
        if !number.Done? then Fail
        else
          SuffixTransitive(number.rest, field.value.1, t);
          SuffixTransitive(number.rest, t, s);
          var c := Current(number.value);
          Done(number.rest, CurrentForecast(c, ToFahrenheit(c), field.value.0))
  }
}
