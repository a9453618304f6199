/** Properties of the older title grammar: what it reads back from the
    titles the feed writes, and where it departs from the live grammar. */
module GuiParserProofs {
  import opened Text
  import opened Types
  import opened Parsers
  import opened ParserProofs
  import opened GuiParsers

  // ---------------------------------------------------------------------
  // `parse_number`

  /** The number in the older grammar, from the results of its steps. */
  lemma GuiNumberSteps(s: string, g: Sign, blanks: string, v: string, digits: Option<nat>, rest: string)
    requires GuiSign(SkipBlanks(s)) == Some((g, blanks, v)) && Terminated(v) == Some((digits, rest))
    ensures GuiNumber(s) == if g == Zero && blanks == [] then Done(rest, 0)
                            else if digits.None? then Panic
                            else Done(rest, GuiValue(g, blanks, digits.value))
  {
  }

  lemma GuiSignOf(lead: string, g: Sign, blanks: string, v: string)
    requires AllBlank(lead) && AllBlank(blanks) && (v == [] || !IsBlank(v[0]))
    ensures var s := lead + (SignText(g) + blanks + v);
            SkipBlanks(s) == SignText(g) + blanks + v && GuiSign(SkipBlanks(s)) == Some((g, blanks, v))
  {
    var t := SignText(g) + blanks + v;
    assert t[0] == SignText(g)[0];
    SkipGap(lead, t);
    assert t == SignText(g) + (blanks + v);
    SignWordOf(g, blanks + v);
    assert t[|SignText(g)|..] == blanks + v;
    if blanks == [] {
      assert blanks + v == v;
    } else {
      assert (blanks + v)[0] == blanks[0];
    }
    BlankRunOf(blanks, v);
    assert (blanks + v)[..|blanks|] == blanks;
    assert (blanks + v)[|blanks|..] == v;
  }

  lemma TerminatedOf(digits: string, term: char, rest: string)
    requires AllDigits(digits) && (term == '.' || term == ' ')
    ensures Terminated(digits + [term] + rest)
            == Some((if digits == [] then None else Some(DigitsValue(digits)), rest))
  {
    var v := digits + [term] + rest;
    assert v == digits + ([term] + rest);
    DigitRunOf(digits, [term] + rest);
    assert v[..|digits|] == digits;
    assert v[|digits|..] == [term] + rest;
    assert v[|digits|..][1..] == rest;
  }

  /** A written number reads back as `GuiValue`: the `minus` is lost unless it
      is followed by exactly one space. */
  lemma GuiNumberOf(lead: string, g: Sign, blanks: string, n: nat, term: char, rest: string)
    requires AllBlank(lead) && AllBlank(blanks) && (term == '.' || term == ' ')
    ensures GuiNumber(lead + (SignText(g) + blanks + (ShowNat(n) + [term] + rest)))
            == Done(rest, GuiValue(g, blanks, n))
  {
    var v := ShowNat(n) + [term] + rest;
    NumeralStart(n, [term] + rest);
    assert v == ShowNat(n) + ([term] + rest);
    GuiSignOf(lead, g, blanks, v);
    TerminatedOf(ShowNat(n), term, rest);
    GuiNumberSteps(lead + (SignText(g) + blanks + v), g, blanks, v, Some(n), rest);
  }

  /** A sign without digits: `zero.` is 0, anything else reaching the terminator panics. */
  lemma GuiNoDigits(lead: string, g: Sign, blanks: string, rest: string)
    requires AllBlank(lead) && AllBlank(blanks)
    ensures GuiNumber(lead + (SignText(g) + blanks + ("." + rest)))
            == if g == Zero && blanks == [] then Done(rest, 0) else Panic
  {
    GuiSignOf(lead, g, blanks, "." + rest);
    TerminatedOf([], '.', rest);
    assert [] + ['.'] + rest == "." + rest;
    GuiNumberSteps(lead + (SignText(g) + blanks + ("." + rest)), g, blanks, "." + rest, None, rest);
  }

  /** Without a `.` or a space after the sign and digits, the number fails. */
  lemma GuiNeedsTerminator(lead: string, g: Sign, blanks: string, digits: string, rest: string)
    requires AllBlank(lead) && AllBlank(blanks) && AllDigits(digits)
    requires rest == [] || !(IsBlank(rest[0]) || IsDigit(rest[0]) || rest[0] == '.')
    ensures GuiNumber(lead + (SignText(g) + blanks + (digits + rest))) == Fail
  {
    var v := digits + rest;
    assert v == [] || !IsBlank(v[0]) by {
      if digits != [] {
        assert v[0] == digits[0];
      } else {
        assert v == rest;
      }
    }
    GuiSignOf(lead, g, blanks, v);
    DigitRunOf(digits, rest);
    assert v[|digits|..] == rest;
  }

  // ---------------------------------------------------------------------
  // `parse_temp`

  lemma GuiHighLeadInOf(l: LeadIn, x: string)
    ensures GuiHighLeadIn(Phrase(l) + x) == if IsHighLead(l) then Some(x) else None
  {
    var s := Phrase(l) + x;
    PhrasesClash(l, HighLead, x);
    PhrasesClash(l, SteadyNear, x);
    PhrasesClash(l, RisingTo, x);
    assert s[|Phrase(l)|..] == x;
  }

  lemma GuiLowLeadInOf(l: LeadIn, x: string)
    ensures GuiLowLeadIn(Phrase(l) + x) == if l == LowLead then Some(x) else None
  {
    var s := Phrase(l) + x;
    PhrasesClash(l, LowLead, x);
    assert s[|Phrase(l)|..] == x;
  }

  /** The number terminators this grammar reads back: `.` after any number,
      and a blank after one with digits (before a blank, `zero` is the sign
      text `zero `, which is not 0 and has no digits). */
  predicate ReadableTerminator(n: int, term: char) {
    term == '.' || (term == ' ' && n != 0)
  }

  /** The older grammar reads a number written with a sign word (`plus` for
      positive values) and a `.` or a blank after it. */
  lemma GuiWrittenNumber(n: int, term: char, rest: string)
    requires ReadableTerminator(n, term)
    ensures GuiNumber(" " + (NumberText(n, true, " ") + ([term] + rest))) == Done(rest, n)
  {
    if n == 0 {
      assert [term] + rest == "." + rest;
      GuiWrittenZero(rest);
    } else {
      var g := if n < 0 then Minus else Plus;
      var m: nat := if n < 0 then -n else n;
      assert n == if g == Minus then -(m as int) else m as int;
      GuiWrittenSigned(g, m, term, rest);
    }
  }

  /** `zero` is read as 0 only when a `.` follows it. */
  lemma GuiWrittenZero(rest: string)
    ensures GuiNumber(" " + (NumberText(0, true, " ") + ("." + rest))) == Done(rest, 0)
  {
    GuiNoDigits(" ", Zero, [], rest);
    assert SignText(Zero) + [] == NumberText(0, true, " ");
  }

  lemma GuiWrittenSigned(g: Sign, m: nat, term: char, rest: string)
    requires g != Zero && m != 0 && (term == '.' || term == ' ')
    ensures var n := if g == Minus then -(m as int) else m as int;
            GuiNumber(" " + (NumberText(n, true, " ") + ([term] + rest))) == Done(rest, n)
  {
    var n := if g == Minus then -(m as int) else m as int;
    var word := SignText(g) + " ";
    var digits := ShowNat(m);
    assert NumberText(n, true, " ") == word + digits;
    assert GuiValue(g, " ", m) == n;
    Associate3(word, digits, [term] + rest);
    assert digits + [term] + rest == digits + ([term] + rest);
    GuiNumberOf(" ", g, " ", m, term, rest);
  }

  /** A lead-in of this grammar and a signed number read back as the reading;
      one space after the terminator is consumed. */
  lemma GuiTempRoundTrip(l: LeadIn, n: int, term: char, rest: string)
    requires l != FallingTo && ReadableTerminator(n, term)
    ensures GuiTemp(Phrase(l) + " " + (NumberText(n, true, " ") + ([term] + rest)))
            == Done(OptSpace(rest), Reading(l, n as real))
  {
    var x := " " + (NumberText(n, true, " ") + ([term] + rest));
    assert Phrase(l) + " " + (NumberText(n, true, " ") + ([term] + rest)) == Phrase(l) + x;
    GuiWrittenNumber(n, term, rest);
    GuiHighLeadInOf(l, x);
    GuiLowLeadInOf(l, x);
  }

  /** `Temperature falling to` is not a lead-in of this grammar. */
  lemma GuiFallingFails(x: string)
    ensures GuiTemp(Phrase(FallingTo) + x) == Fail
  {
    GuiHighLeadInOf(FallingTo, x);
    GuiLowLeadInOf(FallingTo, x);
  }

  /** A number without a sign word (`High 6.`) is not a number of this grammar. */
  lemma GuiUnsignedFails(l: LeadIn, n: nat, rest: string)
    ensures GuiTemp(Phrase(l) + (" " + (ShowNat(n) + rest))) == Fail
  {
    var x := " " + (ShowNat(n) + rest);
    NumeralStart(n, rest);
    SkipGap(" ", ShowNat(n) + rest);
    NoSignWord(ShowNat(n) + rest);
    assert GuiNumber(x).Fail?;
    GuiHighLeadInOf(l, x);
    GuiLowLeadInOf(l, x);
  }

  // ---------------------------------------------------------------------
  // `parse_description`

  /** The stop is the first occurrence of the first of the four lead-ins present. */
  lemma GuiDescriptionEndOf(s: string, i: nat, l: LeadIn)
    requires l != FallingTo && FindFirst(s, Phrase(l)) == Some(i) && NoEarlierLeadIn(s, l)
    ensures GuiDescriptionEnd(s) == Some((i, l))
  {
    var r := GuiDescriptionEnd(s);
    assert Contains(s, Phrase(l));
    var k := r.value.1;
    assert Contains(s, Phrase(k));
    assert Rank(k) == Rank(l);
  }

  /** In a title body the description stops at the lead-in, under the same
      conditions as in the live grammar. */
  lemma GuiBodyStop(description: string, l: LeadIn, x: string)
    requires l != FallingTo && NoLeadInUpTo(description, l) && NoEarlierLeadIn(x, l)
    ensures GuiDescriptionEnd(TitleBody(description, l, x)) == Some((|description| + 2, l))
  {
    var s := TitleBody(description, l, x);
    BodyPieces(description, l, x);
    GuiDescriptionEndOf(s, |description| + 2, l);
  }

  lemma GuiDescriptionRoundTrip(description: string, l: LeadIn, x: string)
    requires l != FallingTo && IsTrimmed(description) && NoLeadInUpTo(description, l) && NoEarlierLeadIn(x, l)
    ensures GuiParseDescription(TitleBody(description, l, x)) == Done(Phrase(l) + " " + x, description)
  {
    var s := TitleBody(description, l, x);
    var p := |description| + 2;
    GuiBodyStop(description, l, x);
    TitleBodySplit(description, l, x);
    TrimWrapped(" ", description, " ");
    GuiDescriptionAt(s, p);
  }

  /** A body whose description reads back stops at its own lead-in. */
  lemma GuiReadBackStop(description: string, l: LeadIn, x: string)
    requires GuiParseDescription(TitleBody(description, l, x)) == Done(Phrase(l) + " " + x, description)
    ensures GuiDescriptionEnd(TitleBody(description, l, x)) == Some((|description| + 2, l))
  {
    var s := TitleBody(description, l, x);
    TitleBodySplit(description, l, x);
    var e := GuiDescriptionEnd(s);
    var i, k := e.value.0, e.value.1;
    FoundPrefix(s, Phrase(k), i);
    Associate3(Phrase(l), " ", x);
    PhrasesClash(l, k, " " + x);
  }

  /** Conversely, a body whose description reads back has a lead-in other
      than `Temperature falling to` and satisfies those conditions. */
  lemma GuiDescriptionReadBackOnlyIf(description: string, l: LeadIn, x: string)
    requires GuiParseDescription(TitleBody(description, l, x)) == Done(Phrase(l) + " " + x, description)
    ensures l != FallingTo && NoLeadInUpTo(description, l) && NoEarlierLeadIn(x, l)
  {
    GuiReadBackStop(description, l, x);
    StopAtLeadIn(description, l, x);
  }

  lemma GuiDescriptionAt(s: string, p: nat)
    requires GuiDescriptionEnd(s).Some? && GuiDescriptionEnd(s).value.0 == p
    ensures p <= |s| && GuiParseDescription(s) == Done(s[p..], Trim(s[..p]))
  {
  }

  /** A body whose only lead-ins are `Temperature falling to` has no description. */
  lemma GuiFallingBodyFails(description: string, x: string)
    requires NoEarlierLeadIn(description, FallingTo) && NoEarlierLeadIn(x, FallingTo)
    ensures GuiParseDescription(TitleBody(description, FallingTo, x)) == Fail
  {
    BodyNoEarlier(description, FallingTo, x);
  }

  // ---------------------------------------------------------------------
  // `parse_forecast`

  lemma GuiForecastSteps(s: string, dow: DayOfWeek, s1: string, dn: DayNight, s2: string,
                         description: string, s3: string, temp: Temperature<Celsius>, s4: string)
    requires ParseDayOfWeek(s) == Done(s1, dow) && ParseDayNight(s1) == Done(s2, dn)
    requires GuiParseDescription(s2) == Done(s3, description) && GuiTemp(s3) == Done(s4, temp)
    ensures GuiForecast(s) == Done(s4, Forecast(temp, ToFahrenheit(temp), description, dn, dow))
  {
  }

  /** A title the older grammar can read (a lead-in other than `Temperature
      falling to`, a signed number, then a `.`, or a blank after digits)
      reads back as its parts. */
  lemma GuiForecastRoundTrip(dow: DayOfWeek, dn: DayNight, description: string, l: LeadIn,
                             n: int, term: char, rest: string)
    requires l != FallingTo && ReadableTerminator(n, term)
    requires IsTrimmed(description) && NoLeadInUpTo(description, l) && NoEarlierLeadIn(rest, l)
    ensures var c := Reading(l, n as real);
            GuiForecast(TitleText(dow, dn, description, l, n, true, " ", [term] + rest))
            == Done(OptSpace(rest), Forecast(c, ToFahrenheit(c), description, dn, dow))
  {
    var x := NumberText(n, true, " ") + ([term] + rest);
    var body := TitleBody(description, l, x);
    var afterDay := MarkerText(dn) + body;
    GuiTitlePieces(dow, dn, description, l, n, term, rest);
    GuiForecastSteps(TitleText(dow, dn, description, l, n, true, " ", [term] + rest), dow, afterDay, dn, body,
                     description, Phrase(l) + " " + x, Reading(l, n as real), OptSpace(rest));
  }

  /** What each step of the older `parse_forecast` reads from a title it can read. */
  lemma GuiTitlePieces(dow: DayOfWeek, dn: DayNight, description: string, l: LeadIn,
                       n: int, term: char, rest: string)
    requires l != FallingTo && ReadableTerminator(n, term)
    requires IsTrimmed(description) && NoLeadInUpTo(description, l) && NoEarlierLeadIn(rest, l)
    ensures var x := NumberText(n, true, " ") + ([term] + rest);
            var body := TitleBody(description, l, x);
            var afterDay := MarkerText(dn) + body;
            && ParseDayOfWeek(TitleText(dow, dn, description, l, n, true, " ", [term] + rest)) == Done(afterDay, dow)
            && ParseDayNight(afterDay) == Done(body, dn)
            && GuiParseDescription(body) == Done(Phrase(l) + " " + x, description)
            && GuiTemp(Phrase(l) + " " + x) == Done(OptSpace(rest), Reading(l, n as real))
  {
    var num := NumberText(n, true, " ");
    var x := num + ([term] + rest);
    var body := TitleBody(description, l, x);
    var afterDay := MarkerText(dn) + body;
    assert TitleText(dow, dn, description, l, n, true, " ", [term] + rest) == DayOfWeekName(dow) + afterDay;
    DayOfWeekRoundTrip(dow, afterDay);
    MarkerRoundTrip(dn, body);
    NumberNoEarlier(n, term, rest, l);
    GuiDescriptionRoundTrip(description, l, x);
    GuiTempRoundTrip(l, n, term, rest);
  }

  /** A written number and its terminator add no lead-in tried before `l`. */
  lemma NumberNoEarlier(n: int, term: char, rest: string, l: LeadIn)
    requires (term == '.' || term == ' ') && NoEarlierLeadIn(rest, l)
    ensures NoEarlierLeadIn(NumberText(n, true, " ") + ([term] + rest), l)
  {
    NoInitialsInNumber(n, true, " ");
    assert NoInitials([term]);
    NoEarlierInTail([term], rest, l);
    NoEarlierInTail(NumberText(n, true, " "), [term] + rest, l);
  }

  /** A title whose reading is introduced by `Temperature falling to` does not
      parse in the older grammar. */
  lemma GuiFallingTitleFails(dow: DayOfWeek, dn: DayNight, description: string,
                             n: int, plus: bool, gap: string, tail: string)
    requires NoEarlierLeadIn(description, FallingTo) && AllBlank(gap) && NoEarlierLeadIn(tail, FallingTo)
    ensures GuiForecast(TitleText(dow, dn, description, FallingTo, n, plus, gap, tail)) == Fail
  {
    var num := NumberText(n, plus, gap);
    var x := num + tail;
    var body := TitleBody(description, FallingTo, x);
    var afterDay := MarkerText(dn) + body;
    assert TitleText(dow, dn, description, FallingTo, n, plus, gap, tail) == DayOfWeekName(dow) + afterDay;
    DayOfWeekRoundTrip(dow, afterDay);
    MarkerRoundTrip(dn, body);
    NoInitialsInNumber(n, plus, gap);
    NoEarlierInTail(num, tail, FallingTo);
    GuiFallingBodyFails(description, x);
    GuiForecastNoDescription(DayOfWeekName(dow) + afterDay, dow, afterDay, dn, body);
  }

  lemma GuiForecastNoDescription(s: string, dow: DayOfWeek, s1: string, dn: DayNight, s2: string)
    requires ParseDayOfWeek(s) == Done(s1, dow) && ParseDayNight(s1) == Done(s2, dn)
    requires GuiParseDescription(s2) == Fail
    ensures GuiForecast(s) == Fail
  {
  }
}
