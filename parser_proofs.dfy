/** Properties of the live title grammar: each parser reads back what the
    feed writes (the round trips), rejects what it should, and the steps a
    composed parser takes. */
module ParserProofs {
  import opened Text
  import opened Types
  import opened Parsers

  // ---------------------------------------------------------------------
  // Shared combinators

  /** A string that starts with `p + q` starts with `p`. */
  lemma StartsWithLonger(s: string, p: string, q: string)
    ensures StartsWith(s, p + q) ==> StartsWith(s, p)
  {
    if StartsWith(s, p + q) {
      assert s[..|p|] == (p + q)[..|p|];
    }
  }

  // ---------------------------------------------------------------------
  // `parse_number`

  lemma NumeralStart(n: nat, rest: string)
    ensures (ShowNat(n) + rest)[0] == ShowNat(n)[0] && IsDigit(ShowNat(n)[0])
  {
  }

  lemma BlankDigitsOf(gap: string, digits: string, rest: string)
    requires AllBlank(gap) && |digits| > 0 && AllDigits(digits) && (rest == [] || !IsDigit(rest[0]))
    ensures BlankDigits(gap + digits + rest) == Some((DigitsValue(digits), rest))
  {
    var t := gap + digits + rest;
    assert t == gap + (digits + rest);
    assert (digits + rest)[0] == digits[0];
    BlankRunOf(gap, digits + rest);
    assert t[|gap|..] == digits + rest;
    DigitRunOf(digits, rest);
    assert t[|gap|..][..|digits|] == digits;
    assert t[|gap| + |digits|..] == rest;
  }

  lemma BlankDigitsNone(rest: string)
    requires NoNumeralAhead(rest)
    ensures BlankDigits(rest) == None
  {
  }

  lemma NoSignWord(s: string)
    requires s == [] || !IsInitialOfSign(s[0])
    ensures SignWord(s) == None
  {
    if s != [] {
      DiffersAt(s, "minus", 0);
      DiffersAt(s, "plus", 0);
      DiffersAt(s, "zero", 0);
    }
  }

  lemma SignPrefixOf(g: Option<Sign>, t: string)
    requires g.None? ==> t == [] || !IsInitialOfSign(t[0])
    ensures SignPrefix(OptSignText(g) + t) == (g, t)
  {
    var s := OptSignText(g) + t;
    if g.Some? {
      SignWordOf(g.value, t);
      assert s[|SignText(g.value)|..] == t;
    } else {
      assert s == t;
      NoSignWord(t);
    }
  }

  lemma NoNumeralStart(rest: string)
    requires NoNumeralAhead(rest)
    ensures rest == [] || !IsDigit(rest[0])
  {
    if rest != [] && BlankRun(rest) > 0 {
      assert rest[..BlankRun(rest)][0] == rest[0];
    }
  }

  /** Reading back a written number gives the number and leaves what follows. */
  lemma NumberRoundTrip(n: int, plus: bool, gap: string, rest: string)
    requires AllBlank(gap) && NoNumeralAhead(rest)
    ensures ParseNumber(NumberText(n, plus, gap) + rest) == Done(rest, n)
  {
    if n == 0 {
      SignPrefixOf(Some(Zero), rest);
      BlankDigitsNone(rest);
    } else {
      var m: nat := if n < 0 then -n else n;
      var t := gap + ShowNat(m) + rest;
      Associate4(OptSignText(NumberSign(n, plus)), gap, ShowNat(m), rest);
      NonZeroNumber(NumberSign(n, plus), m, t, gap, rest);
    }
  }

  lemma Associate4(a: string, b: string, c: string, d: string)
    ensures a + b + c + d == a + (b + c + d)
  {
  }

  lemma NonZeroNumber(g: Option<Sign>, m: nat, t: string, gap: string, rest: string)
    requires g != Some(Zero) && AllBlank(gap) && NoNumeralAhead(rest)
    requires t == gap + ShowNat(m) + rest
    ensures ParseNumber(OptSignText(g) + t) == Done(rest, if g == Some(Minus) then -(m as int) else m as int)
  {
    assert SignPrefix(OptSignText(g) + t) == (g, t) by {
      NumeralStart(m, rest);
      assert t[0] == (if |gap| > 0 then gap[0] else ShowNat(m)[0]);
      SignPrefixOf(g, t);
    }
    assert BlankDigits(t) == Some((m, rest)) by {
      NoNumeralStart(rest);
      BlankDigitsOf(gap, ShowNat(m), rest);
    }
    NumberSteps(OptSignText(g) + t, g, t, m, rest);
  }

  /** A signed number other than `zero` from the results of its two steps. */
  lemma NumberSteps(s: string, g: Option<Sign>, t: string, m: nat, rest: string)
    requires g != Some(Zero) && SignPrefix(s) == (g, t) && BlankDigits(t) == Some((m, rest))
    ensures ParseNumber(s) == Done(rest, if g == Some(Minus) then -(m as int) else m as int)
  {
  }

  /** Without `zero` and without a digit run there is no number; in particular
      the empty string is not a number. */
  lemma NumberNeedsDigits(g: Option<Sign>, rest: string)
    requires g != Some(Zero) && NoNumeralAhead(rest)
    requires g.None? ==> rest == [] || !IsInitialOfSign(rest[0])
    ensures ParseNumber(OptSignText(g) + rest) == Fail
  {
    SignPrefixOf(g, rest);
    BlankDigitsNone(rest);
  }

  lemma EmptyIsNotANumber()
    ensures ParseNumber("") == Fail
  {
    NumberNeedsDigits(None, "");
  }

  // ---------------------------------------------------------------------
  // `parse_temp`

  /** Distinct lead-ins differ within the shorter phrase, so a title starts with at most one. */
  lemma PhrasesClash(l: LeadIn, m: LeadIn, x: string)
    ensures StartsWith(Phrase(l) + x, Phrase(m)) <==> l == m
  {
    var s := Phrase(l) + x;
    if l == m {
      assert s[..|Phrase(m)|] == Phrase(m);
    } else {
      var temperature := l in {SteadyNear, RisingTo, FallingTo} && m in {SteadyNear, RisingTo, FallingTo};
      var i := if temperature then 12 else 0;
      assert s[i] == Phrase(l)[i];
      DiffersAt(s, Phrase(m), i);
    }
  }

  /** The tag of a lead-in is recognised, and no other tag is. */
  lemma LeadInTag(l: LeadIn, m: LeadIn, x: string)
    ensures StartsWith(Phrase(l) + " " + x, Phrase(m) + " ") <==> l == m
  {
    var s := Phrase(l) + " " + x;
    PhrasesClash(l, m, " " + x);
    assert s == Phrase(l) + (" " + x);
    if l == m {
      assert s[..|Phrase(m)| + 1] == Phrase(m) + " ";
    } else {
      StartsWithLonger(s, Phrase(m), " ");
    }
  }

  lemma HighLeadInOf(l: LeadIn, x: string)
    ensures HighLeadIn(Phrase(l) + " " + x) == if IsHighLead(l) then Some(x) else None
  {
    var s := Phrase(l) + " " + x;
    LeadInTag(l, HighLead, x);
    LeadInTag(l, SteadyNear, x);
    LeadInTag(l, RisingTo, x);
    assert s[|Phrase(l)| + 1..] == x;
  }

  lemma LowLeadInOf(l: LeadIn, x: string)
    ensures LowLeadIn(Phrase(l) + " " + x) == if IsHighLead(l) then None else Some(x)
  {
    var s := Phrase(l) + " " + x;
    LeadInTag(l, LowLead, x);
    LeadInTag(l, FallingTo, x);
    assert s[|Phrase(l)| + 1..] == x;
  }

  /** A lead-in, a blank and a written number read back as that reading. */
  lemma TempRoundTrip(l: LeadIn, n: int, plus: bool, gap: string, rest: string)
    requires AllBlank(gap) && NoNumeralAhead(rest)
    ensures ParseTemp(Phrase(l) + " " + (NumberText(n, plus, gap) + rest)) == Done(rest, Reading(l, n as real))
  {
    var x := NumberText(n, plus, gap) + rest;
    NumberRoundTrip(n, plus, gap, rest);
    HighLeadInOf(l, x);
    LowLeadInOf(l, x);
  }

  // ---------------------------------------------------------------------
  // `parse_day_night`, `parse_day_of_week`

  /** Blanks before `night:` are all consumed, however many there are. */
  lemma NightMarker(blanks: string, rest: string)
    requires AllBlank(blanks)
    ensures ParseDayNight(blanks + "night:" + rest) == Done(rest, Night)
  {
    var s := blanks + "night:" + rest;
    assert s == blanks + ("night:" + rest);
    BlankRunOf(blanks, "night:" + rest);
    assert s[|blanks|..] == "night:" + rest;
    assert s[|blanks| + 6..] == rest;
    assert s[0] != ':' by {
      if |blanks| > 0 {
        assert s[0] == blanks[0];
      }
    }
    DiffersAt(s, ":", 0);
  }

  lemma MarkerRoundTrip(dn: DayNight, rest: string)
    ensures ParseDayNight(MarkerText(dn) + rest) == Done(rest, dn)
  {
    if dn == Day {
      assert (":" + rest)[1..] == rest;
    } else {
      NightMarker(" ", rest);
      assert " " + "night:" + rest == " night:" + rest;
    }
  }

  /** No weekday name starts another, so a title names one weekday. */
  lemma DayNamesClash(d: DayOfWeek, e: DayOfWeek, x: string)
    ensures StartsWith(DayOfWeekName(d) + x, DayOfWeekName(e)) <==> d == e
  {
    var s := DayOfWeekName(d) + x;
    if d == e {
      assert s[..|DayOfWeekName(e)|] == DayOfWeekName(e);
    } else {
      var i := if DayOfWeekName(d)[0] == DayOfWeekName(e)[0] then 1 else 0;
      assert s[i] == DayOfWeekName(d)[i];
      DiffersAt(s, DayOfWeekName(e), i);
    }
  }

  lemma DayOfWeekRoundTrip(d: DayOfWeek, rest: string)
    ensures ParseDayOfWeek(DayOfWeekName(d) + rest) == Done(rest, d)
  {
    var s := DayOfWeekName(d) + rest;
    forall e ensures StartsWith(s, DayOfWeekName(e)) <==> d == e {
      DayNamesClash(d, e, rest);
    }
    assert s[|DayOfWeekName(d)|..] == rest;
  }

  // ---------------------------------------------------------------------
  // `parse_forecast`

  /** The four steps of a title, run one after the other. */
  lemma ForecastSteps(s: string, dow: DayOfWeek, s1: string, dn: DayNight, s2: string,
                      description: string, s3: string, temp: Temperature<Celsius>, s4: string)
    requires ParseDayOfWeek(s) == Done(s1, dow) && ParseDayNight(s1) == Done(s2, dn)
    requires ParseDescription(s2) == Done(s3, description) && ParseTemp(s3) == Done(s4, temp)
    ensures ParseForecast(s) == Done(s4, Forecast(temp, ToFahrenheit(temp), description, dn, dow))
  {
  }

  lemma NoInitialsAppend(a: string, b: string)
    ensures NoInitials(a + b) <==> NoInitials(a) && NoInitials(b)
  {
    assert forall i :: 0 <= i < |a| ==> a[i] == (a + b)[i];
    assert forall i :: 0 <= i < |b| ==> b[i] == (a + b)[|a| + i];
  }

  lemma NoInitialsInNumber(n: int, plus: bool, gap: string)
    requires AllBlank(gap)
    ensures NoInitials(NumberText(n, plus, gap))
  {
    if n != 0 {
      var m: nat := if n < 0 then -n else n;
      var word := if n < 0 then "minus" else if plus then "plus" else "";
      assert NoInitials(word);
      NoInitialsAppend(word, gap);
      NoInitialsAppend(word + gap, ShowNat(m));
    }
  }

  /** Text without lead-in initials holds no lead-in. */
  lemma NoInitialsNoLeadIn(s: string)
    requires NoInitials(s)
    ensures forall m :: !Contains(s, Phrase(m))
  {
    forall m, j | OccursAt(s, Phrase(m), j) ensures false {
      PhraseInitial(m);
    }
  }

  /** A lead-in begins with its only initial and does not end with a blank. */
  lemma PhraseInitial(l: LeadIn)
    ensures IsInitial(Phrase(l)[0]) && Phrase(l)[|Phrase(l)| - 1] != ' '
    ensures forall i :: 1 <= i < |Phrase(l)| ==> !IsInitial(Phrase(l)[i])
  {
    var p := Phrase(l);
    match l
    case HighLead => assert forall i :: 1 <= i < |p| ==> !IsInitial(p[i]);
    case LowLead => assert forall i :: 1 <= i < |p| ==> !IsInitial(p[i]);
    case SteadyNear => assert forall i :: 1 <= i < |p| ==> !IsInitial(p[i]);
    case RisingTo => assert forall i :: 1 <= i < |p| ==> !IsInitial(p[i]);
    case FallingTo => assert forall i :: 1 <= i < |p| ==> !IsInitial(p[i]);
  }

  /** Where the characters of a title body come from. */
  lemma TitleBodyChars(description: string, l: LeadIn, x: string)
    ensures var s := TitleBody(description, l, x);
            var p := |description| + 2;
            var q := p + |Phrase(l)| + 1;
            && |s| == q + |x| && s[0] == ' ' && s[p - 1] == ' ' && s[q - 1] == ' '
            && (forall k :: 0 <= k < |description| ==> s[k + 1] == description[k])
            && (forall k :: 0 <= k < |Phrase(l)| ==> s[p + k] == Phrase(l)[k])
            && (forall k :: 0 <= k < |x| ==> s[q + k] == x[k])
  {
  }

  /** An occurrence that ends before the blank after the description lies in the description. */
  lemma InDescription(description: string, l: LeadIn, x: string, w: string, j: int)
    requires OccursAt(TitleBody(description, l, x), w, j) && 1 <= j && j + |w| < |description| + 2
    ensures OccursAt(description, w, j - 1)
  {
    var s := TitleBody(description, l, x);
    TitleBodyChars(description, l, x);
    assert forall k :: 0 <= k < |w| ==> w[k] == s[j + k] == description[j - 1 + k];
    assert description[j - 1..j - 1 + |w|] == w;
  }

  /** An occurrence that starts after the blank following the lead-in lies in `x`. */
  lemma InAfterText(description: string, l: LeadIn, x: string, w: string, j: int)
    requires OccursAt(TitleBody(description, l, x), w, j) && |description| + 3 + |Phrase(l)| <= j
    ensures OccursAt(x, w, j - (|description| + 3 + |Phrase(l)|))
  {
    var s := TitleBody(description, l, x);
    var q := |description| + 3 + |Phrase(l)|;
    TitleBodyChars(description, l, x);
    assert forall k :: 0 <= k < |w| ==> w[k] == s[j + k] == x[j - q + k];
    assert x[j - q..j - q + |w|] == w;
  }

  /** An occurrence in the description is one in the title body. */
  lemma FromDescription(description: string, l: LeadIn, x: string, w: string, j: int)
    requires OccursAt(description, w, j)
    ensures OccursAt(TitleBody(description, l, x), w, j + 1)
  {
    var s := TitleBody(description, l, x);
    TitleBodyChars(description, l, x);
    assert forall k :: 0 <= k < |w| ==> s[j + 1 + k] == description[j + k] == w[k];
    assert s[j + 1..j + 1 + |w|] == w;
  }

  /** An occurrence in `x` is one in the title body. */
  lemma FromAfterText(description: string, l: LeadIn, x: string, w: string, j: int)
    requires OccursAt(x, w, j)
    ensures OccursAt(TitleBody(description, l, x), w, j + |description| + 3 + |Phrase(l)|)
  {
    var s := TitleBody(description, l, x);
    var q := |description| + 3 + |Phrase(l)|;
    TitleBodyChars(description, l, x);
    assert forall k :: 0 <= k < |w| ==> s[q + j + k] == x[j + k] == w[k];
    assert s[q + j..q + j + |w|] == w;
  }

  /** A character of an occurrence is the character of the text at its offset. */
  lemma CharOfOccurrence(s: string, w: string, j: int, k: int)
    requires OccursAt(s, w, j) && 0 <= k < |w|
    ensures s[j + k] == w[k]
  {
    assert s[j..j + |w|][k] == s[j + k];
  }

  /** The initials of a title body are those of the description, the one
      starting the lead-in, and those after it. */
  lemma BodyInitials(description: string, l: LeadIn, x: string, j: int)
    requires 0 <= j < |TitleBody(description, l, x)| && IsInitial(TitleBody(description, l, x)[j])
    ensures var p := |description| + 2;
            (1 <= j < p - 1) || j == p || p + |Phrase(l)| + 1 <= j
  {
    TitleBodyChars(description, l, x);
    PhraseInitial(l);
  }

  /** A lead-in starting in the description ends before the blank that follows it. */
  lemma NoStraddle(description: string, l: LeadIn, x: string, m: LeadIn, j: int)
    requires OccursAt(TitleBody(description, l, x), Phrase(m), j) && j < |description| + 1
    ensures j + |Phrase(m)| < |description| + 2
  {
    var s := TitleBody(description, l, x);
    var w := Phrase(m);
    var p := |description| + 2;
    if p <= j + |w| {
      var k := if j + |w| == p then |w| - 1 else p - j;
      CharOfOccurrence(s, w, j, k);
      TitleBodyChars(description, l, x);
      PhraseInitial(m);
      PhraseInitial(l);
      assert false;
    }
  }

  /** A lead-in in a title body lies inside the description, is the lead-in
      itself, or lies inside the text after it: none straddles a blank. */
  lemma BodyOccurrence(description: string, l: LeadIn, x: string, m: LeadIn, j: int)
    requires OccursAt(TitleBody(description, l, x), Phrase(m), j)
    ensures var p := |description| + 2;
            var q := p + |Phrase(l)| + 1;
            || (1 <= j && OccursAt(description, Phrase(m), j - 1))
            || j == p
            || (q <= j && OccursAt(x, Phrase(m), j - q))
  {
    var s := TitleBody(description, l, x);
    var w := Phrase(m);
    var p := |description| + 2;
    PhraseInitial(m);
    CharOfOccurrence(s, w, j, 0);
    BodyInitials(description, l, x, j);
    if j < p - 1 {
      NoStraddle(description, l, x, m, j);
      InDescription(description, l, x, w, j);
    } else if p < j {
      InAfterText(description, l, x, w, j);
    }
  }

  /** The stop `take_until` finds is the first occurrence of the first lead-in
      present, in the order `Rank` gives. */
  lemma DescriptionEndOf(s: string, i: nat, l: LeadIn)
    requires FindFirst(s, Phrase(l)) == Some(i) && NoEarlierLeadIn(s, l)
    ensures DescriptionEnd(s) == Some((i, l))
  {
    var r := DescriptionEnd(s);
    assert Contains(s, Phrase(l));
    var k := r.value.1;
    assert Contains(s, Phrase(k));
    assert Rank(k) == Rank(l);
  }

  /** The text after a lead-in cannot hide a lead-in tried earlier. */
  lemma NoEarlierInTail(head: string, tail: string, l: LeadIn)
    requires NoInitials(head) && NoEarlierLeadIn(tail, l)
    ensures NoEarlierLeadIn(head + tail, l)
  {
    forall m, j | Rank(m) < Rank(l) && OccursAt(head + tail, Phrase(m), j)
      ensures false
    {
      var w := Phrase(m);
      PhraseInitial(m);
      assert (head + tail)[j] == w[0];
      if |head| <= j {
        assert (head + tail)[j..j + |w|] == tail[j - |head|..j - |head| + |w|];
        assert OccursAt(tail, w, j - |head|);
      }
    }
  }

  /** An occurrence is a containment. */
  lemma Contained(s: string, w: string, j: int)
    ensures OccursAt(s, w, j) ==> Contains(s, w)
  {
  }

  /** A title body holds no lead-in tried before its own when neither the
      description nor the text after the lead-in does. */
  lemma BodyNoEarlier(description: string, l: LeadIn, x: string)
    requires NoEarlierLeadIn(description, l) && NoEarlierLeadIn(x, l)
    ensures NoEarlierLeadIn(TitleBody(description, l, x), l)
  {
    var s := TitleBody(description, l, x);
    var p := |description| + 2;
    var q := p + |Phrase(l)| + 1;
    TitleBodySplit(description, l, x);
    Associate3(Phrase(l), " ", x);
    forall m, j | Rank(m) < Rank(l) && OccursAt(s, Phrase(m), j)
      ensures false
    {
      BodyOccurrence(description, l, x, m, j);
      Contained(description, Phrase(m), j - 1);
      Contained(x, Phrase(m), j - q);
      if j == p {
        OccursAtStart(s, Phrase(m), p);
        PhrasesClash(l, m, " " + x);
      }
    }
  }

  /** The written lead-in is the first occurrence of its phrase when the
      description does not hold it. */
  lemma BodyFirstLeadIn(description: string, l: LeadIn, x: string)
    requires !Contains(description, Phrase(l))
    ensures var s := TitleBody(description, l, x);
            OccursAt(s, Phrase(l), |description| + 2) &&
            forall j :: 0 <= j < |description| + 2 ==> !OccursAt(s, Phrase(l), j)
  {
    var s := TitleBody(description, l, x);
    var p := |description| + 2;
    TitleBodySplit(description, l, x);
    PhrasesClash(l, l, " " + x);
    Associate3(Phrase(l), " ", x);
    OccursAtStart(s, Phrase(l), p);
    forall j | 0 <= j < p && OccursAt(s, Phrase(l), j)
      ensures false
    {
      BodyOccurrence(description, l, x, l, j);
      Contained(description, Phrase(l), j - 1);
    }
  }

  /** In a title body the lead-in appears where it was written, and no
      lead-in tried before it appears anywhere. */
  lemma BodyPieces(description: string, l: LeadIn, x: string)
    requires NoLeadInUpTo(description, l) && NoEarlierLeadIn(x, l)
    ensures var s := TitleBody(description, l, x);
            OccursAt(s, Phrase(l), |description| + 2) && NoEarlierLeadIn(s, l) &&
            forall j :: 0 <= j < |description| + 2 ==> !OccursAt(s, Phrase(l), j)
  {
    BodyNoEarlier(description, l, x);
    BodyFirstLeadIn(description, l, x);
  }

  /** The pieces of a title body around the lead-in. */
  lemma TitleBodySplit(description: string, l: LeadIn, x: string)
    ensures var s := TitleBody(description, l, x);
            var p := |description| + 2;
            p < |s| && s[p..] == Phrase(l) + " " + x && s[..p] == " " + description + " "
  {
    var s := TitleBody(description, l, x);
    assert s == (" " + description + " ") + (Phrase(l) + " " + x);
  }

  /** In a title body the description stops at the lead-in, provided the
      description holds neither it nor an earlier lead-in and the text after
      it holds no earlier one. */
  lemma BodyStop(description: string, l: LeadIn, x: string)
    requires NoLeadInUpTo(description, l) && NoEarlierLeadIn(x, l)
    ensures DescriptionEnd(TitleBody(description, l, x)) == Some((|description| + 2, l))
  {
    var s := TitleBody(description, l, x);
    BodyPieces(description, l, x);
    DescriptionEndOf(s, |description| + 2, l);
  }

  lemma DescriptionAt(s: string, p: nat)
    requires DescriptionEnd(s).Some? && DescriptionEnd(s).value.0 == p
    ensures p <= |s| && ParseDescription(s) == Done(s[p..], Trim(s[..p]))
  {
  }

  /** The description of a title body is read back up to its lead-in when
      it holds neither that lead-in nor an earlier one and the text after the
      lead-in holds no earlier one. */
  lemma DescriptionRoundTrip(description: string, l: LeadIn, x: string)
    requires IsTrimmed(description) && NoLeadInUpTo(description, l) && NoEarlierLeadIn(x, l)
    ensures ParseDescription(TitleBody(description, l, x)) == Done(Phrase(l) + " " + x, description)
  {
    var s := TitleBody(description, l, x);
    var p := |description| + 2;
    BodyStop(description, l, x);
    TitleBodySplit(description, l, x);
    TrimWrapped(" ", description, " ");
    DescriptionAt(s, p);
  }

  /** A body whose description reads back stops at its own lead-in. */
  lemma ReadBackStop(description: string, l: LeadIn, x: string)
    requires ParseDescription(TitleBody(description, l, x)) == Done(Phrase(l) + " " + x, description)
    ensures DescriptionEnd(TitleBody(description, l, x)) == Some((|description| + 2, l))
  {
    var s := TitleBody(description, l, x);
    TitleBodySplit(description, l, x);
    var e := DescriptionEnd(s);
    var i, k := e.value.0, e.value.1;
    FoundPrefix(s, Phrase(k), i);
    Associate3(Phrase(l), " ", x);
    PhrasesClash(l, k, " " + x);
  }

  /** A body that stops at its own lead-in holds neither it nor an earlier
      one in the description, and no earlier one after it. */
  lemma StopAtLeadIn(description: string, l: LeadIn, x: string)
    requires var s := TitleBody(description, l, x);
             FindFirst(s, Phrase(l)) == Some(|description| + 2) && NoEarlierLeadIn(s, l)
    ensures NoLeadInUpTo(description, l) && NoEarlierLeadIn(x, l)
  {
    forall m | Rank(m) <= Rank(l) ensures !Contains(description, Phrase(m)) {
      DescriptionFree(description, l, x, m);
    }
    forall m | Rank(m) < Rank(l) ensures !Contains(x, Phrase(m)) {
      AfterTextFree(description, l, x, m);
    }
  }

  lemma DescriptionFree(description: string, l: LeadIn, x: string, m: LeadIn)
    requires var s := TitleBody(description, l, x);
             FindFirst(s, Phrase(l)) == Some(|description| + 2) && NoEarlierLeadIn(s, l)
    requires Rank(m) <= Rank(l)
    ensures !Contains(description, Phrase(m))
  {
    forall j | OccursAt(description, Phrase(m), j) ensures false {
      FromDescription(description, l, x, Phrase(m), j);
    }
  }

  lemma AfterTextFree(description: string, l: LeadIn, x: string, m: LeadIn)
    requires NoEarlierLeadIn(TitleBody(description, l, x), l) && Rank(m) < Rank(l)
    ensures !Contains(x, Phrase(m))
  {
    forall j | OccursAt(x, Phrase(m), j) ensures false {
      FromAfterText(description, l, x, Phrase(m), j);
    }
  }

  /** Conversely, a body whose description reads back satisfies those
      conditions: an earlier lead-in in the description or after the lead-in,
      or the lead-in itself in the description, moves the stop. */
  lemma DescriptionReadBackOnlyIf(description: string, l: LeadIn, x: string)
    requires ParseDescription(TitleBody(description, l, x)) == Done(Phrase(l) + " " + x, description)
    ensures NoLeadInUpTo(description, l) && NoEarlierLeadIn(x, l)
  {
    ReadBackStop(description, l, x);
    StopAtLeadIn(description, l, x);
  }

  /** Parsing a title written from its parts gives back exactly those parts:
      weekday, period, description, a High or Low reading chosen by the
      lead-in, and the Fahrenheit value derived from it. */
  lemma ForecastRoundTrip(dow: DayOfWeek, dn: DayNight, description: string, l: LeadIn,
                          n: int, plus: bool, gap: string, tail: string)
    requires IsTrimmed(description) && NoLeadInUpTo(description, l)
    requires AllBlank(gap) && NoNumeralAhead(tail) && NoEarlierLeadIn(tail, l)
    ensures var c := Reading(l, n as real);
            ParseForecast(TitleText(dow, dn, description, l, n, plus, gap, tail))
            == Done(tail, Forecast(c, ToFahrenheit(c), description, dn, dow))
  {
    var num := NumberText(n, plus, gap);
    var x := num + tail;
    var body := TitleBody(description, l, x);
    var afterDay := MarkerText(dn) + body;
    assert TitleText(dow, dn, description, l, n, plus, gap, tail) == DayOfWeekName(dow) + afterDay;
    DayOfWeekRoundTrip(dow, afterDay);
    MarkerRoundTrip(dn, body);
    NoInitialsInNumber(n, plus, gap);
    NoEarlierInTail(num, tail, l);
    DescriptionRoundTrip(description, l, x);
    TempRoundTrip(l, n, plus, gap, tail);
    ForecastSteps(DayOfWeekName(dow) + afterDay, dow, afterDay, dn, body, description,
                  Phrase(l) + " " + x, Reading(l, n as real), tail);
  }

  // ---------------------------------------------------------------------
  // `parse_signed_number`, `parse_current_forecast`

  /** The `.` and digits of a written fraction are read as its value; no fraction, nothing read. */
  lemma FractionOf(fraction: string, after: string)
    requires AllDigits(fraction)
    requires after == [] || !(IsDigit(after[0]) || after[0] == '.')
    ensures var r := Fraction(FractionText(fraction) + after);
            if fraction == [] then r.None? else r.Some? && r.value.0 == FractionValue(fraction) && r.value.1 == after
  {
    var v := FractionText(fraction) + after;
    if fraction != [] {
      assert v == ['.'] + (fraction + after);
      assert v[1..] == fraction + after;
      DigitRunOf(fraction, after);
      assert v[1..][..|fraction|] == fraction;
      assert v[1..][|fraction|..] == after;
    } else {
      assert v == after;
    }
  }

  /** The decimal from the results of its steps: the digit run `w`, then the fraction read from `v`. */
  lemma DecimalSteps(u: string, w: string, v: string, f: real, after: string)
    requires |w| > 0 && AllDigits(w) && DigitRun(u) == |w| && u[..|w|] == w && u[|w|..] == v
    requires var r := Fraction(v);
             if r.None? then f == 0.0 && after == v else r.value.0 == f && r.value.1 == after
    ensures Decimal(u).Some? && Decimal(u).value.0 == DigitsValue(w) as real + f && Decimal(u).value.1 == after
  {
  }

  /** A written decimal is read as its value, and what follows is left. */
  lemma DecimalOf(whole: nat, fraction: string, after: string)
    requires AllDigits(fraction)
    requires after == [] || !(IsDigit(after[0]) || after[0] == '.')
    ensures var u := ShowNat(whole) + FractionText(fraction) + after;
            Decimal(u).Some? && Decimal(u).value.0 == DecimalValue(false, whole, fraction) && Decimal(u).value.1 == after
  {
    var w := ShowNat(whole);
    var v := FractionText(fraction) + after;
    var u := w + v;
    assert u == w + FractionText(fraction) + after;
    FractionStart(fraction, after);
    DigitRunOf(w, v);
    assert u[..|w|] == w;
    assert u[|w|..] == v;
    FractionOf(fraction, after);
    DecimalSteps(u, w, v, if fraction == [] then 0.0 else FractionValue(fraction), after);
  }

  lemma FractionStart(fraction: string, after: string)
    requires after == [] || !(IsDigit(after[0]) || after[0] == '.')
    ensures var v := FractionText(fraction) + after;
            v == [] || !IsDigit(v[0])
  {
    var v := FractionText(fraction) + after;
    if fraction == [] && after != [] {
      assert v[0] == after[0];
    }
  }

  /** A decimal starts with a digit, so no blank is skipped and the `-` is seen exactly when written. */
  lemma MinusThenDigit(neg: bool, u: string)
    requires u != [] && IsDigit(u[0])
    ensures var s := MinusText(neg) + u;
            SkipBlanks(s) == s && MinusSign(s) == (neg, u)
  {
    var s := MinusText(neg) + u;
    assert s[0] == (if neg then '-' else u[0]);
    BlankRunOf([], s);
    assert s[0..] == s;
    if neg {
      assert s[1..] == u;
    }
  }

  lemma SignedNumberFields(s: string, neg: bool, u: string, m: real, after: string, v: real)
    requires SkipBlanks(s) == s && MinusSign(s) == (neg, u)
    requires Decimal(u).Some? && Decimal(u).value.0 == m && Decimal(u).value.1 == after
    requires v == (if neg then -m else m)
    ensures ParseSignedNumber(s).Done? && ParseSignedNumber(s).rest == SkipBlanks(after) && ParseSignedNumber(s).value == v
  {
  }

  /** The signed number from the results of its steps. */
  lemma SignedNumberSteps(s: string, neg: bool, u: string, m: real, after: string, rest: string, v: real)
    requires SkipBlanks(s) == s && MinusSign(s) == (neg, u)
    requires Decimal(u).Some? && Decimal(u).value.0 == m && Decimal(u).value.1 == after
    requires SkipBlanks(after) == rest && v == (if neg then -m else m)
    ensures ParseSignedNumber(s) == Done(rest, v)
  {
    SignedNumberFields(s, neg, u, m, after, v);
    DoneOf(ParseSignedNumber(s), rest, v);
  }

  lemma DecimalValueSign(neg: bool, whole: nat, fraction: string)
    requires AllDigits(fraction)
    ensures DecimalValue(neg, whole, fraction)
            == if neg then -DecimalValue(false, whole, fraction) else DecimalValue(false, whole, fraction)
  {
  }

  lemma SkipGap(gap: string, rest: string)
    requires AllBlank(gap) && (rest == [] || !IsBlank(rest[0]))
    ensures SkipBlanks(gap + rest) == rest
  {
    BlankRunOf(gap, rest);
    assert (gap + rest)[|gap|..] == rest;
  }

  lemma SignedNumberRoundTrip(neg: bool, whole: nat, fraction: string, gap: string, rest: string)
    requires AllDigits(fraction) && AllBlank(gap) && EndsDecimal(rest)
    ensures ParseSignedNumber(DecimalText(neg, whole, fraction) + gap + rest)
            == Done(rest, DecimalValue(neg, whole, fraction))
  {
    var after := gap + rest;
    var u := ShowNat(whole) + FractionText(fraction) + after;
    SignedNumberPieces(neg, whole, fraction, gap, rest);
    DecimalValueSign(neg, whole, fraction);
    SignedNumberSteps(DecimalText(neg, whole, fraction) + gap + rest, neg, u,
                      DecimalValue(false, whole, fraction), after, rest, DecimalValue(neg, whole, fraction));
  }

  /** What each step of `parse_signed_number` reads from a written decimal. */
  lemma SignedNumberPieces(neg: bool, whole: nat, fraction: string, gap: string, rest: string)
    requires AllDigits(fraction) && AllBlank(gap) && EndsDecimal(rest)
    ensures var after := gap + rest;
            var u := ShowNat(whole) + FractionText(fraction) + after;
            var s := DecimalText(neg, whole, fraction) + gap + rest;
            && SkipBlanks(s) == s && MinusSign(s) == (neg, u)
            && Decimal(u).Some? && Decimal(u).value.0 == DecimalValue(false, whole, fraction)
            && Decimal(u).value.1 == after && SkipBlanks(after) == rest
  {
    var after := gap + rest;
    var u := ShowNat(whole) + FractionText(fraction) + after;
    DecimalTextSplit(neg, whole, fraction, gap, rest);
    DecimalStartsWithDigit(whole, fraction, after);
    MinusThenDigit(neg, u);
    GapThenEnd(gap, rest);
    DecimalOf(whole, fraction, after);
    SkipGap(gap, rest);
  }

  lemma DecimalTextSplit(neg: bool, whole: nat, fraction: string, gap: string, rest: string)
    requires AllDigits(fraction)
    ensures DecimalText(neg, whole, fraction) + gap + rest
            == MinusText(neg) + (ShowNat(whole) + FractionText(fraction) + (gap + rest))
  {
    Associate4(MinusText(neg), ShowNat(whole), FractionText(fraction), gap + rest);
  }

  lemma DecimalStartsWithDigit(whole: nat, fraction: string, after: string)
    ensures var u := ShowNat(whole) + FractionText(fraction) + after;
            u != [] && IsDigit(u[0])
  {
    NumeralStart(whole, FractionText(fraction) + after);
    assert ShowNat(whole) + FractionText(fraction) + after == ShowNat(whole) + (FractionText(fraction) + after);
  }

  /** Blanks before a character that ends a decimal neither continue the digits nor start a fraction. */
  lemma GapThenEnd(gap: string, rest: string)
    requires AllBlank(gap) && EndsDecimal(rest)
    ensures var a := gap + rest;
            a == [] || !(IsDigit(a[0]) || a[0] == '.')
  {
    if gap != [] {
      assert (gap + rest)[0] == gap[0];
    } else {
      assert gap + rest == rest;
    }
  }

  lemma CurrentSteps(s: string, description: string, after: string, m: real, rest: string)
    requires StartsWith(s, CurrentPrefix) && ConditionsField(s[|CurrentPrefix|..]) == Some((description, after))
    requires ParseSignedNumber(after) == Done(rest, m)
    ensures ParseCurrentForecast(s) == Done(rest, CurrentForecast(Current(m), ToFahrenheit(Current(m)), description))
  {
  }

  /** The description ends at the first `, `, which it does not contain itself. */
  lemma ConditionsFieldOf(description: string, after: string)
    requires !Contains(description, ", ")
    ensures ConditionsField(description + ", " + after) == Some((description, after))
  {
    var t := description + ", " + after;
    var k := |description|;
    assert t[k..k + 2] == ", ";
    forall j | 0 <= j < k ensures !OccursAt(t, ", ", j) {
      if j + 2 <= k {
        assert t[j..j + 2] == description[j..j + 2];
        assert !OccursAt(description, ", ", j);
      } else {
        assert t[j + 1] == ',';
        assert t[j..j + 2][1] == t[j + 1];
      }
    }
    assert OccursAt(t, ", ", k);
    assert Contains(t, ", ");
    assert FindFirst(t, ", ") == Some(k);
    assert t[..k] == description;
    assert t[k + 2..] == after;
  }

  /** Parsing a current-conditions title written from its parts gives back the
      description and the decimal reading, tagged `Current`. */
  lemma CurrentForecastRoundTrip(description: string, neg: bool, whole: nat, fraction: string, rest: string)
    requires !Contains(description, ", ") && AllDigits(fraction) && EndsDecimal(rest)
    ensures var c: Temperature<Celsius> := Current(DecimalValue(neg, whole, fraction));
            ParseCurrentForecast(CurrentPrefix + (description + ", " + (DecimalText(neg, whole, fraction) + rest)))
            == Done(rest, CurrentForecast(c, ToFahrenheit(c), description))
  {
    var after := DecimalText(neg, whole, fraction) + rest;
    var t := description + ", " + after;
    PrefixedTitle(t);
    ConditionsFieldOf(description, after);
    ReadingAtEnd(neg, whole, fraction, rest);
    CurrentSteps(CurrentPrefix + t, description, after, DecimalValue(neg, whole, fraction), rest);
  }

  lemma PrefixedTitle(t: string)
    ensures StartsWith(CurrentPrefix + t, CurrentPrefix) && (CurrentPrefix + t)[|CurrentPrefix|..] == t
  {
    assert (CurrentPrefix + t)[..|CurrentPrefix|] == CurrentPrefix;
  }

  /** The reading at the end of a current-conditions title, with nothing between it and `rest`. */
  lemma ReadingAtEnd(neg: bool, whole: nat, fraction: string, rest: string)
    requires AllDigits(fraction) && EndsDecimal(rest)
    ensures ParseSignedNumber(DecimalText(neg, whole, fraction) + rest)
            == Done(rest, DecimalValue(neg, whole, fraction))
  {
    SignedNumberRoundTrip(neg, whole, fraction, [], rest);
    NoGap(DecimalText(neg, whole, fraction), rest);
  }

  lemma NoGap(a: string, b: string)
    ensures a + [] + b == a + b
  {
    assert a + [] == a;
  }
}
