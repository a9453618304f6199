/** The titles of the source's parser tests, read back through the round-trip lemmas. */
module ParserExamples {
  import opened Text
  import opened Types
  import opened Parsers
  import opened ParserProofs
  import opened GuiParsers
  import opened GuiParserProofs

  // The written forms of the test titles, each assembled from its parts.

  lemma MinusNine()
    ensures NumberText(-9, false, " ") == "minus 9"
  {
  }

  lemma LowMinusNine()
    ensures Phrase(LowLead) + " " + (NumberText(-9, false, " ") + ".") == "Low minus 9."
  {
    MinusNine();
  }

  lemma ZeroDot()
    ensures NumberText(0, false, "") + "." == "zero."
  {
  }

  lemma MinusNineDot()
    ensures NumberText(-9, false, " ") + "." == "minus 9."
  {
    MinusNine();
  }

  lemma SunnyBody()
    ensures TitleBody("Sunny.", HighLead, NumberText(0, false, "") + ".") == " Sunny. High zero."
  {
    assert NumberText(0, false, "") + "." == "zero.";
  }

  lemma SunnyTitle()
    ensures TitleText(Monday, Day, "Sunny.", HighLead, 0, false, "", ".") == "Monday: Sunny. High zero."
  {
    SunnyBody();
    assert DayOfWeekName(Monday) + MarkerText(Day) == "Monday:";
  }

  lemma SunnyReading()
    ensures Reading(HighLead, 0 as real) == High(0.0) && ToFahrenheit(High(0.0)) == High(30.0)
  {
  }

  lemma LightSnowHasNoComma()
    ensures !Contains("Light Snow", ", ")
  {
    forall j | 0 <= j <= |"Light Snow"| ensures !OccursAt("Light Snow", ", ", j) {
      assert j + 2 <= 10 ==> "Light Snow"[j..j + 2][0] == "Light Snow"[j];
    }
  }

  lemma LightSnowValue()
    ensures DecimalValue(true, 3, "4") == -3.4
  {
  }

  lemma LightSnowTitle()
    ensures CurrentPrefix + ("Light Snow" + ", " + (DecimalText(true, 3, "4") + "°C"))
            == "Current Conditions: Light Snow, -3.4°C"
  {
    assert DecimalText(true, 3, "4") == "-3.4";
  }

  // The tests themselves.

  /** `Low minus 9.` is a Low of -9 and leaves the `.`. */
  lemma TempExample()
    ensures ParseTemp("Low minus 9.") == Done(".", Low(-9.0))
  {
    TempRoundTrip(LowLead, -9, false, " ", ".");
    LowMinusNine();
  }

  /** `zero` gives 0 whatever follows it. */
  lemma ZeroExample()
    ensures ParseNumber("zero.") == Done(".", 0)
  {
    NumberRoundTrip(0, false, "", ".");
    ZeroDot();
  }

  /** `minus 9` gives -9. */
  lemma MinusNineExample()
    ensures ParseNumber("minus 9.") == Done(".", -9)
  {
    NumberRoundTrip(-9, false, " ", ".");
    MinusNineDot();
  }

  lemma MarkerTexts()
    ensures MarkerText(Night) + " blah" == " night: blah"
    ensures MarkerText(Day) + " blah" == ": blah"
  {
  }

  lemma NightExample()
    ensures ParseDayNight(" night: blah") == Done(" blah", Night)
  {
    MarkerRoundTrip(Night, " blah");
    MarkerTexts();
  }

  lemma DayExample()
    ensures ParseDayNight(": blah") == Done(" blah", Day)
  {
    MarkerRoundTrip(Day, " blah");
    MarkerTexts();
  }

  lemma SunnyPlain()
    ensures NoLeadInUpTo("Sunny.", HighLead) && NoEarlierLeadIn(".", HighLead)
  {
    assert NoInitials("Sunny.") && NoInitials(".");
    NoInitialsNoLeadIn("Sunny.");
    NoInitialsNoLeadIn(".");
  }

  lemma SunnyExample()
    ensures ParseForecast("Monday: Sunny. High zero.")
            == Done(".", Forecast(High(0.0), High(30.0), "Sunny.", Day, Monday))
  {
    SunnyPlain();
    ForecastRoundTrip(Monday, Day, "Sunny.", HighLead, 0, false, "", ".");
    SunnyTitle();
    SunnyReading();
  }

  lemma CurrentExample()
    ensures ParseCurrentForecast("Current Conditions: Light Snow, -3.4°C")
            == Done("°C", CurrentForecast(Current(-3.4), Current(23.2), "Light Snow"))
  {
    LightSnowHasNoComma();
    CurrentForecastRoundTrip("Light Snow", true, 3, "4", "°C");
    LightSnowTitle();
    LightSnowValue();
  }

  // ---------------------------------------------------------------------
  // Where the older grammar (my-weather-gui/src/parsers.rs) departs from the live one

  lemma MinusTwoSpacesText()
    ensures "" + (SignText(Minus) + "  " + (ShowNat(9) + ['.'] + "")) == "minus  9."
  {
    assert ShowNat(9) == "9";
  }

  /** `minus` followed by two spaces: the older grammar loses the sign. */
  lemma GuiMinusLost()
    ensures GuiNumber("minus  9.") == Done("", 9)
  {
    GuiNumberOf("", Minus, "  ", 9, '.', "");
    MinusTwoSpacesText();
  }

  lemma LiveMinusTwoSpacesText()
    ensures NumberText(-9, false, "  ") + "." == "minus  9."
  {
    assert ShowNat(9) == "9";
  }

  /** The live grammar keeps the sign whatever the blanks after it. */
  lemma LiveMinusKept()
    ensures ParseNumber("minus  9.") == Done(".", -9)
  {
    NumberRoundTrip(-9, false, "  ", ".");
    LiveMinusTwoSpacesText();
  }

  lemma MinusDotText()
    ensures "" + (SignText(Minus) + " " + ("." + "")) == "minus ."
    ensures OptSignText(Some(Minus)) + " ." == "minus ."
  {
  }

  /** A sign with no digits: a panic in the older grammar... */
  lemma GuiSignWithoutDigits()
    ensures GuiNumber("minus .") == Panic
  {
    GuiNoDigits("", Minus, " ", "");
    MinusDotText();
  }

  /** ...and a parse error in the live one. */
  lemma LiveSignWithoutDigits()
    ensures ParseNumber("minus .") == Fail
  {
    NumberNeedsDigits(Some(Minus), " .");
    MinusDotText();
  }

  lemma ZeroByMorningText()
    ensures "" + (SignText(Zero) + " " + ("" + "by morning.")) == "zero by morning."
    ensures NumberText(0, false, "") + " by morning." == "zero by morning."
  {
  }

  /** `zero by morning.`: no terminator after the sign in the older grammar... */
  lemma GuiZeroByMorning()
    ensures GuiNumber("zero by morning.") == Fail
  {
    GuiNeedsTerminator("", Zero, " ", "", "by morning.");
    ZeroByMorningText();
  }

  /** ...and 0 in the live one, whatever follows `zero`. */
  lemma LiveZeroByMorning()
    ensures ParseNumber("zero by morning.") == Done(" by morning.", 0)
  {
    NumberRoundTrip(0, false, "", " by morning.");
    ZeroByMorningText();
  }

  lemma HighSixText()
    ensures Phrase(HighLead) + (" " + (ShowNat(6) + ".")) == "High 6."
    ensures Phrase(HighLead) + " " + (NumberText(6, false, "") + ".") == "High 6."
  {
    assert ShowNat(6) == "6";
  }

  /** `High 6.`: a number without a sign word fails in the older grammar... */
  lemma GuiHighSix()
    ensures GuiTemp("High 6.") == Fail
  {
    GuiUnsignedFails(HighLead, 6, ".");
    HighSixText();
  }

  /** ...and is a High of 6 in the live one. */
  lemma LiveHighSix()
    ensures ParseTemp("High 6.") == Done(".", High(6.0))
  {
    TempRoundTrip(HighLead, 6, false, "", ".");
    HighSixText();
  }

  lemma FallingText()
    ensures Phrase(FallingTo) + " minus 3." == "Temperature falling to minus 3."
    ensures Phrase(FallingTo) + " " + (NumberText(-3, false, " ") + ".") == "Temperature falling to minus 3."
  {
    assert NumberText(-3, false, " ") + "." == "minus 3.";
  }

  /** `Temperature falling to`: not a lead-in of the older grammar... */
  lemma GuiFallingExample()
    ensures GuiTemp("Temperature falling to minus 3.") == Fail
  {
    GuiFallingFails(" minus 3.");
    FallingText();
  }

  /** ...and a Low in the live one. */
  lemma LiveFallingExample()
    ensures ParseTemp("Temperature falling to minus 3.") == Done(".", Low(-3.0))
  {
    TempRoundTrip(FallingTo, -3, false, " ", ".");
    FallingText();
  }

  lemma MinusTwo()
    ensures NumberText(-2, true, " ") == "minus 2"
  {
  }

  lemma RisingMinusTwoText(rest: string)
    ensures Phrase(RisingTo) + " " + (NumberText(-2, true, " ") + ([' '] + rest))
            == "Temperature rising to minus 2 " + rest
  {
    MinusTwo();
  }

  /** The older grammar also ends a number at a blank: in `Temperature rising
      to minus 2 by morning.` the reading is a High of -2. */
  lemma GuiRisingByMorning(rest: string)
    requires rest == [] || rest[0] != ' '
    ensures GuiTemp("Temperature rising to minus 2 " + rest) == Done(rest, High(-2.0))
  {
    GuiTempRoundTrip(RisingTo, -2, ' ', rest);
    RisingMinusTwoText(rest);
  }
}
