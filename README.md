# Weather feed: title grammar and forecast grouping

This project models the part of the weather application that reads a
weather bulletin RSS feed: the logic that turns feed entries into
typed forecasts and groups them for display. It then proves properties of that model.

- **Feed filters** (`Feed`). Several string operations run inside the feed
  deserializer:
  - A summary is cut at its last `Forecast issued` and trimmed.
  - "No watches or warnings in effect" placeholder warnings are dropped, keeping feed order.
  - The current-conditions view keeps exactly the Current and Warnings entries.
  - `Entry::is_warning` is the predicate `Feed.IsWarning`.
- **Title grammar** (`Parsers`, live library; `GuiParsers`, older desktop
  variant). These are the nom parsers, written as functions from a string
  to `Done(rest, value)`, `Fail` or `Panic`. `Panic` occurs only in the
  older grammar's `expect`. The parsers cover:
  - a signed whole number (`minus 9`, `plus 2`, `zero`);
  - the High/Low lead-in phrases;
  - the description up to the first lead-in;
  - the day/night marker and the weekday;
  - the full forecast title;
  - the current-conditions title (`Current Conditions: <desc>, <decimal>`).

  `ParserProofs` and `GuiParserProofs` hold the round trips: parsing a title
  written from its parts gives back those parts. They also hold the rejections
  and the step-by-step composition. `ParserExamples` restates the source's
  unit tests and shows where the two grammars disagree.
- **Temperatures** (`Types`). The Celsius-to-Fahrenheit map is `n*2 + 30`,
  applied with the reading's kind (High, Low or Current) kept. The model
  compares it with the exact formula.
- **Weekday key** (`Weekdays`). `Day::try_from`, which is identical in the
  three crates, reads the weekday whose name begins a forecast entry's title.
- **Grouping pass** (`Grouping`, instantiated by `Forecasts` for the live
  library and by `GuiForecasts` for the desktop crate). `to_forecast` is a
  loop that does two things:
  - It pushes current conditions and warnings in feed order.
  - It merges forecast entries into one record per weekday, each with a day
    slot and a night slot. The record's sequence number is the position of
    the weekday's first entry. The records are sorted by that number and
    appended at the end.

  The method is proved against a reference fold (`DayMap`, `Leading`). The
  fold's properties are proved as lemmas:
  - what the first and later sightings do, and that other entries are left alone;
  - one record per weekday;
  - slots hold the last sighting of their period;
  - the arrangement is unique, whatever the hash map's order.
- **Tauri variant** (`TauriForecasts`). Each record collects every parsed
  forecast of its weekday in a list. A record is created even when the
  title does not parse. An unparseable current-conditions title makes the
  pass panic.
- **Sorting and collection** (`Ordering`). `sort_by` on the sequence number,
  and collecting a map's values.

## Model

| member | source | states |
|---|---|---|
| Feed.TruncateSummary | my-weather/src/lib.rs:68-78 | without `Forecast issued` the summary is returned unchanged; otherwise the result is the trimmed text before an occurrence of the marker after which no occurrence follows (the last one) |
| Feed.TruncateAtLastMarker | my-weather/src/lib.rs:72-76 | a summary `body + "Forecast issued" + tail` with no later marker becomes the trimmed `body` |
| Feed.DeserializeEntries | my-weather/src/lib.rs:126-140 | the loop pushes exactly the filter of the feed that drops placeholder warnings; an entry is kept iff it is in the feed and is not a Warnings entry whose title starts with `No watches or warnings in effect` |
| Feed.ActiveEntriesExactly | my-weather/src/lib.rs:132-137 | the entry filter drops exactly the Warnings-term entries whose title starts with the placeholder text |
| Feed.ActiveEntriesInOrder | my-weather/src/lib.rs:130-139 | filtering a feed split in two is filtering each part and concatenating: the relative order of kept entries is the feed order |
| Feed.FilterMembership | my-weather/src/lib.rs:32 | an element is in a filtered sequence iff it is in the input and passes the test |
| Feed.CurrentForecastEntries | my-weather/src/lib.rs:27-33 | `current_forecast` yields exactly the entries of term Current or Warnings |
| Feed.CurrentForecastEntriesInOrder | my-weather/src/lib.rs:27-33 | the current-conditions view of a split feed is the concatenation of the views of the parts (feed order kept) |
| Types.ToFahrenheit | my-weather/src/types.rs:192-201 | the conversion keeps High/Low/Current and maps the value to `n*2 + 30` |
| Types.FahrenheitExactOnlyAtTen | my-weather/src/types.rs:194 | the map agrees with the exact `n*9/5 + 32` iff the Celsius value is 10 |
| Weekdays.DayKey | my-weather/src/types.rs:138-156 | a key exists only for forecast entries, it is the unique weekday whose name begins the title, and there is none iff the term is not Forecast or no weekday name begins the title |
| Weekdays.OnlyOneName | my-weather-gui/src/types.rs:137-151 | a title starts with at most one weekday name, so the order of the `starts_with` arms does not matter |
| Weekdays.DayKeyOfName | src-tauri/src/types.rs:157-171 | any forecast entry whose title begins with a weekday name gets that weekday |
| Weekdays.DayKeyAgreesWithTitle | my-weather/src/types.rs:67-71 | when both exist, the key of a forecast entry is the weekday its parsed title names |
| Weekdays.AllDaysValues | my-weather/src/types.rs:123 | collecting a weekday map's values over all weekdays yields exactly the map's values |
| Ordering.ValuesIn | my-weather/src/types.rs:123 | a value is collected iff it is stored under one of the keys visited |
| Ordering.ValuesInDistinct | my-weather/src/types.rs:123 | records under distinct weekdays with distinct sequence numbers are collected without a repeated sequence number |
| Ordering.Insert | my-weather/src/types.rs:124-129 | inserting into an ascending run keeps it ascending, adds exactly the record (multiset), and keeps it strictly ascending when the key is new |
| Ordering.SortByKey | my-weather/src/types.rs:124-129 | the sort's result is ascending by sequence number, a permutation of its input, and strictly ascending when the input's keys are distinct |
| Ordering.StrictlySortedUnique | my-weather/src/types.rs:122-131 | two strictly ascending sequences with the same elements are equal |
| Grouping.GroupEntries | my-weather/src/types.rs:75-133 | the result is the current conditions and warnings in feed order, followed by exactly the weekday records of the fold, strictly ascending by sequence number |
| Grouping.Leading | my-weather/src/types.rs:79-91 | what precedes the records holds no weekday record |
| Grouping.RecordFirstSighting | my-weather/src/types.rs:102-115 | the first kept entry for a weekday creates a record with `sequence = index` and only the slot of its period filled |
| Grouping.RecordLaterSighting | my-weather/src/types.rs:93-101 | a later kept entry for a weekday overwrites only its period's slot; the sequence number and the other slot are unchanged |
| Grouping.RecordDropped | my-weather/src/types.rs:92-93 | an entry the pass does not keep leaves the weekday map unchanged |
| Grouping.RecordFrame | my-weather/src/types.rs:92-118 | after one entry a weekday has a record iff it had one or the entry sights it, and every other weekday's record is unchanged |
| Grouping.LastSlotIsLast | my-weather/src/types.rs:96-101 | the slot value of a period is empty iff no entry sights that weekday and period, and otherwise comes from the last such entry |
| Grouping.DayMapRecords | my-weather/src/types.rs:79-120 | after the feed there is a record exactly for each sighted weekday, numbered by its first sighting, whose slots hold the last sighting of each period |
| Grouping.WeekdayRecord | my-weather/src/types.rs:93-116 | the record of a weekday is `Future(first sighting, last day slot, last night slot)`, present iff the weekday is sighted |
| Grouping.DistinctRecords | my-weather/src/types.rs:108-115 | records of distinct weekdays have distinct sequence numbers |
| Grouping.RecordHasSlot | my-weather/src/types.rs:103-107 | every record has at least one filled slot |
| Grouping.CollectedDistinct | my-weather/src/types.rs:123 | the collected records have pairwise distinct sequence numbers |
| Grouping.SortedArranged | my-weather/src/types.rs:123-129 | the sorted permutation of the collected values holds exactly the map's records, strictly ascending |
| Grouping.OneRecordPerWeekday | my-weather/src/types.rs:108 | each weekday's record appears in the output, no record stands for two weekdays, and none appears twice |
| Grouping.FirstSeenFirst | my-weather/src/types.rs:122-131 | a record placed before another belongs to a weekday first sighted earlier in the feed |
| Grouping.ArrangedUnique | my-weather/src/types.rs:122-131 | the arrangement of the records is unique, so the hash map's iteration order cannot change the output |
| Grouping.LeadingAppend | my-weather/src/types.rs:79-91 | the leading part of a split feed is the leading parts of the pieces concatenated (feed order) |
| Grouping.InLeading | my-weather/src/types.rs:80-91 | an item leads iff some entry of the feed contributes it |
| Grouping.WarningsKept | my-weather/src/types.rs:91 | `Warning(e)` leads iff `e` is a Warnings entry of the feed |
| Grouping.CurrentsKept | my-weather/src/types.rs:81-89 | a current-conditions item leads iff some Current entry of the feed reads as it; unreadable ones are skipped |
| Grouping.PeriodsMarkup | my-weather/src/types.rs:36-51 | the record summary is empty iff both slots are empty, starts with the Day heading and text when there is a day slot, else with the Night heading, and ends with the night section when there is a night slot |
| Forecasts.ForecastFromStr | my-weather/src/types.rs:274-282 | `Forecast::from_str` succeeds iff `parse_forecast` does; the title starts with the weekday's name and the Fahrenheit reading is the conversion of the Celsius one |
| Forecasts.CurrentFromStr | my-weather/src/types.rs:300-308 | `CurrentForecast::from_str` succeeds iff `parse_current_forecast` does; the reading is tagged Current and converted |
| Forecasts.ForecastFromStrIgnoresTail | my-weather/src/types.rs:277-281 | a title written from its parts reads back as those parts, whatever text follows the number, provided the description holds neither its own lead-in nor one tried before it and the text after the number holds no lead-in tried before it |
| Forecasts.CurrentFromStrIgnoresTail | my-weather/src/types.rs:303-307 | a current-conditions title reads back as its description and decimal, whatever follows |
| Forecasts.ParseFutureForecast | my-weather/src/types.rs:67-71 | a result exists iff the entry has a weekday key and its title parses, and then the key is the parsed weekday |
| Forecasts.FutureSighting | my-weather/src/types.rs:93-95 | a forecast entry is kept iff `parse_future_forecast` succeeds; its slot holds the forecast with the entry, for the forecast's weekday and period |
| Forecasts.CurrentSighting | my-weather/src/types.rs:81-89 | a current-conditions entry is kept iff its title parses, and becomes the parsed forecast with the entry |
| Forecasts.ToForecast | my-weather/src/types.rs:75-133 | `to_forecast`: current conditions that parse and all warnings in feed order, then exactly the weekday records, strictly ascending by sequence number |
| Forecasts.RecordSlotsFit | my-weather/src/types.rs:93-116 | a filled slot of a weekday's record holds an entry of the feed whose forecast is for that weekday and for the slot's period |
| Forecasts.RemapHtmlPlain | my-weather/src/types.rs:24-31 | text without any of the five rewritten patterns is left unchanged |
| Forecasts.Summary | my-weather/src/types.rs:23-53 | warnings and current conditions get the remapped entry summary; a record's summary is empty iff both slots are empty, starts with the Day section of the day slot when there is one, otherwise with the Night section, and ends with the Night section of the night slot when there is one |
| Forecasts.RecordSummaryNonEmpty | my-weather/src/types.rs:36-51 | every record the pass produces has a non-empty summary |
| GuiForecasts.GuiSighting | my-weather-gui/src/types.rs:80-110 | a forecast entry is kept iff it has a weekday key; its slot holds the raw entry, and it goes to the night slot iff the title contains `night:` |
| GuiForecasts.GuiToForecast | my-weather-gui/src/types.rs:72-129 | all current and warning entries in feed order, then exactly the weekday records, strictly ascending by sequence number |
| GuiForecasts.GuiLeadingIsCurrentView | my-weather-gui/src/types.rs:78-79 | what precedes the records is exactly the current-conditions view of the feed, each entry wrapped as its kind |
| GuiForecasts.GuiRecordSlotsFit | my-weather-gui/src/types.rs:82-110 | a filled slot holds a feed entry titled with its weekday; the night slot's title contains `night:` and the day slot's does not |
| GuiForecasts.GuiRemapHtmlPlain | my-weather-gui/src/types.rs:19-24 | text without a degree entity, `<br/>` or `". "` is unchanged, sign words included |
| GuiForecasts.GuiSummary | my-weather-gui/src/types.rs:18-56 | as the live summary over raw entries: empty iff both slots are empty, the Day section of the day slot first, the Night section of the night slot last |
| GuiForecasts.GuiRecordSummaryNonEmpty | my-weather-gui/src/types.rs:29-54 | every record this pass produces has a non-empty summary |
| TauriForecasts.Parsed | src-tauri/src/types.rs:97-107 | an entry adds at most one forecast to its weekday's list, and one iff its title parses |
| TauriForecasts.TauriLeading | src-tauri/src/types.rs:84-91 | what precedes the records holds no weekday record |
| TauriForecasts.TauriToForecast | src-tauri/src/types.rs:78-149 | the pass panics iff some current-conditions title does not parse; otherwise current conditions and warnings in feed order, then exactly the weekday records, strictly ascending |
| TauriForecasts.RecordWithoutForecast | src-tauri/src/types.rs:109-129 | the first entry for a weekday creates its record with `sequence = index` and its parse, if any, as the list, even when the title does not parse |
| TauriForecasts.RecordAppends | src-tauri/src/types.rs:94-108 | a later entry for the weekday appends its parse to the list; the sequence number stays |
| TauriForecasts.TauriRecordFrame | src-tauri/src/types.rs:92-133 | only the entry's own weekday can gain or change a record |
| TauriForecasts.CollectedMembers | src-tauri/src/types.rs:94-130 | a forecast is collected for a weekday iff it is the parse of the title of a feed entry carrying that weekday |
| TauriForecasts.CollectedAppend | src-tauri/src/types.rs:97-108 | the collected list follows feed order |
| TauriForecasts.TauriDayMapRecords | src-tauri/src/types.rs:82-135 | there is a record exactly for each weekday some entry carries, numbered by its first such entry, listing that weekday's parsed forecasts |
| TauriForecasts.TauriWeekdayRecord | src-tauri/src/types.rs:92-133 | the record of a carried weekday is `Future(first keyed index, collected forecasts)` |
| TauriForecasts.TauriDistinctRecords | src-tauri/src/types.rs:123-129 | records of distinct weekdays have distinct sequence numbers |
| TauriForecasts.TauriCollectedDistinct | src-tauri/src/types.rs:138 | the collected records have pairwise distinct sequence numbers |
| TauriForecasts.TauriSortedArranged | src-tauri/src/types.rs:138-145 | the sorted permutation of the collected values holds exactly the map's records, strictly ascending |
| TauriForecasts.TauriArrangedUnique | src-tauri/src/types.rs:137-147 | the arrangement of the records is unique whatever the map's order |
| TauriForecasts.FirstOfPeriodIsFirst | src-tauri/src/types.rs:37-42 | `find` for a period is empty iff the list has no forecast of that period, and otherwise is the first one |
| TauriForecasts.SomePeriod | src-tauri/src/types.rs:44-58 | a list has neither a day nor a night forecast iff it is empty |
| TauriForecasts.TauriSummary | src-tauri/src/types.rs:21-62 | warnings and current conditions get the remapped summary; a record's summary is empty iff its list is empty, starts with the Day section of the list's first Day forecast when there is one (otherwise the Night section), and ends with the Night section of its first Night forecast when there is one |
| Parsers.SignWord | my-weather/src/parsers.rs:16 | a recognised sign word is a prefix of the input |
| Parsers.SignPrefix | my-weather/src/parsers.rs:16-17 | the optional sign leaves a suffix, and an input starting with `zero` has the sign `zero` |
| Parsers.BlankDigits | my-weather/src/parsers.rs:17 | `preceded(space0, digit1)` leaves a suffix of its input |
| Parsers.ParseNumber | my-weather/src/parsers.rs:15-36 | the number leaves a suffix, is 0 whenever the input starts with `zero` whatever follows, and never panics |
| Parsers.TaggedNumber | my-weather/src/parsers.rs:42-49 | a number after a lead-in leaves a suffix of what follows the lead-in |
| Parsers.HighLeadIn | my-weather/src/parsers.rs:43-47 | the high alternative consumes exactly `High `, `Temperature steady near ` or `Temperature rising to ` |
| Parsers.LowLeadIn | my-weather/src/parsers.rs:58 | the low alternative consumes exactly `Low ` or `Temperature falling to ` |
| Parsers.ParseTemp | my-weather/src/parsers.rs:38-66 | a High reading needs a high lead-in and a Low reading a low one; never a Current reading, never a panic |
| Parsers.DescriptionEnd | my-weather/src/parsers.rs:69-78 | no stop iff no lead-in occurs; otherwise the first occurrence of the chosen lead-in, none of the lead-ins tried before it (Low, High, steady, rising, falling, in that order) occurs anywhere, and `Low` is chosen whenever it occurs |
| Parsers.ParseDescription | my-weather/src/parsers.rs:68-81 | fails iff no lead-in occurs; otherwise the value is the trimmed text before the remainder, and the remainder starts with a lead-in that is the first occurrence of that lead-in and none of the lead-ins tried before it occurs anywhere |
| Parsers.ParseDayNight | my-weather/src/parsers.rs:83-88 | the result is Day iff the input starts with `:` |
| Parsers.ParseDayOfWeek | my-weather/src/parsers.rs:90-101 | the weekday whose name starts the input, with the name consumed; fails iff no weekday name starts it |
| Parsers.ParseForecast | my-weather/src/parsers.rs:104-116 | the title starts with the parsed weekday's name; Fahrenheit is the conversion of the Celsius reading with the same variant |
| Parsers.Decimal | my-weather/src/parsers.rs:119-122 | the decimal leaves a suffix of its input |
| Parsers.MinusSign | my-weather/src/parsers.rs:122 | the sign is there iff the input starts with `-` |
| Parsers.ParseSignedNumber | my-weather/src/parsers.rs:118-130 | the signed number leaves a suffix and never panics |
| Parsers.ConditionsField | my-weather/src/parsers.rs:134-138 | fails iff `, ` does not occur; the description contains no `, ` |
| Parsers.ParseCurrentForecast | my-weather/src/parsers.rs:133-151 | fails without the `Current Conditions: ` prefix; the description contains no `, `; the reading is Current and converted |
| ParserProofs.NumberRoundTrip | my-weather/src/parsers.rs:15-36 | a number written as `zero`, or an optional sign word, blanks and digits, reads back as itself, leaving what follows (the trailing `.`) |
| ParserProofs.NonZeroNumber | my-weather/src/parsers.rs:26-32 | after `minus` the digit run is negated; after `plus` or no sign it is the digit run |
| ParserProofs.NumberSteps | my-weather/src/parsers.rs:21-33 | a number other than `zero` is the digit run, negated after `minus` |
| ParserProofs.NumberNeedsDigits | my-weather/src/parsers.rs:26 | without `zero` and without a digit run there is no number |
| ParserProofs.EmptyIsNotANumber | my-weather/src/parsers.rs:26 | the empty default digit string does not parse |
| ParserProofs.PhrasesClash | my-weather/src/parsers.rs:43-58 | a phrase followed by anything starts with another phrase only if they are the same |
| ParserProofs.HighLeadInOf | my-weather/src/parsers.rs:43-47 | a phrase and a blank are accepted by the high alternative iff the phrase is a high lead-in |
| ParserProofs.LowLeadInOf | my-weather/src/parsers.rs:58 | a phrase and a blank are accepted by the low alternative iff it is `Low` or `Temperature falling to` |
| ParserProofs.TempRoundTrip | my-weather/src/parsers.rs:38-66 | a lead-in and a written number read back as High or Low of the number, chosen by the lead-in |
| ParserProofs.NightMarker | my-weather/src/parsers.rs:85 | any run of blanks before `night:` is consumed with it |
| ParserProofs.MarkerRoundTrip | my-weather/src/parsers.rs:83-88 | `:` reads as Day and ` night:` as Night, consuming exactly the marker |
| ParserProofs.DayNamesClash | my-weather/src/parsers.rs:91-99 | no weekday name starts with another |
| ParserProofs.DayOfWeekRoundTrip | my-weather/src/parsers.rs:90-101 | a weekday name reads back as that weekday, consuming exactly the name |
| ParserProofs.ForecastSteps | my-weather/src/parsers.rs:104-116 | the title parser chains weekday, marker, description and temperature, with Fahrenheit derived |
| ParserProofs.DescriptionEndOf | my-weather/src/parsers.rs:69-78 | conversely, when a lead-in occurs and none tried before it does, the stop is that lead-in at its first occurrence |
| ParserProofs.BodyStop | my-weather/src/parsers.rs:71-77 | in a title body the description stops at the written lead-in when the description holds neither it nor an earlier one and the text after it holds no earlier one |
| ParserProofs.DescriptionAt | my-weather/src/parsers.rs:79 | the description is the trimmed text before the stop, and the stop is left |
| ParserProofs.DescriptionRoundTrip | my-weather/src/parsers.rs:68-81 | a trimmed description reads back, with the lead-in left, when it holds neither its lead-in nor one tried before it and the text after the lead-in holds no earlier one |
| ParserProofs.DescriptionReadBackOnlyIf | my-weather/src/parsers.rs:68-81 | conversely, a description that reads back satisfies those conditions, so they are exactly the titles whose description survives |
| ParserProofs.ForecastRoundTrip | my-weather/src/parsers.rs:104-116 | a title written from weekday, period, description, lead-in and number reads back as exactly those parts, with the Fahrenheit value derived, whenever the description holds neither its lead-in nor one tried before it and the text after the number holds no earlier one |
| ParserProofs.FractionOf | my-weather/src/parsers.rs:119 | a written fraction is read as its value |
| ParserProofs.DecimalOf | my-weather/src/parsers.rs:119-122 | a written decimal is read as its exact value, leaving what follows |
| ParserProofs.SignedNumberSteps | my-weather/src/parsers.rs:120-128 | the signed number is the decimal, negated iff a `-` precedes it, with trailing blanks consumed |
| ParserProofs.SignedNumberRoundTrip | my-weather/src/parsers.rs:118-130 | a written signed decimal with trailing blanks reads back as its value |
| ParserProofs.ConditionsFieldOf | my-weather/src/parsers.rs:134-138 | the description ends at the first `, ` |
| ParserProofs.CurrentSteps | my-weather-gui/src/parsers.rs:120-138 | the current-conditions parser (the same code in both crates) chains prefix, description and signed number into a Current reading |
| ParserProofs.CurrentForecastRoundTrip | my-weather/src/parsers.rs:133-151 | a current-conditions title written from a description and a decimal reads back as them, tagged Current |
| ParserProofs.ReadingAtEnd | my-weather/src/parsers.rs:139-141 | the reading at the end of a current-conditions title is the written decimal |
| ParserExamples.TempExample | my-weather/src/parsers.rs:167-172 | `Low minus 9.` reads as Low(-9) |
| ParserExamples.ZeroExample | my-weather/src/parsers.rs:206-209 | `zero.` reads as 0 |
| ParserExamples.MinusNineExample | my-weather/src/parsers.rs:215-217 | `minus 9.` reads as -9 |
| ParserExamples.NightExample | my-weather/src/parsers.rs:233-236 | ` night: blah` reads as Night |
| ParserExamples.DayExample | my-weather/src/parsers.rs:238-240 | `: blah` reads as Day |
| ParserExamples.SunnyExample | my-weather/src/parsers.rs:244-257 | `Monday: Sunny. High zero.` reads as Monday, Day, `Sunny.`, High(0) |
| ParserExamples.CurrentExample | my-weather/src/parsers.rs:391-399 | `Current Conditions: Light Snow, -3.4°C` reads as `Light Snow`, Current(-3.4) |
| GuiParsers.GuiSign | my-weather-gui/src/parsers.rs:16-19 | the recognised sign is a sign word followed by blanks, and there is none iff no sign word starts the input |
| GuiParsers.Terminated | my-weather-gui/src/parsers.rs:23-24 | the optional digits are followed by a consumed `.` or space |
| GuiParsers.GuiNumber | my-weather-gui/src/parsers.rs:15-36 | the number leaves a suffix, and fails without a sign word |
| GuiParsers.GuiHighLeadIn | my-weather-gui/src/parsers.rs:41-45 | the high alternative consumes exactly `High`, `Temperature steady near` or `Temperature rising to`, with no blank |
| GuiParsers.GuiLowLeadIn | my-weather-gui/src/parsers.rs:52 | the low alternative consumes exactly `Low` |
| GuiParsers.OptSpace | my-weather-gui/src/parsers.rs:47 | at most one character is consumed |
| GuiParsers.GuiTagged | my-weather-gui/src/parsers.rs:40-48 | a number after a lead-in leaves a suffix of what follows the lead-in |
| GuiParsers.GuiTemp | my-weather-gui/src/parsers.rs:38-57 | a Low reading needs `Low`, a High reading a high lead-in |
| GuiParsers.GuiDescriptionEnd | my-weather-gui/src/parsers.rs:60-65 | only four stops, never `Temperature falling to`; the first occurrence of the chosen stop, none of the stops tried before it (Low, High, steady, rising) occurring anywhere |
| GuiParsers.GuiParseDescription | my-weather-gui/src/parsers.rs:59-68 | fails iff none of the four stops occurs; otherwise the trimmed text before the remainder, which starts with the first occurrence of a stop none of whose predecessors occurs |
| GuiParsers.GuiForecast | my-weather-gui/src/parsers.rs:91-103 | the title starts with the weekday's name; Fahrenheit is derived |
| GuiParserProofs.GuiNumberSteps | my-weather-gui/src/parsers.rs:21-34 | sign text exactly `zero` gives 0; otherwise missing digits panic and digits give `GuiValue` |
| GuiParserProofs.GuiSignOf | my-weather-gui/src/parsers.rs:16-22 | leading blanks are skipped and a sign word with its blanks is recognised |
| GuiParserProofs.TerminatedOf | my-weather-gui/src/parsers.rs:23-24 | digits and a `.` or space are read, the terminator consumed |
| GuiParserProofs.GuiNumberOf | my-weather-gui/src/parsers.rs:26-32 | a written number reads back negated only when the sign text is exactly `minus ` |
| GuiParserProofs.GuiNoDigits | my-weather-gui/src/parsers.rs:27-30 | a sign without digits: `zero.` is 0, anything else panics |
| GuiParserProofs.GuiNeedsTerminator | my-weather-gui/src/parsers.rs:21-25 | without a `.` or space after the digits the number fails |
| GuiParserProofs.GuiHighLeadInOf | my-weather-gui/src/parsers.rs:41-45 | a phrase is accepted by the high alternative iff it is a high lead-in |
| GuiParserProofs.GuiLowLeadInOf | my-weather-gui/src/parsers.rs:52 | a phrase is accepted by the low alternative iff it is `Low` |
| GuiParserProofs.GuiWrittenNumber | my-weather-gui/src/parsers.rs:15-36 | a number written with a sign word reads back as itself when a `.` follows it, or a blank follows its digits (either terminator of line 24) |
| GuiParserProofs.GuiWrittenZero | my-weather-gui/src/parsers.rs:21-28 | `zero` followed by `.` reads as 0 |
| GuiParserProofs.GuiWrittenSigned | my-weather-gui/src/parsers.rs:21-33 | `minus m` reads as -m and `plus m` as m, ended by `.` or by a blank |
| GuiParserProofs.GuiTempRoundTrip | my-weather-gui/src/parsers.rs:38-57 | a lead-in of this grammar and a signed number, ended by `.` or (after digits) a blank, read back as the reading, one further space consumed |
| GuiParserProofs.GuiFallingFails | my-weather-gui/src/parsers.rs:38-57 | `Temperature falling to` is not a lead-in |
| GuiParserProofs.GuiUnsignedFails | my-weather-gui/src/parsers.rs:16-25 | a number without a sign word fails |
| GuiParserProofs.GuiDescriptionEndOf | my-weather-gui/src/parsers.rs:60-65 | conversely, when one of the four stops occurs and none tried before it does, the stop is at its first occurrence |
| GuiParserProofs.GuiBodyStop | my-weather-gui/src/parsers.rs:60-65 | in a title body the description stops at the written lead-in, under the same conditions as the live grammar |
| GuiParserProofs.GuiDescriptionAt | my-weather-gui/src/parsers.rs:66 | the description is the trimmed text before the stop |
| GuiParserProofs.GuiDescriptionRoundTrip | my-weather-gui/src/parsers.rs:59-68 | a description before one of the four lead-ins reads back when it holds neither that lead-in nor an earlier one and the text after holds no earlier one |
| GuiParserProofs.GuiDescriptionReadBackOnlyIf | my-weather-gui/src/parsers.rs:59-68 | conversely, a description that reads back has one of the four lead-ins and satisfies those conditions |
| GuiParserProofs.GuiFallingBodyFails | my-weather-gui/src/parsers.rs:60-65 | a body with `Temperature falling to` and none of the other four lead-ins has no description |
| GuiParserProofs.GuiForecastSteps | my-weather-gui/src/parsers.rs:91-103 | the title parser chains weekday, marker, description and temperature |
| GuiParserProofs.GuiTitlePieces | my-weather-gui/src/parsers.rs:91-103 | what each step reads from a title this grammar can read (number ended by `.`, or by a blank after digits), under the same conditions on description and trailing text |
| GuiParserProofs.GuiForecastRoundTrip | my-weather-gui/src/parsers.rs:91-103 | a title with a lead-in of this grammar and a signed number ended by `.`, or by a blank after digits, reads back as its parts, under the same conditions on description and trailing text |
| GuiParserProofs.GuiFallingTitleFails | my-weather-gui/src/parsers.rs:91-103 | a title whose reading follows `Temperature falling to`, with none of the other lead-ins in its description or trailing text, does not parse |
| GuiParserProofs.GuiForecastNoDescription | my-weather-gui/src/parsers.rs:94 | a failing description fails the whole title |
| ParserExamples.GuiMinusLost | my-weather-gui/src/parsers.rs:32 | `minus  9.` (two spaces) reads as +9 in the older grammar |
| ParserExamples.LiveMinusKept | my-weather/src/parsers.rs:26-32 | the live grammar reads `minus  9.` as -9 |
| ParserExamples.GuiSignWithoutDigits | my-weather-gui/src/parsers.rs:30 | `minus .` panics in the older grammar |
| ParserExamples.LiveSignWithoutDigits | my-weather/src/parsers.rs:26 | the live grammar rejects `minus .` as a parse failure |
| ParserExamples.GuiZeroByMorning | my-weather-gui/src/parsers.rs:21-28 | `zero by morning.` fails in the older grammar |
| ParserExamples.LiveZeroByMorning | my-weather/src/parsers.rs:211-213 | the live grammar reads `zero by morning.` as 0 |
| ParserExamples.GuiHighSix | my-weather-gui/src/parsers.rs:38-57 | `High 6.` fails in the older grammar |
| ParserExamples.LiveHighSix | my-weather/src/parsers.rs:38-66 | the live grammar reads `High 6.` as High(6) |
| ParserExamples.GuiRisingByMorning | my-weather-gui/src/parsers.rs:272-285 | the temperature of the test's night title: `Temperature rising to minus 2 ` ended by a blank is High(-2), leaving the text after that blank when no second blank follows |
| ParserExamples.GuiFallingExample | my-weather-gui/src/parsers.rs:52 | `Temperature falling to minus 3.` fails in the older grammar |
| ParserExamples.LiveFallingExample | my-weather/src/parsers.rs:58 | the live grammar reads `Temperature falling to minus 3.` as Low(-3) |

## Left out

- Numbers are `int` (forecast digit runs) and exact `real` (current-conditions decimals), not `f32`. Rounding in `parse::<f32>` and the `{n:.0}` formatting in `Display` are not modelled; under exact arithmetic `n*2 + 30` is exact.
- Network fetching (`get_weather`), the XML envelope, serde deserialization and serialization are not modelled. Only the string logic inside the two visitors is. The feed is given as a sequence of entries.
- `HashMap::into_values` is modelled as collecting the map over a fixed weekday order, not the hash order. `Grouping.ArrangedUnique` and `TauriForecasts.TauriArrangedUnique` show that the sorted output does not depend on that order.
- `sort_by` is modelled by `Ordering.SortByKey`, an insertion sort over a sequence, not Rust's merge sort. Only weekday records are ever sorted, so the comparator's `Equal` for other pairs never applies; `SequenceOf` gives those 0.
- The `to_forecast` methods keep the day map and the result as local `map` and `seq` values that the loop reassigns. The in-place `get_mut` and `Vec` updates become map and sequence updates.
- The Tauri crate's title parsers are not part of this model. `TauriForecasts.TauriToForecast` takes the two title readers as parameters, and models the `unwrap` panic as a `None` result.
- `eprintln!` diagnostics for forecast entries without a weekday are left out; such entries are dropped.
- The hand-written `PartialEq` for `Temperature<Celsius>` recurses without end. The model uses structural equality instead.
- nom error kinds, `context` labels and the text of `TitleParseError` and `CurrentForecastError` are not modelled. A failure is the plain value `Fail`.
- The older crate's `parse_day_night`, `parse_day_of_week`, `parse_signed_number` and `parse_current_forecast` are textually the same as the live ones. `GuiParsers` reuses the `Parsers` members for them.
- Long feed titles from the `parse_full` tests (rising, falling and cloudy-night titles) have no example lemma of their own. `ParserProofs.ForecastRoundTrip` covers every title of that shape.
- `Feed.IsWarning` (`Entry::is_warning`) is a plain predicate with no contract. Its definition is the `Warnings` term test, and `Feed.CurrentForecastEntries` states the view in terms of it.
- Text trimming uses Rust's Unicode `White_Space` set. Parser blanks (`space0`) are space and tab only. Strings are sequences of characters with no byte encoding.
- User interface, timers, refresh threads, command-line and Tauri entry points, and timestamp formatting are not modelled.

## Findings

The older desktop grammar (my-weather-gui/src/parsers.rs) misreads titles that the live grammar reads correctly. For each row, an `as-written` member proves the older behaviour on a concrete title. The `corrected` member proves the behaviour evidently intended, which the rest of the model uses through `Parsers`.

| source | as written | input that shows it | evidently intended | confidence | as-written member | corrected member |
|---|---|---|---|---|---|---|
| my-weather-gui/src/parsers.rs:32 | the value is negated only when the recognised sign text is exactly `minus ` (one blank), but `space0` lets any number of blanks into the sign | `minus  9.` reads as 9 | -9, as `minus` followed by any blanks | not executed | ParserExamples.GuiMinusLost | ParserExamples.LiveMinusKept |
| my-weather-gui/src/parsers.rs:30 | `n.expect("parsed number")` panics when a sign word has no digits | `minus .` panics | a parse failure that `alt` and `ok()` can absorb | not executed | ParserExamples.GuiSignWithoutDigits | ParserExamples.LiveSignWithoutDigits |
| my-weather-gui/src/parsers.rs:27 | `zero` counts only when no blank follows it, and a terminator must follow directly | `zero by morning.` fails | 0, as the live crate's test at my-weather/src/parsers.rs:211-213 expects | not executed | ParserExamples.GuiZeroByMorning | ParserExamples.LiveZeroByMorning |
| my-weather-gui/src/parsers.rs:16-19 | the sign word is mandatory | `High 6.` fails | High(6), a positive value without `plus` | not executed | ParserExamples.GuiHighSix | ParserExamples.LiveHighSix |
| my-weather-gui/src/parsers.rs:52 | `Low` is the only low lead-in, so `Temperature falling to` is neither a temperature nor a description stop | `Temperature falling to minus 3.` fails | Low(-3) | not executed | ParserExamples.GuiFallingExample | ParserExamples.LiveFallingExample |
