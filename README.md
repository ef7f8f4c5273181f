# A verified model of the OfficiumDivinum parsers and date language

OfficiumDivinum turns the text files of the Divinum Officium project into
feasts, martyrologies, hymns, psalms and prayers, and names the day of each
feast with a small date language ("Easter", "1 Jan", "2nd Sun after
Pentecost", "Sun between 2 Jan 5 Jan OR 2 Jan"). This project models, in
Dafny, the parts of the repository that decide what those files and
expressions mean:

- the date-expression evaluator `dsl_parser` and its tables (`dsl.dfy`,
  `tables.dfy`, `dates.dfy`). It has proleptic Gregorian dates with
  Python's day numbers, the Western computus and `relativedelta`'s
  `weeks=n, weekday=W` snap. The pyparsing rewrite passes are left-to-right
  scanners, and the three bounded `while` loops are imperative methods;
- the `Datestr` validator and the `RankLiteral` vocabulary (`custom_types.dfy`);
- the rank tables (`structures.dfy`) and the rank order of calendar
  entries (`calendar.dfy`);
- the length order of martyrologies (`martyrology.dfy`) and the 1960
  rules' `resolve`, which merges competing martyrologies (`version1960.dfy`,
  with the stable descending sort in `sorting.dfy`);
- the calendar-line parsers of `kalendarium` and `K2obj` (`kalendarium.dfy`,
  `k2obj.dfy`). The `kalendarium` module's globals `version` and
  `rank_table` are a class;
- the section splitters of `T2obj` and `util`, with `validate_section`,
  `guess_section_header` and `generate_commemoration_links`
  (`t2obj.dfy`, `parser_util.dfy`);
- the martyrology parsers in both copies of `M2obj` (`m2obj.dfy`,
  `m2obj_src.dfy`);
- the small parsers and classifiers of `chickenfeed` (`chickenfeed.dfy`);
- the link dereferencer `deref` (`deref.dfy`);
- the hymn `guess_version` (`hymn_version.dfy`);
- the psalm parser `P2obj` (`p2obj.dfy`);
- the version-merging `dedup` (`dedup.dfy`).

Python's value semantics appear as data:
- a raised exception is the `Throw` case of an `Outcome`;
- a `dict` is an insertion-ordered list of pairs (`Py.Dict`);
- strings are `seq<char>`.

A regular expression is modelled by a function that finds its leftmost
match. The contract of that function says which match it finds.

Each loop of the source is a method. Its `ensures` ties the result to a
specification function. The lemmas then prove the source's promises about
that function, and its error cases are stated beside them.
Reading a file becomes a parameter that holds the file's lines.

## Model

| member | source | states |
|---|---|---|
| Tables.IndexOf | backend/app/app/DSL/dsl_parser.py:102 | `tuple.index`: the first position holding the value, and no result exactly when the value is absent |
| Tables.OrdinalsSpelled | backend/app/app/DSL/util.py:16-43 | `ordinals` has 26 entries and entry k is the English ordinal of k |
| Tables.OrdinalIndex | backend/app/app/DSL/util.py:16-43 | `ordinals.index(o)` is the number that `o` names |
| Tables.MonthsNumbered | backend/app/app/DSL/util.py:1-14 | `months` has 12 entries and `months.index` of entry k is k, so the month number is the position plus one |
| Tables.DaysSundayTwice | backend/app/app/DSL/util.py:15 | `days` has 8 entries, "Sun" at positions 0 and 7 only, and the lookup of "Sun" finds position 0 |
| Tables.NamesThreeLetters | backend/app/app/DSL/util.py:1-15 | every day and month abbreviation has three letters |
| Dsl.WeekdaysByPosition | backend/app/app/DSL/dsl_parser.py:56 | the `weekdays` map gives every day name, at either of its positions, the dateutil weekday of that position |
| Dsl.FileSpecialsAreSpecials | backend/app/app/DSL/util.py:48-56 | every value of the file-name `specials` map is a key of the evaluator's `specials` table |
| Dsl.SpecialDate | backend/app/app/DSL/dsl_parser.py:58-67 | a special's date is a valid date; a year beyond a C `int` is an OverflowError, any other year outside 1..9999 a ValueError; any other failure is an overflow |
| Dsl.SpecialsFixtures | backend/app/app/DSL/dsl_parser.py:4-18 | the module doctests: Christmas, Easter, Lent and Septuagesima of 2020 and Epiphany of 2021 |
| Dsl.EasterShifts | backend/app/app/DSL/dsl_parser.py:59-66 | Lent, Septuagesima and Pentecost are Easter moved by exactly -42, -63 and +49 days, are Sundays and never overflow |
| Dsl.AdventWindow | backend/app/app/DSL/dsl_parser.py:61 | Advent is the first Sunday on or after December 25th minus 28 days, 22 to 28 days before Christmas |
| Dsl.YearlessDate | backend/app/app/DSL/dsl_parser.py:164-167 | `<n> <Mon>` is the date (year, month position + 1, n) when that date exists; otherwise an OverflowError exactly when the year, month or n is beyond a C `int`, and a ValueError when not |
| Dsl.BetweenMeaning | backend/app/app/DSL/dsl_parser.py:90-96 | `between` gives the first W in [date1, date2), and gives False exactly when that range holds no W |
| Dsl.NextStrictlyDayNumber | backend/app/app/DSL/dsl_parser.py:112-117 | a count of 1 takes the next W on or after d, and goes one week further when that day is d itself |
| Dsl.RelativeDayNumber | backend/app/app/DSL/dsl_parser.py:99-119 | the day number of `_parse_timedelta`'s result for each signed count, and when the result overflows |
| Dsl.RelativeOrdinalZero | backend/app/app/DSL/dsl_parser.py:110-111 | a count of 0 gives the first W on or after d, at most six days later |
| Dsl.RelativeOrdinalOne | backend/app/app/DSL/dsl_parser.py:112-117 | `W after d` gives the first W strictly after d |
| Dsl.RelativeOrdinalBefore | backend/app/app/DSL/dsl_parser.py:107-119 | `nth W before d` lands on a W in [d - 7n, d - 7n + 6]; for n = 1 it is the last W strictly before d |
| Dsl.RelativeOrdinalMany | backend/app/app/DSL/dsl_parser.py:118-119 | a count of two or more lands on a W, exactly n weeks on when d is a W, else n weeks after the next W |
| Dsl.RelativeOne | backend/app/app/DSL/dsl_parser.py:112-117 | the date `W after d` is a W within the next seven days, with no W in between |
| Dsl.RelativeBefore | backend/app/app/DSL/dsl_parser.py:107-119 | the date `W before d` is a W strictly before d, with no W in between |
| Dsl.OrValue | backend/app/app/DSL/dsl_parser.py:79-87 | OR gives the left date if there is one, otherwise the right date, otherwise False |
| Dsl.AndValue | backend/app/app/DSL/dsl_parser.py:70-76 | AND gives the left date only when both sides are dates, otherwise False |
| Dsl.TransformIdentity | backend/app/app/DSL/dsl_parser.py:161 | a pass that matches nowhere copies the text unchanged |
| Dsl.LoopStuck | backend/app/app/DSL/dsl_parser.py:199-203 | a loop whose pass leaves guarded text unchanged stops with the recursion-limit error and that text |
| Dsl.LoopEndsUnguarded | backend/app/app/DSL/dsl_parser.py:199-241 | a loop that succeeds leaves text free of its guard words |
| Dsl.RunLoop | backend/app/app/DSL/dsl_parser.py:198-203 | the `while` loop with its `count` gives the loop's specified outcome, including the error after the twelfth pass |
| Dsl.IsoRun | backend/app/app/DSL/dsl_parser.py:244-246 | the leading run of ISO dates, empty exactly when the text does not start with one |
| Dsl.FirstDate | backend/app/app/DSL/dsl_parser.py:246-250 | an empty run is "Unable to parse"; a result is the first date of a run whose dates all exist |
| Dsl.FinalDate | backend/app/app/DSL/dsl_parser.py:243-250 | a result is the ISO date that starts the text; text that does not start with one is "Unable to parse" |
| Dsl.Evaluate | backend/app/app/DSL/dsl_parser.py:122-250 | the five passes in order, stopping at the first error, give the specified evaluation |
| Dsl.SpecialsKeepDateText | backend/app/app/DSL/dsl_parser.py:158-161 | the special-name pass leaves text of digits, dashes and spaces unchanged |
| Dsl.YearlessKeepDateText | backend/app/app/DSL/dsl_parser.py:164-169 | the yearless pass leaves text of digits, dashes and spaces unchanged |
| Dsl.LoopsKeepDateText | backend/app/app/DSL/dsl_parser.py:198-241 | on text of digits, dashes and spaces none of the three loops runs |
| Dsl.FinalIso | backend/app/app/DSL/dsl_parser.py:243-250 | an ISO date, alone or followed by a space, reads as that date |
| Dsl.IsoEvaluates | backend/app/app/DSL/dsl_parser.py:122-250 | an ISO date evaluates to itself in any year |
| Dsl.DateAfterNames | backend/app/app/DSL/dsl_parser.py:122-250 | text that the first two passes turn into one ISO date evaluates to that date |
| Dsl.WholeMatch | backend/app/app/DSL/dsl_parser.py:161 | a match that spans the whole text is replaced by its output |
| Dsl.EasterMatch | backend/app/app/DSL/dsl_parser.py:158-159 | "Easter" in 2020 is matched as a whole and becomes "2020-04-12 " |
| Dsl.EasterDoctest | backend/app/app/DSL/dsl_parser.py:127-128 | the doctest `dsl_parser("Easter", 2020)` gives April 12th, 2020 |
| Dsl.NewYearSpecials | backend/app/app/DSL/dsl_parser.py:158-161 | "1 Jan" holds no special name |
| Dsl.NewYearMatch | backend/app/app/DSL/dsl_parser.py:164-169 | "1 Jan" in 2020 is matched as a whole and becomes "2020-01-01 " |
| Dsl.NewYearDoctest | backend/app/app/DSL/dsl_parser.py:130-131 | the doctest `dsl_parser("1 Jan", 2020)` gives January 1st, 2020 |
| Dsl.FirstSunday2016 | backend/app/app/DSL/dsl_parser.py:94-96 | in 2016 the first Sunday on or after January 2nd is January 3rd, which is before January 4th |
| Dsl.BetweenFixture2016 | backend/app/app/DSL/dsl_parser.py:90-96 | the between step of the doctest at lines 133-134: "Sun between 2016-01-02 2016-01-04" becomes "2016-01-03 " |
| Dsl.FirstSunday2017 | backend/app/app/DSL/dsl_parser.py:94-96 | in 2017 the first Sunday on or after January 2nd is January 8th, which is not before January 4th, so there is none |
| Dsl.BetweenFixture2017 | backend/app/app/DSL/dsl_parser.py:90-96 | the between step of the doctest at lines 136-137: "Sun between 2017-01-02 2017-01-04" becomes "False " |
| Dsl.OrDatesFixture | backend/app/app/DSL/dsl_parser.py:79-82 | "<date> OR <date>" is matched whole and gives the left date |
| Dsl.OrFalseFixture | backend/app/app/DSL/dsl_parser.py:79-85 | "False OR <date>" is matched whole and gives the right date |
| Dsl.OrFixture2016 | backend/app/app/DSL/dsl_parser.py:79-82 | the OR step of the doctest at lines 133-134: "2016-01-03 OR 2016-01-02" gives 2016-01-03 |
| Dsl.OrFixture2017 | backend/app/app/DSL/dsl_parser.py:79-85 | the OR step of the doctest at lines 136-137: "False OR 2017-01-02" gives 2017-01-02 |
| Dsl.EasterDate2021 | backend/app/app/DSL/dsl_parser.py:59 | Easter 2021 is April 4th |
| Dsl.PentecostOn | backend/app/app/DSL/dsl_parser.py:66 | Pentecost is the valid date 49 days after Easter |
| Dsl.PentecostDate2021 | backend/app/app/DSL/dsl_parser.py:66 | Pentecost 2021 is May 23rd |
| Dsl.PentecostFixture | backend/app/app/DSL/dsl_parser.py:66 | the special-name step of the doctest at lines 139-140: "Pentecost" in 2021 is May 23rd |
| Dsl.RelativeOn | backend/app/app/DSL/dsl_parser.py:106-119 | the timedelta rule gives the date whose day number it computes, whenever that date exists |
| Dsl.TwentySecondSunday2021 | backend/app/app/DSL/dsl_parser.py:118-119 | the 22nd Sunday after May 23rd, 2021 is October 24th, 2021 |
| Dsl.TimedeltaFixture2021 | backend/app/app/DSL/dsl_parser.py:99-119 | the timedelta step of the doctest at lines 139-140: "22nd Sun after 2021-05-23" becomes "2021-10-24" |
| Dates.BeforeIffOrdinal | backend/app/app/DSL/dsl_parser.py:96 | comparing two dates is comparing their day numbers (`solution < d2`) |
| Dates.AddForwardOrdinal | backend/app/app/DSL/dsl_parser.py:95 | stepping forward k days one day at a time adds k to the day number, and fails exactly past December 31st, 9999 |
| Dates.AddBackwardOrdinal | backend/app/app/DSL/dsl_parser.py:115 | stepping back k days one day at a time subtracts k from the day number, and fails exactly before January 1st of year 1 |
| Dates.AddDays | backend/app/app/DSL/dsl_parser.py:119 | adding k days succeeds exactly inside the supported range and moves the day number by k |
| Dates.SnapOrdinalIsLeast | backend/app/app/DSL/dsl_parser.py:95 | the weekday snap gives the first W on or after the day, at most six days later |
| Dates.SnapInStepsOrdinal | backend/app/app/DSL/dsl_parser.py:119 | `+ relativedelta(weeks=n, weekday=W)` done as n weeks and then day steps: the first W on or after d + 7n |
| Dates.Snap | backend/app/app/DSL/dsl_parser.py:119 | the same snap computed on day numbers, with the overflow case |
| Dates.SnapSteps | backend/app/app/DSL/dsl_parser.py:119 | the stepwise and the day-number snap agree on all inputs |
| Dates.SnapLandsOnWeekday | backend/app/app/DSL/dsl_parser.py:95 | the snap lands on W in [d + 7n, d + 7n + 6], and on d + 7n itself when that is a W |
| Dates.ParseFormat | backend/app/app/DSL/dsl_parser.py:92 | `date.fromisoformat(str(d)) == d` |
| Dates.FormatParse | backend/app/app/DSL/dsl_parser.py:159 | `str(date.fromisoformat(s)) == s` for ISO text of a valid date |
| Dates.EasterOffset | backend/app/app/DSL/dsl_parser.py:59 | the computus offset lies in -6..29 and makes the date a Sunday |
| Dates.Easter | backend/app/app/DSL/dsl_parser.py:59 | `easter.easter(y)` in year y: March (offset + 28) when the computus offset is below 4, otherwise April (offset - 3), so never before March 22nd |
| Dates.EasterIsSunday | backend/app/app/DSL/dsl_parser.py:59 | Easter is always a Sunday |
| Structures.TraditionalWeightsIncrease | backend/app/app/parsers/divinumofficium_structures.py:46-64 | the lookup values of `traditional_rank_table` strictly increase from feria 0 to duplex i classis 6 |
| Structures.TraditionalAliases | backend/app/app/parsers/divinumofficium_structures.py:65-67 | "semiduplex i classis" is 2.5, between semiduplex and duplex; "i ordinis" and "i classis" are 6 |
| Structures.NewRankFirstPositions | backend/app/app/parsers/divinumofficium_structures.py:78-87 | `new_rank_table.index` finds iii. classis at 2, ii. classis at 5 and i. classis at 6 |
| Structures.FeriaRanksOutrank | backend/app/app/parsers/divinumofficium_structures.py:89-97 | "feria privilegiata" and "i classis" are 8, above every traditional value |
| Structures.TraditionalWeights | backend/app/app/parsers/divinumofficium_structures.py:57-68 | every traditional value is one of 0, 1, 2, 2.5, 3, 4, 5, 6 |
| Structures.TraditionalGaps | backend/app/app/parsers/divinumofficium_structures.py:57-68 | two distinct traditional values differ by at least 0.5 |
| Structures.RankTablesByCalendar | backend/app/app/parsers/divinumofficium_structures.py:100 | only "1960" has a rank table, and it is `new_rank_table` |
| Structures.LatinOrdinalsCount | backend/app/app/parsers/divinumofficium_structures.py:102-133 | 30 distinct ordinals, from prima to tricesima |
| Calendar.RankValue | backend/app/app/models/calendar.py:41-51 | the value is the table value of the stripped, lower-cased name, 0.1 less when defeatable; a missing name is a KeyError |
| Calendar.Gt | backend/app/app/models/calendar.py:53-54 | a > b exactly when the value of a exceeds the value of b, and fails when either has no value |
| Calendar.Lt | backend/app/app/models/calendar.py:56-57 | a < b exactly when the value of a is below the value of b, and fails when either has no value |
| Calendar.OrderConsistent | backend/app/app/models/calendar.py:53-57 | a < b is b > a; both never hold; equal values satisfy neither |
| Calendar.KeyNormalised | backend/app/app/models/calendar.py:43 | normalising a name twice changes nothing |
| Calendar.UndefeatableOutranks | backend/app/app/models/calendar.py:51 | for the same name, the non-defeatable entry is greater |
| Calendar.DefeatableStillOutranksLower | backend/app/app/models/calendar.py:45-51 | a defeatable entry still outranks any entry with a lower table value |
| Calendar.NewRankNamesUnknown | backend/app/app/models/calendar.py:44-50 | the 1960 names other than "feria" raise KeyError, because the handler catches only ValueError |
| CustomTypes.Validate | backend/app/app/schemas/custom_types.py:42-48 | a non-string is a TypeError; a string is accepted exactly when it evaluates in 2000, unchanged, otherwise its evaluator error is raised |
| CustomTypes.ValidateIdempotent | backend/app/app/schemas/custom_types.py:42-48 | validating an accepted value again gives the same result |
| CustomTypes.RankLiteralCoversTables | backend/app/app/schemas/custom_types.py:7-31 | `RankLiteral` holds every name of both rank tables |
| Martyrology.TotalLengthIsTextLength | backend/app/app/models/martyrology.py:75-76 | the summed lengths of the parts are the length of their concatenated text |
| Martyrology.TotalLengthAppend | backend/app/app/models/martyrology.py:75-76 | the length of two part lists joined is the sum of their lengths |
| Martyrology.Martyrology.constructor | backend/app/app/models/martyrology.py:75 | a new entry holds the given parts |
| Martyrology.Martyrology.Len | backend/app/app/models/martyrology.py:75-76 | `len(m)` is the length of the concatenated content of its parts |
| Martyrology.Trichotomy | backend/app/app/models/martyrology.py:78-82 | a < b exactly when b > a and when len(a) < len(b); a > b exactly when len(a) > len(b); equal lengths satisfy neither |
| Sorting.Insert | backend/app/app/versions/version_1960.py:36 | inserting a position adds exactly that position |
| Sorting.SortDesc | backend/app/app/versions/version_1960.py:36 | the sorted positions are a permutation of the input positions |
| Sorting.InsertOrdered | backend/app/app/versions/version_1960.py:36 | inserting an earlier position into a stably descending list keeps it stably descending |
| Sorting.SortOrdered | backend/app/app/versions/version_1960.py:36 | `sorted(..., reverse=True)` lists heavier entries first and equal ones in their input order |
| Sorting.OrderedUnique | backend/app/app/versions/version_1960.py:36 | there is only one stably descending order of the same positions |
| Sorting.HeadsAgree | backend/app/app/versions/version_1960.py:36 | two stably descending orders of the same positions start alike |
| Sorting.HeadFirst | backend/app/app/versions/version_1960.py:36 | the head of a stably descending order precedes every other element |
| Sorting.FirstMax | backend/app/app/versions/version_1960.py:34 | `max` gives the first position of greatest weight |
| Sorting.MaxFrom | backend/app/app/versions/version_1960.py:34 | the scan for `max` keeps the first greatest position seen so far |
| Sorting.Positions | backend/app/app/versions/version_1960.py:27 | the positions of a list of n entries are 0..n-1 in order |
| Version1960.BaseIndex | backend/app/app/versions/version_1960.py:34 | the base is the first entry of maximal length |
| Version1960.Others | backend/app/app/versions/version_1960.py:35 | `objs.remove(base)` leaves every other position, in order |
| Version1960.VisitOrder | backend/app/app/versions/version_1960.py:36 | the remaining entries are visited by position |
| Version1960.Resolve | backend/app/app/versions/version_1960.py:25-44 | mixed kinds raise CalendarError; no entries is an IndexError; other kinds give None; feasts fail with KeyError or NameError; martyrologies merge into the base, which is returned, while the other entries keep their parts; nothing changes unless martyrologies merge |
| Version1960.Martyrologies | backend/app/app/versions/version_1960.py:33 | the martyrology objects of the entries, in order |
| Version1960.Parts | backend/app/app/versions/version_1960.py:37 | the parts of each object, in order |
| Version1960.Merge | backend/app/app/versions/version_1960.py:34-38 | the base is the first longest object and gets the merged parts; every other object keeps its parts |
| Version1960.PrependEach | backend/app/app/versions/version_1960.py:36-37 | the loop prepends the parts of each visited object to the base's parts |
| Version1960.OrderSkipsBase | backend/app/app/versions/version_1960.py:35-36 | the visit order holds every position except the base, each once |
| Version1960.VisitOrderSorted | backend/app/app/versions/version_1960.py:36 | the others are visited in descending length, ties in their input order |
| Version1960.PrependAllFront | backend/app/app/versions/version_1960.py:37 | visiting one object prepends its parts before the rest of the loop runs |
| Version1960.PrependAllEndsWith | backend/app/app/versions/version_1960.py:37 | the base's original parts stay at the end |
| Version1960.LongestVisitedFirst | backend/app/app/versions/version_1960.py:36 | the first visited is the first longest among the others |
| Version1960.MergedShape | backend/app/app/versions/version_1960.py:36-37 | the merged parts end with the base's parts, preceded by those of the first visited object |
| Version1960.SumLengthsAppend | backend/app/app/models/martyrology.py:75-76 | the summed lengths of two position lists joined add up |
| Version1960.SumLengthsPermutation | backend/app/app/models/martyrology.py:75-76 | the summed lengths do not depend on the order of the positions |
| Version1960.PrependAllLength | backend/app/app/versions/version_1960.py:36-37 | the loop adds the lengths of the visited objects to the base's length |
| Version1960.OthersSum | backend/app/app/versions/version_1960.py:35 | the others' lengths and the base's length add up to the total of all entries |
| Version1960.MergedLength | backend/app/app/versions/version_1960.py:34-38 | the merged base is as long as all the entries together: no part is lost or duplicated |
| Kalendarium.ToNum | backend/app/app/parsers/kalendarium.py:30-34 | on plain decimal text, `num` succeeds exactly when `float` does, with the same value, and gives a float exactly when `int` fails |
| Kalendarium.IntExample | backend/app/app/parsers/kalendarium.py:30-34 | `num("4")` is the integer 4 |
| Kalendarium.FloatExample | backend/app/app/parsers/kalendarium.py:30-34 | `num("1.5")` is the float 1.5 |
| Kalendarium.NumOfWritten | backend/app/app/parsers/kalendarium.py:30-34 | `num` gives back the integer that was written |
| Kalendarium.SepFrom | backend/app/app/parsers/kalendarium.py:48 | the first "=" followed by a digit at or after a position, and none when there is none |
| Text.RunEnd | backend/app/app/parsers/kalendarium.py:48 | a greedy run over a character class ends at the first character outside it; with "=" it is the trailing `=*` |
| Kalendarium.MatchIn | backend/app/app/parsers/kalendarium.py:48 | a match ends inside the text and its rank group has the shape `[0-9]+\.?[0-9]*` |
| Kalendarium.MatchShortest | backend/app/app/parsers/kalendarium.py:48 | the lazy name group ends at the first "=" followed by a digit; there is no match exactly when there is no such "=" |
| Kalendarium.RankTextAt | backend/app/app/parsers/kalendarium.py:48 | digits, an optional dot and more digits after the separator form a rank group |
| Kalendarium.Findall | backend/app/app/parsers/kalendarium.py:48 | every rank group that `re.findall` returns has the rank shape |
| Kalendarium.RankTextParses | backend/app/app/parsers/kalendarium.py:49 | every rank group is a number `num` can read |
| Kalendarium.FindallParses | backend/app/app/parsers/kalendarium.py:48-49 | every feast found has a rank, so `num` never raises inside `extract_line` |
| Kalendarium.ExtractLine | backend/app/app/parsers/kalendarium.py:37-50 | the loop that appends feasts gives the specified extraction |
| Kalendarium.NameSep | backend/app/app/parsers/kalendarium.py:48 | in `name=<digits>` the first separator is right after the name, when the name has none |
| Kalendarium.SepFromFirst | backend/app/app/parsers/kalendarium.py:48 | the first separator is found wherever it lies |
| Kalendarium.RankEnd | backend/app/app/parsers/kalendarium.py:48 | after the rank digits exactly one "=" is consumed when the next text does not start with "=" |
| Kalendarium.MatchRendered | backend/app/app/parsers/kalendarium.py:48 | `name=<n>=` followed by other text matches as that name and the decimal text of n |
| Kalendarium.MatchDigits | backend/app/app/parsers/kalendarium.py:48 | `name=<digits>=` matches as that name and those digits |
| Kalendarium.MatchSplit | backend/app/app/parsers/kalendarium.py:48 | the match of `name=u` is cut at the end of the leading digits of u |
| Kalendarium.MatchInAt | backend/app/app/parsers/kalendarium.py:48 | the match is the text before the first separator and the digits after it |
| Kalendarium.FindallRender | backend/app/app/parsers/kalendarium.py:48-49 | a line written as `name=rank=` pairs reads back as exactly those names and ranks, in order |
| Kalendarium.FelicisFixture | backend/app/app/tests/parsers/test_calendarium_parser.py:28-36 | a name that holds "=" without a digit after it is kept whole |
| Kalendarium.PlainJoin | backend/app/app/tests/parsers/test_calendarium_parser.py:29 | two names joined by "=" form one name when the second does not start with a digit |
| Kalendarium.NoSepWithoutEquals | backend/app/app/parsers/kalendarium.py:48 | text with no "=" holds no separator |
| Kalendarium.OnlyK1960 | backend/app/app/parsers/kalendarium.py:19-27 | `get_version` finds a rank table exactly for a stem that is one character followed by "1960" |
| Kalendarium.OtherCalendarsUnknown | backend/app/app/parsers/kalendarium.py:16-27 | "KM" and "KNC" become "monastic" and "newcal", neither of which has a rank table |
| Kalendarium.Datestr | backend/app/app/parsers/kalendarium.py:63-74 | day 0 is de Tempore with "Sun between 2 Jan 5 Jan OR 2 Jan"; any other day is Sanctorum with "{day} {months[month-1]}", and an out-of-range month is an IndexError |
| Kalendarium.RankName | backend/app/app/parsers/kalendarium.py:83-86 | an integer rank r names `rank_table[r]`, a float rank `rank_table[int(r + 0.5)]`, with Python's negative indices and IndexError; no table is a TypeError |
| Kalendarium.FloatRankRounds | backend/app/app/parsers/kalendarium.py:86 | `int(r + 0.5)` rounds a rank to the nearest position, halves up |
| Kalendarium.FillAll | backend/app/app/parsers/kalendarium.py:63-88 | every feast is filled in, or the first failure is raised |
| Kalendarium.FillAllFields | backend/app/app/parsers/kalendarium.py:63-88 | each filled feast is the fill of the feast at its position |
| Kalendarium.FillFields | backend/app/app/parsers/kalendarium.py:63-88 | a filled feast keeps its name and rank and gets the version, the type and datestr, the rank name, and defeatable exactly when the rank is a float |
| Kalendarium.Keys | backend/app/app/parsers/kalendarium.py:61 | the sort key of each feast is its rank |
| Kalendarium.RankOrder | backend/app/app/parsers/kalendarium.py:61 | the sorted order is a permutation of the feasts' positions |
| Kalendarium.ByRank | backend/app/app/parsers/kalendarium.py:61 | the sorted feasts are the feasts taken in that order |
| Kalendarium.ByRankSorted | backend/app/app/parsers/kalendarium.py:61 | the feasts are sorted by descending rank, ties in their line order |
| Kalendarium.ParsedStarred | backend/app/app/parsers/kalendarium.py:40-42 | a line starting with "*" after stripping gives None |
| Kalendarium.ParsedFeasts | backend/app/app/parsers/kalendarium.py:53-95 | the result is the highest-ranked feast with the others as commemorations (None when there are none), all filled in and no commemoration above the feast |
| Kalendarium.FilledByRank | backend/app/app/parsers/kalendarium.py:61-88 | the filled sorted feasts keep the sort and the fill of each feast |
| Kalendarium.ParsedNoFeasts | backend/app/app/parsers/kalendarium.py:94 | a dated line without feasts raises IndexError at `feasts[0]` |
| Kalendarium.ParsedNoTable | backend/app/app/parsers/kalendarium.py:83-86 | a de Tempore line read before `get_version` raises TypeError, since `rank_table` is None |
| Kalendarium.FillFeasts | backend/app/app/parsers/kalendarium.py:63-88 | the loop that updates each feast gives the specified fill |
| Kalendarium.Kalendarium.constructor | backend/app/app/parsers/kalendarium.py:13-14 | the module starts with no version and no rank table |
| Kalendarium.Kalendarium.GetVersion | backend/app/app/parsers/kalendarium.py:19-27 | the version is always set; the rank table is set when the version has one, otherwise KeyError is raised and the table is kept |
| Kalendarium.Kalendarium.ParseLine | backend/app/app/parsers/kalendarium.py:53-95 | parsing a line with the module's current version and rank table gives the specified result |
| K2obj.RankOf | backend/app/app/parsers/K2obj.py:20-25 | a rank that is not plain decimal text is a ValueError; a result is a name from the table, defeatable exactly when the rank is not an integer |
| K2obj.RankAgrees | backend/app/app/parsers/K2obj.py:20-25 | K2obj's rank rule and kalendarium's agree on every number |
| K2obj.Commemorations | backend/app/app/parsers/K2obj.py:29-48 | the commemoration loop fails only with IndexError or with the unbound local |
| K2obj.Names | backend/app/app/parsers/K2obj.py:41-48 | the names are the fields that are not numbers |
| K2obj.CommemoratedNames | backend/app/app/parsers/K2obj.py:44 | the names of the commemorations, in order |
| K2obj.CommemorationNames | backend/app/app/parsers/K2obj.py:29-48 | the commemorations are exactly the non-numeric fields, in order |
| K2obj.UnboundName | backend/app/app/parsers/K2obj.py:31-48 | a name before any number fails with an unbound local |
| K2obj.Named | backend/app/app/parsers/K2obj.py:42-48 | each name of a group gets the group's rank name and defeatable flag |
| K2obj.GroupedCommemorations | backend/app/app/parsers/K2obj.py:29-48 | each name takes the most recent number's rank: the loop equals grouping the fields by the number before them |
| K2obj.RankFirst | backend/app/app/parsers/K2obj.py:33-40 | a number sets the current rank for the fields after it |
| K2obj.NamesThen | backend/app/app/parsers/K2obj.py:41-48 | names under a rank become commemorations in front of the rest |
| K2obj.Qualifiers | backend/app/app/parsers/K2obj.py:50-52 | the qualifiers exist exactly when date and duplicate differ, and are the duplicate without its last character |
| K2obj.ParsedStarred | backend/app/app/parsers/K2obj.py:13-15 | a line starting with "*" gives None |
| K2obj.ParsedVersion | backend/app/app/parsers/K2obj.py:16 | any version other than "1960" raises KeyError |
| K2obj.FromPartsFields | backend/app/app/parsers/K2obj.py:18-71 | the feast has the rank and defeatable flag of field 4, the type and datestr of the date, the version, and commemorations exactly when there are more than five fields and field 5 is not empty |
| K2obj.FromPartsShort | backend/app/app/parsers/K2obj.py:19 | fewer than four fields is an unpacking ValueError |
| K2obj.NameIgnored | backend/app/app/parsers/K2obj.py:19-71 | the name field does not affect the result |
| K2obj.CollectCommemorations | backend/app/app/parsers/K2obj.py:29-48 | the loop with its running rank gives the specified commemorations |
| K2obj.ParseLine | backend/app/app/parsers/K2obj.py:10-71 | the imperative parse gives the specified result |
| T2obj.BlankStrips | backend/app/app/parsers/T2obj.py:35 | a line is blank exactly when it strips to the empty string |
| T2obj.TrimTrailing | backend/app/app/parsers/T2obj.py:34-38 | the kept content is a nonempty prefix of the content ending in a line that is not blank |
| T2obj.TrimTrailingBlanks | backend/app/app/parsers/T2obj.py:34-38 | the content becomes None exactly when every line of it is blank, including when it is empty |
| T2obj.TrimTrailingPopsBlanks | backend/app/app/parsers/T2obj.py:35-36 | only blank lines are popped from the end |
| T2obj.RunAppend | backend/app/app/parsers/T2obj.py:27-45 | reading two runs of lines one after the other is reading them joined |
| T2obj.RunNoHeader | backend/app/app/parsers/T2obj.py:31-45 | lines without a header store nothing and keep the current section |
| T2obj.LastSectionDropped | backend/app/app/parsers/T2obj.py:27-46 | lines after the last header never reach the result: the last section is not stored |
| T2obj.LeadingDiscarded | backend/app/app/parsers/T2obj.py:25-32 | lines before the first header are discarded |
| T2obj.StepGood | backend/app/app/parsers/T2obj.py:27-45 | each line keeps the state well formed: distinct section names, none empty, every stored line stripped, not "_" and not a header, every stored content ending in a nonempty line |
| T2obj.PutStored | backend/app/app/parsers/T2obj.py:40 | storing a well-formed section keeps the names distinct and the sections well formed |
| T2obj.RunGood | backend/app/app/parsers/T2obj.py:27-45 | the whole loop keeps the state well formed |
| T2obj.SectionsStored | backend/app/app/parsers/T2obj.py:11-46 | the result has distinct, nonempty names and every stored content is well formed |
| T2obj.OneSection | backend/app/app/parsers/T2obj.py:27-46 | a header, its body and a next header give exactly that section, its body with trailing blanks popped |
| T2obj.BodyRunAt | backend/app/app/parsers/T2obj.py:44-45 | content lines are appended in order |
| T2obj.BodyRun | backend/app/app/parsers/T2obj.py:44-45 | starting from empty content, the body becomes the content |
| T2obj.HeaderLine | backend/app/app/parsers/T2obj.py:28-31 | `[name]` stays as it is when stripped and is a header |
| T2obj.BracketsStripped | backend/app/app/parsers/T2obj.py:42 | `strip("[]")` gives back a name that neither starts nor ends with a bracket |
| T2obj.PopBlanks | backend/app/app/parsers/T2obj.py:34-38 | the popping loop gives the specified trimming |
| T2obj.ParseSections | backend/app/app/parsers/T2obj.py:11-46 | the imperative loop gives the specified sections |
| M2obj.StemDatestr | backend/app/app/parsers/M2obj.py:29-30 | the stem fails with ValueError exactly when it is not two integers joined by "-", otherwise only with IndexError for the month |
| M2obj.StemOfDay | backend/app/app/parsers/M2obj.py:29-30 | stem "M-D" gives "D <month name>" |
| M2obj.Kept | backend/app/app/parsers/M2obj.py:36-39 | the content is never longer than the lines and holds no "_" line |
| M2obj.KeptAppend | backend/app/app/parsers/M2obj.py:36-39 | the content of joined lines is the joined contents |
| M2obj.KeptOne | backend/app/app/parsers/M2obj.py:37-39 | a line is kept stripped unless it strips to "_" |
| M2obj.CollectContent | backend/app/app/parsers/M2obj.py:36-39 | the loop gives the specified content |
| M2obj.FirstMatch | backend/app/app/parsers/M2obj.py:63 | the leftmost position where `[0-9]+-[0-9]` matches, and None when there is none |
| M2obj.Search | backend/app/app/parsers/M2obj.py:63-65 | the day group is one digit |
| M2obj.MobileDatestr | backend/app/app/parsers/M2obj.py:62-74 | the only exception that escapes is KeyError, from an unknown special |
| M2obj.Fallback | backend/app/app/parsers/M2obj.py:67-74 | "Nativity" and "Defuncti" are skipped, "10-DU" becomes the Christ the King rule, any other name is kept |
| M2obj.MobileGroups | backend/app/app/parsers/M2obj.py:63-65 | `<special><week>-<day>` splits into its three groups |
| M2obj.MobileRoundTrip | backend/app/app/parsers/M2obj.py:63-66 | a section named by a special, a week below 26 and a day below 8 becomes "<ordinal> <day> after <special>" |
| M2obj.DigitsEndAt | backend/app/app/parsers/M2obj.py:63 | `[0-9]+` ends at the first non-digit |
| M2obj.FirstMatchAt | backend/app/app/parsers/M2obj.py:63 | the search finds the first digit run that matches |
| M2obj.NoDigitFallsBack | backend/app/app/parsers/M2obj.py:67-74 | a name without digits takes the fallback |
| M2obj.FixedNames | backend/app/app/parsers/M2obj.py:68-73 | Nativity and Defuncti are skipped, 10-DU is Christ the King |
| M2obj.OutOfRangeKeepsName | backend/app/app/parsers/M2obj.py:66-74 | a week or day beyond the tables is an IndexError that takes the fallback |
| M2obj.MobileEntries | backend/app/app/parsers/M2obj.py:59-77 | at most one entry per section; the only exception is KeyError |
| M2obj.MobileContents | backend/app/app/parsers/M2obj.py:61-76 | every entry is the content of some section under that section's datestr |
| M2obj.CollectMobile | backend/app/app/parsers/M2obj.py:59-77 | the loop gives the specified entries |
| M2obj.MobileLastDropped | backend/app/app/parsers/M2obj.py:56-57 | the mobile file inherits the dropping of its last section |
| M2obj.FixedDay | backend/app/app/parsers/M2obj.py:29-40 | a day file gives its datestr, its first line stripped as the Julian date, and its lines from the third on as content |
| M2obj.ParseMobileFile | backend/app/app/parsers/M2obj.py:43-77 | it gives the specified mobile entries |
| M2obj.ParseFile | backend/app/app/parsers/M2obj.py:13-40 | it gives the specified day or mobile result |
| OfficiumM2obj.Infos | src/officiumdivinum/parsers/M2obj.py:83 | each entry becomes one MartyrologyInfo with its date and content, in order |
| OfficiumM2obj.InfosSnoc | src/officiumdivinum/parsers/M2obj.py:83 | appending an entry appends its info |
| OfficiumM2obj.MobileInfos | src/officiumdivinum/parsers/M2obj.py:50-84 | the mobile file gives the same entries as the backend copy, as MartyrologyInfo objects, and the same KeyError |
| OfficiumM2obj.SameDay | src/officiumdivinum/parsers/M2obj.py:32-47 | a day file succeeds exactly when the backend copy does and gives a Martyrology of the same datestr, Julian date and content |
| OfficiumM2obj.CollectInfos | src/officiumdivinum/parsers/M2obj.py:66-84 | the loop gives the backend copy's entries as infos |
| OfficiumM2obj.ParseFile | src/officiumdivinum/parsers/M2obj.py:19-47 | it gives the specified result |
| Dsl.Advent | backend/app/app/DSL/dsl_parser.py:61 | Advent is a valid date or the date overflow `relativedelta` would raise |
| Dsl.AdventBounds | backend/app/app/DSL/dsl_parser.py:61 | November 27th and December 3rd are 28 and 22 days before Christmas |
| Dsl.AdventDayNumber | backend/app/app/DSL/dsl_parser.py:61 | Advent is the Sunday on or after four weeks before Christmas |
| Dsl.Christmas | backend/app/app/DSL/dsl_parser.py:63 | Christmas is December 25th, a valid date |
| Dsl.Epiphany | backend/app/app/DSL/dsl_parser.py:62 | Epiphany is January 6th, a valid date |
| Dsl.Lent | backend/app/app/DSL/dsl_parser.py:60 | Lent is a valid date or the date overflow |
| Dsl.Septuagesima | backend/app/app/DSL/dsl_parser.py:64-65 | Septuagesima is a valid date or the date overflow |
| Dsl.Pentecost | backend/app/app/DSL/dsl_parser.py:66 | Pentecost is a valid date or the date overflow |
| Dsl.EasterFixture | backend/app/app/DSL/dsl_parser.py:127-128 | Easter 2020 is April 12th |
| Dsl.LentFixture | backend/app/app/DSL/dsl_parser.py:60 | Lent 2020 is March 1st |
| Dsl.SeptuagesimaFixture | backend/app/app/DSL/dsl_parser.py:64-65 | Septuagesima 2020 is February 9th |
| Dsl.DayNumbers2020 | backend/app/app/DSL/dsl_parser.py:60-65 | the day numbers of March 1st and February 9th, 2020 |
| Dsl.EasterDayNumber2020 | backend/app/app/DSL/dsl_parser.py:59 | the day number of Easter 2020 |
| Dsl.DayNumberOfDate | backend/app/app/DSL/dsl_parser.py:92-95 | two valid dates with the same day number are the same date |
| Dsl.EasterRoom | backend/app/app/DSL/dsl_parser.py:60-66 | nine weeks before and seven weeks after Easter stay within the dates Python can represent |
| Dsl.FourWeeksBack | backend/app/app/DSL/dsl_parser.py:61 | `weeks=-4, weekday=SU` from a date far enough past the first date is the Sunday on or after 28 days before |
| Dsl.ShiftSunday | backend/app/app/DSL/dsl_parser.py:60-66 | from a Sunday, n weeks and `weekday=SU` move exactly 7n days and land on a Sunday |
| Dsl.SundayWeeks | backend/app/app/DSL/dsl_parser.py:60-66 | whole weeks keep a Sunday a Sunday |
| Dsl.SnapWeeks | backend/app/app/DSL/dsl_parser.py:111-119 | moving by whole weeks commutes with snapping to a weekday |
| Dsl.SameOrdinalIff | backend/app/app/DSL/dsl_parser.py:114 | `delta == d` is equality of day numbers |
| Dsl.DayWeekday | backend/app/app/DSL/dsl_parser.py:56 | each day name has a weekday number |
| Dsl.NextStrictly | backend/app/app/DSL/dsl_parser.py:112-117 | the weekday strictly after the date, valid or the date overflow |
| Dsl.Relative | backend/app/app/DSL/dsl_parser.py:99-119 | the timedelta rule gives a valid date or the date overflow |
| Dsl.BetweenAction | backend/app/app/DSL/dsl_parser.py:90-96 | the between action emits its text and ends where its match does |
| Dsl.TimedeltaAction | backend/app/app/DSL/dsl_parser.py:99-119 | the timedelta action emits its date and ends where its match does |
| Dsl.BetweenSyntax | backend/app/app/DSL/dsl_parser.py:187-193 | a between match reads a day name and two isodates |
| Dsl.TimedeltaSyntax | backend/app/app/DSL/dsl_parser.py:175-180 | a timedelta match reads a day name and an isodate |
| Dsl.HeadAt | backend/app/app/DSL/dsl_parser.py:176-177 | an optional ordinal and a day name, both from their tables |
| Dsl.BetweenAt | backend/app/app/DSL/dsl_parser.py:187-195 | a between match consumes at least one character and stays in the text |
| Dsl.TimedeltaAt | backend/app/app/DSL/dsl_parser.py:175-181 | a timedelta match consumes at least one character and stays in the text |
| Dsl.OperandAt | backend/app/app/DSL/dsl_parser.py:223 | an operand, an isodate or "False", consumes at least one character |
| Dsl.BinaryAt | backend/app/app/DSL/dsl_parser.py:223-234 | a binary expression consumes at least one character |
| Dsl.OpAt | backend/app/app/DSL/dsl_parser.py:223-238 | an OR or AND match consumes at least one character |
| Dsl.GroupAt | backend/app/app/DSL/dsl_parser.py:158-238 | every group of a pass consumes at least one character |
| Dsl.Repeat | backend/app/app/DSL/dsl_parser.py:160-225 | `expr[...]` consumes at least one character when it matches |
| Dsl.MatchAt | backend/app/app/DSL/dsl_parser.py:160-238 | a pass matches forward and within the text |
| Dsl.SpecialAt | backend/app/app/DSL/dsl_parser.py:158-159 | a special name matched consumes at least one character |
| Dsl.YearlessAt | backend/app/app/DSL/dsl_parser.py:164-167 | a yearless date matched consumes at least one character |
| Dsl.SkipWs | backend/app/app/DSL/dsl_parser.py:164 | pyparsing skips exactly the leading whitespace |
| Dsl.WordAt | backend/app/app/DSL/dsl_parser.py:158 | `oneOf` tries the words in order and takes the first that occurs at the position |
| Dsl.IsoText | backend/app/app/DSL/dsl_parser.py:172 | the isodate regex matches ten characters of the isodate shape |
| Dsl.DigitsEnd | backend/app/app/DSL/dsl_parser.py:164 | `Word(nums)` takes the whole digit run |
| Dsl.NoWordAt | backend/app/app/DSL/dsl_parser.py:158 | no word matches where none of their first letters is |
| Dsl.NotInDateText | backend/app/app/DSL/dsl_parser.py:199 | text of digits, dashes and spaces contains no keyword |
| Dates.Format | backend/app/app/DSL/dsl_parser.py:159 | `str(date)` has the isodate shape |
| Dates.ParseIso | backend/app/app/DSL/dsl_parser.py:92-93 | `date.fromisoformat` gives a valid date or fails |
| Dates.Weekday | backend/app/app/DSL/dsl_parser.py:95 | a weekday is a number from 0 to 6 |
| Dates.EasterOrdinal | backend/app/app/DSL/dsl_parser.py:59 | the day number of Easter from the computus offset |
| Dates.EdgeLimits | backend/app/app/DSL/dsl_parser.py:92-93 | a valid date has a day number from 1 to that of December 31st, 9999 |
| Dates.MaxOrdinalIsLastDate | backend/app/app/DSL/dsl_parser.py:92-93 | the last day number Python represents is that of December 31st, 9999 |
| Structures.NewRankFirst | backend/app/app/parsers/divinumofficium_structures.py:78-87 | "i. classis" is at position 6 of the new rank table |
| Structures.NewRankSecond | backend/app/app/parsers/divinumofficium_structures.py:78-87 | "ii. classis" is at position 5 |
| Structures.NewRankThird | backend/app/app/parsers/divinumofficium_structures.py:78-87 | "iii. classis" is at position 2 |
| Tables.OrdinalSpelledAt | backend/app/app/DSL/util.py:16-43 | each of the 26 ordinals is its number followed by "st", "nd", "rd" or "th" |
| Tables.OrdinalWordDecimal | backend/app/app/DSL/util.py:16-43 | the spelled ordinal of a number below 100 is its decimal text and its suffix |
| Tables.IndexOfAt | backend/app/app/DSL/util.py:16-43 | `.index` finds the first occurrence |
| Tables.IndexOfDistinct | backend/app/app/DSL/util.py:16-43 | in a table without repeats `.index` gives back each position |
| Kalendarium.Groups | backend/app/app/parsers/kalendarium.py:48 | each written feast renders as its name and the decimal text of its rank |
| Version1960.Lengths | backend/app/app/versions/version_1960.py:33-38 | the sort key of each martyrology is its total length |
| Version1960.PartsOf | backend/app/app/versions/version_1960.py:33-38 | the parts of each martyrology, in order |
| Version1960.SumLengthsAround | backend/app/app/versions/version_1960.py:33-38 | the total length splits around any one visited martyrology |
| Sorting.TailsAgree | backend/app/app/versions/version_1960.py:36 | two permutations with the same head have permuted tails |
| Chickenfeed.FirstWord | backend/app/app/parsers/chickenfeed.py:66 | the leftmost position where `[A-Z][a-z]+[0-9]` starts, and None when there is none |
| Chickenfeed.CapitalWord | backend/app/app/parsers/chickenfeed.py:66 | the week group that `([A-Z][a-z]+)([0-9]+)` finds is a nonempty run of digits |
| Chickenfeed.TemporalWeek | backend/app/app/parsers/chickenfeed.py:61-66 | reading the reference and the week fails only with AttributeError, when the regex finds nothing |
| Chickenfeed.FirstDigit | backend/app/app/parsers/chickenfeed.py:70 | the leftmost digit at or after a position, and None when there is none |
| Chickenfeed.TemporalDay | backend/app/app/parsers/chickenfeed.py:67-70 | reading the day fails only with AttributeError; a qualified day is one digit and its qualifiers are not empty |
| Chickenfeed.ReferenceDate | backend/app/app/parsers/chickenfeed.py:72-76 | a reference that is not an integer succeeds exactly when it is a known special; the failures are IndexError and KeyError |
| Chickenfeed.SundayRule | backend/app/app/parsers/chickenfeed.py:77-81 | a week below 26 and a day below 8 give "<ordinal> Sun after <reference>" with "<day> after " in front unless the day is 0; out-of-range values are IndexError |
| Chickenfeed.ExtractTemporal | backend/app/app/parsers/chickenfeed.py:53-83 | a stem that is not two parts joined by "-" gives None; any rule found is for a Feria |
| Chickenfeed.MonthWeek | backend/app/app/parsers/chickenfeed.py:61-64 | a numeric part splits into the month and its last digit as the week |
| Chickenfeed.SpecialWeek | backend/app/app/parsers/chickenfeed.py:65-66 | a capitalised word followed by digits splits into the word and the week |
| Chickenfeed.NotIntUpper | backend/app/app/parsers/chickenfeed.py:62 | text starting with a capital letter is not an integer |
| Chickenfeed.StripStartsAt | backend/app/app/parsers/chickenfeed.py:70 | stripping keeps a first character that is not a space |
| Chickenfeed.LowersEndAt | backend/app/app/parsers/chickenfeed.py:66 | the run of lower-case letters ends where the first other character is |
| Chickenfeed.QualifiedDay | backend/app/app/parsers/chickenfeed.py:67-70 | a digit followed by qualifiers gives that day and those qualifiers |
| Chickenfeed.StemOf | backend/app/app/parsers/chickenfeed.py:53-83 | a stem whose parts read cleanly gives the Feria rule "<day> after <ordinal> Sun after <reference>" |
| Chickenfeed.PlainDay | backend/app/app/parsers/chickenfeed.py:67-68 | a numeric day reads as itself with no qualifiers |
| Chickenfeed.MonthStem | backend/app/app/parsers/chickenfeed.py:53-83 | a stem "<month><week>-<day>" gives the rule counted from the first of that month |
| Chickenfeed.MonthStemParts | backend/app/app/parsers/chickenfeed.py:58-73 | each part of a month stem reads as its month, week and day |
| Chickenfeed.SpecialStem | backend/app/app/parsers/chickenfeed.py:53-83 | a stem "<special><week>-<day>" gives the rule counted from that special date |
| Chickenfeed.StemParts | backend/app/app/parsers/chickenfeed.py:58 | two parts without "-" joined by "-" split back into those parts |
| Chickenfeed.FindLast | backend/app/app/parsers/chickenfeed.py:145 | the last occurrence in a range, which is where the greedy `(.*)` of `/:(.*):/` ends |
| Chickenfeed.IsRubric | backend/app/app/parsers/chickenfeed.py:144-149 | a line starting "!" is a rubric of the rest and empty content; a line starting with neither "!" nor "/:" is no rubric; both parts are stripped |
| Chickenfeed.RubricAndContent | backend/app/app/parsers/chickenfeed.py:145-148 | `/:rubric:/content` gives the stripped rubric and content |
| Chickenfeed.LastMarker | backend/app/app/parsers/chickenfeed.py:145 | the rubric ends at the last ":/" |
| Chickenfeed.FindLastAt | backend/app/app/parsers/chickenfeed.py:145 | the search of the last occurrence finds it |
| Chickenfeed.FirstGuess | backend/app/app/parsers/chickenfeed.py:191-193 | the first key, in table order, contained in the section name |
| Chickenfeed.GuessSectionObj | backend/app/app/parsers/chickenfeed.py:182-198 | the loop gives the specified guess |
| Chickenfeed.GuessAt | backend/app/app/parsers/chickenfeed.py:191-193 | the first key found decides, whatever the number of verses |
| Chickenfeed.SectionGuessByName | backend/app/app/parsers/chickenfeed.py:182-198 | with no key in the name a section of more than one verse is a list and any other is nothing; a section is a feast exactly when "Rank" is its first key found |
| Chickenfeed.MatinsAntiphonsAreList | backend/app/app/parsers/chickenfeed.py:185 | "Ant Matutinum" without "Invit" is a list, even though it contains "Ant " |
| Chickenfeed.StripContent | backend/app/app/parsers/chickenfeed.py:201-206 | the result is stripped, and is the stripped content when it does not start "v. " |
| Chickenfeed.VerseMarkerDropped | backend/app/app/parsers/chickenfeed.py:203-204 | "v. " in front of stripped text is dropped |
| Chickenfeed.MarkRestNothing | backend/app/app/parsers/chickenfeed.py:211 | text in which " r" occurs nowhere is not changed |
| Chickenfeed.MarkupPlain | backend/app/app/parsers/chickenfeed.py:209-212 | text that does not start with "r" and in which " r" occurs nowhere is not changed |
| Chickenfeed.MarkupInitial | backend/app/app/parsers/chickenfeed.py:210 | "r. " and the next character become that character between "::" |
| Chickenfeed.CitationEnd | backend/app/app/parsers/chickenfeed.py:216 | a citation ` [0-9]+:[0-9]+-[0-9]+` ends after its start |
| Chickenfeed.FirstCitation | backend/app/app/parsers/chickenfeed.py:216 | the lazy group ends at the first citation |
| Chickenfeed.IsReference | backend/app/app/parsers/chickenfeed.py:215-217 | content without "!" is no reference |
| Chickenfeed.Citation | backend/app/app/parsers/chickenfeed.py:216 | "!<book> <c>:<f>-<l>" is a reference to the book and the citation |
| Chickenfeed.MarkedCitation | backend/app/app/parsers/chickenfeed.py:216 | a citation that ends the text gives everything after the "!" |
| Chickenfeed.CitationAfterBook | backend/app/app/parsers/chickenfeed.py:216 | the first citation after the book is the one written after it |
| Chickenfeed.ReferenceAt | backend/app/app/parsers/chickenfeed.py:216 | the reference is the text from after the first "!" to the end of the first citation |
| Chickenfeed.NoCitationInBook | backend/app/app/parsers/chickenfeed.py:216 | a book name without a space before a digit holds no citation |
| Chickenfeed.CitationAt | backend/app/app/parsers/chickenfeed.py:216 | a written citation matches exactly |
| Chickenfeed.DigitsIn | backend/app/app/parsers/chickenfeed.py:216 | `[0-9]+` takes the whole digit run |
| Chickenfeed.DigitsRun | backend/app/app/parsers/chickenfeed.py:216 | the digit run ends at the first non-digit |
| Chickenfeed.FirstCitationAt | backend/app/app/parsers/chickenfeed.py:216 | the search of the first citation finds it |
| Chickenfeed.FirstReference | backend/app/app/parsers/chickenfeed.py:234-237 | the reference of the first candidate that has one, and None when none has |
| Chickenfeed.GuessVerse | backend/app/app/parsers/chickenfeed.py:220-248 | only an empty verse outside a hymn fails, with IndexError at `verse[0]`; a reference comes only with a reading, from one of its first two lines |
| Chickenfeed.VersicleOrPrayer | backend/app/app/parsers/chickenfeed.py:226-230 | outside a hymn a verse with a versicle line is a versicle when the versicle comes first, otherwise a prayer |
| Chickenfeed.ReadingReference | backend/app/app/parsers/chickenfeed.py:232-237 | a lesson whose first line is a reference is a reading with that reference |
| Chickenfeed.FirstSigil | backend/app/app/parsers/chickenfeed.py:258 | the first "&" or "$", and None when there is neither |
| Chickenfeed.CallLikeMeans | backend/app/app/parsers/chickenfeed.py:253 | a key matches `.+\(.+\)` exactly when it has "(" after its first character and ")" later with a character between |
| Chickenfeed.ReplaceLine | backend/app/app/parsers/chickenfeed.py:257-277 | a replaced line becomes a truthy value of the replacements; a kept line is the line itself |
| Chickenfeed.ReplaceVerse | backend/app/app/parsers/chickenfeed.py:251-279 | a verse that succeeds has one piece per line, each the replacement of its line |
| Chickenfeed.ReplaceVerseFails | backend/app/app/parsers/chickenfeed.py:251-279 | the verse fails exactly when one of its lines does |
| Chickenfeed.ReplaceVerseFirstError | backend/app/app/parsers/chickenfeed.py:251-279 | the error raised is that of the first failing line |
| Chickenfeed.NothingToReplace | backend/app/app/parsers/chickenfeed.py:258-277 | a verse without "&" or "$" is kept as it is |
| Chickenfeed.ReplaceLines | backend/app/app/parsers/chickenfeed.py:251-279 | the loop gives the specified pieces |
| Chickenfeed.MatchEnd | backend/app/app/parsers/chickenfeed.py:99-104 | a qualifier pattern matches its literal and then any digits it allows |
| Chickenfeed.Search | backend/app/app/parsers/chickenfeed.py:106 | the leftmost match of a qualifier pattern |
| Chickenfeed.RemoveMatches | backend/app/app/parsers/chickenfeed.py:108 | removing the matches never lengthens the text |
| Chickenfeed.OfficeToken | backend/app/app/parsers/chickenfeed.py:118 | the office found starts with the office's name |
| Chickenfeed.DropLast | backend/app/app/parsers/chickenfeed.py:131 | `(.*)M(.*)` removes exactly one "M" when there is one |
| Chickenfeed.LastDigit | backend/app/app/parsers/chickenfeed.py:135 | the greedy `(.*)[0-9]` removes the last digit |
| Chickenfeed.SpecialContext | backend/app/app/parsers/chickenfeed.py:90-97 | a file kind not in the table raises KeyError |
| Chickenfeed.MultiwordTitle | backend/app/app/parsers/chickenfeed.py:123-127 | the title is "versum 2" or not set |
| Chickenfeed.Monastic | backend/app/app/parsers/chickenfeed.py:129-131 | the version is ["monastic"] or not set |
| Chickenfeed.NumberedHymn | backend/app/app/parsers/chickenfeed.py:133-135 | at most one qualifier is added, and it starts "Hymnus" |
| Chickenfeed.ExtractSection | backend/app/app/parsers/chickenfeed.py:86-141 | the only exception is KeyError, from an unknown special file |
| Chickenfeed.QualifierLoop | backend/app/app/parsers/chickenfeed.py:99-108 | the loop gives the specified qualifiers and name |
| Chickenfeed.DayLoop | backend/app/app/parsers/chickenfeed.py:110-114 | the loop gives the specified qualifiers and name |
| Chickenfeed.PatternsNamed | backend/app/app/parsers/chickenfeed.py:99-104 | each qualifier pattern and each office name is nonempty |
| Chickenfeed.OfficeLoop | backend/app/app/parsers/chickenfeed.py:116-121 | the loop gives the specified context and name |
| Chickenfeed.ExtractSectionInformation | backend/app/app/parsers/chickenfeed.py:86-141 | the imperative steps give the specified section information |
| Chickenfeed.QualifiersFound | backend/app/app/parsers/chickenfeed.py:105-108 | qualifiers are only appended, each starting with the literal of one of the patterns |
| Chickenfeed.PatternMarker | backend/app/app/parsers/chickenfeed.py:99-104 | a qualifier of a pattern is a qualifier marker |
| Chickenfeed.DaysFound | backend/app/app/parsers/chickenfeed.py:110-114 | day qualifiers are only appended, each one a day name |
| Chickenfeed.OfficeFound | backend/app/app/parsers/chickenfeed.py:116-121 | the context is the file's or is replaced by one lower-cased office |
| Chickenfeed.FilenameContextLower | backend/app/app/parsers/chickenfeed.py:90-95 | the contexts of the special files are lower case |
| Chickenfeed.SectionShape | backend/app/app/parsers/chickenfeed.py:86-141 | the version is monastic or not set, the title and the contexts are lower case, and every qualifier is a marker such as Day, Adv, Quad, Pasch, Dominica, Feria or Hymnus |
| Chickenfeed.QualifiersMarked | backend/app/app/parsers/chickenfeed.py:99-114 | all qualifiers found by the two loops are markers |
| Chickenfeed.ContextLower | backend/app/app/parsers/chickenfeed.py:116-121 | the office loop keeps the context lower case |
| Chickenfeed.FinishShape | backend/app/app/parsers/chickenfeed.py:123-141 | the last steps keep the qualifiers markers and give a lower-case title |
| Chickenfeed.SpecialFile | backend/app/app/parsers/chickenfeed.py:90-97 | "<kind> Special…" takes the contexts of that file kind |
| Chickenfeed.NotSpecial | backend/app/app/parsers/chickenfeed.py:96 | other files give no context |
| Chickenfeed.NoMatch | backend/app/app/parsers/chickenfeed.py:106 | a pattern whose literal is absent does not match |
| Chickenfeed.NoQualifiers | backend/app/app/parsers/chickenfeed.py:105-108 | a name without any qualifier is left alone |
| Chickenfeed.NoDays | backend/app/app/parsers/chickenfeed.py:110-114 | a name without a day name is left alone |
| Chickenfeed.NoOffices | backend/app/app/parsers/chickenfeed.py:116-121 | a name without an office is left alone |
| Chickenfeed.PlainSection | backend/app/app/parsers/chickenfeed.py:86-141 | a plain name outside special files is only stripped and lower-cased into the title |
| Chickenfeed.AbsentInitial | backend/app/app/parsers/chickenfeed.py:106 | a word whose first letter is absent does not occur |
| Chickenfeed.RemoveNothing | backend/app/app/parsers/chickenfeed.py:108 | removing a pattern that does not occur changes nothing |
| Chickenfeed.AbsentFrom | backend/app/app/parsers/chickenfeed.py:106 | a word whose first letter is absent does not occur after a position |
| Chickenfeed.MatinsHymn | backend/app/app/parsers/chickenfeed.py:86-141 | "Day0 Hymnus" in "Matutinum Special" gives qualifier Day0, context matutinum and title "hymnus" |
| Chickenfeed.MatinsHymnQualifiers | backend/app/app/parsers/chickenfeed.py:99-108 | the qualifier loop takes "Day0" and leaves "Hymnus" |
| Chickenfeed.MatinsHymnRest | backend/app/app/parsers/chickenfeed.py:108 | the other patterns do not occur in "Hymnus" |
| Chickenfeed.OnlyFirstQualifier | backend/app/app/parsers/chickenfeed.py:105-108 | only the first pattern adds a qualifier when the others are absent from what remains |
| Chickenfeed.MatinsHymnDay | backend/app/app/parsers/chickenfeed.py:100 | `Day[0-9]` matches "Day0" at the start |
| Chickenfeed.QualifierFound | backend/app/app/parsers/chickenfeed.py:106-108 | a pattern that matches adds its match and removes it from the name |
| Chickenfeed.MatinsHymnLoops | backend/app/app/parsers/chickenfeed.py:110-121 | the day and office loops leave "Hymnus" alone |
| Chickenfeed.MatinsHymnFinish | backend/app/app/parsers/chickenfeed.py:123-141 | the last steps give title "hymnus" |
| Chickenfeed.HymnusUnnumbered | backend/app/app/parsers/chickenfeed.py:133 | "Hymnus" without a digit is not a numbered hymn |
| Chickenfeed.FinishPlain | backend/app/app/parsers/chickenfeed.py:123-141 | a name without those marks only becomes the lower-cased title |
| Chickenfeed.MonasticExactly | backend/app/app/parsers/chickenfeed.py:123-131 | the version is ["monastic"] exactly when the name the hour loop leaves holds an "M", and is not set otherwise; cutting "Versum 2" removes no "M" |
| Chickenfeed.MonasticMatinsHymn | backend/app/app/parsers/chickenfeed.py:86-141 | "Day0 Hymnus1M" in "Matutinum Special" gives qualifiers Day0 and Hymnus1, context matutinum, title "hymnus" and version ["monastic"] |
| Chickenfeed.MonasticHymnQualifiers | backend/app/app/parsers/chickenfeed.py:99-108 | the qualifier loop takes "Day0" and leaves "Hymnus1M" |
| Chickenfeed.MonasticHymnDay | backend/app/app/parsers/chickenfeed.py:100 | `Day[0-9]` matches "Day0" at the start of "Day0 Hymnus1M" |
| Chickenfeed.MonasticHymnStrip | backend/app/app/parsers/chickenfeed.py:108 | stripping " Hymnus1M" leaves "Hymnus1M" |
| Chickenfeed.MonasticHymnRest | backend/app/app/parsers/chickenfeed.py:108 | the other patterns do not occur in "Hymnus1M" |
| Chickenfeed.MonasticHymnLoops | backend/app/app/parsers/chickenfeed.py:110-121 | the day and office loops leave "Hymnus1M" alone |
| Chickenfeed.MonasticHymnNoHour | backend/app/app/parsers/chickenfeed.py:116 | no hour name occurs in "Hymnus1M" |
| Chickenfeed.AbsentNearEnd | backend/app/app/parsers/chickenfeed.py:116 | a word whose first letter appears only too near the end does not occur |
| Chickenfeed.MonasticHymnFinish | backend/app/app/parsers/chickenfeed.py:123-141 | the last steps turn "Hymnus1M" into title "hymnus", add Hymnus1 and set the monastic version |
| Chickenfeed.MonasticHymnus | backend/app/app/parsers/chickenfeed.py:129-131 | "Hymnus1M" is monastic and loses its last "M" |
| Chickenfeed.NumberedHymnus | backend/app/app/parsers/chickenfeed.py:133-135 | "Hymnus1" adds the qualifier Hymnus1 and leaves "Hymnus" |
| Text.DeleteKeepsChar | backend/app/app/parsers/chickenfeed.py:127 | deleting a text that does not hold a character keeps exactly the occurrences of that character |
| Text.StripKeepsChar | backend/app/app/parsers/chickenfeed.py:127 | `strip()` keeps exactly the non-whitespace characters there were |
| ParserUtil.LineEnd | backend/app/app/parsers/util.py:92 | the end of the line a position is on: `.` never crosses a newline |
| ParserUtil.LineEndAt | backend/app/app/parsers/util.py:92 | the line end is found where the first newline is |
| ParserUtil.SpanAt | backend/app/app/parsers/util.py:92 | the greedy `\[(.*)\]` from a "[" ends at the last "]" of that line |
| ParserUtil.SearchSpan | backend/app/app/parsers/util.py:92 | the leftmost "[" that has a "]" after it on its line |
| ParserUtil.GuessSectionHeader | backend/app/app/parsers/util.py:145-160 | the header regex is `#(.*)` exactly when the file name contains "Ordinarium", otherwise `\[(.*)\]` |
| ParserUtil.HeaderAbsent | backend/app/app/parsers/util.py:92-93 | a line has no `#` header exactly when it has no "#", and no bracketed header exactly when every "[" … "]" pair has a newline between |
| ParserUtil.BracketsApart | backend/app/app/parsers/util.py:92 | when the search fails, no "[" has a "]" after it on the same line |
| ParserUtil.BracketedName | backend/app/app/parsers/util.py:92-101 | `[name]` is the header of that name |
| ParserUtil.HashedName | backend/app/app/parsers/util.py:92-101 | `#name` is the header of that name |
| ParserUtil.MarkLetters | backend/app/app/parsers/util.py:84 | a bracketed lower-case letter at the start becomes the mark, any other first character is kept |
| ParserUtil.MarkLettersGone | backend/app/app/parsers/util.py:84 | no bracketed lower-case letter survives the substitution |
| ParserUtil.MarkLettersKeeps | backend/app/app/parsers/util.py:84 | a line without one is not changed |
| ParserUtil.StripNoMark | backend/app/app/parsers/util.py:84-85 | stripping does not bring one back |
| ParserUtil.CleanedLine | backend/app/app/parsers/util.py:84-85 | every line the loop sees is stripped and free of bracketed letters |
| ParserUtil.Flatten | backend/app/app/parsers/util.py:39-41 | the flattened section holds exactly the lines of its verses |
| ParserUtil.NeverValid | backend/app/app/parsers/util.py:32-47 | no section is ever valid: `is_rubric` returns a nonempty list or the pair `(None, None)`, which are both true |
| ParserUtil.ValidateSection | backend/app/app/parsers/util.py:32-47 | the loop gives the specified validity |
| ParserUtil.NonBlankKeeps | backend/app/app/parsers/util.py:87 | the filter keeps exactly the lines that are not blank |
| ParserUtil.Events | backend/app/app/parsers/util.py:80-92 | one event per line, each numbered by its line's position in the file |
| ParserUtil.Sections | backend/app/app/parsers/util.py:50-114 | only an empty file fails, with IndexError at `lines[0]` |
| ParserUtil.LastSectionDropped | backend/app/app/parsers/util.py:107-114 | the section still open at the end of the file is never stored, since it is never valid |
| ParserUtil.RunAppend | backend/app/app/parsers/util.py:80-105 | reading two runs of lines one after the other is reading them joined |
| ParserUtil.RunNoHeader | backend/app/app/parsers/util.py:80-105 | lines without a header store nothing and keep the current section |
| ParserUtil.LeadingDiscarded | backend/app/app/parsers/util.py:67-105 | lines before the first header are discarded |
| ParserUtil.TrailingKept | backend/app/app/parsers/util.py:80-105 | lines after the last header leave the stored sections alone |
| ParserUtil.Texts | backend/app/app/parsers/util.py:105 | text lines become text events in order |
| ParserUtil.RunTexts | backend/app/app/parsers/util.py:105 | text lines are appended to the open verse |
| ParserUtil.NonBlankAll | backend/app/app/parsers/util.py:87 | a verse without blank lines is kept whole |
| ParserUtil.OneSection | backend/app/app/parsers/util.py:92-103 | a header, one verse and a next header store exactly that section with that verse |
| ParserUtil.ClassifyPending | backend/app/app/parsers/util.py:84-105 | every text line is cleaned, not "_", not a header, and keeps its line number |
| ParserUtil.EventsClassified | backend/app/app/parsers/util.py:80-105 | every line of the file is classified that way |
| ParserUtil.FlushGood | backend/app/app/parsers/util.py:87-89 | closing a verse adds only a nonempty verse of nonblank lines |
| ParserUtil.PutStored | backend/app/app/parsers/util.py:99 | storing a well-formed section keeps the sections well formed |
| ParserUtil.StepGood | backend/app/app/parsers/util.py:84-105 | each line keeps the state well formed: nonempty verses of nonblank, cleaned lines under nonempty names |
| ParserUtil.RunGood | backend/app/app/parsers/util.py:80-105 | the whole loop keeps it so |
| ParserUtil.SectionsStored | backend/app/app/parsers/util.py:50-114 | every stored section is well formed when the linked file's are |
| ParserUtil.StepLine | backend/app/app/parsers/util.py:84-105 | one pass of the loop body gives the specified step |
| ParserUtil.ParseDOSections | backend/app/app/parsers/util.py:50-114 | the imperative parse gives the specified sections |
| ParserUtil.LineLoop | backend/app/app/parsers/util.py:80-105 | the loop gives the specified run of events |
| ParserUtil.StoreLast | backend/app/app/parsers/util.py:107-112 | the last step gives the specified final sections |
| ParserUtil.CommemorationBase | backend/app/app/parsers/util.py:167 | the base starts with "@", ends with ":" and lies on one line |
| ParserUtil.CommemorationLinks | backend/app/app/parsers/util.py:163-168 | it fails with AttributeError exactly when there is no base; otherwise there are four links, all starting with the base |
| ParserUtil.OratioLinks | backend/app/app/parsers/util.py:163-168 | a link `@target:part` gives the links to Ant 1, Versum 1, Ant 2 and Versum 2 of the target |
| Deref.LinkAt | backend/app/app/parsers/deref.py:21 | the lazy `@(.*?):` ends at the first ":" of the line |
| Deref.SearchLink | backend/app/app/parsers/deref.py:21 | the leftmost "@" followed by a ":" on its line |
| Deref.LinkGroups | backend/app/app/parsers/deref.py:21 | the file group holds no ":" and neither group crosses a line |
| Deref.BeforeSubstitution | backend/app/app/parsers/deref.py:22-23 | the text before the first ":s/", and None exactly when there is none |
| Deref.LastRange | backend/app/app/parsers/deref.py:24-25 | the last ":" followed by a digit |
| Deref.WithoutRange | backend/app/app/parsers/deref.py:24-25 | the part with its line range cut is a prefix of it |
| Deref.WithoutColon | backend/app/app/parsers/deref.py:26 | exactly one trailing ":" is dropped |
| Deref.TargetOf | backend/app/app/parsers/deref.py:30-37 | a link with "/" names a file two levels up; one without names the file it was read from |
| Deref.Unlinked | backend/app/app/parsers/deref.py:27-29 | the `except` branch gives no part |
| Deref.Deref | backend/app/app/parsers/deref.py:8-37 | there is no part exactly when there is no `@…:` or the part has "s/" but no ":s/"; otherwise the file is the link's and the part is a prefix of what follows the ":" |
| Deref.PlainLink | backend/app/app/parsers/deref.py:8-37 | `@file:part` ending its line gives that file and that part |
| Deref.LinkSplit | backend/app/app/parsers/deref.py:21 | `@file:part` splits into the file and the part |
| Deref.RangeCut | backend/app/app/parsers/deref.py:24-25 | a range `:N` or `:N-M` after the part is cut |
| Deref.SubstitutionCut | backend/app/app/parsers/deref.py:22-23 | a substitution `:s/…` after the part is cut |
| Deref.NoLink | backend/app/app/parsers/deref.py:27-29 | with no `@…:` the link is the text without its "@"s, stripped, and holds no "@" |
| HymnVersion.FirstSuffix | backend/app/app/parsers/hymn.py:33-39 | the first stem suffix, in table order, the word ends with |
| HymnVersion.Suffixed | backend/app/app/parsers/hymn.py:43-45 | a version is found exactly when the word ends with one of the stem suffixes, and it is that suffix's version |
| HymnVersion.GuessVersion | backend/app/app/parsers/hymn.py:13-59 | without a suffix the answer is ("pius v", False); with one it is a stem's version and True; a string is judged by its first word, a path by its stem and then its directory |
| HymnVersion.FirstWordOnly | backend/app/app/parsers/hymn.py:44 | only the text before the first space is read |
| HymnVersion.StemFirst | backend/app/app/parsers/H2obj.py:51-53 | a suffixed stem decides before the directory is read |
| HymnVersion.MonasticDirectory | backend/app/app/parsers/H2obj.py:55-58 | a directory ending "M" makes an unsuffixed file monastic |
| HymnVersion.LastDiffers | backend/app/app/parsers/hymn.py:37 | a name ending "M" does not end with a suffix whose last letter differs |
| HymnVersion.Year1960 | backend/app/app/parsers/hymn.py:34 | a word ending "1960" is Pius V, since "1960" is the first stem tried |
| P2obj.VerseAt | backend/app/app/parsers/P2obj.py:19 | a match of `([0-9]+):([0-9]+) ` starting at a position: digits, ":", digits, a space |
| P2obj.SearchVerse | backend/app/app/parsers/P2obj.py:18-20 | the leftmost such match, and None when there is none |
| P2obj.VerseGroups | backend/app/app/parsers/P2obj.py:18-20 | chapter and verse number are nonempty digit runs and the verse text stays on its line |
| P2obj.CloseFrom | backend/app/app/parsers/P2obj.py:25 | the next ")" after a position |
| P2obj.ColonFrom | backend/app/app/parsers/P2obj.py:25 | the next ":" after a position |
| P2obj.SpaceFrom | backend/app/app/parsers/P2obj.py:25 | the next space after a position |
| P2obj.SeparatorAt | backend/app/app/parsers/P2obj.py:25 | the spaces, the "*" or ":" and the space after the name |
| P2obj.AkaEnd | backend/app/app/parsers/P2obj.py:25 | the lazy name group ends where a separator follows |
| P2obj.AkaAt | backend/app/app/parsers/P2obj.py:25 | a heading starting with "(" at a position |
| P2obj.SearchAka | backend/app/app/parsers/P2obj.py:24-26 | the leftmost heading |
| P2obj.CreedVerses | backend/app/app/parsers/P2obj.py:48-63 | one verse per line after the first, each with the first line as aka and no book |
| P2obj.Kinds | backend/app/app/parsers/P2obj.py:16-30 | each line is classified on its own |
| P2obj.ParseCreed | backend/app/app/parsers/P2obj.py:48-63 | an empty file raises IndexError; otherwise the creed verses |
| P2obj.ParseFile | backend/app/app/parsers/P2obj.py:9-45 | the loop gives the specified verses |
| P2obj.VerseLine | backend/app/app/parsers/P2obj.py:18-20 | "c:v text" splits into chapter, verse number and text |
| P2obj.VerseAtStart | backend/app/app/parsers/P2obj.py:19 | a verse number at the start matches there |
| P2obj.VerseGroupsAt | backend/app/app/parsers/P2obj.py:18-20 | the groups are cut at the ":" and the space, and the text runs to the end of the line |
| P2obj.VerseLineKind | backend/app/app/parsers/P2obj.py:18-20 | such a line is a psalm verse |
| P2obj.DigitsEndAt | backend/app/app/parsers/P2obj.py:19 | a digit run ends at the first non-digit |
| P2obj.HeadingLine | backend/app/app/parsers/P2obj.py:24-26 | "(aka * book c:v)" gives the aka and the book |
| P2obj.HeadingAt | backend/app/app/parsers/P2obj.py:24-26 | the same, for a line given in its two halves |
| P2obj.SplitAt | backend/app/app/parsers/P2obj.py:25 | a line splits back into its halves |
| P2obj.AkaGroupsAt | backend/app/app/parsers/P2obj.py:24-26 | the groups are cut where the heading match ends them |
| P2obj.HeadingKind | backend/app/app/parsers/P2obj.py:21-27 | a heading that is not a verse line is a heading |
| P2obj.HeadingTail | backend/app/app/parsers/P2obj.py:25 | the book ends at the first space |
| P2obj.HeadingName | backend/app/app/parsers/P2obj.py:25 | the name ends before the separator |
| P2obj.BookFound | backend/app/app/parsers/P2obj.py:25 | the book is found before the citation |
| P2obj.NoSeparatorInName | backend/app/app/parsers/P2obj.py:25 | no separator occurs inside the name |
| P2obj.AkaEndSkip | backend/app/app/parsers/P2obj.py:25 | the name group extends past characters that start no separator |
| P2obj.SpaceFromSkip | backend/app/app/parsers/P2obj.py:25 | the search for a space skips other characters |
| P2obj.ColonFound | backend/app/app/parsers/P2obj.py:25 | a ":" before a ")" is found |
| P2obj.CloseFound | backend/app/app/parsers/P2obj.py:25 | a ")" on the line is found |
| P2obj.PsalmVerses | backend/app/app/parsers/P2obj.py:35-44 | one verse per psalm line |
| P2obj.PsalmVersesAt | backend/app/app/parsers/P2obj.py:35-44 | each verse is made from its own line |
| P2obj.PsalmLines | backend/app/app/parsers/P2obj.py:16-45 | a run of psalm lines appends one verse per line |
| P2obj.PsalmFile | backend/app/app/parsers/P2obj.py:9-45 | a file of psalm lines gives one verse per line, of book "Psalm", no aka, prefixed by the stem and the verse number |
| P2obj.Abandoned | backend/app/app/parsers/P2obj.py:28-30 | a line that is neither a verse nor a heading abandons the verses read so far for the creed |
| P2obj.CreedFile | backend/app/app/parsers/P2obj.py:28-30 | a file with such a line is read as a creed |
| P2obj.HeadingThenVerse | backend/app/app/parsers/P2obj.py:24-44 | a heading sets the aka and the book for the verses after it |
| Dedup.Unique | backend/app/app/parsers/dedup.py:57-59 | `list(set(...))` keeps the same names without repeats |
| Dedup.FirstSame | backend/app/app/parsers/dedup.py:54-55 | the first remembered object equal to the object without its versions |
| Dedup.Joined | backend/app/app/parsers/dedup.py:57-59 | the kept object keeps its type and fields; its versions are the union of both, without repeats |
| Dedup.Tagged | backend/app/app/parsers/dedup.py:36-40 | each object of a thing carries the thing's index |
| Dedup.NonEmpty | backend/app/app/parsers/dedup.py:69 | exactly the kinds that hold objects are kept |
| Dedup.FindUnversioned | backend/app/app/parsers/dedup.py:54-62 | the loop finds the index of the first equal object |
| Dedup.StepObj | backend/app/app/parsers/dedup.py:41-67 | one pass over an object gives the specified step |
| Dedup.RunAppend | backend/app/app/parsers/dedup.py:36-67 | reading objects in two runs is reading them joined; an exception stops the run |
| Dedup.ObjLoop | backend/app/app/parsers/dedup.py:40-67 | the inner loop gives the specified run |
| Dedup.OuterStep | backend/app/app/parsers/dedup.py:36-40 | the outer loop moves from thing to thing |
| Dedup.Dedup | backend/app/app/parsers/dedup.py:15-71 | the imperative loops give the specified result |
| Dedup.NoEmptyKinds | backend/app/app/parsers/dedup.py:69-71 | no kind in the result is empty, and every kind that held objects is there |
| Dedup.KindKnown | backend/app/app/parsers/dedup.py:34 | every known kind starts empty |
| Dedup.GetIn | backend/app/app/parsers/dedup.py:56 | a key that is present has a value |
| Dedup.AppendGood | backend/app/app/parsers/dedup.py:63-67 | adding an object keeps the kinds and keeps the remembered objects and indexes in step |
| Dedup.MergeGood | backend/app/app/parsers/dedup.py:56-59 | merging versions never raises KeyError and keeps them in step |
| Dedup.StepGood | backend/app/app/parsers/dedup.py:41-67 | an object of a known type never raises KeyError and keeps the state in step |
| Dedup.RunGood | backend/app/app/parsers/dedup.py:36-67 | so does the whole loop |
| Dedup.KnownTypes | backend/app/app/parsers/dedup.py:43 | when every object's type is known, KeyError is never raised |
| Dedup.UnknownType | backend/app/app/parsers/dedup.py:43 | an object of an unknown type reached by the loop raises KeyError |
| Dedup.AppendRemembers | backend/app/app/parsers/dedup.py:63-67 | an added object is last in its kind, its unversioned copy and its position are remembered under its index, and other indexes are untouched |
| Dedup.Skipped | backend/app/app/parsers/dedup.py:45-47 | an object already kept is skipped |
| Dedup.KeptHeld | backend/app/app/parsers/dedup.py:45-47 | an object just added is skipped when it comes again |
| Dedup.RunAgain | backend/app/app/parsers/dedup.py:36-47 | reading an object a second time changes nothing |
| Dedup.Repeated | backend/app/app/tests/parsers/test_dedup.py:31-119 | the same object twice gives the same result as once |
| Dedup.FirstWithoutVersions | backend/app/app/parsers/dedup.py:49-66 | a first object without versions fails with an unbound local at `unversion` |
| Dedup.OnlyKind | backend/app/app/parsers/dedup.py:69 | one filled kind gives a result of that kind alone |
| Dedup.PutPut | backend/app/app/parsers/dedup.py:57 | writing a key twice keeps the second value |
| Dedup.FirstKept | backend/app/app/parsers/dedup.py:63-67 | the first versioned object is kept at position 0 and remembered by its index |
| Dedup.SecondJoined | backend/app/app/parsers/dedup.py:54-62 | an object that differs only in versions is merged into the first |
| Dedup.RunTwo | backend/app/app/parsers/dedup.py:36-67 | two steps run in order |
| Dedup.FlattenTwo | backend/app/app/parsers/dedup.py:36-40 | two single things become objects 0 and 1 |
| Dedup.VersionsJoined | backend/app/app/tests/parsers/test_dedup.py:31-119 | two objects that differ only in their versions give one object with the union of the versions |
| Dedup.NewKept | backend/app/app/parsers/dedup.py:49-67 | an object equal to none kept is added |
| Dedup.RunThree | backend/app/app/parsers/dedup.py:36-67 | three steps run in order |
| Dedup.FlattenThree | backend/app/app/parsers/dedup.py:36-40 | a list thing gives all its objects the same index |
| Dedup.ThirdStep | backend/app/app/parsers/dedup.py:49-67 | a third, different object is added after the merged one |
| Dedup.ThirdKept | backend/app/app/tests/parsers/test_dedup.py:31-119 | a merge followed by a different object gives both, in order |
| Dedup.ThirdInList | backend/app/app/tests/parsers/test_dedup.py:31-119 | the same when the last two come in one list |

## Left out

- File reading, logging, `debug` and `print`: each parser takes the file's lines, or its stem and parent directory name, as parameters.
- The deref seeding branch of `util.parse_DO_sections` (lines 75-78): the sections of the linked file are a parameter, and the first line is skipped.
- `util.parse_file_as_dict`, `resolve_link`, `substitute_linked_content` and `unicode_to_ascii`, and `chickenfeed.parse_section`, `magic_parser`, `parse_prayers_txt`, `parse_generic_file` and `parse_translations`: recursive file I/O, data-supplied regular expressions, Unicode normalisation and Pydantic construction.
- Pydantic construction in general. `FeastCreate(**data)`, `VerseCreate(...)` and `MartyrologyCreate` are records with the fields the parsers fill in. Whether Pydantic would accept them is not modelled.
- `Martyrology.lunar` and `render_old_date`: floating point and templating.
- Floating point: `num` and the ranks hold a float as an exact `real`, and `int(r + 0.5)` is exact on it. Rounding in binary floats is not modelled.
- Kalendarium.ToNum and K2obj.RankOf: `int` and `float` are modelled on plain decimal text only, an optional sign, digits and at most one point, with surrounding whitespace. Python also accepts exponents ("1e3"), underscores between digits ("1_000"), "inf", "infinity" and "nan" in any case, and non-ASCII digits. On those texts the model raises ValueError where Python returns a number, and `K2obj.Names` and `K2obj.GroupedCommemorations` read such a field as a commemorated name where the source reads it as a rank.
- Text.IsSpace, Text.Strip, Text.Lower and the letter and digit predicates (`IsUpper`, `IsLower`, `IsDigit`) give only ASCII characters their Python meaning. Python's `strip()`, `split()`, `lower()`, `isupper()` and `isspace()` are Unicode-aware: `strip()` also removes '\xa0', '\x85', '\u2000' to '\u200a' and '\u3000', and `lower()` also lowers letters such as 'Æ'. The members that rely on them, the line handling of Kalendarium, K2obj, T2obj, ParserUtil, Chickenfeed, M2obj, Deref and Calendar.RankValue, are faithful only on file text whose whitespace and letters are ASCII.
- The internals of pyparsing and dateutil: only the behaviour the parsers rely on is modelled.
- Regular expressions: `.` is taken to exclude only the newline. Character classes are ASCII. Lines that reach `markup`, `is_rubric`, `strip_content` and the M2obj section names are taken to hold no newline.
- `re.sub` in `extract_section_information` is modelled for the patterns the code uses, a literal followed by optional digits. It is not modelled for regular expressions in general.
- The `sub` renames and the skip patterns of `chickenfeed.replace` are modelled. The global `parser_vars.replacements` is a map parameter, and `assert r` is a truthiness predicate parameter.
- `dedup` compares objects with pydantic v1 equality, which compares `.dict()`: the fields and `versions`, not the type (`Dedup.Same`). `Obj.versions` (NoField, NoneValue or Listed) deliberately leaves open whether a schema declares `versions`; the schemas shown declare it for none of the three kinds, as the test disagreement below explains. `list(set(...))` is given one fixed order, the first occurrence in the joined list, because Python's set order is unspecified. The mutation of a kept object's `versions` in place (aliasing) becomes an update of the stored copy.
- Version1960.Resolve: it takes `objs` as a value. `objs.remove(base)` acts on the local copy `list(objs)` (version_1960.py:27), which `Version1960.Others` reproduces, so no caller's list changes. It requires the objects to be distinct, so the same object passed twice (aliasing) is not modelled either.
- OfficiumM2obj.Date: `src/officiumdivinum/objects` is not part of this model. The `Date(datestr)` objects that `src/officiumdivinum/parsers/M2obj.py` builds at lines 47 and 83 are kept as the date-rule text they are built from. Anything the constructor parses, resolves or raises is not modelled.
- `K2obj.parse_line` prints `qualifiers` and never returns them. The model computes them separately, and printing is left out.
- `util.parse_DO_sections`: no section is ever valid, so the branch that stores the last section (line 112) cannot run. It is modelled, and `NeverValid` shows that it is dead.
- The doctests "Sun between 2 Jan 4 Jan OR 2 Jan" (2016 and 2017) and "22nd Sun after Pentecost" (2021) are replayed one rule at a time: the special name, the between or timedelta step, and the OR step. That the whole `DslParse` chains those steps on these texts is not proved, because it needs every group of every pass ruled out at every other position. "Easter" and "1 Jan" are replayed end to end.
- `Dates.Easter`: it states March 22nd as the earliest Easter, but its latest date is stated only as April 26th, not as April 25th.
- The `__custom_hash__` test of `test_dedup.py` (lines 10-28): that method is not part of this model.
- `backend/app/app/versions/1960.py`, the run scripts, the Celery worker, CRUD, API, ORM and migrations are not part of this model.

Where the tests and the code disagree, the model follows the code:
- `get_version` raises KeyError for "KM" and "KNC", although `test_calendarium_parser.py:56-67` expects them to work.
- `_rank_to_int` catches ValueError where the lookup raises KeyError, so an unknown rank name is an error and the fallback tables are never reached.
- Each `dsl_parser` loop allows eleven passes and raises on the twelfth.
- `test_dedup.py:123-131` cannot pass against the schemas shown. None of `MartyrologyCreate` (schemas/martyrology.py:13-21, over `BlockBase`), `PrayerCreate` (schemas/prayer.py:9-36) and `AntiphonCreate` (schemas/chickenfeed.py:9-15) declares `versions`, so pydantic v1 ignores the `versions=` keyword of the test objects and `hasattr(obj, "versions")` (dedup.py:49) is false. The first object then reaches dedup.py:66 with `unversion` unassigned and raises UnboundLocalError, which `Dedup.FirstWithoutVersions` proves; line 129's `obj.versions = None` would raise as well. The merges that `Dedup.VersionsJoined`, `Dedup.ThirdKept` and `Dedup.ThirdInList` state happen only for a schema that declares `versions`.
- The table of `test_section_parser.py` disagrees with `extract_section_information` in several places:
  - cases 2 to 5 expect a key "verson" holding the string "monastic", where the code sets "version" to the list ["monastic"];
  - case 6 expects the context ["laudes", "vesperam"], where the code gives ["laudes", "vespera"];
  - cases 5 and 7 expect the context ["laudes"], where the code gives ["laudes2"], because the hour match takes its digits;
  - case 7 expects the title "Laudes2", where the code gives "laudes2";
  - line 75 iterates `candidates` rather than the candidate's keys, so the test raises TypeError before comparing anything.
