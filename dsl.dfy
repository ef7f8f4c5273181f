/** The liturgical date-expression evaluator `dsl_parser(datestr, year)`.

    The working string is rewritten by scanning passes. Each pass models
    pyparsing's `transformString` for a `ZeroOrMore` of one token group:
    - the scan runs left to right, with no word boundaries;
    - where a group sequence matches, the matched text is replaced by the
      concatenated outputs of the groups' parse actions;
    - everywhere else the characters are copied;
    - whitespace between consecutive groups of one match is consumed, but
      whitespace after the last group is not.

    The passes run in a fixed order:
    1. special names become ISO dates;
    2. `<n> <Mon>` becomes an ISO date;
    3. `between` and `before`/`after` clauses are resolved, in a loop;
    4. `OR` is reduced, in a loop;
    5. `AND` is reduced, in a loop.
    Finally the leading ISO date is read. */
module Dsl {
  import opened Text
  import opened Dates
  import Tables

  /** `DSLError` and the two Python exceptions that escape the evaluator:
      ValueError from `date()`/`date.fromisoformat` is `InvalidDate`;
      OverflowError, from date arithmetic or from an argument of `date()`
      outside the C `int` range, is `DateOverflow`. */
  datatype DslError = UnableToParse | RecursionLimit(partial: string) | InvalidDate | DateOverflow

  datatype Result<T> = Ok(value: T) | Err(error: DslError)

  /** The keys of the evaluator's `specials` table, in their listed order. */
  const SpecialNames: seq<string> := ["Easter", "Lent", "Advent", "Epiphany", "Christmas", "Septuagesima", "Pentecost"]

  /** `weekdays = dict(zip(days, [SU, MO, TU, WE, TH, FR, SA]))`, with
      dateutil's weekday numbers (Monday = 0). The eighth day name, a
      second "Sun", has no partner in the zip. */
  const Weekdays: map<string, int> := map[
    "Sun" := 6, "Mon" := 0, "Tue" := 1, "Wed" := 2, "Thu" := 3, "Fri" := 4, "Sat" := 5]

  /** Every day name, at either of its positions, has the weekday number
      of its position (Sunday 0 and 7 both being dateutil's 6). */
  lemma WeekdaysByPosition(k: nat)
    requires k < |Tables.Days|
    ensures Tables.Days[k] in Weekdays && Weekdays[Tables.Days[k]] == DayWeekday(k)
  {
  }

  /** Every file-name abbreviation names a key of the evaluator's table. */
  lemma FileSpecialsAreSpecials(abbr: string)
    requires abbr in Tables.FileSpecials
    ensures Tables.FileSpecials[abbr] in SpecialNames
  {
  }

  function Lift(o: Option<Date>): Result<Date> {
    match o
    case None => Err(DateOverflow)
    case Some(d) => Ok(d)
  }

  /** `specials[SpecialNames[k]](year)`. Every special ends in a call of
      `date(year, …)`, directly or inside `easter.easter`: a year beyond a
      C `int` makes it raise OverflowError, any other year outside 1..9999
      ValueError; the week steps can overflow. */
  function SpecialDate(k: nat, year: int): (r: Result<Date>)
    requires k < |SpecialNames|
    ensures r.Ok? ==> Valid(r.value)
    ensures r.Err? && ValidYear(year) ==> r.error == DateOverflow
    ensures !CInt(year) ==> r == Err(DateOverflow)
    ensures CInt(year) && !ValidYear(year) ==> r == Err(InvalidDate)
  {
    if !CInt(year) then Err(DateOverflow)
    else if !ValidYear(year) then Err(InvalidDate)
    else if k == 0 then Ok(Easter(year))
    else if k == 1 then Lent(year)
    else if k == 2 then Advent(year)
    else if k == 3 then Ok(Epiphany(year))
    else if k == 4 then Ok(Christmas(year))
    else if k == 5 then Septuagesima(year)
    else Pentecost(year)
  }

  /** Easter plus `relativedelta(weeks=-6, weekday=SU)`. */
  function Lent(year: int): (r: Result<Date>)
    requires ValidYear(year)
    ensures r.Ok? ==> Valid(r.value)
    ensures r.Err? ==> r.error == DateOverflow
  {
    Lift(Snap(Easter(year), -6, 6))
  }

  /** Christmas plus `relativedelta(weeks=-4, weekday=SU)`. */
  function Advent(year: int): (r: Result<Date>)
    requires ValidYear(year)
    ensures r.Ok? ==> Valid(r.value)
    ensures r.Err? ==> r.error == DateOverflow
  {
    Lift(Snap(Christmas(year), -4, 6))
  }

  function Epiphany(year: int): (d: Date)
    requires ValidYear(year)
    ensures Valid(d)
  {
    Date(year, 1, 6)
  }

  function Christmas(year: int): (d: Date)
    requires ValidYear(year)
    ensures Valid(d)
  {
    Date(year, 12, 25)
  }

  /** Easter plus `relativedelta(weeks=-9, weekday=SU)`. */
  function Septuagesima(year: int): (r: Result<Date>)
    requires ValidYear(year)
    ensures r.Ok? ==> Valid(r.value)
    ensures r.Err? ==> r.error == DateOverflow
  {
    Lift(Snap(Easter(year), -9, 6))
  }

  /** Easter plus `relativedelta(weeks=7, weekday=SU)`. */
  function Pentecost(year: int): (r: Result<Date>)
    requires ValidYear(year)
    ensures r.Ok? ==> Valid(r.value)
    ensures r.Err? ==> r.error == DateOverflow
  {
    Lift(Snap(Easter(year), 7, 6))
  }

  /** dateutil's Easter of the doctest year. */
  lemma EasterFixture()
    ensures Easter(2020) == Date(2020, 4, 12) && Ordinal(Date(2020, 4, 12)) == 737527
  {
    EasterDate2020();
    AprilDayNumber2020();
  }

  lemma EasterDate2020()
    ensures Easter(2020) == Date(2020, 4, 12)
  {
    assert 2020 % 19 == 6 && 2020 / 100 == 20;
    assert EasterI(18, 6) == 18;
    assert EasterOffset(2020) == 15;
  }

  lemma AprilDayNumber2020()
    ensures Ordinal(Date(2020, 4, 12)) == 737527
  {
  }

  /** The doctests of the `specials` table. */
  lemma SpecialsFixtures()
    ensures SpecialDate(4, 2020) == Ok(Date(2020, 12, 25))
    ensures SpecialDate(0, 2020) == Ok(Date(2020, 4, 12))
    ensures SpecialDate(1, 2020) == Ok(Date(2020, 3, 1))
    ensures SpecialDate(5, 2020) == Ok(Date(2020, 2, 9))
    ensures SpecialDate(3, 2021) == Ok(Date(2021, 1, 6))
  {
    EasterFixture();
    LentFixture();
    SeptuagesimaFixture();
  }

  lemma LentFixture()
    ensures Lent(2020) == Ok(Date(2020, 3, 1))
  {
    EasterDayNumber2020();
    EasterShifts(2020);
    DayNumbers2020();
    DayNumberOfDate(Lent(2020).value, Date(2020, 3, 1), 737485);
  }

  lemma SeptuagesimaFixture()
    ensures Septuagesima(2020) == Ok(Date(2020, 2, 9))
  {
    EasterDayNumber2020();
    EasterShifts(2020);
    DayNumbers2020();
    DayNumberOfDate(Septuagesima(2020).value, Date(2020, 2, 9), 737464);
  }

  lemma DayNumbers2020()
    ensures Valid(Date(2020, 3, 1)) && Ordinal(Date(2020, 3, 1)) == 737485
    ensures Valid(Date(2020, 2, 9)) && Ordinal(Date(2020, 2, 9)) == 737464
  {
  }

  lemma EasterDayNumber2020()
    ensures Ordinal(Easter(2020)) == 737527
  {
    EasterFixture();
  }

  /** Easter 2021 is April 4th, so Pentecost 2021 is May 23rd. */
  lemma PentecostFixture()
    ensures SpecialDate(6, 2021) == Ok(Date(2021, 5, 23))
  {
    PentecostDate2021();
  }

  lemma PentecostDate2021()
    ensures Pentecost(2021) == Ok(Date(2021, 5, 23))
  {
    EasterDate2021();
    DayNumbers2021();
    PentecostOn(2021, Date(2021, 5, 23));
  }

  /** The date 49 days after Easter is Pentecost. */
  lemma PentecostOn(y: int, p: Date)
    requires ValidYear(y) && Valid(p) && Ordinal(p) == Ordinal(Easter(y)) + 49
    ensures Pentecost(y) == Ok(p)
  {
    EasterShifts(y);
    DayNumberOfDate(Pentecost(y).value, p, Ordinal(p));
  }

  lemma EasterDate2021()
    ensures Easter(2021) == Date(2021, 4, 4)
  {
    assert 2021 % 19 == 7 && 2021 / 100 == 20;
    assert EasterI(7, 7) == 7;
    assert EasterOffset(2021) == 7;
  }

  lemma DayNumbers2021()
    ensures Valid(Date(2021, 4, 4)) && Ordinal(Date(2021, 4, 4)) == 737884
    ensures Valid(Date(2021, 5, 23)) && Ordinal(Date(2021, 5, 23)) == 737933
    ensures Valid(Date(2021, 10, 24)) && Ordinal(Date(2021, 10, 24)) == 738087
  {
  }

  lemma DayNumbers2016()
    ensures Valid(Date(2016, 1, 2)) && Ordinal(Date(2016, 1, 2)) == 735965
    ensures Valid(Date(2016, 1, 3)) && Ordinal(Date(2016, 1, 3)) == 735966
  {
  }

  lemma DayNumbers2017()
    ensures Valid(Date(2017, 1, 2)) && Ordinal(Date(2017, 1, 2)) == 736331
    ensures Valid(Date(2017, 1, 8)) && Ordinal(Date(2017, 1, 8)) == 736337
  {
  }

  /** The between rule of `dsl_parser("Sun between 2 Jan 4 Jan OR 2 Jan", 2016)`:
      the first Sunday from January 2nd comes before January 4th, on the 3rd. */
  lemma BetweenFixture2016(end: nat)
    ensures BetweenAction(6, Format(Date(2016, 1, 2)), Format(Date(2016, 1, 4)), end)
      == Matched(end, Format(Date(2016, 1, 3)) + " ")
  {
    ParseFormat(Date(2016, 1, 2));
    ParseFormat(Date(2016, 1, 4));
    FirstSunday2016();
  }

  lemma FirstSunday2016()
    ensures BetweenDate(6, Date(2016, 1, 2), Date(2016, 1, 4)) == Ok(Some(Date(2016, 1, 3)))
  {
    var d := Date(2016, 1, 2);
    DayNumbers2016();
    assert SnapOrdinal(735965, 6) == 735966;
    DayNumberOfDate(Snap(d, 0, 6).value, Date(2016, 1, 3), 735966);
  }

  /** The same rule in 2017: the first Sunday from January 2nd is the 8th,
      not before January 4th, so the rule gives `False`. */
  lemma BetweenFixture2017(end: nat)
    ensures BetweenAction(6, Format(Date(2017, 1, 2)), Format(Date(2017, 1, 4)), end) == Matched(end, "False ")
  {
    ParseFormat(Date(2017, 1, 2));
    ParseFormat(Date(2017, 1, 4));
    FirstSunday2017();
  }

  lemma FirstSunday2017()
    ensures BetweenDate(6, Date(2017, 1, 2), Date(2017, 1, 4)) == Ok(None)
  {
    var d := Date(2017, 1, 2);
    DayNumbers2017();
    assert SnapOrdinal(736331, 6) == 736337;
    DayNumberOfDate(Snap(d, 0, 6).value, Date(2017, 1, 8), 736337);
  }

  /** The timedelta rule of `dsl_parser("22nd Sun after Pentecost", 2021)`:
      22 weeks on from Pentecost, a Sunday, is October 24th. */
  lemma TimedeltaFixture2021(end: nat)
    ensures TimedeltaAction(22, 6, Format(Date(2021, 5, 23)), end) == Matched(end, Format(Date(2021, 10, 24)))
  {
    ParseFormat(Date(2021, 5, 23));
    TwentySecondSunday2021();
  }

  lemma TwentySecondSunday2021()
    ensures Relative(22, 6, Date(2021, 5, 23)) == Ok(Date(2021, 10, 24))
  {
    DayNumbers2021();
    assert RelativeOrdinal(22, 737933, 6) == 738087;
    RelativeOn(22, 6, Date(2021, 5, 23), Date(2021, 10, 24));
  }

  /** The relative rule lands on the date whose day number it computes. */
  lemma RelativeOn(c: int, w: int, d: Date, x: Date)
    requires 0 <= w < 7 && Valid(d) && Valid(x) && 1 <= Ordinal(d) + 7 * c
    requires Ordinal(x) == RelativeOrdinal(c, Ordinal(d), w)
    ensures Relative(c, w, d) == Ok(x)
  {
    EdgeLimits(x);
    RelativeDayNumber(c, w, d);
    DayNumberOfDate(Relative(c, w, d).value, x, Ordinal(x));
  }

  /** A date is fixed by its day number. */
  lemma DayNumberOfDate(x: Date, y: Date, o: int)
    requires Valid(x) && Valid(y) && Ordinal(x) == o && Ordinal(y) == o
    ensures x == y
  {
    SameOrdinal(x, y);
  }

  /** Moving a Sunday by whole weeks lands on a Sunday without a further
      step, inside the supported range. */
  lemma ShiftSunday(d: Date, n: int)
    requires Valid(d) && Weekday(d) == 6
    requires 1 <= Ordinal(d) + 7 * n <= MaxOrdinal
    ensures Snap(d, n, 6).Some? && Ordinal(Snap(d, n, 6).value) == Ordinal(d) + 7 * n
    ensures Weekday(Snap(d, n, 6).value) == 6
  {
    SundayWeeks(Ordinal(d), n);
  }

  /** Whole weeks from a Sunday's day number reach a Sunday. */
  lemma SundayWeeks(o: int, n: int)
    requires OrdinalWeekday(o) == 6
    ensures OrdinalWeekday(o + 7 * n) == 6 && SnapOrdinal(o + 7 * n, 6) == o + 7 * n
  {
    assert OrdinalWeekday(o + 7 * n) == OrdinalWeekday(o);
  }

  /** Easter lies at least 63 days after the first supported day and at
      least 49 days before the last. */
  lemma EasterRoom(y: int)
    requires ValidYear(y)
    ensures 1 <= Ordinal(Easter(y)) - 63 && Ordinal(Easter(y)) + 49 <= MaxOrdinal
  {
    var e := Easter(y);
    OrdinalInYear(e);
    DaysBeforeYearGrows(1, y);
    DaysBeforeYearGrows(y + 1, 10000);
    DaysBeforeYearStep(9999);
    MaxOrdinalIsLastDate();
  }

  /** Lent, Septuagesima and Pentecost are Easter moved by exactly 6 and 9
      weeks back and 7 weeks on: since Easter is a Sunday the Sunday step
      changes nothing, and the result never leaves the supported range. */
  lemma EasterShifts(y: int)
    requires ValidYear(y)
    ensures Lent(y).Ok? && Ordinal(Lent(y).value) == Ordinal(Easter(y)) - 42 && Weekday(Lent(y).value) == 6
    ensures Septuagesima(y).Ok? && Ordinal(Septuagesima(y).value) == Ordinal(Easter(y)) - 63
    ensures Weekday(Septuagesima(y).value) == 6
    ensures Pentecost(y).Ok? && Ordinal(Pentecost(y).value) == Ordinal(Easter(y)) + 49
    ensures Weekday(Pentecost(y).value) == 6
  {
    EasterIsSunday(y);
    EasterRoom(y);
    ShiftSunday(Easter(y), -6);
    ShiftSunday(Easter(y), -9);
    ShiftSunday(Easter(y), 7);
  }

  /** Advent is the first Sunday on or after the day four weeks before
      Christmas: a Sunday 22 to 28 days before December 25th, that is
      between November 27th and December 3rd (`AdventBounds`). */
  lemma AdventWindow(y: int)
    requires ValidYear(y)
    ensures Advent(y).Ok?
    ensures Weekday(Advent(y).value) == 6
    ensures Ordinal(Christmas(y)) - 28 <= Ordinal(Advent(y).value) <= Ordinal(Christmas(y)) - 22
    ensures forall x :: Ordinal(Christmas(y)) - 28 <= x < Ordinal(Advent(y).value) ==> OrdinalWeekday(x) != 6
  {
    AdventDayNumber(y);
    SnapOrdinalIsLeast(Ordinal(Christmas(y)) - 28, 6);
  }

  lemma AdventDayNumber(y: int)
    requires ValidYear(y)
    ensures Advent(y).Ok? && Ordinal(Advent(y).value) == SnapOrdinal(Ordinal(Christmas(y)) - 28, 6)
  {
    AdventBounds(y);
    FourWeeksBack(Christmas(y));
  }

  lemma FourWeeksBack(d: Date)
    requires Valid(d) && 29 <= Ordinal(d) <= MaxOrdinal
    ensures Snap(d, -4, 6).Some? && Ordinal(Snap(d, -4, 6).value) == SnapOrdinal(Ordinal(d) - 28, 6)
  {
    SnapOrdinalIsLeast(Ordinal(d) - 28, 6);
  }

  /** November 27th and December 3rd lie 28 and 22 days before Christmas. */
  lemma AdventBounds(y: int)
    requires ValidYear(y)
    ensures Valid(Date(y, 11, 27)) && Valid(Date(y, 12, 3))
    ensures Ordinal(Date(y, 11, 27)) == Ordinal(Christmas(y)) - 28
    ensures Ordinal(Date(y, 12, 3)) == Ordinal(Christmas(y)) - 22
    ensures 1 <= Ordinal(Christmas(y)) - 28 && Ordinal(Christmas(y)) <= MaxOrdinal
  {
    EdgeLimits(Christmas(y));
    EdgeLimits(Date(y, 11, 27));
  }

  // ---- scanning ----

  /** pyparsing's default whitespace: space, tab, newline, carriage return. */
  predicate PpSpace(c: char) { c == ' ' || c == '\t' || c == '\n' || c == '\r' }

  function SkipWs(s: string, i: nat): (j: nat)
    requires i <= |s|
    ensures i <= j <= |s|
    ensures forall k :: i <= k < j ==> PpSpace(s[k])
    ensures j < |s| ==> !PpSpace(s[j])
    decreases |s| - i
  {
    if i < |s| && PpSpace(s[i]) then SkipWs(s, i + 1) else i
  }

  /** `oneOf(words)` at `i`: the position of the first listed word that
      occurs at `i`. */
  function WordAt(s: string, i: nat, words: seq<string>): (r: Option<nat>)
    ensures r.Some? ==> r.value < |words| && OccursAt(s, words[r.value], i)
    ensures r.Some? ==> forall k :: 0 <= k < r.value ==> !OccursAt(s, words[k], i)
    ensures r.None? ==> forall k :: 0 <= k < |words| ==> !OccursAt(s, words[k], i)
    decreases |words|
  {
    if words == [] then None
    else if OccursAt(s, words[0], i) then Some(0)
    else match WordAt(s, i, words[1..])
      case None => None
      case Some(k) => Some(k + 1)
  }

  /** The pattern `[0-9]{4}-[0-9]{2}-[0-9]{2}` matches at `i`. */
  predicate IsoAt(s: string, i: nat) {
    i + 10 <= |s| && IsIsoShape(s[i..i + 10])
  }

  /** The text of the ISO date at `i`, if there is one. */
  function IsoText(s: string, i: nat): (r: Option<string>)
    ensures r.Some? <==> IsoAt(s, i)
    ensures r.Some? ==> IsIsoShape(r.value) && r.value == s[i..i + 10]
  {
    if IsoAt(s, i) then Some(s[i..i + 10]) else None
  }

  /** The end of the maximal digit run starting at `i` (`Word(nums)`). */
  function DigitsEnd(s: string, i: nat): (j: nat)
    requires i <= |s|
    ensures i <= j <= |s| && AllDigits(s[i..j])
    ensures j < |s| ==> !IsDigit(s[j])
    decreases |s| - i
  {
    if i < |s| && IsDigit(s[i]) then
      var j := DigitsEnd(s, i + 1);
      assert s[i..j] == [s[i]] + s[i + 1..j];
      j
    else i
  }

  /** The outcome of trying a token expression at one position. */
  datatype Step = NoMatch | Matched(end: nat, out: string) | Raised(err: DslError)

  /** The token groups of the passes. */
  datatype Group = SpecialG(year: int) | YearlessG(year: int) | BetweenG | TimedeltaG | OrG | AndG

  /** A special name followed by its date and a space. */
  function SpecialAt(s: string, i: nat, year: int): (r: Step)
    requires i <= |s|
    ensures r.Matched? ==> i < r.end <= |s|
  {
    match WordAt(s, i, SpecialNames)
    case None => NoMatch
    case Some(k) =>
      match SpecialDate(k, year)
      case Err(e) => Raised(e)
      case Ok(d) => Matched(i + |SpecialNames[k]|, Format(d) + " ")
  }

  /** `date(year, months.index(mon) + 1, int(digits))` for the month name
      at position `k` (`MonthsNumbered` shows `months.index` finds `k`).
      An argument beyond a C `int` is an OverflowError, any other
      date that does not exist a ValueError. */
  function YearlessDate(year: int, digits: string, k: nat): (r: Result<Date>)
    requires AllDigits(digits)
    ensures r.Ok? <==> Valid(Date(year, k + 1, DigitsValue(digits)))
    ensures r.Ok? ==> r.value == Date(year, k + 1, DigitsValue(digits))
    ensures r.Err? ==> (r.error == DateOverflow <==> !CInt(year) || !CInt(k + 1) || !CInt(DigitsValue(digits)))
    ensures r.Err? ==> r.error == DateOverflow || r.error == InvalidDate
  {
    var d := Date(year, k + 1, DigitsValue(digits));
    if !CInt(year) || !CInt(k + 1) || !CInt(DigitsValue(digits)) then Err(DateOverflow)
    else if Valid(d) then Ok(d) else Err(InvalidDate)
  }

  /** `Word(nums) + oneOf(months)`. */
  function YearlessAt(s: string, i: nat, year: int): (r: Step)
    requires i <= |s|
    ensures r.Matched? ==> i < r.end <= |s|
  {
    if i < |s| && IsDigit(s[i]) then
      var a := DigitsEnd(s, i);
      var b := SkipWs(s, a);
      match WordAt(s, b, Tables.Months)
      case None => NoMatch
      case Some(k) =>
        match YearlessDate(year, s[i..a], k)
        case Err(e) => Raised(e)
        case Ok(d) => Matched(b + |Tables.Months[k]|, Format(d) + " ")
    else NoMatch
  }

  /** `Optional(oneOf(ordinals)) + oneOf(days)`: the positions of the
      optional ordinal and of the day name, and the position after them. */
  datatype Head = Head(ordinal: Option<nat>, day: nat, next: nat)

  function HeadAt(s: string, i: nat): (r: Option<Head>)
    requires i <= |s|
    ensures r.Some? ==> i < r.value.next <= |s| && r.value.day < |Tables.Days|
    ensures r.Some? && r.value.ordinal.Some? ==> r.value.ordinal.value < |Tables.Ordinals|
  {
    var ord := WordAt(s, i, Tables.Ordinals);
    var q := SkipWs(s, if ord.Some? then i + |Tables.Ordinals[ord.value]| else i);
    match WordAt(s, q, Tables.Days)
    case None => None
    case Some(k) =>
      Tables.NamesThreeLetters();
      Some(Head(ord, k, q + |Tables.Days[k]|))
  }

  /** `weekdays[day]` for the day name at position `k` of `days`, by
      position (`WeekdaysByPosition` shows the map gives the same). */
  function DayWeekday(k: nat): (w: int)
    requires k < |Tables.Days|
    ensures 0 <= w < 7
  {
    (k + 6) % 7
  }

  /** `_parse_between` on dates: the `W` on or after `d1` when it comes
      strictly before `d2`, otherwise `False` (here `None`). */
  function BetweenDate(w: int, d1: Date, d2: Date): (r: Result<Option<Date>>)
    requires 0 <= w < 7 && Valid(d1) && Valid(d2)
  {
    match Snap(d1, 0, w)
    case None => Err(DateOverflow)
    case Some(x) => Ok(if Before(x, d2) then Some(x) else None)
  }

  /** `between` picks the first `W` in the half-open range [`d1`, `d2`)
      and gives `False` exactly when that range holds no `W`. */
  lemma BetweenMeaning(w: int, d1: Date, d2: Date)
    requires 0 <= w < 7 && Valid(d1) && Valid(d2)
    requires BetweenDate(w, d1, d2).Ok?
    ensures var r := BetweenDate(w, d1, d2).value;
      (r.Some? ==> Valid(r.value) && Weekday(r.value) == w && Ordinal(d1) <= Ordinal(r.value) < Ordinal(d2)
                   && forall x :: Ordinal(d1) <= x < Ordinal(r.value) ==> OrdinalWeekday(x) != w) &&
      (r.None? <==> forall x :: Ordinal(d1) <= x < Ordinal(d2) ==> OrdinalWeekday(x) != w)
  {
    var x := Snap(d1, 0, w).value;
    SnapLandsOnWeekday(d1, 0, w);
    BeforeIffOrdinal(x, d2);
  }

  /** The parse action of a between group on the text of its two dates. */
  function BetweenAction(w: int, a: string, b: string, end: nat): (r: Step)
    requires 0 <= w < 7 && IsIsoShape(a) && IsIsoShape(b)
    ensures r.Matched? ==> r.end == end
  {
    match ParseIso(a)
    case None => Raised(InvalidDate)
    case Some(d1) =>
      match ParseIso(b)
      case None => Raised(InvalidDate)
      case Some(d2) =>
        match BetweenDate(w, d1, d2)
        case Err(e) => Raised(e)
        case Ok(x) => Matched(end, if x.Some? then Format(x.value) + " " else "False ")
  }

  /** The tokens of a between group: the day name's position, the text
      of the two dates, and the end of the group. */
  datatype BetweenTokens = BetweenTokens(day: nat, date1: string, date2: string, end: nat)

  /** The syntax `[ordinal] day between date1 date2` at `i`. */
  function BetweenSyntax(s: string, i: nat): (r: Option<BetweenTokens>)
    requires i <= |s|
    ensures r.Some? ==> i < r.value.end <= |s| && r.value.day < |Tables.Days|
    ensures r.Some? ==> IsIsoShape(r.value.date1) && IsIsoShape(r.value.date2)
  {
    match HeadAt(s, i)
    case None => None
    case Some(h) =>
      var b := SkipWs(s, h.next);
      if !OccursAt(s, "between", b) then None else
      var t := SkipWs(s, b + 7);
      match IsoText(s, t)
      case None => None
      case Some(d1) =>
        var u := SkipWs(s, t + 10);
        match IsoText(s, u)
        case None => None
        case Some(d2) => Some(BetweenTokens(h.day, d1, d2, u + 10))
  }

  /** A between group and its parse action. */
  function BetweenAt(s: string, i: nat): (r: Step)
    requires i <= |s|
    ensures r.Matched? ==> i < r.end <= |s|
  {
    match BetweenSyntax(s, i)
    case None => NoMatch
    case Some(t) => BetweenAction(DayWeekday(t.day), t.date1, t.date2, t.end)
  }

  /** The signed week count of `_parse_timedelta`: the ordinal's number
      (its position, by `OrdinalIndex`), 1 when absent, negated for `before`. */
  function Cardinal(ordinal: Option<nat>, before: bool): int {
    var c := if ordinal.Some? then ordinal.value else 1;
    if before then -c else c
  }

  /** The day number `_parse_timedelta` moves day number `o` to for the
      signed count `c`: the first `W` on or after `o + 7c`, except that a
      count of 1 takes the first `W` on or after `o` itself, and goes a
      week further when that is `o`. */
  function RelativeOrdinal(c: int, o: int, w: int): int
    requires 0 <= w < 7
  {
    if c != 1 then SnapOrdinal(o + 7 * c, w)
    else if SnapOrdinal(o, w) == o then SnapOrdinal(o + 7, w)
    else SnapOrdinal(o, w)
  }

  /** `_parse_timedelta` on a date and a signed count:
      `RelativeDayNumber` gives its result's day number. */
  function Relative(c: int, w: int, d: Date): (r: Result<Date>)
    requires 0 <= w < 7 && Valid(d)
    ensures r.Ok? ==> Valid(r.value)
    ensures r.Err? ==> r.error == DateOverflow
  {
    if c == 0 then Lift(Snap(d, 0, w))
    else if c == 1 then NextStrictly(w, d)
    else Lift(Snap(d, c, w))
  }

  /** The branch for a count of 1: when the step to a `W` stays on `d`,
      a week further. */
  function NextStrictly(w: int, d: Date): (r: Result<Date>)
    requires 0 <= w < 7 && Valid(d)
    ensures r.Ok? ==> Valid(r.value)
    ensures r.Err? ==> r.error == DateOverflow
  {
    match Snap(d, 0, w)
    case None => Err(DateOverflow)
    case Some(x) => if x == d then Lift(Snap(d, 1, w)) else Ok(x)
  }

  lemma NextStrictlyDayNumber(w: int, d: Date)
    requires 0 <= w < 7 && Valid(d)
    ensures NextStrictly(w, d).Ok? <==> RelativeOrdinal(1, Ordinal(d), w) <= MaxOrdinal
    ensures NextStrictly(w, d).Ok? ==> Ordinal(NextStrictly(w, d).value) == RelativeOrdinal(1, Ordinal(d), w)
  {
    var o := Ordinal(d);
    var s0 := SnapOrdinal(o, w);
    EdgeLimits(d);
    assert o + 7 * 0 == o && o + 7 * 1 == o + 7;
    var first := Snap(d, 0, w);
    assert first.Some? <==> s0 <= MaxOrdinal;
    if first.Some? {
      SameOrdinalIff(first.value, d);
      assert first.value == d <==> s0 == o;
    }
  }

  /** The day number of `_parse_timedelta`'s result, and when it overflows. */
  lemma RelativeDayNumber(c: int, w: int, d: Date)
    requires 0 <= w < 7 && Valid(d)
    ensures Relative(c, w, d).Ok? <==> 1 <= Ordinal(d) + 7 * c && RelativeOrdinal(c, Ordinal(d), w) <= MaxOrdinal
    ensures Relative(c, w, d).Ok? ==> Ordinal(Relative(c, w, d).value) == RelativeOrdinal(c, Ordinal(d), w)
  {
    if c == 1 {
      EdgeLimits(d);
      NextStrictlyDayNumber(w, d);
      assert Relative(c, w, d) == NextStrictly(w, d);
    } else {
      assert Relative(c, w, d) == Lift(Snap(d, c, w));
      assert RelativeOrdinal(c, Ordinal(d), w) == SnapOrdinal(Ordinal(d) + 7 * c, w);
      LiftedSnap(d, c, w);
    }
  }

  /** A week step that stays in range succeeds, at the day number of its snap. */
  lemma LiftedSnap(d: Date, n: int, w: int)
    requires Valid(d) && 0 <= w < 7
    ensures Lift(Snap(d, n, w)).Ok? <==> 1 <= Ordinal(d) + 7 * n && SnapOrdinal(Ordinal(d) + 7 * n, w) <= MaxOrdinal
    ensures Lift(Snap(d, n, w)).Ok? ==> Ordinal(Lift(Snap(d, n, w)).value) == SnapOrdinal(Ordinal(d) + 7 * n, w)
  {
  }

  lemma SameOrdinalIff(a: Date, b: Date)
    requires Valid(a) && Valid(b)
    ensures a == b <==> Ordinal(a) == Ordinal(b)
  {
    BeforeIffOrdinal(a, b);
  }

  /** Moving `n` whole weeks commutes with the step to a `W`. */
  lemma SnapWeeks(o: int, n: int, w: int)
    requires 0 <= w < 7
    ensures SnapOrdinal(o + 7 * n, w) == SnapOrdinal(o, w) + 7 * n
  {
    assert OrdinalWeekday(o + 7 * n) == OrdinalWeekday(o);
  }

  /** A count of 0 gives the first `W` on or after `o`. */
  lemma RelativeOrdinalZero(o: int, w: int)
    requires 0 <= w < 7
    ensures var r := RelativeOrdinal(0, o, w);
      o <= r <= o + 6 && OrdinalWeekday(r) == w && forall x :: o <= x < r ==> OrdinalWeekday(x) != w
  {
    SnapOrdinalIsLeast(o, w);
  }

  /** A count of 1 gives the first `W` strictly after `o`. */
  lemma RelativeOrdinalOne(o: int, w: int)
    requires 0 <= w < 7
    ensures var r := RelativeOrdinal(1, o, w);
      o < r <= o + 7 && OrdinalWeekday(r) == w && forall x :: o < x < r ==> OrdinalWeekday(x) != w
  {
    SnapOrdinalIsLeast(o, w);
    if SnapOrdinal(o, w) == o {
      SnapWeeks(o, 1, w);
      assert RelativeOrdinal(1, o, w) == o + 7;
      forall x | o < x < o + 7 ensures OrdinalWeekday(x) != w {
        WeekdayAhead(o, x - o);
      }
    }
  }

  /** A count of `-1` gives the last `W` strictly before `o`; a count of
      `-n` in general gives the first `W` on or after `o - 7n`. */
  lemma RelativeOrdinalBefore(n: int, o: int, w: int)
    requires 1 <= n && 0 <= w < 7
    ensures var r := RelativeOrdinal(-n, o, w);
      o - 7 * n <= r <= o - 7 * n + 6 && OrdinalWeekday(r) == w
    ensures n == 1 ==> var r := RelativeOrdinal(-n, o, w);
      r < o && forall x :: r < x < o ==> OrdinalWeekday(x) != w
  {
    var r := RelativeOrdinal(-n, o, w);
    SnapOrdinalIsLeast(o - 7 * n, w);
    if n == 1 {
      forall x | r < x < o ensures OrdinalWeekday(x) != w {
        WeekdayAhead(r, x - r);
      }
    }
  }

  /** A count `n` of 2 or more gives `7n` days after the first `W` on or
      after `o`. When `o` is not a `W`, that is `7n` days after what a
      count of 1 gives: one week later than the `n`-th `W` after `o`, so
      that no count gives the `W` in between. When `o` is a `W`, it is the
      `n`-th `W` after `o`. */
  lemma RelativeOrdinalMany(n: int, o: int, w: int)
    requires 2 <= n && 0 <= w < 7
    ensures OrdinalWeekday(RelativeOrdinal(n, o, w)) == w
    ensures OrdinalWeekday(o) == w ==> RelativeOrdinal(n, o, w) == o + 7 * n
    ensures OrdinalWeekday(o) != w ==> RelativeOrdinal(n, o, w) == RelativeOrdinal(1, o, w) + 7 * n
  {
    SnapOrdinalIsLeast(o, w);
    SnapOrdinalIsLeast(o + 7 * n, w);
    SnapWeeks(o, n, w);
  }

  /** The same facts on dates. A count of 1 (`after` with no ordinal, or
      `1st ... after`) gives the first `W` strictly after `d`. */
  lemma RelativeOne(w: int, d: Date)
    requires 0 <= w < 7 && Valid(d) && Relative(1, w, d).Ok?
    ensures var x := Relative(1, w, d).value;
      Weekday(x) == w && Ordinal(d) < Ordinal(x) <= Ordinal(d) + 7 &&
      forall o :: Ordinal(d) < o < Ordinal(x) ==> OrdinalWeekday(o) != w
  {
    RelativeDayNumber(1, w, d);
    RelativeOrdinalOne(Ordinal(d), w);
  }

  /** `before` with no ordinal gives the last `W` strictly before `d`. */
  lemma RelativeBefore(w: int, d: Date)
    requires 0 <= w < 7 && Valid(d) && Relative(-1, w, d).Ok?
    ensures var x := Relative(-1, w, d).value;
      Weekday(x) == w && Ordinal(x) < Ordinal(d) &&
      forall o :: Ordinal(x) < o < Ordinal(d) ==> OrdinalWeekday(o) != w
  {
    RelativeDayNumber(-1, w, d);
    RelativeOrdinalBefore(1, Ordinal(d), w);
  }

  /** The parse action of a timedelta group on the text of its date. */
  function TimedeltaAction(c: int, w: int, a: string, end: nat): (r: Step)
    requires 0 <= w < 7 && IsIsoShape(a)
    ensures r.Matched? ==> r.end == end
  {
    match ParseIso(a)
    case None => Raised(InvalidDate)
    case Some(d) =>
      match Relative(c, w, d)
      case Err(e) => Raised(e)
      case Ok(x) => Matched(end, Format(x))
  }

  /** The tokens of a timedelta group: the ordinal's and the day name's
      positions, whether the word is `before`, the text of the date, and
      the end of the group. */
  datatype TimedeltaTokens = TimedeltaTokens(ordinal: Option<nat>, day: nat, before: bool, date: string, end: nat)

  /** The syntax `[ordinal] day before|after date` at `i`. */
  function TimedeltaSyntax(s: string, i: nat): (r: Option<TimedeltaTokens>)
    requires i <= |s|
    ensures r.Some? ==> i < r.value.end <= |s| && r.value.day < |Tables.Days| && IsIsoShape(r.value.date)
  {
    match HeadAt(s, i)
    case None => None
    case Some(h) =>
      var b := SkipWs(s, h.next);
      var before := OccursAt(s, "before", b);
      if !before && !OccursAt(s, "after", b) then None else
      var t := SkipWs(s, b + (if before then 6 else 5));
      match IsoText(s, t)
      case None => None
      case Some(d) => Some(TimedeltaTokens(h.ordinal, h.day, before, d, t + 10))
  }

  /** A timedelta group and its parse action, which emits the date's text
      without a trailing space. */
  function TimedeltaAt(s: string, i: nat): (r: Step)
    requires i <= |s|
    ensures r.Matched? ==> i < r.end <= |s|
  {
    match TimedeltaSyntax(s, i)
    case None => NoMatch
    case Some(t) => TimedeltaAction(Cardinal(t.ordinal, t.before), DayWeekday(t.day), t.date, t.end)
  }

  /** An operand of OR/AND: an ISO date (kept as text) or `False`. */
  datatype Operand = Operand(iso: Option<string>, end: nat)

  function OperandAt(s: string, i: nat): (r: Option<Operand>)
    requires i <= |s|
    ensures r.Some? ==> i < r.value.end <= |s|
  {
    if IsoAt(s, i) then Some(Operand(IsoText(s, i), i + 10))
    else if OccursAt(s, "False", i) then Some(Operand(None, i + 5))
    else None
  }

  /** `(isodate ^ "False") + op + (isodate ^ "False")`: the two operands
      and the end of the group. */
  function BinaryAt(s: string, i: nat, op: string): (r: Option<(Option<string>, Option<string>, nat)>)
    requires i <= |s|
    ensures r.Some? ==> i < r.value.2 <= |s|
  {
    match OperandAt(s, i)
    case None => None
    case Some(l) =>
      var j := SkipWs(s, l.end);
      if !OccursAt(s, op, j) then None else
      var k := SkipWs(s, j + |op|);
      match OperandAt(s, k)
      case None => None
      case Some(r) => Some((l.iso, r.iso, r.end))
  }

  /** `_parse_or`: the left date if there is one, else the right date,
      else `False`, which emits nothing. */
  function OrValue(lhs: Option<string>, rhs: Option<string>): (out: string)
    ensures lhs.Some? ==> out == lhs.value
    ensures lhs.None? && rhs.Some? ==> out == rhs.value
    ensures lhs.None? && rhs.None? ==> out == []
  {
    if lhs.Some? then lhs.value else if rhs.Some? then rhs.value else []
  }

  /** `_parse_and`: the left date when both sides are dates, else `False`. */
  function AndValue(lhs: Option<string>, rhs: Option<string>): (out: string)
    ensures lhs.Some? && rhs.Some? ==> out == lhs.value
    ensures lhs.None? || rhs.None? ==> out == []
  {
    if lhs.Some? && rhs.Some? then lhs.value else []
  }

  function OpAt(s: string, i: nat, isOr: bool): (r: Step)
    requires i <= |s|
    ensures r.Matched? ==> i < r.end <= |s|
  {
    match BinaryAt(s, i, if isOr then "OR" else "AND")
    case None => NoMatch
    case Some(t) => Matched(t.2, if isOr then OrValue(t.0, t.1) else AndValue(t.0, t.1))
  }

  function GroupAt(g: Group, s: string, i: nat): (r: Step)
    requires i <= |s|
    ensures r.Matched? ==> i < r.end <= |s|
  {
    match g
    case SpecialG(year) => SpecialAt(s, i, year)
    case YearlessG(year) => YearlessAt(s, i, year)
    case BetweenG => BetweenAt(s, i)
    case TimedeltaG => TimedeltaAt(s, i)
    case OrG => OpAt(s, i, true)
    case AndG => OpAt(s, i, false)
  }

  /** `ZeroOrMore(g)` from `i`: groups separated by whitespace; the match
      ends after the last group. `NoMatch` is the empty match. */
  function Repeat(g: Group, s: string, i: nat): (r: Step)
    requires i <= |s|
    ensures r.Matched? ==> i < r.end <= |s|
    decreases |s| - i
  {
    match GroupAt(g, s, i)
    case NoMatch => NoMatch
    case Raised(e) => Raised(e)
    case Matched(e, o) =>
      match Repeat(g, s, SkipWs(s, e))
      case NoMatch => Matched(e, o)
      case Raised(x) => Raised(x)
      case Matched(e2, o2) => Matched(e2, o + o2)
  }

  datatype Pass = SpecialsPass(year: int) | YearlessPass(year: int) | RelativePass | OrPass | AndPass

  /** The expression a pass scans for at `i`. The relative pass is the
      concatenation `ZeroOrMore(between) + ZeroOrMore(timedelta)`: when
      betweens matched and no timedelta follows, the match ends after the
      whitespace that follows them. */
  function MatchAt(p: Pass, s: string, i: nat): (r: Step)
    requires i <= |s|
    ensures r.Matched? ==> i < r.end <= |s|
  {
    match p
    case SpecialsPass(year) => Repeat(SpecialG(year), s, i)
    case YearlessPass(year) => Repeat(YearlessG(year), s, i)
    case OrPass => Repeat(OrG, s, i)
    case AndPass => Repeat(AndG, s, i)
    case RelativePass =>
      match Repeat(BetweenG, s, i)
      case Raised(e) => Raised(e)
      case NoMatch => Repeat(TimedeltaG, s, SkipWs(s, i))
      case Matched(e, o) =>
        var j := SkipWs(s, e);
        match Repeat(TimedeltaG, s, j)
        case Raised(x) => Raised(x)
        case NoMatch => Matched(j, o)
        case Matched(e2, o2) => Matched(e2, o + o2)
  }

  /** `transformString` from position `i`. */
  function Transform(p: Pass, s: string, i: nat): (r: Result<string>)
    requires i <= |s|
    decreases |s| - i
  {
    if i == |s| then Ok([])
    else if PpSpace(s[i]) then Prepend(s[i], Transform(p, s, i + 1))
    else match MatchAt(p, s, i)
      case Raised(e) => Err(e)
      case NoMatch => Prepend(s[i], Transform(p, s, i + 1))
      case Matched(e, o) =>
        match Transform(p, s, e)
        case Err(x) => Err(x)
        case Ok(t) => Ok(o + t)
  }

  function Prepend(c: char, r: Result<string>): Result<string> {
    match r
    case Err(e) => Err(e)
    case Ok(t) => Ok([c] + t)
  }

  /** Where a pass matches nowhere, it copies the text unchanged. */
  lemma {:induction false} TransformIdentity(p: Pass, s: string, i: nat)
    requires i <= |s|
    requires forall k :: i <= k < |s| && !PpSpace(s[k]) ==> MatchAt(p, s, k).NoMatch?
    ensures Transform(p, s, i) == Ok(s[i..])
    decreases |s| - i
  {
    if i < |s| {
      TransformIdentity(p, s, i + 1);
      assert s[i..] == [s[i]] + s[i + 1..];
    }
  }

  // ---- the three loops ----

  /** `any(x in datestr for x in guard)`. */
  predicate AnyContains(s: string, guard: seq<string>)
    decreases |guard|
  {
    guard != [] && (Contains(s, guard[0]) || AnyContains(s, guard[1..]))
  }

  const RelativeGuard: seq<string> := ["after", "before", "between"]

  /** `while guard: datestr = pass(datestr); if count > 10: raise; count += 1`
      from `count` on. */
  function Loop(p: Pass, guard: seq<string>, s: string, count: nat): (r: Result<string>)
    requires count <= 11
    decreases 11 - count
  {
    if !AnyContains(s, guard) then Ok(s)
    else match Transform(p, s, 0)
      case Err(e) => Err(e)
      case Ok(t) => if count > 10 then Err(RecursionLimit(t)) else Loop(p, guard, t, count + 1)
  }

  /** A loop whose pass leaves a guarded string unchanged does not run
      forever: it stops with the recursion-limit error and that string. */
  lemma {:induction false} LoopStuck(p: Pass, guard: seq<string>, s: string, count: nat)
    requires count <= 11
    requires AnyContains(s, guard) && Transform(p, s, 0) == Ok(s)
    ensures Loop(p, guard, s, count) == Err(RecursionLimit(s))
    decreases 11 - count
  {
    if count <= 10 {
      LoopStuck(p, guard, s, count + 1);
    }
  }

  /** A loop either ends on a string free of its guard words, or fails. */
  lemma {:induction false} LoopEndsUnguarded(p: Pass, guard: seq<string>, s: string, count: nat)
    requires count <= 11
    requires Loop(p, guard, s, count).Ok?
    ensures !AnyContains(Loop(p, guard, s, count).value, guard)
    decreases 11 - count
  {
    if AnyContains(s, guard) {
      LoopEndsUnguarded(p, guard, Transform(p, s, 0).value, count + 1);
    }
  }

  /** The imperative loop of `dsl_parser`. */
  method RunLoop(p: Pass, guard: seq<string>, s0: string) returns (r: Result<string>)
    ensures r == Loop(p, guard, s0, 0)
  {
    var s := s0;
    var count := 0;
    while AnyContains(s, guard)
      invariant count <= 11
      invariant Loop(p, guard, s, count) == Loop(p, guard, s0, 0)
      decreases 11 - count
    {
      var t := Transform(p, s, 0);
      if t.Err? {
        return Err(t.error);
      }
      s := t.value;
      if count > 10 {
        return Err(RecursionLimit(s));
      }
      count := count + 1;
    }
    return Ok(s);
  }

  // ---- the final parse ----

  /** The ISO dates of the leading run `isodate[...]` from `i`. */
  function IsoRun(s: string, i: nat): (r: seq<string>)
    requires i <= |s|
    ensures forall k :: 0 <= k < |r| ==> IsIsoShape(r[k])
    ensures r != [] <==> IsoAt(s, i)
    ensures r != [] ==> r[0] == s[i..i + 10]
    decreases |s| - i
  {
    if IsoAt(s, i) then [s[i..i + 10]] + IsoRun(s, SkipWs(s, i + 10)) else []
  }

  /** Every date of the run is converted, in order; the first is returned. */
  function FirstDate(run: seq<string>): (r: Result<Date>)
    requires forall k :: 0 <= k < |run| ==> IsIsoShape(run[k])
    ensures run == [] ==> r == Err(UnableToParse)
    ensures r.Ok? ==> run != [] && ParseIso(run[0]) == Some(r.value)
    ensures r.Ok? <==> run != [] && forall k :: 0 <= k < |run| ==> ParseIso(run[k]).Some?
    decreases |run|
  {
    if run == [] then Err(UnableToParse)
    else match ParseIso(run[0])
      case None => Err(InvalidDate)
      case Some(d) =>
        if |run| == 1 then Ok(d)
        else match FirstDate(run[1..])
          case Err(e) => Err(e)
          case Ok(_) => Ok(d)
  }

  /** The final `isodate[...].parseString(datestr)[0]`. */
  function FinalDate(s: string): (r: Result<Date>)
    ensures r.Ok? ==> IsoAt(s, SkipWs(s, 0)) && ParseIso(s[SkipWs(s, 0)..SkipWs(s, 0) + 10]) == Some(r.value)
    ensures !IsoAt(s, SkipWs(s, 0)) ==> r == Err(UnableToParse)
  {
    FirstDate(IsoRun(s, SkipWs(s, 0)))
  }

  // ---- the evaluator ----

  /** `dsl_parser(datestr, year)`. */
  function DslParse(datestr: string, year: int): (r: Result<Date>)
  {
    match Transform(SpecialsPass(year), datestr, 0)
    case Err(e) => Err(e)
    case Ok(s1) =>
      match Transform(YearlessPass(year), s1, 0)
      case Err(e) => Err(e)
      case Ok(s2) =>
        match Loop(RelativePass, RelativeGuard, s2, 0)
        case Err(e) => Err(e)
        case Ok(s3) =>
          match Loop(OrPass, ["OR"], s3, 0)
          case Err(e) => Err(e)
          case Ok(s4) =>
            match Loop(AndPass, ["AND"], s4, 0)
            case Err(e) => Err(e)
            case Ok(s5) => FinalDate(s5)
  }

  method Evaluate(datestr: string, year: int) returns (r: Result<Date>)
    ensures r == DslParse(datestr, year)
  {
    var t := Transform(SpecialsPass(year), datestr, 0);
    if t.Err? {
      return Err(t.error);
    }
    t := Transform(YearlessPass(year), t.value, 0);
    if t.Err? {
      return Err(t.error);
    }
    t := RunLoop(RelativePass, RelativeGuard, t.value);
    if t.Err? {
      return Err(t.error);
    }
    t := RunLoop(OrPass, ["OR"], t.value);
    if t.Err? {
      return Err(t.error);
    }
    t := RunLoop(AndPass, ["AND"], t.value);
    if t.Err? {
      return Err(t.error);
    }
    r := FinalDate(t.value);
  }

  // ---- whole evaluations ----

  /** Text left once every name has become a date: digits, dashes and spaces. */
  predicate DateText(s: string) {
    forall k :: 0 <= k < |s| ==> IsDigit(s[k]) || s[k] == '-' || s[k] == ' '
  }

  /** No listed word occurs at `i` when none starts with the character there. */
  lemma NoWordAt(s: string, i: nat, words: seq<string>)
    requires forall k :: 0 <= k < |words| ==> words[k] != [] && (i < |s| ==> words[k][0] != s[i])
    ensures WordAt(s, i, words).None?
  {
    forall k | 0 <= k < |words| ensures !OccursAt(s, words[k], i) {
      if i + |words[k]| <= |s| {
        assert s[i..i + |words[k]|][0] == s[i];
      }
    }
  }

  /** A word that starts with a letter occurs nowhere in date text. */
  lemma NotInDateText(s: string, p: string)
    requires DateText(s) && p != [] && (IsUpper(p[0]) || IsLower(p[0]))
    ensures !Contains(s, p)
  {
    forall k: nat ensures !OccursAt(s, p, k) {
      if k + |p| <= |s| {
        assert s[k..k + |p|][0] == s[k];
      }
    }
  }

  /** On date text the special-name pass changes nothing. */
  lemma SpecialsKeepDateText(s: string, year: int)
    requires DateText(s)
    ensures Transform(SpecialsPass(year), s, 0) == Ok(s)
  {
    assert forall k :: 0 <= k < |SpecialNames| ==> IsUpper(SpecialNames[k][0]);
    forall k | 0 <= k < |s| && !PpSpace(s[k]) ensures MatchAt(SpecialsPass(year), s, k).NoMatch? {
      NoWordAt(s, k, SpecialNames);
    }
    TransformIdentity(SpecialsPass(year), s, 0);
    assert s[0..] == s;
  }

  /** On date text the yearless pass changes nothing. */
  lemma YearlessKeepDateText(s: string, year: int)
    requires DateText(s)
    ensures Transform(YearlessPass(year), s, 0) == Ok(s)
  {
    assert forall k :: 0 <= k < |Tables.Months| ==> IsUpper(Tables.Months[k][0]);
    forall k | 0 <= k < |s| && !PpSpace(s[k]) ensures MatchAt(YearlessPass(year), s, k).NoMatch? {
      if IsDigit(s[k]) {
        NoWordAt(s, SkipWs(s, DigitsEnd(s, k)), Tables.Months);
      }
    }
    TransformIdentity(YearlessPass(year), s, 0);
    assert s[0..] == s;
  }

  /** On date text no loop runs a pass. */
  lemma LoopsKeepDateText(s: string)
    requires DateText(s)
    ensures Loop(RelativePass, RelativeGuard, s, 0) == Ok(s)
    ensures Loop(OrPass, ["OR"], s, 0) == Ok(s)
    ensures Loop(AndPass, ["AND"], s, 0) == Ok(s)
  {
    NotInDateText(s, "after");
    NotInDateText(s, "before");
    NotInDateText(s, "between");
    NotInDateText(s, "OR");
    NotInDateText(s, "AND");
  }

  /** An ISO date, alone or followed by a space, reads as that date. */
  lemma FinalIso(d: Date, tail: string)
    requires Valid(d) && (tail == [] || tail == " ")
    ensures DateText(Format(d) + tail)
    ensures FinalDate(Format(d) + tail) == Ok(d)
  {
    var s := Format(d) + tail;
    assert s[0..10] == Format(d);
    assert SkipWs(s, 0) == 0;
    assert IsoRun(s, SkipWs(s, 10)) == [];
    ParseFormat(d);
  }

  /** An ISO date evaluates to itself, in any year. */
  lemma IsoEvaluates(d: Date, year: int)
    requires Valid(d)
    ensures DslParse(Format(d), year) == Ok(d)
  {
    FinalIso(d, []);
    assert Format(d) + [] == Format(d);
    SpecialsKeepDateText(Format(d), year);
    YearlessKeepDateText(Format(d), year);
    LoopsKeepDateText(Format(d));
  }

  /** An expression that the first two passes turn into one ISO date
      evaluates to that date. */
  lemma DateAfterNames(datestr: string, year: int, s1: string, d: Date)
    requires Valid(d)
    requires Transform(SpecialsPass(year), datestr, 0) == Ok(s1)
    requires Transform(YearlessPass(year), s1, 0) == Ok(Format(d) + " ")
    ensures DslParse(datestr, year) == Ok(d)
  {
    FinalIso(d, " ");
    LoopsKeepDateText(Format(d) + " ");
  }

  /** The doctest `dsl_parser("Easter", 2020)`: April 12th, 2020. */
  lemma EasterDoctest(datestr: string, year: int)
    requires datestr == "Easter" && year == 2020
    ensures DslParse(datestr, year) == Ok(Date(2020, 4, 12))
  {
    EasterMatch(datestr, year, Format(Date(2020, 4, 12)) + " ");
    SpecialDoctest(datestr, year, Date(2020, 4, 12));
  }

  /** A text that is one special name, replaced by its date, parses to that date. */
  lemma SpecialDoctest(datestr: string, year: int, d: Date)
    requires Valid(d) && datestr != [] && !PpSpace(datestr[0])
    requires MatchAt(SpecialsPass(year), datestr, 0) == Matched(|datestr|, Format(d) + " ")
    ensures DslParse(datestr, year) == Ok(d)
  {
    var s1 := Format(d) + " ";
    WholeMatch(SpecialsPass(year), datestr, s1);
    FinalIso(d, " ");
    YearlessKeepDateText(s1, year);
    DateAfterNames(datestr, year, s1, d);
  }

  /** A pass whose first match spans the whole text outputs that match. */
  lemma WholeMatch(p: Pass, s: string, out: string)
    requires s != [] && !PpSpace(s[0]) && MatchAt(p, s, 0) == Matched(|s|, out)
    ensures Transform(p, s, 0) == Ok(out)
  {
    assert Transform(p, s, |s|) == Ok([]);
    assert out + [] == out;
  }

  lemma EasterMatch(s: string, year: int, out: string)
    requires s == "Easter" && year == 2020 && out == Format(Date(2020, 4, 12)) + " "
    ensures MatchAt(SpecialsPass(year), s, 0) == Matched(6, out)
  {
    assert SpecialDate(0, year) == Ok(Date(2020, 4, 12)) by { SpecialsFixtures(); }
    assert OccursAt(s, SpecialNames[0], 0);
    assert WordAt(s, 0, SpecialNames) == Some(0);
    assert SpecialAt(s, 0, year) == Matched(6, out);
    NoWordAt(s, 6, SpecialNames);
    assert Repeat(SpecialG(year), s, 6) == NoMatch;
  }

  /** The doctest `dsl_parser("1 Jan", 2020)`: January 1st, 2020. */
  lemma NewYearDoctest(datestr: string, year: int)
    requires datestr == "1 Jan" && year == 2020
    ensures DslParse(datestr, year) == Ok(Date(2020, 1, 1))
  {
    var s2 := Format(Date(2020, 1, 1)) + " ";
    NewYearSpecials(datestr, year);
    NewYearMatch(datestr, year, s2);
    WholeMatch(YearlessPass(year), datestr, s2);
    DateAfterNames(datestr, year, datestr, Date(2020, 1, 1));
  }

  lemma NewYearSpecials(s: string, year: int)
    requires s == "1 Jan" && year == 2020
    ensures Transform(SpecialsPass(year), s, 0) == Ok(s)
  {
    forall k | 0 <= k < |s| && !PpSpace(s[k]) ensures MatchAt(SpecialsPass(year), s, k).NoMatch? {
      NoWordAt(s, k, SpecialNames);
    }
    TransformIdentity(SpecialsPass(year), s, 0);
    assert s[0..] == s;
  }

  lemma NewYearMatch(s: string, year: int, out: string)
    requires s == "1 Jan" && year == 2020 && out == Format(Date(2020, 1, 1)) + " "
    ensures MatchAt(YearlessPass(year), s, 0) == Matched(5, out)
  {
    assert DigitsEnd(s, 0) == 1 && SkipWs(s, 1) == 2;
    assert OccursAt(s, Tables.Months[0], 2);
    assert WordAt(s, 2, Tables.Months) == Some(0);
    assert s[0..1] == "1";
    assert YearlessDate(year, "1", 0) == Ok(Date(2020, 1, 1));
    assert YearlessAt(s, 0, year) == Matched(5, out);
    assert Repeat(YearlessG(year), s, 5) == NoMatch;
  }

  // ---- the OR step of `Sun between 2 Jan 4 Jan OR 2 Jan` ----

  /** In 2016 the between rule leaves a date on the left of `OR`, and
      `_parse_or` keeps it. */
  lemma OrDatesFixture(lhs: string, rhs: string)
    requires IsIsoShape(lhs) && IsIsoShape(rhs)
    ensures OpAt(lhs + " OR " + rhs + " ", 0, true) == Matched(24, lhs)
  {
    var s := lhs + " OR " + rhs + " ";
    assert s[0..10] == lhs;
    assert SkipWs(s, 10) == 11;
    assert s[11..13] == "OR";
    assert SkipWs(s, 13) == 14;
    assert s[14..24] == rhs;
  }

  /** In 2017 the between rule leaves `False`, and `_parse_or` takes the
      date on the right. */
  lemma OrFalseFixture(rhs: string)
    requires IsIsoShape(rhs)
    ensures OpAt("False OR " + rhs + " ", 0, true) == Matched(19, rhs)
  {
    var s := "False OR " + rhs + " ";
    assert !IsoAt(s, 0) by { assert s[0..10][4] == 'e'; }
    assert s[0..5] == "False";
    assert SkipWs(s, 5) == 6;
    assert s[6..8] == "OR";
    assert SkipWs(s, 8) == 9;
    assert s[9..19] == rhs;
  }

  /** The 2016 OR step: `2016-01-03 OR 2016-01-02` is January 3rd, 2016. */
  lemma OrFixture2016()
    ensures OpAt(Format(Date(2016, 1, 3)) + " OR " + Format(Date(2016, 1, 2)) + " ", 0, true) == Matched(24, Format(Date(2016, 1, 3)))
  {
    DayNumbers2016();
    FormatShape(Date(2016, 1, 3));
    FormatShape(Date(2016, 1, 2));
    OrDatesFixture(Format(Date(2016, 1, 3)), Format(Date(2016, 1, 2)));
  }

  /** `Format` writes ISO text. */
  lemma FormatShape(d: Date)
    requires Valid(d)
    ensures IsIsoShape(Format(d))
  {
    ParseFormat(d);
  }

  /** The 2017 OR step: `False OR 2017-01-02` is January 2nd, 2017. */
  lemma OrFixture2017()
    ensures OpAt("False OR " + Format(Date(2017, 1, 2)) + " ", 0, true) == Matched(19, Format(Date(2017, 1, 2)))
  {
    DayNumbers2017();
    FormatShape(Date(2017, 1, 2));
    OrFalseFixture(Format(Date(2017, 1, 2)));
  }
}
