/** Proleptic Gregorian calendar dates as Python's `datetime.date` handles
    them: years 1..9999, day numbers counted from 0001-01-01 = 1, weekday
    Monday = 0 .. Sunday = 6, ISO text `YYYY-MM-DD`, day arithmetic that
    fails outside the supported range, dateutil's Western Easter and the
    `relativedelta(weeks=n, weekday=W)` step. */
module Dates {
  import opened Text

  datatype Date = Date(year: int, month: int, day: int)

  /** The day number of 9999-12-31, the last date Python supports. */
  const MaxOrdinal: int := 3652059

  predicate IsLeap(y: int) {
    y % 4 == 0 && (y % 100 != 0 || y % 400 == 0)
  }

  function DaysInMonth(y: int, m: int): (n: int)
    requires 1 <= m <= 12
    ensures 28 <= n <= 31
  {
    if m == 2 then (if IsLeap(y) then 29 else 28)
    else if m == 4 || m == 6 || m == 9 || m == 11 then 30
    else 31
  }

  function DaysInYear(y: int): int {
    if IsLeap(y) then 366 else 365
  }

  /** Days of year `y` that precede the first of month `m`. */
  function DaysBeforeMonth(y: int, m: int): (n: int)
    requires 1 <= m <= 12
    ensures 0 <= n <= 335
  {
    var leap := if IsLeap(y) then 1 else 0;
    if m == 1 then 0 else if m == 2 then 31 else if m == 3 then 59 + leap
    else if m == 4 then 90 + leap else if m == 5 then 120 + leap else if m == 6 then 151 + leap
    else if m == 7 then 181 + leap else if m == 8 then 212 + leap else if m == 9 then 243 + leap
    else if m == 10 then 273 + leap else if m == 11 then 304 + leap else 334 + leap
  }

  /** Days from 0001-01-01 up to, not including, January 1st of year `y`. */
  function DaysBeforeYear(y: int): int {
    var p := y - 1;
    365 * p + p / 4 - p / 100 + p / 400
  }

  predicate ValidYear(y: int) { 1 <= y <= 9999 }

  /** An argument `date()` can read as a C `int`; any other raises
      OverflowError before the range checks. */
  predicate CInt(n: int) { -0x8000_0000 <= n < 0x8000_0000 }

  predicate Valid(d: Date) {
    ValidYear(d.year) && 1 <= d.month <= 12 && 1 <= d.day <= DaysInMonth(d.year, d.month)
  }

  /** `date.toordinal()`. */
  function Ordinal(d: Date): int
    requires Valid(d)
  {
    DaysBeforeYear(d.year) + DaysBeforeMonth(d.year, d.month) + d.day
  }

  /** The weekday of day number `o`: Monday 0 .. Sunday 6 (0001-01-01 is a Monday). */
  function OrdinalWeekday(o: int): (w: int)
    ensures 0 <= w < 7
  {
    (o + 6) % 7
  }

  /** `date.weekday()`: Monday 0 .. Sunday 6. */
  function Weekday(d: Date): (w: int)
    requires Valid(d)
    ensures 0 <= w < 7
  {
    OrdinalWeekday(Ordinal(d))
  }

  /** Python's `<` on dates: lexicographic on (year, month, day). */
  predicate Before(a: Date, b: Date) {
    a.year < b.year || (a.year == b.year && (a.month < b.month || (a.month == b.month && a.day < b.day)))
  }

  lemma DaysBeforeMonthStep(y: int, m: int)
    requires 1 <= m < 12
    ensures DaysBeforeMonth(y, m + 1) == DaysBeforeMonth(y, m) + DaysInMonth(y, m)
  {
  }

  lemma DaysBeforeYearStep(y: int)
    ensures DaysBeforeYear(y + 1) == DaysBeforeYear(y) + DaysInYear(y)
  {
    var p := y - 1;
    assert p / 4 + (if y % 4 == 0 then 1 else 0) == y / 4;
    assert p / 100 + (if y % 100 == 0 then 1 else 0) == y / 100;
    assert p / 400 + (if y % 400 == 0 then 1 else 0) == y / 400;
  }

  lemma {:induction false} DaysBeforeYearGrows(y1: int, y2: int)
    requires y1 <= y2
    ensures DaysBeforeYear(y1) + 365 * (y2 - y1) <= DaysBeforeYear(y2)
    decreases y2 - y1
  {
    if y1 < y2 {
      DaysBeforeYearGrows(y1, y2 - 1);
      DaysBeforeYearStep(y2 - 1);
    }
  }

  lemma DaysBeforeMonthGrows(y: int, m1: int, m2: int)
    requires 1 <= m1 < m2 <= 12
    ensures DaysBeforeMonth(y, m1) + DaysInMonth(y, m1) <= DaysBeforeMonth(y, m2)
  {
  }

  /** A valid date's day number lies within its year. */
  lemma OrdinalInYear(d: Date)
    requires Valid(d)
    ensures DaysBeforeYear(d.year) < Ordinal(d) <= DaysBeforeYear(d.year + 1)
  {
    DaysBeforeYearStep(d.year);
    if d.month < 12 {
      DaysBeforeMonthGrows(d.year, d.month, 12);
    }
  }

  /** Python's date order is the order of day numbers; in particular two
      valid dates with the same day number are equal. */
  lemma BeforeIffOrdinal(a: Date, b: Date)
    requires Valid(a) && Valid(b)
    ensures Before(a, b) <==> Ordinal(a) < Ordinal(b)
    ensures Ordinal(a) == Ordinal(b) <==> a == b
  {
    if Before(a, b) {
      BeforeOrdinal(a, b);
    } else if Before(b, a) {
      BeforeOrdinal(b, a);
    }
  }

  /** An earlier date has a smaller day number. */
  lemma BeforeOrdinal(a: Date, b: Date)
    requires Valid(a) && Valid(b) && Before(a, b)
    ensures Ordinal(a) < Ordinal(b)
  {
    if a.year < b.year {
      OrdinalInYear(a);
      OrdinalInYear(b);
      DaysBeforeYearGrows(a.year + 1, b.year);
    } else if a.month < b.month {
      DaysBeforeMonthGrows(a.year, a.month, b.month);
    }
  }

  lemma MaxOrdinalIsLastDate()
    ensures Valid(Date(9999, 12, 31)) && Ordinal(Date(9999, 12, 31)) == MaxOrdinal
  {
  }

  lemma NextMonthOrdinal(d: Date)
    requires Valid(d) && d.month < 12
    ensures Valid(Date(d.year, d.month + 1, 1))
    ensures Ordinal(Date(d.year, d.month + 1, 1)) == Ordinal(d) + DaysInMonth(d.year, d.month) - d.day + 1
  {
    DaysBeforeMonthStep(d.year, d.month);
  }

  lemma NextYearOrdinal(d: Date)
    requires Valid(d) && d.month == 12 && d.year < 9999
    ensures Valid(Date(d.year + 1, 1, 1))
    ensures Ordinal(Date(d.year + 1, 1, 1)) == Ordinal(d) + 31 - d.day + 1
  {
    DaysBeforeYearStep(d.year);
  }

  lemma PrevMonthOrdinal(d: Date)
    requires Valid(d) && d.month > 1
    ensures Valid(Date(d.year, d.month - 1, DaysInMonth(d.year, d.month - 1)))
    ensures Ordinal(Date(d.year, d.month - 1, DaysInMonth(d.year, d.month - 1))) == Ordinal(d) - d.day
  {
    DaysBeforeMonthStep(d.year, d.month - 1);
  }

  lemma PrevYearOrdinal(d: Date)
    requires Valid(d) && d.month == 1 && d.year > 1
    ensures Valid(Date(d.year - 1, 12, 31))
    ensures Ordinal(Date(d.year - 1, 12, 31)) == Ordinal(d) - d.day
  {
    DaysBeforeYearStep(d.year - 1);
  }

  lemma EdgeOrdinals(d: Date)
    requires Valid(d)
    ensures d.year == 9999 && d.month == 12 ==> Ordinal(d) + 31 - d.day == MaxOrdinal
    ensures d.year == 1 && d.month == 1 ==> Ordinal(d) == d.day
  {
  }

  /** `d + timedelta(days=k)` for `k >= 0`, a month at a time; `None`
      stands for OverflowError. `AddForwardOrdinal` states its meaning. */
  function AddForward(d: Date, k: nat): Option<Date>
    requires Valid(d)
    decreases k
  {
    var dim := DaysInMonth(d.year, d.month);
    if d.day + k <= dim then Some(Date(d.year, d.month, d.day + k))
    else if d.month < 12 then AddForward(Date(d.year, d.month + 1, 1), k - (dim - d.day + 1))
    else if d.year < 9999 then AddForward(Date(d.year + 1, 1, 1), k - (dim - d.day + 1))
    else None
  }

  lemma {:induction false} AddForwardOrdinal(d: Date, k: nat)
    requires Valid(d)
    ensures AddForward(d, k).Some? <==> Ordinal(d) + k <= MaxOrdinal
    ensures AddForward(d, k).Some? ==> Valid(AddForward(d, k).value) && Ordinal(AddForward(d, k).value) == Ordinal(d) + k
    decreases k
  {
    var dim := DaysInMonth(d.year, d.month);
    if d.day + k <= dim {
      var e := Date(d.year, d.month, d.day + k);
      assert AddForward(d, k) == Some(e);
      assert Valid(e) && Ordinal(e) == Ordinal(d) + k;
      EdgeLimits(e);
    } else if d.month < 12 {
      var e, k' := Date(d.year, d.month + 1, 1), k - (dim - d.day + 1);
      assert AddForward(d, k) == AddForward(e, k');
      NextMonthOrdinal(d);
      AddForwardOrdinal(e, k');
    } else if d.year < 9999 {
      var e, k' := Date(d.year + 1, 1, 1), k - (dim - d.day + 1);
      assert AddForward(d, k) == AddForward(e, k');
      NextYearOrdinal(d);
      AddForwardOrdinal(e, k');
    } else {
      assert AddForward(d, k) == None;
      EdgeOrdinals(d);
    }
  }

  /** `d - timedelta(days=k)` for `k >= 0`, a month at a time; `None`
      stands for OverflowError. `AddBackwardOrdinal` states its meaning. */
  function AddBackward(d: Date, k: nat): Option<Date>
    requires Valid(d)
    decreases k
  {
    if d.day - k >= 1 then Some(Date(d.year, d.month, d.day - k))
    else if d.month > 1 then AddBackward(Date(d.year, d.month - 1, DaysInMonth(d.year, d.month - 1)), k - d.day)
    else if d.year > 1 then AddBackward(Date(d.year - 1, 12, 31), k - d.day)
    else None
  }

  lemma {:induction false} AddBackwardOrdinal(d: Date, k: nat)
    requires Valid(d)
    ensures AddBackward(d, k).Some? <==> 1 <= Ordinal(d) - k
    ensures AddBackward(d, k).Some? ==> Valid(AddBackward(d, k).value) && Ordinal(AddBackward(d, k).value) == Ordinal(d) - k
    decreases k
  {
    if d.day - k >= 1 {
      var e := Date(d.year, d.month, d.day - k);
      assert AddBackward(d, k) == Some(e);
      assert Valid(e) && Ordinal(e) == Ordinal(d) - k;
    } else if d.month > 1 {
      var e, k' := Date(d.year, d.month - 1, DaysInMonth(d.year, d.month - 1)), k - d.day;
      assert AddBackward(d, k) == AddBackward(e, k');
      PrevMonthOrdinal(d);
      AddBackwardOrdinal(e, k');
    } else if d.year > 1 {
      var e, k' := Date(d.year - 1, 12, 31), k - d.day;
      assert AddBackward(d, k) == AddBackward(e, k');
      PrevYearOrdinal(d);
      AddBackwardOrdinal(e, k');
    } else {
      assert AddBackward(d, k) == None;
      EdgeOrdinals(d);
    }
  }

  /** `d + timedelta(days=k)`; `None` stands for OverflowError. */
  function AddDays(d: Date, k: int): (r: Option<Date>)
    requires Valid(d)
    ensures r.Some? <==> 1 <= Ordinal(d) + k <= MaxOrdinal
    ensures r.Some? ==> Valid(r.value) && Ordinal(r.value) == Ordinal(d) + k
  {
    OrdinalInYear(d);
    EdgeLimits(d);
    if k >= 0 then
      AddForwardOrdinal(d, k);
      AddForward(d, k)
    else
      AddBackwardOrdinal(d, -k);
      AddBackward(d, -k)
  }

  lemma EdgeLimits(d: Date)
    requires Valid(d)
    ensures 1 <= Ordinal(d) <= MaxOrdinal
  {
    OrdinalInYear(d);
    DaysBeforeYearGrows(d.year + 1, 10000);
    MaxOrdinalIsLastDate();
    DaysBeforeYearStep(9999);
  }

  /** The least day number at or after `o` whose weekday is `w`. */
  function SnapOrdinal(o: int, w: int): int
    requires 0 <= w < 7
  {
    o + (w - OrdinalWeekday(o)) % 7
  }

  lemma SnapOrdinalIsLeast(o: int, w: int)
    requires 0 <= w < 7
    ensures o <= SnapOrdinal(o, w) <= o + 6
    ensures OrdinalWeekday(SnapOrdinal(o, w)) == w
    ensures OrdinalWeekday(o) == w ==> SnapOrdinal(o, w) == o
    ensures forall x :: o <= x < SnapOrdinal(o, w) ==> OrdinalWeekday(x) != w
  {
    var r := OrdinalWeekday(o);
    var k := (w - r) % 7;
    assert k == if w >= r then w - r else w - r + 7;
    WeekdayAhead(o, k);
    forall x | o <= x < o + k ensures OrdinalWeekday(x) != w {
      WeekdayAhead(o, x - o);
    }
  }

  /** Weekdays advance by one a day. */
  lemma WeekdayAhead(o: int, j: int)
    requires 0 <= j < 7
    ensures OrdinalWeekday(o + j) == if OrdinalWeekday(o) + j < 7 then OrdinalWeekday(o) + j else OrdinalWeekday(o) + j - 7
  {
    var r := OrdinalWeekday(o);
    assert o + 6 == 7 * ((o + 6) / 7) + r;
  }

  /** `d + relativedelta(weeks=n, weekday=W)` with `W` counted Monday = 0,
      as dateutil computes it: first `7 * n` days, then forward to the
      next day whose weekday is `W` (staying put when it already is).
      Each step can overflow. */
  function SnapInSteps(d: Date, n: int, w: int): (r: Option<Date>)
    requires Valid(d) && 0 <= w < 7
  {
    match AddDays(d, 7 * n)
    case None => None
    case Some(e) => AddDays(e, (w - Weekday(e)) % 7)
  }

  /** The two steps reach the day number `SnapOrdinal`, and fail exactly
      when the first leaves the range or the target lies past the last
      supported day. */
  lemma SnapInStepsOrdinal(d: Date, n: int, w: int)
    requires Valid(d) && 0 <= w < 7
    ensures SnapInSteps(d, n, w).Some? <==> 1 <= Ordinal(d) + 7 * n && SnapOrdinal(Ordinal(d) + 7 * n, w) <= MaxOrdinal
    ensures SnapInSteps(d, n, w).Some? ==> Valid(SnapInSteps(d, n, w).value) && Ordinal(SnapInSteps(d, n, w).value) == SnapOrdinal(Ordinal(d) + 7 * n, w)
  {
    match AddDays(d, 7 * n)
    case None =>
    case Some(e) =>
      assert Weekday(e) == OrdinalWeekday(Ordinal(d) + 7 * n);
  }

  /** The same step as one move to the day number `SnapOrdinal`. */
  function Snap(d: Date, n: int, w: int): (r: Option<Date>)
    requires Valid(d) && 0 <= w < 7
    ensures r.Some? <==> 1 <= Ordinal(d) + 7 * n && SnapOrdinal(Ordinal(d) + 7 * n, w) <= MaxOrdinal
    ensures r.Some? ==> Valid(r.value) && Ordinal(r.value) == SnapOrdinal(Ordinal(d) + 7 * n, w)
  {
    SnapOrdinalIsLeast(Ordinal(d) + 7 * n, w);
    if 1 <= Ordinal(d) + 7 * n then AddDays(d, SnapOrdinal(Ordinal(d) + 7 * n, w) - Ordinal(d)) else None
  }

  /** The one-move form agrees with dateutil's two steps on every input. */
  lemma SnapSteps(d: Date, n: int, w: int)
    requires Valid(d) && 0 <= w < 7
    ensures SnapInSteps(d, n, w) == Snap(d, n, w)
  {
    var o := Ordinal(d) + 7 * n;
    var t := SnapOrdinal(o, w);
    SnapInStepsOrdinal(d, n, w);
    SameOutcome(SnapInSteps(d, n, w), Snap(d, n, w), 1 <= o && t <= MaxOrdinal, t);
  }

  /** Two outcomes that succeed under the same condition, and then reach
      the same day number `t`, are equal. */
  lemma SameOutcome(a: Option<Date>, b: Option<Date>, ok: bool, t: int)
    requires (a.Some? <==> ok) && (b.Some? <==> ok)
    requires a.Some? ==> Valid(a.value) && Ordinal(a.value) == t
    requires b.Some? ==> Valid(b.value) && Ordinal(b.value) == t
    ensures a == b
  {
    if a.Some? {
      SameOrdinal(a.value, b.value);
    }
  }

  /** Two dates with the same day number are the same date. */
  lemma SameOrdinal(a: Date, b: Date)
    requires Valid(a) && Valid(b) && Ordinal(a) == Ordinal(b)
    ensures a == b
  {
    BeforeIffOrdinal(a, b);
  }

  /** The weekday property of the step: the result falls on `W`, lies in
      the week starting `7 * n` days after `d`, is that first day when it
      is already a `W`, and no earlier day of that week is a `W`. */
  lemma SnapLandsOnWeekday(d: Date, n: int, w: int)
    requires Valid(d) && 0 <= w < 7
    requires Snap(d, n, w).Some?
    ensures Weekday(Snap(d, n, w).value) == w
    ensures Ordinal(d) + 7 * n <= Ordinal(Snap(d, n, w).value) <= Ordinal(d) + 7 * n + 6
    ensures OrdinalWeekday(Ordinal(d) + 7 * n) == w ==> Ordinal(Snap(d, n, w).value) == Ordinal(d) + 7 * n
    ensures forall x :: Ordinal(d) + 7 * n <= x < Ordinal(Snap(d, n, w).value) ==> OrdinalWeekday(x) != w
  {
    var o := Ordinal(d) + 7 * n;
    SnapOrdinalIsLeast(o, w);
  }

  // ---- ISO text ----

  function Pad2(n: nat): (s: string)
    requires n < 100
    ensures |s| == 2 && IsDigit(s[0]) && IsDigit(s[1])
  {
    [DigitChar(n / 10), DigitChar(n % 10)]
  }

  /** The value of two decimal digit characters. */
  function Value2(a: char, b: char): (n: nat)
    requires IsDigit(a) && IsDigit(b)
    ensures n < 100
  {
    10 * DigitValue(a) + DigitValue(b)
  }

  /** `str(d)` = `d.isoformat()`: zero-padded `YYYY-MM-DD`. */
  function Format(d: Date): (s: string)
    requires Valid(d)
    ensures IsIsoShape(s)
  {
    Pad2(d.year / 100) + Pad2(d.year % 100) + "-" + Pad2(d.month) + "-" + Pad2(d.day)
  }

  /** The text shape matched by the pattern `[0-9]{4}-[0-9]{2}-[0-9]{2}`. */
  predicate IsIsoShape(s: string) {
    |s| == 10 && s[4] == '-' && s[7] == '-' &&
    IsDigit(s[0]) && IsDigit(s[1]) && IsDigit(s[2]) && IsDigit(s[3]) &&
    IsDigit(s[5]) && IsDigit(s[6]) && IsDigit(s[8]) && IsDigit(s[9])
  }

  /** `date.fromisoformat(s)` on text of ISO shape; `None` is ValueError
      (year 0000, month outside 1..12, day outside the month). */
  function ParseIso(s: string): (r: Option<Date>)
    requires IsIsoShape(s)
    ensures r.Some? ==> Valid(r.value)
  {
    var d := Date(100 * Value2(s[0], s[1]) + Value2(s[2], s[3]), Value2(s[5], s[6]), Value2(s[8], s[9]));
    if Valid(d) then Some(d) else None
  }

  lemma Pad2Value(n: nat)
    requires n < 100
    ensures Value2(Pad2(n)[0], Pad2(n)[1]) == n
  {
  }

  lemma Value2Pad(a: char, b: char)
    requires IsDigit(a) && IsDigit(b)
    ensures Pad2(Value2(a, b)) == [a, b]
  {
    var n := Value2(a, b);
    assert n / 10 == DigitValue(a) && n % 10 == DigitValue(b);
  }

  lemma Split100(u: nat, v: nat)
    requires v < 100
    ensures (100 * u + v) / 100 == u && (100 * u + v) % 100 == v
  {
  }

  /** Reading back the text of a date gives the date. */
  lemma ParseFormat(d: Date)
    requires Valid(d)
    ensures ParseIso(Format(d)) == Some(d)
  {
    var s := Format(d);
    Pad2Value(d.year / 100);
    Pad2Value(d.year % 100);
    Pad2Value(d.month);
    Pad2Value(d.day);
    assert s[0..2] == Pad2(d.year / 100) && s[2..4] == Pad2(d.year % 100);
    assert s[5..7] == Pad2(d.month) && s[8..10] == Pad2(d.day);
  }

  /** The text a successful parse accepts is the text of the date it returns. */
  lemma FormatParse(s: string)
    requires IsIsoShape(s) && ParseIso(s).Some?
    ensures Format(ParseIso(s).value) == s
  {
    var d := ParseIso(s).value;
    Split100(Value2(s[0], s[1]), Value2(s[2], s[3]));
    Value2Pad(s[0], s[1]);
    Value2Pad(s[2], s[3]);
    Value2Pad(s[5], s[6]);
    Value2Pad(s[8], s[9]);
    assert s == [s[0], s[1]] + [s[2], s[3]] + "-" + [s[5], s[6]] + "-" + [s[8], s[9]];
  }

  // ---- Easter ----

  /** dateutil's correction of the epact `h`, as written there. */
  function EasterIFormula(h: int, g: int): (i: int)
    requires 0 <= h < 30 && 0 <= g < 19
    ensures i == EasterI(h, g)
  {
    if h < 28 then
      assert h / 28 == 0;
      h - (h / 28) * (1 - (h / 28) * (29 / (h + 1)) * ((21 - g) / 11))
    else if h == 28 then
      assert 29 / (h + 1) == 1;
      h - (h / 28) * (1 - (h / 28) * (29 / (h + 1)) * ((21 - g) / 11))
    else
      assert 29 / (h + 1) == 0;
      h - (h / 28) * (1 - (h / 28) * (29 / (h + 1)) * ((21 - g) / 11))
  }

  /** The same correction by cases: `h` is kept below 28, and 28 or 29
      become 27 or 28 depending on the golden number. */
  function EasterI(h: int, g: int): (i: int)
    requires 0 <= h < 30 && 0 <= g < 19
    ensures 0 <= i < 30
  {
    if h < 28 then h else if h == 28 then 27 + (21 - g) / 11 else 28
  }

  /** dateutil's `p`: Easter is March 28th plus `p` days. The second
      postcondition is the weekday correction `j` at work. */
  function EasterOffset(y: int): (p: int)
    requires ValidYear(y)
    ensures -6 <= p <= 29
    ensures (p + y + y / 4 - y / 100 + y / 400 + 2) % 7 == 0
  {
    var g := y % 19;
    var c := y / 100;
    var h := (c - c / 4 - (8 * c + 13) / 25 + 19 * g + 15) % 30;
    var i := EasterI(h, g);
    var x := y + y / 4 + i + 2 - c + c / 4;
    var j := x % 7;
    CenturyQuarter(y);
    LessRemainder(x);
    i - j
  }

  lemma CenturyQuarter(y: int)
    requires y >= 0
    ensures (y / 100) / 4 == y / 400
  {
    var q := y / 400;
    var r := y % 400;
    assert y / 100 == 4 * q + r / 100;
  }

  lemma LessRemainder(x: int)
    ensures (x - x % 7) % 7 == 0
  {
    assert x - x % 7 == 7 * (x / 7);
  }

  /** The month and day dateutil derives from `p`: March `p + 28` while
      that is in March, April `p - 3` after. */
  lemma EasterMonthDay(p: int)
    requires -6 <= p <= 29
    ensures (p + 6) / 40 == 0
    ensures p < 4 ==> (p + 26) / 30 == 0 && (p + 27) % 31 == p + 27
    ensures p >= 4 ==> (p + 26) / 30 == 1 && (p + 27) % 31 == p - 4
  {
  }

  /** dateutil's `easter(y)` with the default Western method: a date
      in March or April of year `y`. */
  function Easter(y: int): (d: Date)
    requires ValidYear(y)
    ensures Valid(d) && d.year == y
    ensures d.month == 3 <==> EasterOffset(y) < 4
    ensures d.month == 3 ==> d.day == EasterOffset(y) + 28 && 22 <= d.day
    ensures d.month == 4 ==> d.day == EasterOffset(y) - 3 && d.day <= 26
    ensures 3 <= d.month <= 4
  {
    var p := EasterOffset(y);
    EasterMonthDay(p);
    var dd := 1 + (p + 27 + (p + 6) / 40) % 31;
    var m := 3 + (p + 26) / 30;
    Date(y, m, dd)
  }

  /** Easter's day number: `p` days after March 28th. */
  lemma EasterOrdinal(y: int)
    requires ValidYear(y)
    ensures Ordinal(Easter(y)) == DaysBeforeYear(y) + 59 + (if IsLeap(y) then 1 else 0) + 28 + EasterOffset(y)
  {
    var d := Easter(y);
    assert DaysBeforeMonth(y, d.month) + d.day == 59 + (if IsLeap(y) then 1 else 0) + 28 + EasterOffset(y);
  }

  lemma SundayArithmetic(y: int, p: int, L: int, o: int)
    requires (p + y + L + 2) % 7 == 0
    requires o == 365 * (y - 1) + L + 87 + p
    ensures OrdinalWeekday(o) == 6
  {
    assert o == 7 * (52 * (y - 1) + 12) + (p + y + L + 2);
  }

  /** The result is a Sunday in every supported year. */
  lemma EasterIsSunday(y: int)
    requires ValidYear(y)
    ensures Weekday(Easter(y)) == 6
  {
    var p := EasterOffset(y);
    var leap := if IsLeap(y) then 1 else 0;
    var L := y / 4 - y / 100 + y / 400;
    DaysBeforeYearStep(y);
    assert DaysBeforeYear(y + 1) == 365 * y + L;
    EasterOrdinal(y);
    SundayArithmetic(y, p, L, Ordinal(Easter(y)));
  }
}
