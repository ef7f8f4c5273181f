/** The small parsers of `chickenfeed`: the date rule of a temporal file
    name, the naming information of a section, and the classifiers that
    decide what kind of object a section or a verse becomes. */
module Chickenfeed {
  import opened Text
  import opened Py
  import Tables
  import Structures
  import Lines

  // ---- extract_temporal_info ----

  /** The dictionary `extract_temporal_info` returns. */
  datatype Temporal = Temporal(qualifiers: Option<string>, datestr: string, name: string)

  /** `([A-Z][a-z]+)([0-9]+)` can match at `k`. */
  predicate WordAt(s: string, k: nat) {
    k < |s| && IsUpper(s[k]) &&
    var j := RunEnd(s, k + 1, IsLower);
    j > k + 1 && j < |s| && IsDigit(s[j])
  }

  function FirstWord(s: string, i: nat): (r: Option<nat>)
    ensures r.Some? ==> i <= r.value && WordAt(s, r.value)
    ensures r.Some? ==> forall k :: i <= k < r.value ==> !WordAt(s, k)
    ensures r.None? ==> forall k :: i <= k ==> !WordAt(s, k)
    decreases |s| - i
  {
    if i >= |s| then None
    else if WordAt(s, i) then Some(i)
    else FirstWord(s, i + 1)
  }

  /** `re.search(r"([A-Z][a-z]+)([0-9]+)", s).groups()`; `None` is the
      failed search, whose `.groups()` raises AttributeError. */
  function CapitalWord(s: string): (r: Option<(string, string)>)
    ensures r.Some? ==> r.value.1 != [] && AllDigits(r.value.1)
  {
    match FirstWord(s, 0)
    case None => None
    case Some(k) =>
      var j := RunEnd(s, k + 1, IsLower);
      Some((s[k..j], s[j..DigitsEnd(s, j)]))
  }

  /** The reference date and the week: the month digits and the last digit
      of an all-digit prefix, or a capitalised abbreviation and its number. */
  function TemporalWeek(after: string): (r: Outcome<(string, int)>)
    ensures r.Throw? ==> r.exc == AttributeError
  {
    if |after| > 0 && ParseInt(after).Some? && ParseInt([after[|after| - 1]]).Some? then
      Return((after[..|after| - 1], ParseInt([after[|after| - 1]]).value))
    else match CapitalWord(after)
      case None => Throw(AttributeError)
      case Some((date, week)) => Return((date, DigitsValue(week)))
  }

  /** The first digit at or after `i`. */
  function FirstDigit(s: string, i: nat): (r: Option<nat>)
    ensures r.Some? ==> i <= r.value < |s| && IsDigit(s[r.value])
    ensures r.Some? ==> forall k :: i <= k < r.value ==> !IsDigit(s[k])
    ensures r.None? ==> forall k :: i <= k < |s| ==> !IsDigit(s[k])
    decreases |s| - i
  {
    if i >= |s| then None
    else if IsDigit(s[i]) then Some(i)
    else FirstDigit(s, i + 1)
  }

  /** The weekday, and the qualifiers `([0-9])(.+)` splits off when the day
      text is not a number. */
  function TemporalDay(day: string): (r: Outcome<(int, Option<string>)>)
    ensures r.Throw? ==> r.exc == AttributeError
    ensures r.Return? && r.value.1.Some? ==> 0 <= r.value.0 < 10 && r.value.1.value != []
  {
    match ParseInt(day)
    case Some(d) => Return((d, None))
    case None =>
      match FirstDigit(day, 0)
      case Some(k) =>
        if k + 1 < |day| then Return((DigitValue(day[k]), Some(day[k + 1..]))) else Throw(AttributeError)
      case None => Throw(AttributeError)
  }

  /** `f"1 {months[int(date) - 1]}"`, or `specials[date]` when `date` is not a number. */
  function ReferenceDate(date: string): (r: Outcome<string>)
    ensures r.Throw? ==> r.exc == IndexError || r.exc == KeyError
    ensures ParseInt(date).None? ==> (r.Return? <==> date in Tables.FileSpecials)
  {
    match ParseInt(date)
    case Some(m) =>
      (match PyIndex(Tables.Months, m - 1) case Some(name) => Return("1 " + name) case None => Throw(IndexError))
    case None =>
      if date in Tables.FileSpecials then Return(Tables.FileSpecials[date]) else Throw(KeyError)
  }

  /** The weekday in front of the Sunday rule, for any day but Sunday. */
  function DayPrefix(day: nat): string
    requires day < 8
  {
    if day == 0 then [] else Tables.Days[day] + " after "
  }

  /** `f"{ordinals[week]} Sun after {date}"`, preceded by the weekday when
      the day is not Sunday. */
  function SundayRule(reference: string, week: int, day: int): (r: Outcome<string>)
    ensures r.Throw? ==> r.exc == IndexError
    ensures 0 <= week < 26 && 0 <= day < 8 ==>
      r == Return(DayPrefix(day) + Tables.Ordinals[week] + " Sun after " + reference)
  {
    assert |Tables.Ordinals| == 26 && |Tables.Days| == 8;
    match PyIndex(Tables.Ordinals, week)
    case None => Throw(IndexError)
    case Some(ordinal) =>
      var sunday := ordinal + " Sun after " + reference;
      if day == 0 then
        assert DayPrefix(0) + ordinal == ordinal;
        Return(sunday)
      else match PyIndex(Tables.Days, day)
        case None => Throw(IndexError)
        case Some(weekday) =>
          assert 0 <= day < 8 ==> weekday + " after " + sunday == DayPrefix(day) + ordinal + " Sun after " + reference;
          Return(weekday + " after " + sunday)
  }

  /** `extract_temporal_info(fn)` for the file stem `stem`. */
  function ExtractTemporal(stem: string): (r: Outcome<Option<Temporal>>)
    ensures |Split(stem, '-')| != 2 ==> r == Return(None)
    ensures r.Return? && r.value.Some? ==> r.value.value.name == "Feria"
  {
    var parts := Split(stem, '-');
    if |parts| != 2 then Return(None)
    else match TemporalWeek(parts[0])
      case Throw(e) => Throw(e)
      case Return((date, week)) =>
        match TemporalDay(parts[1])
        case Throw(e) => Throw(e)
        case Return((day, qualifiers)) =>
          match ReferenceDate(date)
          case Throw(e) => Throw(e)
          case Return(reference) =>
            match SundayRule(reference, week, day)
            case Throw(e) => Throw(e)
            case Return(datestr) => Return(Some(Temporal(qualifiers, datestr, "Feria")))
  }

  /** The month digits followed by one week digit name the week's Sunday
      after the first of the month. */
  lemma MonthWeek(month: nat, week: nat)
    requires 1 <= month <= 12 && week < 10
    ensures TemporalWeek(NatToString(month) + [DigitChar(week)]) == Return((NatToString(month), week))
  {
    var after := NatToString(month) + [DigitChar(week)];
    assert after == NatToString(10 * month + week) by {
      assert (10 * month + week) / 10 == month && (10 * month + week) % 10 == week;
    }
    IntOfWritten(10 * month + week);
    assert after[|after| - 1] == DigitChar(week);
    IntOfWritten(week);
    assert [DigitChar(week)] == NatToString(week);
    assert after[..|after| - 1] == NatToString(month);
  }

  /** A capitalised abbreviation followed by its week number. */
  lemma SpecialWeek(abbr: string, week: nat)
    requires |abbr| >= 2 && IsUpper(abbr[0]) && forall k :: 1 <= k < |abbr| ==> IsLower(abbr[k])
    ensures TemporalWeek(abbr + NatToString(week)) == Return((abbr, week))
  {
    var w := NatToString(week);
    var after := abbr + w;
    assert after[0] == abbr[0];
    assert ParseInt(after).None? by {
      NotIntUpper(after);
    }
    assert RunEnd(after, 1, IsLower) == |abbr| by {
      assert forall k :: 1 <= k < |abbr| ==> after[k] == abbr[k];
      assert after[|abbr|] == w[0];
      LowersEndAt(after, 1, |abbr|);
    }
    assert DigitsEnd(after, |abbr|) == |after| by {
      assert forall k :: |abbr| <= k < |after| ==> after[k] == w[k - |abbr|];
      DigitsRun(after, |abbr|, |after|);
    }
    assert after[..|abbr|] == abbr && after[|abbr|..] == w;
    CapitalWordAt(after, |abbr|);
  }

  /** The word found at the start of the text, its digits running to the end. */
  lemma CapitalWordAt(s: string, j: nat)
    requires WordAt(s, 0) && RunEnd(s, 1, IsLower) == j && DigitsEnd(s, j) == |s|
    ensures CapitalWord(s) == Some((s[..j], s[j..]))
  {
    assert FirstWord(s, 0) == Some(0);
    assert s[0..j] == s[..j] && s[j..|s|] == s[j..];
  }

  /** A string starting with a capital letter is not an integer. */
  lemma NotIntUpper(s: string)
    requires s != [] && IsUpper(s[0])
    ensures ParseInt(s).None?
  {
    StripStartsAt(s);
  }

  /** A string whose first character is not whitespace strips from its start. */
  lemma StripStartsAt(s: string)
    requires s != [] && !IsSpace(s[0])
    ensures Strip(s) != [] && Strip(s)[0] == s[0]
  {
    assert SkipSpaces(s, 0) == 0;
  }

  lemma {:induction false} LowersEndAt(s: string, i: nat, j: nat)
    requires i <= j <= |s| && (j < |s| ==> !IsLower(s[j]))
    requires forall k :: i <= k < j ==> IsLower(s[k])
    ensures RunEnd(s, i, IsLower) == j
    decreases j - i
  {
    if i < j {
      LowersEndAt(s, i + 1, j);
    }
  }

  /** A weekday digit followed by anything that makes the text no number
      gives that weekday and the rest as qualifiers. */
  lemma QualifiedDay(day: nat, q: string)
    requires day < 10 && q != [] && !IsDigit(q[0]) && !IsSpace(q[0])
    ensures TemporalDay([DigitChar(day)] + q) == Return((day, Some(q)))
  {
    var s := [DigitChar(day)] + q;
    assert s[1] == q[0];
    assert ParseInt(s).None? by {
      StripStartsAt(s);
      var t := Strip(s);
      assert SkipSpaces(s, 0) == 0;
      assert TrimEnd(s, 0, |s|) >= 2;
      assert t[1] == q[0];
    }
    assert FirstDigit(s, 0) == Some(0);
    assert s[1..] == q;
  }

  /** The pieces of a stem put together: how `extract_temporal_info`
      composes the week, the day and the reference date. */
  lemma StemOf(stem: string, after: string, dayText: string, date: string, week: nat, day: nat, reference: string)
    requires Split(stem, '-') == [after, dayText]
    requires TemporalWeek(after) == Return((date, week)) && week < 26
    requires TemporalDay(dayText) == Return((day, None)) && day < 8
    requires ReferenceDate(date) == Return(reference)
    ensures ExtractTemporal(stem)
      == Return(Some(Temporal(None, DayPrefix(day) + Tables.Ordinals[week] + " Sun after " + reference, "Feria")))
  {
  }

  /** `str(d)` of a weekday is read back as that weekday, with no qualifiers. */
  lemma PlainDay(day: nat)
    ensures TemporalDay(NatToString(day)) == Return((day, None))
  {
    IntOfWritten(day);
  }

  /** A numbered stem "MMW-D" names weekday D after the W-th Sunday after
      the first of month MM. */
  lemma MonthStem(month: nat, week: nat, day: nat)
    requires 1 <= month <= 12 && week < 10 && day < 8
    ensures ExtractTemporal(NatToString(month) + [DigitChar(week)] + "-" + NatToString(day))
      == Return(Some(Temporal(None, DayPrefix(day) + Tables.Ordinals[week] + " Sun after " + ("1 " + Tables.Months[month - 1]), "Feria")))
  {
    var after := NatToString(month) + [DigitChar(week)];
    var reference := "1 " + Tables.Months[month - 1];
    MonthStemParts(month, week, day);
    StemOf(after + "-" + NatToString(day), after, NatToString(day), NatToString(month), week, day, reference);
  }

  /** The week, the day and the reference date of a numbered stem. */
  lemma MonthStemParts(month: nat, week: nat, day: nat)
    requires 1 <= month <= 12 && week < 10 && day < 8
    ensures Split(NatToString(month) + [DigitChar(week)] + "-" + NatToString(day), '-')
      == [NatToString(month) + [DigitChar(week)], NatToString(day)]
    ensures TemporalWeek(NatToString(month) + [DigitChar(week)]) == Return((NatToString(month), week))
    ensures TemporalDay(NatToString(day)) == Return((day, None))
    ensures ReferenceDate(NatToString(month)) == Return("1 " + Tables.Months[month - 1])
  {
    var after := NatToString(month) + [DigitChar(week)];
    assert AllDigits(after);
    SplitAtDash(after, NatToString(day));
    MonthWeek(month, week);
    PlainDay(day);
    IntOfWritten(month);
  }

  /** A special-day stem "AbbrW-D" names weekday D after the W-th Sunday
      after that day. */
  lemma SpecialStem(abbr: string, week: nat, day: nat)
    requires |abbr| >= 2 && IsUpper(abbr[0]) && forall k :: 1 <= k < |abbr| ==> IsLower(abbr[k])
    requires abbr in Tables.FileSpecials && week < 26 && day < 8
    ensures ExtractTemporal(abbr + NatToString(week) + "-" + NatToString(day))
      == Return(Some(Temporal(None, DayPrefix(day) + Tables.Ordinals[week] + " Sun after " + Tables.FileSpecials[abbr], "Feria")))
  {
    var after := abbr + NatToString(week);
    assert forall k :: 0 <= k < |after| ==> after[k] != '-' by {
      assert forall k :: 0 <= k < |abbr| ==> after[k] == abbr[k];
      assert forall k :: |abbr| <= k < |after| ==> after[k] == NatToString(week)[k - |abbr|];
    }
    StemParts(after, NatToString(day));
    SpecialWeek(abbr, week);
    PlainDay(day);
    NotIntUpper(abbr);
    StemOf(after + "-" + NatToString(day), after, NatToString(day), abbr, week, day, Tables.FileSpecials[abbr]);
  }

  /** A stem with one dash splits into its two sides. */
  lemma StemParts(after: string, day: string)
    requires forall k :: 0 <= k < |after| ==> after[k] != '-'
    requires forall k :: 0 <= k < |day| ==> day[k] != '-'
    ensures Split(after + "-" + day, '-') == [after, day]
  {
    var s := after + "-" + day;
    assert s[|after|] == '-';
    assert forall k :: 0 <= k < |after| ==> s[k] == after[k];
    assert FindChar(s, '-', 0) == Some(|after|);
    assert s[..|after|] == after && s[|after| + 1..] == day;
    assert FindChar(day, '-', 0) == None;
  }

  // ---- is_rubric ----

  /** What `is_rubric` returns: the stripped rubric and content of a
      `!rubric` or `/:rubric:/content` line, or the pair `(None, None)`. */
  datatype Rubric = Rubric(rubric: string, content: string) | NoRubric

  /** The last index `k` with `lo <= k < j` at which `p` occurs. */
  function FindLast(s: string, p: string, lo: nat, j: nat): (r: Option<nat>)
    ensures r.Some? ==> lo <= r.value < j && OccursAt(s, p, r.value)
    ensures r.Some? ==> forall k :: r.value < k < j ==> !OccursAt(s, p, k)
    ensures r.None? ==> forall k :: lo <= k < j ==> !OccursAt(s, p, k)
    decreases j
  {
    if j <= lo then None
    else if OccursAt(s, p, j - 1) then Some(j - 1)
    else FindLast(s, p, lo, j - 1)
  }

  /** `is_rubric(line)`: `^!(.*)()` first, then `^/:(.*):/(.*)`, whose
      greedy first group ends at the last `:/`. */
  function IsRubric(line: Lines.Line): (r: Rubric)
    ensures StartsWith(line.content, "!") ==> r == Rubric(Strip(line.content[1..]), "")
    ensures !StartsWith(line.content, "!") && !StartsWith(line.content, "/:") ==> r == NoRubric
    ensures r.Rubric? ==> r.rubric == Strip(r.rubric) && r.content == Strip(r.content)
  {
    var c := line.content;
    StripTwice(if |c| >= 1 then c[1..] else c);
    if StartsWith(c, "!") then Rubric(Strip(c[1..]), "")
    else if StartsWith(c, "/:") then
      match FindLast(c, ":/", 2, |c|)
      case Some(k) =>
        StripTwice(c[2..k]);
        StripTwice(c[k + 2..]);
        Rubric(Strip(c[2..k]), Strip(c[k + 2..]))
      case None => NoRubric
    else NoRubric
  }

  /** A `/:rubric:/content` line splits at its last `:/`. */
  lemma RubricAndContent(n: int, rubric: string, content: string)
    requires !Contains(content, ":/")
    ensures IsRubric(Lines.Line(n, "/:" + rubric + ":/" + content)) == Rubric(Strip(rubric), Strip(content))
  {
    var c := "/:" + rubric + ":/" + content;
    var k := |rubric| + 2;
    assert FindLast(c, ":/", 2, |c|) == Some(k) by {
      LastMarker(rubric, content);
    }
    assert c[2..k] == rubric && c[k + 2..] == content;
    assert !StartsWith(c, "!") by {
      assert c[0] == '/';
    }
    assert StartsWith(c, "/:") by {
      assert c[..2] == "/:";
    }
  }

  /** The `:/` after the rubric is the last one of the line. */
  lemma LastMarker(rubric: string, content: string)
    requires !Contains(content, ":/")
    ensures FindLast("/:" + rubric + ":/" + content, ":/", 2, |"/:" + rubric + ":/" + content|) == Some(|rubric| + 2)
  {
    var c := "/:" + rubric + ":/" + content;
    var k := |rubric| + 2;
    assert OccursAt(c, ":/", k) by {
      assert c[k..k + 2] == ":/";
    }
    assert c[k + 1] == '/';
    assert forall i :: k + 2 <= i < |c| ==> c[i] == content[i - k - 2];
    forall j | k < j < |c| ensures !OccursAt(c, ":/", j) {
      if j + 2 <= |c| {
        assert c[j..j + 2][0] == c[j] && c[j..j + 2][1] == c[j + 1];
        if j > k + 1 {
          var m := j - k - 2;
          assert !OccursAt(content, ":/", m);
          assert m + 2 <= |content| && content[m..m + 2][0] == content[m] && content[m..m + 2][1] == content[m + 1];
          assert content[m..m + 2] != ":/";
          assert c[j] == content[m] && c[j + 1] == content[m + 1];
        }
      }
    }
    FindLastAt(c, ":/", 2, |c|, k);
  }

  /** The last occurrence is the one after which there is none. */
  lemma {:induction false} FindLastAt(s: string, p: string, lo: nat, j: nat, k: nat)
    requires lo <= k < j && OccursAt(s, p, k)
    requires forall i :: k < i < j ==> !OccursAt(s, p, i)
    ensures FindLast(s, p, lo, j) == Some(k)
    decreases j
  {
    if j - 1 != k {
      FindLastAt(s, p, lo, j - 1, k);
    }
  }

  // ---- guess_section_obj ----

  /** The schema `guess_section_obj` chooses for a section; `ListSection`
      is the empty list it returns for a set of things. */
  datatype SectionKind = AntiphonSection | HymnSection | FeastSection | ListSection | NoSection

  /** The guesses, in the order the dictionary is searched. */
  const SectionGuesses: seq<(string, SectionKind)> := [
    ("Invit", AntiphonSection), ("Ant Matutinum", ListSection), ("Hymnus", HymnSection),
    ("Ant ", AntiphonSection), ("Te Deum", HymnSection), ("Rank", FeastSection)]

  /** The first guess whose key occurs in the section name. */
  function FirstGuess(name: string, guesses: seq<(string, SectionKind)>): (r: Option<nat>)
    ensures r.Some? ==> r.value < |guesses| && Contains(name, guesses[r.value].0)
    ensures r.Some? ==> forall k :: 0 <= k < r.value ==> !Contains(name, guesses[k].0)
    ensures r.None? ==> forall k :: 0 <= k < |guesses| ==> !Contains(name, guesses[k].0)
    decreases |guesses|
  {
    if guesses == [] then None
    else if Contains(name, guesses[0].0) then Some(0)
    else match FirstGuess(name, guesses[1..])
      case None => None
      case Some(k) => Some(k + 1)
  }

  /** What `guess_section_obj` decides for a section of `verses` verses. */
  function SectionGuess(name: string, verses: nat): SectionKind {
    match FirstGuess(name, SectionGuesses)
    case Some(k) => SectionGuesses[k].1
    case None => if verses > 1 then ListSection else NoSection
  }

  /** `guess_section_obj(section_name, section)`: the dictionary is searched
      in order and the first key found in the name decides. */
  method GuessSectionObj(name: string, section: seq<seq<Lines.Line>>) returns (r: SectionKind)
    ensures r == SectionGuess(name, |section|)
  {
    for i := 0 to |SectionGuesses|
      invariant forall k :: 0 <= k < i ==> !Contains(name, SectionGuesses[k].0)
    {
      var (key, guess) := SectionGuesses[i];
      if Contains(name, key) {
        GuessAt(name, i);
        return guess;
      }
    }
    assert FirstGuess(name, SectionGuesses).None?;
    if |section| > 1 {
      return ListSection;
    }
    return NoSection;
  }

  /** The guess is the one of the first key found in the name. */
  lemma GuessAt(name: string, i: nat)
    requires i < |SectionGuesses| && Contains(name, SectionGuesses[i].0)
    requires forall k :: 0 <= k < i ==> !Contains(name, SectionGuesses[k].0)
    ensures SectionGuess(name, 0) == SectionGuesses[i].1
    ensures forall n :: SectionGuess(name, n) == SectionGuesses[i].1
  {
    var f := FirstGuess(name, SectionGuesses);
    assert f.Some?;
    if f.value < i {
    } else if f.value > i {
    }
  }

  /** A key found in the name fixes the guess whatever the section holds;
      without one, a section of several verses is a list. */
  lemma SectionGuessByName(name: string, verses: nat)
    ensures FirstGuess(name, SectionGuesses).None? ==>
      SectionGuess(name, verses) == (if verses > 1 then ListSection else NoSection)
    ensures SectionGuess(name, verses) == FeastSection <==>
      Contains(name, "Rank") && forall k :: 0 <= k < 5 ==> !Contains(name, SectionGuesses[k].0)
  {
    if SectionGuess(name, verses) == FeastSection {
      var f := FirstGuess(name, SectionGuesses);
      assert f == Some(5);
    }
    if Contains(name, "Rank") && forall k :: 0 <= k < 5 ==> !Contains(name, SectionGuesses[k].0) {
      GuessAt(name, 5);
    }
  }

  /** "Ant Matutinum" comes before "Ant ": the invitatory psalm's antiphons
      are a set of things, not one antiphon. */
  lemma MatinsAntiphonsAreList(name: string, verses: nat)
    requires Contains(name, "Ant Matutinum") && !Contains(name, "Invit")
    ensures SectionGuess(name, verses) == ListSection
  {
    GuessAt(name, 1);
  }

  // ---- strip_content and markup ----

  /** `strip_content(line)`: the stripped content, less a leading `v. `. */
  function StripContent(content: string): (r: string)
    ensures r == Strip(r)
    ensures !StartsWith(Strip(content), "v. ") ==> r == Strip(content)
  {
    var c := Strip(content);
    StripTwice(content);
    if StartsWith(c, "v. ") then
      StripTwice(c[3..]);
      Strip(c[3..])
    else c
  }

  /** A `v. ` verse loses its marker and nothing else. */
  lemma VerseMarkerDropped(x: string)
    requires x != [] && Strip(x) == x
    ensures StripContent("v. " + x) == x
  {
    var c := "v. " + x;
    assert c[0] == 'v' && c[|c| - 1] == x[|x| - 1];
    StripKeeps(c);
    assert c[3..] == x;
  }

  /** `re.sub(r"^r.\ (.)", r"::\1::", content)`: the initial of a line that
      opens with `r` and a two-character marker is set off. */
  function MarkHead(s: string): string {
    if |s| >= 4 && s[0] == 'r' && s[2] == ' ' then "::" + [s[3]] + "::" + s[4..] else s
  }

  /** ` r` followed by one character and a space, then the marked character. */
  predicate MarkAt(s: string, i: nat) {
    i + 4 < |s| && s[i] == ' ' && s[i + 1] == 'r' && s[i + 3] == ' '
  }

  /** `re.sub(r" r.\ (.)", r" ::\1::", s[i..])`, scanning left to right. */
  function MarkRest(s: string, i: nat): string
    requires i <= |s|
    decreases |s| - i
  {
    if i == |s| then []
    else if MarkAt(s, i) then " ::" + [s[i + 4]] + "::" + MarkRest(s, i + 5)
    else [s[i]] + MarkRest(s, i + 1)
  }

  /** `markup(content)`. */
  function Markup(content: string): string {
    var h := MarkHead(content);
    MarkRest(h, 0)
  }

  /** ` r` never occurs in the text. */
  predicate NoMarks(s: string) {
    forall k :: 0 <= k < |s| - 1 ==> !(s[k] == ' ' && s[k + 1] == 'r')
  }

  /** Text with no ` r` goes through the second substitution unchanged. */
  lemma {:induction false} MarkRestNothing(s: string, i: nat)
    requires i <= |s| && NoMarks(s)
    ensures MarkRest(s, i) == s[i..]
    decreases |s| - i
  {
    if i < |s| {
      assert !MarkAt(s, i);
      MarkRestNothing(s, i + 1);
      assert s[i..] == [s[i]] + s[i + 1..];
    }
  }

  /** A line with no responsory marker is left as it is. */
  lemma MarkupPlain(s: string)
    requires NoMarks(s) && (s == [] || s[0] != 'r')
    ensures Markup(s) == s
  {
    MarkRestNothing(s, 0);
  }

  /** `r. ` before a word sets off its initial: `::B::enedictus`. */
  lemma MarkupInitial(c: char, w: string)
    requires NoMarks(w)
    ensures Markup("r. " + [c] + w) == "::" + [c] + "::" + w
  {
    var s := "r. " + [c] + w;
    assert s[0] == 'r' && s[2] == ' ' && s[3] == c && s[4..] == w;
    var h := "::" + [c] + "::" + w;
    assert MarkHead(s) == h;
    assert NoMarks(h) by {
      forall k | 0 <= k < |h| - 1 ensures !(h[k] == ' ' && h[k + 1] == 'r') {
        if k >= 5 {
          assert h[k] == w[k - 5] && h[k + 1] == w[k - 4];
        } else {
          assert h[k + 1] == ':' || h[k] == ':';
        }
      }
    }
    MarkRestNothing(h, 0);
  }

  // ---- is_reference ----

  /** A citation ` [0-9]+:[0-9]+-[0-9]+` starts at `q`; the value is its end. */
  function CitationEnd(s: string, q: nat): (r: Option<nat>)
    ensures r.Some? ==> q < r.value <= |s|
  {
    if q + 1 < |s| && s[q] == ' ' then
      var e1 := DigitsEnd(s, q + 1);
      if e1 > q + 1 && e1 < |s| && s[e1] == ':' then
        var e2 := DigitsEnd(s, e1 + 1);
        if e2 > e1 + 1 && e2 < |s| && s[e2] == '-' then
          var e3 := DigitsEnd(s, e2 + 1);
          if e3 > e2 + 1 then Some(e3) else None
        else None
      else None
    else None
  }

  /** The first citation starting at or after `i`. */
  function FirstCitation(s: string, i: nat): (r: Option<nat>)
    ensures r.Some? ==> i <= r.value < |s| && CitationEnd(s, r.value).Some?
    ensures r.Some? ==> forall k :: i <= k < r.value ==> CitationEnd(s, k).None?
    ensures r.None? ==> forall k :: i <= k < |s| ==> CitationEnd(s, k).None?
    decreases |s| - i
  {
    if i >= |s| then None
    else if CitationEnd(s, i).Some? then Some(i)
    else FirstCitation(s, i + 1)
  }

  /** `is_reference(line)` as the text of its first group: `!` followed by
      the shortest text ending in a citation, or else `!In ` and the rest of
      the line. */
  function IsReference(content: string): (r: Option<string>)
    ensures '!' !in content ==> r.None?
  {
    match FindChar(content, '!', 0)
    case None => None
    case Some(p) =>
      match FirstCitation(content, p + 1)
      case Some(q) => Some(content[p + 1..CitationEnd(content, q).value])
      case None =>
        match FindFrom(content, "!In ", 0)
        case Some(k) => Some(content[k + 1..])
        case None => None
  }

  /** The citation ` chapter:first-last` written with digit strings. */
  function Cite(chapter: string, first: string, last: string): string {
    " " + chapter + ":" + first + "-" + last
  }

  /** `!book c:v-w` is read as the citation `book c:v-w`, for a book name
      with no `!` and no space before a digit. */
  lemma Citation(book: string, chapter: string, first: string, last: string)
    requires chapter != [] && first != [] && last != [] && AllDigits(chapter) && AllDigits(first) && AllDigits(last)
    requires forall k :: 0 <= k < |book| ==> book[k] != '!'
    requires forall k :: 0 <= k < |book| - 1 ==> book[k] == ' ' ==> !IsDigit(book[k + 1])
    ensures IsReference("!" + book + Cite(chapter, first, last)) == Some(book + Cite(chapter, first, last))
  {
    var cite := Cite(chapter, first, last);
    CitationAfterBook(book, chapter, first, last);
    assert ("!" + book + cite)[1..] == book + cite;
    MarkedCitation("!" + book + cite, book + cite, |book| + 1);
  }

  /** A text that starts with its only `!` and whose first citation after
      it ends the text is read whole. */
  lemma MarkedCitation(s: string, tail: string, q: nat)
    requires s != [] && s[0] == '!' && s[1..] == tail
    requires FirstCitation(s, 1) == Some(q) && CitationEnd(s, q) == Some(|s|)
    ensures IsReference(s) == Some(tail)
  {
    FindCharAt(s, '!', 0, 0);
    ReferenceAt(s, 0, q, |s|);
    assert s[1..|s|] == tail;
  }

  /** The first citation after the `!` is the one behind the book name. */
  lemma CitationAfterBook(book: string, chapter: string, first: string, last: string)
    requires chapter != [] && first != [] && last != [] && AllDigits(chapter) && AllDigits(first) && AllDigits(last)
    requires forall k :: 0 <= k < |book| - 1 ==> book[k] == ' ' ==> !IsDigit(book[k + 1])
    ensures var s := "!" + book + Cite(chapter, first, last);
      FirstCitation(s, 1) == Some(|book| + 1) && CitationEnd(s, |book| + 1) == Some(|s|)
  {
    var s := "!" + book + Cite(chapter, first, last);
    var q := |book| + 1;
    assert CitationEnd(s, q) == Some(|s|) by {
      CitationAt("!" + book, chapter, first, last);
    }
    assert forall k :: 1 <= k < q ==> CitationEnd(s, k).None? by {
      NoCitationInBook(book, Cite(chapter, first, last));
    }
    FirstCitationAt(s, 1, q);
  }

  /** The group of the first citation after the first `!`. */
  lemma ReferenceAt(content: string, p: nat, q: nat, e: nat)
    requires FindChar(content, '!', 0) == Some(p) && FirstCitation(content, p + 1) == Some(q)
    requires CitationEnd(content, q) == Some(e)
    ensures IsReference(content) == Some(content[p + 1..e])
  {
  }

  /** No citation starts inside a book name with no space before a digit. */
  lemma NoCitationInBook(book: string, cite: string)
    requires cite != [] && cite[0] == ' '
    requires forall k :: 0 <= k < |book| - 1 ==> book[k] == ' ' ==> !IsDigit(book[k + 1])
    ensures forall k :: 1 <= k < |book| + 1 ==> CitationEnd("!" + book + cite, k).None?
  {
    var s := "!" + book + cite;
    var q := |book| + 1;
    forall k | 1 <= k < q ensures CitationEnd(s, k).None? {
      assert s[k] == book[k - 1];
      if s[k] == ' ' {
        if k < q - 1 {
          assert s[k + 1] == book[k];
        } else {
          assert s[k + 1] == cite[0];
        }
      }
    }
  }

  /** A citation after any text runs to the end of the line. */
  lemma CitationAt(pre: string, c: string, f: string, l: string)
    requires c != [] && f != [] && l != [] && AllDigits(c) && AllDigits(f) && AllDigits(l)
    ensures CitationEnd(pre + Cite(c, f, l), |pre|) == Some(|pre| + |Cite(c, f, l)|)
  {
    var s := pre + Cite(c, f, l);
    var q := |pre|;
    assert s[q..] == Cite(c, f, l);
    CiteRuns(s, q, c, f, l);
  }

  /** A citation written out at `q` has its three runs of digits. */
  lemma CiteRuns(s: string, q: nat, c: string, f: string, l: string)
    requires c != [] && f != [] && l != [] && AllDigits(c) && AllDigits(f) && AllDigits(l)
    requires q <= |s| && s[q..] == Cite(c, f, l)
    ensures CitationEnd(s, q) == Some(|s|)
  {
    var t := Cite(c, f, l);
    var e1 := q + 1 + |c|;
    var e2 := e1 + 1 + |f|;
    assert t == [' '] + c + [':'] + f + ['-'] + l;
    assert forall k :: q <= k < |s| ==> s[k] == t[k - q];
    assert forall k :: q + 1 <= k < e1 ==> s[k] == c[k - q - 1];
    assert forall k :: e1 + 1 <= k < e2 ==> s[k] == f[k - e1 - 1];
    assert forall k :: e2 + 1 <= k < |s| ==> s[k] == l[k - e2 - 1];
    CitationRuns(s, q, e1, e2);
  }

  /** A space, digits, a colon, digits, a hyphen and digits to the end. */
  lemma CitationRuns(s: string, q: nat, e1: nat, e2: nat)
    requires q + 1 < e1 && e1 + 1 < e2 && e2 + 1 < |s|
    requires s[q] == ' ' && s[e1] == ':' && s[e2] == '-'
    requires forall k :: q + 1 <= k < e1 ==> IsDigit(s[k])
    requires forall k :: e1 + 1 <= k < e2 ==> IsDigit(s[k])
    requires forall k :: e2 + 1 <= k < |s| ==> IsDigit(s[k])
    ensures CitationEnd(s, q) == Some(|s|)
  {
    DigitsRun(s, q + 1, e1);
    DigitsRun(s, e1 + 1, e2);
    DigitsRun(s, e2 + 1, |s|);
  }

  /** The digits between two texts form one run. */
  lemma DigitsIn(pre: string, d: string, post: string)
    requires AllDigits(d) && (post != [] ==> !IsDigit(post[0]))
    ensures DigitsEnd(pre + d + post, |pre|) == |pre| + |d|
  {
    var s := pre + d + post;
    assert forall k :: |pre| <= k < |pre| + |d| ==> s[k] == d[k - |pre|];
    if post != [] {
      assert s[|pre| + |d|] == post[0];
    }
    DigitsRun(s, |pre|, |pre| + |d|);
  }

  /** A run of digits from `i` that stops at `j`. */
  lemma {:induction false} DigitsRun(s: string, i: nat, j: nat)
    requires i <= j <= |s| && (j < |s| ==> !IsDigit(s[j]))
    requires forall k :: i <= k < j ==> IsDigit(s[k])
    ensures DigitsEnd(s, i) == j
    decreases j - i
  {
    if i < j {
      DigitsRun(s, i + 1, j);
    }
  }

  lemma {:induction false} FirstCitationAt(s: string, i: nat, q: nat)
    requires i <= q && CitationEnd(s, q).Some?
    requires forall k :: i <= k < q ==> CitationEnd(s, k).None?
    ensures FirstCitation(s, i) == Some(q)
    decreases q - i
  {
    if i < q {
      assert CitationEnd(s, i).None?;
      FirstCitationAt(s, i + 1, q);
      assert FirstCitation(s, i) == FirstCitation(s, i + 1);
    }
  }

  // ---- guess_verse_obj ----

  /** The schema `guess_verse_obj` chooses for a verse; `ListVerse` is the
      empty list. */
  datatype VerseKind = VerseObj | VersicleObj | PrayerObj | ReadingObj | LineObj | BlockObj | ListVerse

  /** `^[VR]\.`: a versicle or a response. */
  predicate Versicle(c: string) {
    |c| >= 2 && (c[0] == 'V' || c[0] == 'R') && c[1] == '.'
  }

  /** The reference of the first of `candidates` that has one. */
  function FirstReference(candidates: seq<Lines.Line>): (r: Option<string>)
    ensures r.Some? ==> exists k :: 0 <= k < |candidates| && IsReference(candidates[k].content) == r
    ensures r.None? ==> forall k :: 0 <= k < |candidates| ==> IsReference(candidates[k].content).None?
    decreases |candidates|
  {
    if candidates == [] then None
    else match IsReference(candidates[0].content)
      case Some(g) => Some(g)
      case None =>
        var r := FirstReference(candidates[1..]);
        assert r.Some? ==> exists k :: 0 <= k < |candidates| && IsReference(candidates[k].content) == r by {
          if r.Some? {
            var k :| 0 <= k < |candidates[1..]| && IsReference(candidates[1..][k].content) == r;
            assert candidates[1..][k] == candidates[k + 1];
          }
        }
        r
  }

  /** `guess_verse_obj(verse, section_name)`: the schema and the reference
      of a reading. An empty verse outside a hymn raises IndexError. */
  function GuessVerse(verse: seq<Lines.Line>, name: string): (r: Outcome<(VerseKind, Option<string>)>)
    ensures r.Throw? <==> verse == [] && !Contains(name, "Hymnus") && !Contains(name, "Te Deum")
    ensures r.Throw? ==> r.exc == IndexError
    ensures r.Return? && r.value.1.Some? ==> (r.value.0 == ReadingObj &&
      exists k :: 0 <= k < 2 && k < |verse| && IsReference(verse[k].content) == r.value.1)
  {
    if Contains(name, "Hymnus") || Contains(name, "Te Deum") then Return((VerseObj, None))
    else if verse == [] then Throw(IndexError)
    else if Versicle(verse[0].content) then Return((VersicleObj, None))
    else if exists k :: 0 <= k < |verse| && Versicle(verse[k].content) then Return((PrayerObj, None))
    else if Contains(name, "Lectio") || Contains(name, "Capitulum") then
      var candidates := if |verse| >= 2 then verse[..2] else verse;
      var g := FirstReference(candidates);
      assert g.Some? ==> exists k :: 0 <= k < 2 && k < |verse| && IsReference(verse[k].content) == g by {
        if g.Some? {
          var k :| 0 <= k < |candidates| && IsReference(candidates[k].content) == g;
          assert candidates[k] == verse[k];
        }
      }
      Return((ReadingObj, g))
    else if |verse| == 1 then Return((LineObj, None))
    else if StartsWith(verse[0].content, "v.") then Return((BlockObj, None))
    else Return((ListVerse, None))
  }

  /** A verse opening with a versicle is a versicle; one with a versicle
      further down is a prayer; otherwise the section name decides. */
  lemma VersicleOrPrayer(verse: seq<Lines.Line>, name: string, k: nat)
    requires !Contains(name, "Hymnus") && !Contains(name, "Te Deum")
    requires k < |verse| && Versicle(verse[k].content)
    ensures GuessVerse(verse, name) == Return((if Versicle(verse[0].content) then VersicleObj else PrayerObj, None))
  {
  }

  /** A reading whose first line is a citation takes it as its reference. */
  lemma ReadingReference(verse: seq<Lines.Line>, name: string)
    requires !Contains(name, "Hymnus") && !Contains(name, "Te Deum") && Contains(name, "Lectio")
    requires verse != [] && forall k :: 0 <= k < |verse| ==> !Versicle(verse[k].content)
    requires IsReference(verse[0].content).Some?
    ensures GuessVerse(verse, name) == Return((ReadingObj, IsReference(verse[0].content)))
  {
    var candidates := if |verse| >= 2 then verse[..2] else verse;
    assert candidates[0] == verse[0];
  }

  // ---- replace ----

  /** A line of a verse after `replace`: kept, or the parsed object its
      `&key` names. */
  datatype Piece<R> = Kept(line: Lines.Line) | Replaced(value: R)

  /** The key a `&key` or `$key` line names, `~` removed and renamed by the
      substitution table. */
  function ReplacementKey(content: string): Option<string> {
    match FirstSigil(content, 0)
    case None => None
    case Some(k) =>
      var key := Replace(content[k + 1..], "~", "");
      Some(if key == "pater_noster" then "Pater_noster1" else if key == "teDeum" then "Te Deum" else key)
  }

  /** The first `&` or `$` at or after `i`. */
  function FirstSigil(s: string, i: nat): (r: Option<nat>)
    ensures r.Some? ==> i <= r.value < |s| && (s[r.value] == '&' || s[r.value] == '$')
    ensures r.None? ==> forall k :: i <= k < |s| ==> s[k] != '&' && s[k] != '$'
    decreases |s| - i
  {
    if i >= |s| then None
    else if s[i] == '&' || s[i] == '$' then Some(i)
    else FirstSigil(s, i + 1)
  }

  /** `.+\(.+\)`: a call with an argument, after at least one character. */
  predicate CallLike(key: string) {
    match FindChar(key, '(', 1)
    case None => false
    case Some(i) => match FindLastChar(key, ')', |key|) case None => false case Some(j) => j >= i + 2
  }

  /** The call pattern holds exactly when some `(` after the first character
      has a `)` two or more places later. */
  lemma CallLikeMeans(key: string)
    ensures CallLike(key) <==> exists i, j :: 1 <= i && i + 2 <= j < |key| && key[i] == '(' && key[j] == ')'
  {
    if exists i, j :: 1 <= i && i + 2 <= j < |key| && key[i] == '(' && key[j] == ')' {
      var i, j :| 1 <= i && i + 2 <= j < |key| && key[i] == '(' && key[j] == ')';
      var a := FindChar(key, '(', 1);
      var b := FindLastChar(key, ')', |key|);
      assert a.Some? && a.value <= i;
      assert b.Some? && b.value >= j;
    }
  }

  /** The keys `replace` leaves in place. */
  predicate Skipped(key: string) {
    Contains(key, "Dominus_vobiscum") || Contains(key, "Benedicamus_Domino") || CallLike(key)
  }

  /** One line of `replace`: KeyError for an unknown key, AssertionError for
      an empty replacement. */
  function ReplaceLine<R(==)>(line: Lines.Line, replacements: map<string, R>, truthy: R -> bool): (r: Outcome<Piece<R>>)
    ensures r.Return? && r.value.Replaced? ==> r.value.value in replacements.Values && truthy(r.value.value)
    ensures r.Return? && r.value.Kept? ==> r.value.line == line
  {
    match ReplacementKey(line.content)
    case None => Return(Kept(line))
    case Some(key) =>
      if Skipped(key) then Return(Kept(line))
      else if key !in replacements then Throw(KeyError)
      else if !truthy(replacements[key]) then Throw(AssertionError)
      else Return(Replaced(replacements[key]))
  }

  /** The whole verse, stopping at the first line that raises. */
  function ReplaceVerse<R(==)>(verse: seq<Lines.Line>, replacements: map<string, R>, truthy: R -> bool): (r: Outcome<seq<Piece<R>>>)
    ensures r.Return? ==> |r.value| == |verse|
    ensures r.Return? ==> forall k :: 0 <= k < |verse| ==> ReplaceLine(verse[k], replacements, truthy) == Return(r.value[k])
  {
    Traverse(verse, (l: Lines.Line) => ReplaceLine(l, replacements, truthy))
  }

  /** A verse raises exactly when one of its lines does. */
  lemma ReplaceVerseFails<R>(verse: seq<Lines.Line>, replacements: map<string, R>, truthy: R -> bool)
    ensures ReplaceVerse(verse, replacements, truthy).Throw? <==>
      exists k :: 0 <= k < |verse| && ReplaceLine(verse[k], replacements, truthy).Throw?
  {
    TraverseFails(verse, (l: Lines.Line) => ReplaceLine(l, replacements, truthy));
  }

  /** The error a verse raises is that of its first line that raises. */
  lemma ReplaceVerseFirstError<R>(verse: seq<Lines.Line>, replacements: map<string, R>, truthy: R -> bool)
    requires ReplaceVerse(verse, replacements, truthy).Throw?
    ensures exists k :: 0 <= k < |verse| && ReplaceLine(verse[k], replacements, truthy) == Throw(ReplaceVerse(verse, replacements, truthy).exc) &&
                        (forall j :: 0 <= j < k ==> ReplaceLine(verse[j], replacements, truthy).Return?)
  {
    TraverseFirstError(verse, (l: Lines.Line) => ReplaceLine(l, replacements, truthy));
  }

  /** A verse with no `&` or `$` comes back line for line. */
  lemma NothingToReplace<R>(verse: seq<Lines.Line>, replacements: map<string, R>, truthy: R -> bool)
    requires forall k :: 0 <= k < |verse| ==> FirstSigil(verse[k].content, 0).None?
    ensures ReplaceVerse(verse, replacements, truthy).Return?
    ensures forall k :: 0 <= k < |verse| ==> ReplaceVerse(verse, replacements, truthy).value[k] == Kept(verse[k])
  {
    ReplaceVerseFails(verse, replacements, truthy);
  }

  /** `replace(verse)`, with `parser_vars.replacements` as a parameter and
      the truth value of a parsed object as `truthy`. */
  method ReplaceLines<R(==)>(verse: seq<Lines.Line>, replacements: map<string, R>, truthy: R -> bool) returns (r: Outcome<seq<Piece<R>>>)
    ensures r == ReplaceVerse(verse, replacements, truthy)
  {
    var pieces: seq<Piece<R>> := [];
    PrefixedNothing(ReplaceVerse(verse, replacements, truthy));
    for i := 0 to |verse|
      invariant ReplaceVerse(verse, replacements, truthy) == Prefixed(pieces, ReplaceVerse(verse[i..], replacements, truthy))
    {
      assert verse[i..][0] == verse[i] && verse[i..][1..] == verse[i + 1..];
      var line := verse[i];
      var piece: Piece<R> := Kept(line);
      var key := ReplacementKey(line.content);
      if key.Some? && !Skipped(key.value) {
        if key.value !in replacements {
          return Throw(KeyError);
        }
        var v := replacements[key.value];
        if !truthy(v) {
          return Throw(AssertionError);
        }
        piece := Replaced(v);
      }
      PrefixedStep(pieces, piece, ReplaceVerse(verse[i + 1..], replacements, truthy));
      pieces := pieces + [piece];
    }
    assert verse[|verse|..] == [];
    assert pieces + [] == pieces;
    return Return(pieces);
  }

  // ---- extract_section_information ----

  /** What follows the literal of a qualifier pattern: nothing, one digit
      (`[0-9]`) or any number of digits (`[0-9]*`). */
  datatype DigitSuffix = NoDigits | OneDigit | AnyDigits

  datatype Pattern = Pattern(literal: string, digits: DigitSuffix)

  /** The qualifier patterns, in the order they are tried. */
  const QualifierPatterns: seq<Pattern> := [
    Pattern("Day", OneDigit), Pattern("Adv", NoDigits), Pattern("Quad", AnyDigits), Pattern("Pasch", NoDigits)]

  /** `Hymnus[0-9]`. */
  const HymnPattern: Pattern := Pattern("Hymnus", OneDigit)

  /** The day qualifiers, in the order they are tried. */
  const DayNames: seq<string> := ["Dominica", "Feria"]

  /** The liturgical context a `<kind> Special` file gives its sections. */
  const FromFilename: map<string, seq<string>> := map[
    "Matutinum" := ["matutinum"], "Major" := ["laudes", "vespera"],
    "Minor" := ["prima", "tertia", "sexta", "nona"], "Prima" := ["prima"]]

  /** The end of a match of `p` starting at `k`, if there is one. */
  function MatchEnd(s: string, p: Pattern, k: nat): (r: Option<nat>)
    ensures r.Some? ==> OccursAt(s, p.literal, k) && k + |p.literal| <= r.value <= |s|
  {
    if !OccursAt(s, p.literal, k) then None
    else
      var e := k + |p.literal|;
      match p.digits
      case NoDigits => Some(e)
      case OneDigit => if e < |s| && IsDigit(s[e]) then Some(e + 1) else None
      case AnyDigits => Some(DigitsEnd(s, e))
  }

  /** `re.search`: the leftmost match at or after `i`. */
  function Search(s: string, p: Pattern, i: nat): (r: Option<nat>)
    ensures r.Some? ==> i <= r.value && MatchEnd(s, p, r.value).Some?
    ensures r.Some? ==> forall k :: i <= k < r.value ==> MatchEnd(s, p, k).None?
    ensures r.None? && p.literal != [] ==> forall k :: i <= k ==> MatchEnd(s, p, k).None?
    decreases |s| - i
  {
    if i >= |s| then None
    else if MatchEnd(s, p, i).Some? then Some(i)
    else Search(s, p, i + 1)
  }

  /** `re.sub(p, "", s[i..])`: every match, left to right, removed. */
  function RemoveMatches(s: string, p: Pattern, i: nat): (r: string)
    requires p.literal != [] && i <= |s|
    ensures |r| <= |s| - i
    decreases |s| - i
  {
    if i == |s| then []
    else match MatchEnd(s, p, i)
      case Some(e) => RemoveMatches(s, p, e)
      case None => [s[i]] + RemoveMatches(s, p, i + 1)
  }

  /** The qualifier loop: each pattern found is recorded and all of its
      matches are cut from the name. */
  function QualifierRun(name: string, qualifiers: seq<string>, patterns: seq<Pattern>): (r: (string, seq<string>))
    requires forall k :: 0 <= k < |patterns| ==> patterns[k].literal != []
    decreases |patterns|
  {
    if patterns == [] then (name, qualifiers)
    else
      var p := patterns[0];
      match Search(name, p, 0)
      case None => QualifierRun(name, qualifiers, patterns[1..])
      case Some(k) =>
        QualifierRun(Strip(RemoveMatches(name, p, 0)), qualifiers + [name[k..MatchEnd(name, p, k).value]], patterns[1..])
  }

  /** The day loop: `Dominica` and `Feria` are recorded and cut from the name. */
  function DayRun(name: string, qualifiers: seq<string>, days: seq<string>): (r: (string, seq<string>))
    requires forall k :: 0 <= k < |days| ==> days[k] != []
    decreases |days|
  {
    if days == [] then (name, qualifiers)
    else if Contains(name, days[0]) then DayRun(Strip(Replace(name, days[0], "")), qualifiers + [days[0]], days[1..])
    else DayRun(name, qualifiers, days[1..])
  }

  /** The hour named in the section, with the digits that follow it. */
  function OfficeToken(name: string, office: string): (t: string)
    requires Contains(name, office)
    ensures StartsWith(t, office)
  {
    var k := FindFrom(name, office, 0).value;
    var t := name[k..DigitsEnd(name, k + |office|)];
    assert t[..|office|] == name[k..k + |office|];
    t
  }

  /** The office loop: the last hour found becomes the liturgical context
      and is cut from the name unless that would leave nothing. */
  function OfficeRun(name: string, context: seq<string>, offices: seq<string>): (r: (string, seq<string>))
    requires forall k :: 0 <= k < |offices| ==> offices[k] != []
    decreases |offices|
  {
    if offices == [] then (name, context)
    else if Contains(name, offices[0]) then
      var token := OfficeToken(name, offices[0]);
      var candidate := Strip(Replace(name, token, ""));
      OfficeRun(if candidate != [] then candidate else name, [Lower(token)], offices[1..])
    else OfficeRun(name, context, offices[1..])
  }

  /** `re.sub(r"(.*)M(.*)", r"\1\2", s)`: the last `M` removed. */
  function DropLast(s: string, c: char): (r: string)
    ensures c in s ==> |r| == |s| - 1
    ensures c !in s ==> r == s
  {
    match FindLastChar(s, c, |s|)
    case None => s
    case Some(j) => s[..j] + s[j + 1..]
  }

  /** The last digit of the text. */
  function LastDigit(s: string, j: nat): (r: Option<nat>)
    requires j <= |s|
    ensures r.Some? ==> r.value < j && IsDigit(s[r.value])
    ensures r.Some? ==> forall k :: r.value < k < j ==> !IsDigit(s[k])
    ensures r.None? ==> forall k :: 0 <= k < j ==> !IsDigit(s[k])
    decreases j
  {
    if j == 0 then None
    else if IsDigit(s[j - 1]) then Some(j - 1)
    else LastDigit(s, j - 1)
  }

  /** `re.sub(r"(.*)[0-9](.*)", r"\1\2", s)`: the last digit removed. */
  function DropLastDigit(s: string): string {
    match LastDigit(s, |s|)
    case None => s
    case Some(j) => s[..j] + s[j + 1..]
  }

  /** `<kind> Special` in the file name gives the context of that kind of
      file; an unknown kind raises KeyError. */
  function SpecialContext(filename: string): (r: Outcome<seq<string>>)
    ensures r.Throw? ==> r.exc == KeyError
  {
    match FindLast(filename, " Special", 0, |filename|)
    case None => Return([])
    case Some(k) =>
      if filename[..k] in FromFilename then Return(FromFilename[filename[..k]]) else Throw(KeyError)
  }

  /** The dictionary `extract_section_information` returns; an empty field
      is a key the final filter drops. */
  datatype SectionInfo = SectionInfo(qualifiers: seq<string>, context: seq<string>, title: string, version: seq<string>)

  /** The multi-word title loop: `Versum 2` becomes the title and is cut
      from the name. */
  function MultiwordTitle(name: string): (r: (string, string))
    ensures r.1 == [] || r.1 == "versum 2"
  {
    if Contains(name, "Versum 2") then (Strip(Replace(name, "Versum 2", "")), "versum 2") else (name, "")
  }

  /** An `M` anywhere marks the monastic version; the last one is cut. */
  function Monastic(name: string): (r: (string, seq<string>))
    ensures r.1 == [] || r.1 == ["monastic"]
  {
    if 'M' in name then (DropLast(name, 'M'), ["monastic"]) else (name, [])
  }

  /** The monastic version is set exactly when the name the hour loop
      leaves holds an `M`: cutting `Versum 2` removes none. */
  lemma MonasticExactly(name: string, qualifiers: seq<string>, context: seq<string>)
    ensures Finish(name, qualifiers, context).version == ["monastic"] <==> 'M' in name
    ensures Finish(name, qualifiers, context).version == [] <==> 'M' !in name
  {
    if Contains(name, "Versum 2") {
      DeleteKeepsChar(name, "Versum 2", 'M');
      StripKeepsChar(Replace(name, "Versum 2", ""), 'M');
    }
  }

  /** `Hymnus[0-9]` is recorded and the last digit of the name is cut. */
  function NumberedHymn(name: string, qualifiers: seq<string>): (r: (string, seq<string>))
    ensures r.1 == qualifiers || (|r.1| == |qualifiers| + 1 && r.1[..|qualifiers|] == qualifiers &&
      StartsWith(r.1[|qualifiers|], "Hymnus"))
  {
    match Search(name, HymnPattern, 0)
    case Some(k) =>
      var t := name[k..k + 7];
      assert t[..6] == name[k..k + 6];
      assert (qualifiers + [t])[..|qualifiers|] == qualifiers;
      (Strip(DropLastDigit(name)), qualifiers + [t])
    case None => (name, qualifiers)
  }

  /** The steps after the office loop: the multi-word title, the monastic
      `M`, the numbered hymn and the default title. */
  function Finish(name: string, qualifiers: seq<string>, context: seq<string>): SectionInfo {
    var titled := MultiwordTitle(name);
    var monastic := Monastic(titled.0);
    var hymn := NumberedHymn(monastic.0, qualifiers);
    SectionInfo(hymn.1, context, if titled.1 == [] then Lower(Strip(hymn.0)) else titled.1, monastic.1)
  }

  /** `extract_section_information(section_name, filename)`. */
  function ExtractSection(sectionName: string, filename: string): (r: Outcome<SectionInfo>)
    ensures r.Throw? ==> r.exc == KeyError
  {
    match SpecialContext(filename)
    case Throw(e) => Throw(e)
    case Return(fileContext) =>
      PatternsNamed();
      var named := QualifierRun(sectionName, [], QualifierPatterns);
      var dated := DayRun(named.0, named.1, DayNames);
      var placed := OfficeRun(dated.0, fileContext, Structures.Commands);
      Return(Finish(placed.0, dated.1, placed.1))
  }

  /** The qualifier loop of `extract_section_information`. */
  method QualifierLoop(sectionName: string) returns (name: string, qualifiers: seq<string>)
    ensures (name, qualifiers) == QualifierRun(sectionName, [], QualifierPatterns)
  {
    name := sectionName;
    qualifiers := [];
    for i := 0 to |QualifierPatterns|
      invariant QualifierRun(sectionName, [], QualifierPatterns) == QualifierRun(name, qualifiers, QualifierPatterns[i..])
    {
      assert QualifierPatterns[i..][0] == QualifierPatterns[i] && QualifierPatterns[i..][1..] == QualifierPatterns[i + 1..];
      var p := QualifierPatterns[i];
      var m := Search(name, p, 0);
      if m.Some? {
        qualifiers := qualifiers + [name[m.value..MatchEnd(name, p, m.value).value]];
        name := Strip(RemoveMatches(name, p, 0));
      }
    }
    assert QualifierPatterns[|QualifierPatterns|..] == [];
  }

  /** The day loop of `extract_section_information`. */
  method DayLoop(name0: string, qualifiers0: seq<string>) returns (name: string, qualifiers: seq<string>)
    ensures (name, qualifiers) == DayRun(name0, qualifiers0, DayNames)
  {
    name, qualifiers := name0, qualifiers0;
    for i := 0 to |DayNames|
      invariant DayRun(name0, qualifiers0, DayNames) == DayRun(name, qualifiers, DayNames[i..])
    {
      assert DayNames[i..][0] == DayNames[i] && DayNames[i..][1..] == DayNames[i + 1..];
      var day := DayNames[i];
      if Contains(name, day) {
        name := Strip(Replace(name, day, ""));
        qualifiers := qualifiers + [day];
      }
    }
    assert DayNames[|DayNames|..] == [];
  }

  /** Every pattern, every day and every hour has a literal to look for. */
  predicate PatternsNamedHold() {
    (forall k :: 0 <= k < |QualifierPatterns| ==> QualifierPatterns[k].literal != []) &&
    (forall k :: 0 <= k < |DayNames| ==> DayNames[k] != []) &&
    (forall k :: 0 <= k < |Structures.Commands| ==> Structures.Commands[k] != [])
  }

  lemma PatternsNamed()
    ensures PatternsNamedHold()
  {
  }

  /** The loop over the hours of `extract_section_information`. */
  method OfficeLoop(name0: string, context0: seq<string>) returns (name: string, context: seq<string>)
    ensures (name, context) == OfficeRun(name0, context0, Structures.Commands)
  {
    name, context := name0, context0;
    PatternsNamed();
    for i := 0 to |Structures.Commands|
      invariant OfficeRun(name0, context0, Structures.Commands) == OfficeRun(name, context, Structures.Commands[i..])
    {
      assert Structures.Commands[i..][0] == Structures.Commands[i];
      assert Structures.Commands[i..][1..] == Structures.Commands[i + 1..];
      var office := Structures.Commands[i];
      if Contains(name, office) {
        var token := OfficeToken(name, office);
        context := [Lower(token)];
        var candidate := Strip(Replace(name, token, ""));
        if candidate != [] {
          name := candidate;
        }
      }
    }
    assert Structures.Commands[|Structures.Commands|..] == [];
  }

  /** `extract_section_information` step by step. */
  method ExtractSectionInformation(sectionName: string, filename: string) returns (r: Outcome<SectionInfo>)
    ensures r == ExtractSection(sectionName, filename)
  {
    var context: seq<string> := [];
    var special := FindLast(filename, " Special", 0, |filename|);
    if special.Some? {
      var kind := filename[..special.value];
      if kind !in FromFilename {
        return Throw(KeyError);
      }
      context := FromFilename[kind];
    }
    var name, qualifiers := QualifierLoop(sectionName);
    name, qualifiers := DayLoop(name, qualifiers);
    name, context := OfficeLoop(name, context);
    return Return(Finish(name, qualifiers, context));
  }

  /** The qualifiers a section can be given. */
  predicate Marker(q: string) {
    StartsWith(q, "Day") || StartsWith(q, "Adv") || StartsWith(q, "Quad") || StartsWith(q, "Pasch") ||
    q == "Dominica" || q == "Feria" || StartsWith(q, "Hymnus")
  }

  /** The qualifier loop keeps what it was given and adds only matches of
      its patterns. */
  lemma {:induction false} QualifiersFound(name: string, qualifiers: seq<string>, patterns: seq<Pattern>)
    requires forall k :: 0 <= k < |patterns| ==> patterns[k].literal != []
    ensures |QualifierRun(name, qualifiers, patterns).1| >= |qualifiers|
    ensures QualifierRun(name, qualifiers, patterns).1[..|qualifiers|] == qualifiers
    ensures forall k :: |qualifiers| <= k < |QualifierRun(name, qualifiers, patterns).1| ==>
      exists j :: 0 <= j < |patterns| && StartsWith(QualifierRun(name, qualifiers, patterns).1[k], patterns[j].literal)
    decreases |patterns|
  {
    if patterns != [] {
      var p := patterns[0];
      var r := QualifierRun(name, qualifiers, patterns);
      match Search(name, p, 0)
      case None =>
        QualifiersFound(name, qualifiers, patterns[1..]);
        forall k | |qualifiers| <= k < |r.1|
          ensures exists j :: 0 <= j < |patterns| && StartsWith(r.1[k], patterns[j].literal)
        {
          var j :| 0 <= j < |patterns[1..]| && StartsWith(r.1[k], patterns[1..][j].literal);
          assert patterns[1..][j] == patterns[j + 1];
        }
      case Some(i) =>
        var t := name[i..MatchEnd(name, p, i).value];
        var n := Strip(RemoveMatches(name, p, 0));
        QualifiersFound(n, qualifiers + [t], patterns[1..]);
        assert r == QualifierRun(n, qualifiers + [t], patterns[1..]);
        assert r.1[..|qualifiers| + 1] == qualifiers + [t];
        assert r.1[..|qualifiers|] == (qualifiers + [t])[..|qualifiers|];
        assert StartsWith(t, p.literal) by {
          assert t[..|p.literal|] == name[i..i + |p.literal|];
        }
        forall k | |qualifiers| <= k < |r.1|
          ensures exists j :: 0 <= j < |patterns| && StartsWith(r.1[k], patterns[j].literal)
        {
          if k == |qualifiers| {
            assert r.1[k] == (qualifiers + [t])[k] == t;
          } else {
            var j :| 0 <= j < |patterns[1..]| && StartsWith(r.1[k], patterns[1..][j].literal);
            assert patterns[1..][j] == patterns[j + 1];
          }
        }
    }
  }

  /** A match of a qualifier pattern is a marker. */
  lemma PatternMarker(q: string, j: nat)
    requires j < |QualifierPatterns| && StartsWith(q, QualifierPatterns[j].literal)
    ensures Marker(q)
  {
  }

  /** The day loop keeps what it was given and adds only day names. */
  lemma {:induction false} DaysFound(name: string, qualifiers: seq<string>, days: seq<string>)
    requires forall k :: 0 <= k < |days| ==> days[k] != []
    ensures |DayRun(name, qualifiers, days).1| >= |qualifiers|
    ensures DayRun(name, qualifiers, days).1[..|qualifiers|] == qualifiers
    ensures forall k :: |qualifiers| <= k < |DayRun(name, qualifiers, days).1| ==> DayRun(name, qualifiers, days).1[k] in days
    decreases |days|
  {
    if days != [] {
      var r := DayRun(name, qualifiers, days);
      if Contains(name, days[0]) {
        var n := Strip(Replace(name, days[0], ""));
        var q := qualifiers + [days[0]];
        DaysFound(n, q, days[1..]);
        assert r == DayRun(n, q, days[1..]);
        assert r.1[..|qualifiers|] == q[..|qualifiers|] by {
          assert r.1[..|q|] == q;
        }
        forall k | |qualifiers| <= k < |r.1| ensures r.1[k] in days {
          if k == |qualifiers| {
            assert r.1[k] == r.1[..|q|][k] == days[0];
          } else {
            assert r.1[k] in days[1..];
          }
        }
      } else {
        DaysFound(name, qualifiers, days[1..]);
        assert r == DayRun(name, qualifiers, days[1..]);
        forall k | |qualifiers| <= k < |r.1| ensures r.1[k] in days {
          assert r.1[k] in days[1..];
        }
      }
    }
  }

  /** The office loop leaves the context as it was or replaces it with one
      lower-cased hour. */
  lemma {:induction false} OfficeFound(name: string, context: seq<string>, offices: seq<string>)
    requires forall k :: 0 <= k < |offices| ==> offices[k] != []
    ensures OfficeRun(name, context, offices).1 == context ||
      exists t :: OfficeRun(name, context, offices).1 == [Lower(t)]
    decreases |offices|
  {
    if offices != [] {
      if Contains(name, offices[0]) {
        var token := OfficeToken(name, offices[0]);
        var candidate := Strip(Replace(name, token, ""));
        OfficeFound(if candidate != [] then candidate else name, [Lower(token)], offices[1..]);
      } else {
        OfficeFound(name, context, offices[1..]);
      }
    }
  }

  /** The contexts a file name gives are already lower case. */
  lemma FilenameContextLower(kind: string)
    requires kind in FromFilename
    ensures forall k :: 0 <= k < |FromFilename[kind]| ==> Lower(FromFilename[kind][k]) == FromFilename[kind][k]
  {
    assert Lower("matutinum") == "matutinum";
    assert Lower("laudes") == "laudes";
    assert Lower("vespera") == "vespera";
    assert Lower("prima") == "prima";
    assert Lower("tertia") == "tertia";
    assert Lower("sexta") == "sexta";
    assert Lower("nona") == "nona";
  }

  /** What a successful `extract_section_information` returns: qualifiers
      drawn from the markers, a lower-case context and title, and no
      version or the monastic one. */
  lemma SectionShape(sectionName: string, filename: string)
    requires ExtractSection(sectionName, filename).Return?
    ensures var info := ExtractSection(sectionName, filename).value;
      (info.version == [] || info.version == ["monastic"]) &&
      Lower(info.title) == info.title &&
      (forall k :: 0 <= k < |info.context| ==> Lower(info.context[k]) == info.context[k]) &&
      (forall k :: 0 <= k < |info.qualifiers| ==> Marker(info.qualifiers[k]))
  {
    var fileContext := SpecialContext(filename).value;
    assert forall k :: 0 <= k < |fileContext| ==> Lower(fileContext[k]) == fileContext[k] by {
      var found := FindLast(filename, " Special", 0, |filename|);
      if found.Some? {
        FilenameContextLower(filename[..found.value]);
      }
    }
    PatternsNamed();
    var named := QualifierRun(sectionName, [], QualifierPatterns);
    var dated := DayRun(named.0, named.1, DayNames);
    var placed := OfficeRun(dated.0, fileContext, Structures.Commands);
    assert ExtractSection(sectionName, filename) == Return(Finish(placed.0, dated.1, placed.1));
    QualifiersMarked(sectionName, named, dated);
    ContextLower(dated.0, fileContext, placed);
    FinishShape(placed.0, dated.1, placed.1);
  }

  /** The loops over the patterns and the days record only markers. */
  lemma QualifiersMarked(sectionName: string, named: (string, seq<string>), dated: (string, seq<string>))
    requires PatternsNamedHold() && named == QualifierRun(sectionName, [], QualifierPatterns)
    requires dated == DayRun(named.0, named.1, DayNames)
    ensures forall k :: 0 <= k < |dated.1| ==> Marker(dated.1[k])
  {
    QualifiersFound(sectionName, [], QualifierPatterns);
    DaysFound(named.0, named.1, DayNames);
    forall k | 0 <= k < |dated.1| ensures Marker(dated.1[k]) {
      if k < |named.1| {
        assert dated.1[k] == dated.1[..|named.1|][k];
        var j :| 0 <= j < |QualifierPatterns| && StartsWith(named.1[k], QualifierPatterns[j].literal);
        PatternMarker(named.1[k], j);
      }
    }
  }

  /** The office loop keeps a lower-case context lower case. */
  lemma ContextLower(name: string, context: seq<string>, placed: (string, seq<string>))
    requires forall k :: 0 <= k < |context| ==> Lower(context[k]) == context[k]
    requires PatternsNamedHold() && placed == OfficeRun(name, context, Structures.Commands)
    ensures forall k :: 0 <= k < |placed.1| ==> Lower(placed.1[k]) == placed.1[k]
  {
    OfficeFound(name, context, Structures.Commands);
    if placed.1 != context {
      var t :| placed.1 == [Lower(t)];
      LowerTwice(t);
    }
  }

  /** The steps after the loops add only a numbered hymn and keep the title
      lower case. */
  lemma FinishShape(name: string, qualifiers: seq<string>, context: seq<string>)
    requires forall k :: 0 <= k < |qualifiers| ==> Marker(qualifiers[k])
    ensures var info := Finish(name, qualifiers, context);
      (info.version == [] || info.version == ["monastic"]) &&
      Lower(info.title) == info.title &&
      (forall k :: 0 <= k < |info.qualifiers| ==> Marker(info.qualifiers[k]))
  {
    var titled := MultiwordTitle(name);
    var hymn := NumberedHymn(Monastic(titled.0).0, qualifiers);
    HymnMarkers(Monastic(titled.0).0, qualifiers);
    assert Lower(if titled.1 == [] then Lower(Strip(hymn.0)) else titled.1) ==
      (if titled.1 == [] then Lower(Strip(hymn.0)) else titled.1) by {
      LowerTwice(Strip(hymn.0));
      assert Lower("versum 2") == "versum 2";
    }
  }

  /** The numbered hymn adds only a `Hymnus` marker. */
  lemma HymnMarkers(name: string, qualifiers: seq<string>)
    requires forall k :: 0 <= k < |qualifiers| ==> Marker(qualifiers[k])
    ensures forall k :: 0 <= k < |NumberedHymn(name, qualifiers).1| ==> Marker(NumberedHymn(name, qualifiers).1[k])
  {
    var r := NumberedHymn(name, qualifiers).1;
    if r != qualifiers {
      assert forall k :: 0 <= k < |qualifiers| ==> r[k] == r[..|qualifiers|][k];
    }
  }

  /** A `<kind> Special` file gives the context of its kind, whatever
      follows; other files give none. */
  lemma SpecialFile(kind: string, rest: string)
    requires kind in FromFilename && !Contains(rest, " Special")
    ensures SpecialContext(kind + " Special" + rest) == Return(FromFilename[kind])
  {
    var f := kind + " Special" + rest;
    var k := |kind|;
    assert OccursAt(f, " Special", k) by {
      assert f[k..k + 8] == " Special";
    }
    assert f[k + 8..] == rest;
    SpecialOnce(f, k, rest);
    FindLastAt(f, " Special", 0, |f|, k);
    assert f[..k] == kind;
  }

  /** No ` Special` begins inside the one at `k` or in what follows it. */
  lemma SpecialOnce(f: string, k: nat, rest: string)
    requires OccursAt(f, " Special", k) && f[k + 8..] == rest && !Contains(rest, " Special")
    ensures forall j :: k < j < |f| ==> !OccursAt(f, " Special", j)
  {
    forall j | k < j < |f| ensures !OccursAt(f, " Special", j) {
      if j < k + 8 {
        SpecialInside(f, k, j);
      } else {
        SpecialAfter(f, k + 8, rest, j);
      }
    }
  }

  lemma SpecialInside(f: string, k: nat, j: nat)
    requires OccursAt(f, " Special", k) && k < j < k + 8
    ensures !OccursAt(f, " Special", j)
  {
    assert f[j] == " Special"[j - k];
  }

  lemma SpecialAfter(f: string, k: nat, rest: string, j: nat)
    requires k <= j < |f| && f[k..] == rest && !Contains(rest, " Special")
    ensures !OccursAt(f, " Special", j)
  {
    if OccursAt(f, " Special", j) {
      assert rest[j - k..j - k + 8] == f[j..j + 8];
      ContainsAt(rest, " Special", j - k);
    }
  }

  lemma NotSpecial(filename: string)
    requires !Contains(filename, " Special")
    ensures SpecialContext(filename) == Return([])
  {
    var found := FindLast(filename, " Special", 0, |filename|);
    if found.Some? {
      ContainsAt(filename, " Special", found.value);
    }
  }

  /** A pattern whose literal is absent has no match. */
  lemma NoMatch(s: string, p: Pattern)
    requires p.literal != [] && !Contains(s, p.literal)
    ensures Search(s, p, 0).None?
  {
    var m := Search(s, p, 0);
    if m.Some? {
      ContainsAt(s, p.literal, m.value);
    }
  }

  lemma {:induction false} NoQualifiers(name: string, qualifiers: seq<string>, patterns: seq<Pattern>)
    requires forall k :: 0 <= k < |patterns| ==> patterns[k].literal != [] && !Contains(name, patterns[k].literal)
    ensures QualifierRun(name, qualifiers, patterns) == (name, qualifiers)
    decreases |patterns|
  {
    if patterns != [] {
      NoMatch(name, patterns[0]);
      NoQualifiers(name, qualifiers, patterns[1..]);
    }
  }

  lemma {:induction false} NoDays(name: string, qualifiers: seq<string>, days: seq<string>)
    requires forall k :: 0 <= k < |days| ==> days[k] != [] && !Contains(name, days[k])
    ensures DayRun(name, qualifiers, days) == (name, qualifiers)
    decreases |days|
  {
    if days != [] {
      NoDays(name, qualifiers, days[1..]);
    }
  }

  lemma {:induction false} NoOffices(name: string, context: seq<string>, offices: seq<string>)
    requires forall k :: 0 <= k < |offices| ==> offices[k] != [] && !Contains(name, offices[k])
    ensures OfficeRun(name, context, offices) == (name, context)
    decreases |offices|
  {
    if offices != [] {
      NoOffices(name, context, offices[1..]);
    }
  }

  /** A section name with none of the markers, no hour, no multi-word
      title, no `M` and no hymn number, in a file that is not a `Special`
      file, is only lower-cased into a title. */
  lemma PlainSection(name: string, filename: string)
    requires !Contains(name, "Day") && !Contains(name, "Adv") && !Contains(name, "Quad") && !Contains(name, "Pasch")
    requires !Contains(name, "Dominica") && !Contains(name, "Feria")
    requires forall k :: 0 <= k < |Structures.Commands| ==> !Contains(name, Structures.Commands[k])
    requires !Contains(name, "Versum 2") && 'M' !in name && !Contains(name, "Hymnus")
    requires !Contains(filename, " Special")
    ensures ExtractSection(name, filename) == Return(SectionInfo([], [], Lower(Strip(name)), []))
  {
    NotSpecial(filename);
    PatternsNamed();
    NoQualifiers(name, [], QualifierPatterns);
    NoDays(name, [], DayNames);
    NoOffices(name, [], Structures.Commands);
    NoMatch(name, HymnPattern);
  }

  /** Text lacking the first character of a literal does not contain it. */
  lemma AbsentInitial(s: string, p: string)
    requires p != [] && p[0] !in s
    ensures !Contains(s, p)
  {
    AbsentFrom(s, p, 0);
  }

  /** Removing the matches of a pattern that no longer occurs keeps the rest. */
  lemma {:induction false} RemoveNothing(s: string, p: Pattern, i: nat)
    requires p.literal != [] && i <= |s|
    requires forall k :: i <= k < |s| ==> !OccursAt(s, p.literal, k)
    ensures RemoveMatches(s, p, i) == s[i..]
    decreases |s| - i
  {
    if i < |s| {
      RemoveNothing(s, p, i + 1);
      assert s[i..] == [s[i]] + s[i + 1..];
    }
  }

  /** A literal cannot occur where its first character is absent. */
  lemma AbsentFrom(s: string, p: string, i: nat)
    requires p != [] && forall k :: i <= k < |s| ==> s[k] != p[0]
    ensures forall k :: i <= k ==> !OccursAt(s, p, k)
  {
    forall k | i <= k ensures !OccursAt(s, p, k) {
      if k + |p| <= |s| {
        assert s[k..k + |p|][0] == s[k];
      }
    }
  }

  /** The first example of the section parser's own test table: the
      `Day0 Hymnus` section of `Matutinum Special` is the matins hymn of
      Sunday. */
  lemma MatinsHymn()
    ensures ExtractSection("Day0 Hymnus", "Matutinum Special")
      == Return(SectionInfo(["Day0"], ["matutinum"], "hymnus", []))
  {
    PatternsNamed();
    assert SpecialContext("Matutinum Special") == Return(["matutinum"]) by {
      AbsentInitial("", " Special");
      SpecialFile("Matutinum", "");
      assert "Matutinum" + " Special" + "" == "Matutinum Special";
    }
    MatinsHymnQualifiers();
    MatinsHymnLoops();
    MatinsHymnFinish();
  }

  lemma MatinsHymnQualifiers()
    ensures QualifierRun("Day0 Hymnus", [], QualifierPatterns) == ("Hymnus", ["Day0"])
  {
    PatternsNamed();
    MatinsHymnDay();
    MatinsHymnRest();
    OnlyFirstQualifier("Day0 Hymnus", QualifierPatterns, "Day0", "Hymnus");
  }

  /** What is left once `Day0` is cut holds no other qualifier. */
  lemma MatinsHymnRest()
    ensures Strip(" Hymnus") == "Hymnus"
    ensures forall k :: 1 <= k < |QualifierPatterns| ==> !Contains("Hymnus", QualifierPatterns[k].literal)
  {
    var hymnus := "Hymnus";
    assert SkipSpaces(" Hymnus", 0) == 1;
    assert TrimEnd(" Hymnus", 1, 7) == 7;
    forall k | 1 <= k < |QualifierPatterns| ensures !Contains(hymnus, QualifierPatterns[k].literal) {
      AbsentInitial(hymnus, QualifierPatterns[k].literal);
    }
  }

  /** A name in which only the first pattern is found, at its start. */
  lemma OnlyFirstQualifier(name: string, patterns: seq<Pattern>, first: string, rest: string)
    requires patterns != [] && forall k :: 0 <= k < |patterns| ==> patterns[k].literal != []
    requires Search(name, patterns[0], 0) == Some(0) && MatchEnd(name, patterns[0], 0) == Some(|first|)
    requires |first| <= |name| && name[0..|first|] == first
    requires Strip(RemoveMatches(name, patterns[0], 0)) == rest
    requires forall k :: 1 <= k < |patterns| ==> !Contains(rest, patterns[k].literal)
    ensures QualifierRun(name, [], patterns) == (rest, [first])
  {
    QualifierFound(name, [], patterns, 0);
    assert [] + [first] == [first];
    forall k | 0 <= k < |patterns[1..]|
      ensures patterns[1..][k].literal != [] && !Contains(rest, patterns[1..][k].literal)
    {
      assert patterns[1..][k] == patterns[k + 1];
    }
    NoQualifiers(rest, [first], patterns[1..]);
  }

  /** `Day0` is found at the start of `Day0 Hymnus` and cut from it. */
  lemma MatinsHymnDay()
    ensures Search("Day0 Hymnus", QualifierPatterns[0], 0) == Some(0)
    ensures MatchEnd("Day0 Hymnus", QualifierPatterns[0], 0) == Some(4)
    ensures RemoveMatches("Day0 Hymnus", QualifierPatterns[0], 0) == " Hymnus"
    ensures "Day0 Hymnus"[0..4] == "Day0"
  {
    var name := "Day0 Hymnus";
    var day := QualifierPatterns[0];
    assert day == Pattern("Day", OneDigit);
    assert MatchEnd(name, day, 0) == Some(4) by {
      assert name[0..3] == "Day" && IsDigit(name[3]);
    }
    assert forall k :: 4 <= k < |name| ==> name[k] != 'D';
    AbsentFrom(name, "Day", 4);
    RemoveNothing(name, day, 4);
    assert name[4..] == " Hymnus";
  }

  /** One step of the qualifier loop when its pattern is found at `k`. */
  lemma QualifierFound(name: string, qualifiers: seq<string>, patterns: seq<Pattern>, k: nat)
    requires patterns != [] && forall j :: 0 <= j < |patterns| ==> patterns[j].literal != []
    requires Search(name, patterns[0], 0) == Some(k)
    ensures QualifierRun(name, qualifiers, patterns) ==
      QualifierRun(Strip(RemoveMatches(name, patterns[0], 0)), qualifiers + [name[k..MatchEnd(name, patterns[0], k).value]], patterns[1..])
  {
  }

  lemma MatinsHymnLoops()
    ensures DayRun("Hymnus", ["Day0"], DayNames) == ("Hymnus", ["Day0"])
    ensures OfficeRun("Hymnus", ["matutinum"], Structures.Commands) == ("Hymnus", ["matutinum"])
  {
    PatternsNamed();
    var hymnus := "Hymnus";
    AbsentInitial(hymnus, "Dominica");
    AbsentInitial(hymnus, "Feria");
    NoDays(hymnus, ["Day0"], DayNames);
    forall k | 0 <= k < |Structures.Commands| ensures !Contains(hymnus, Structures.Commands[k]) {
      AbsentInitial(hymnus, Structures.Commands[k]);
    }
    NoOffices(hymnus, ["matutinum"], Structures.Commands);
  }

  lemma MatinsHymnFinish()
    ensures Finish("Hymnus", ["Day0"], ["matutinum"]) == SectionInfo(["Day0"], ["matutinum"], "hymnus", [])
  {
    var hymnus := "Hymnus";
    AbsentInitial(hymnus, "Versum 2");
    HymnusUnnumbered();
    assert Lower(Strip(hymnus)) == "hymnus" by {
      StripKeeps(hymnus);
    }
    FinishPlain(hymnus, ["Day0"], ["matutinum"]);
  }

  /** `Hymnus` alone carries no hymn number. */
  lemma HymnusUnnumbered()
    ensures Search("Hymnus", HymnPattern, 0).None?
  {
    var hymnus := "Hymnus";
    assert MatchEnd(hymnus, HymnPattern, 0).None?;
    assert forall k :: 1 <= k < |hymnus| ==> hymnus[k] != 'H';
    AbsentFrom(hymnus, "Hymnus", 1);
    assert forall k :: 0 <= k ==> MatchEnd(hymnus, HymnPattern, k).None?;
  }

  /** A name with no multi-word title, no `M` and no hymn number keeps its
      qualifiers and is lowered into the title. */
  lemma FinishPlain(name: string, qualifiers: seq<string>, context: seq<string>)
    requires !Contains(name, "Versum 2") && 'M' !in name && Search(name, HymnPattern, 0).None?
    ensures Finish(name, qualifiers, context) == SectionInfo(qualifiers, context, Lower(Strip(name)), [])
  {
  }

  /** The second example of the section parser's own test table: the
      `Day0 Hymnus1M` section of `Matutinum Special` is the first monastic
      matins hymn of Sunday. */
  lemma MonasticMatinsHymn()
    ensures ExtractSection("Day0 Hymnus1M", "Matutinum Special")
      == Return(SectionInfo(["Day0", "Hymnus1"], ["matutinum"], "hymnus", ["monastic"]))
  {
    PatternsNamed();
    assert SpecialContext("Matutinum Special") == Return(["matutinum"]) by {
      AbsentInitial("", " Special");
      SpecialFile("Matutinum", "");
      assert "Matutinum" + " Special" + "" == "Matutinum Special";
    }
    MonasticHymnQualifiers();
    MonasticHymnLoops();
    MonasticHymnFinish();
  }

  lemma MonasticHymnQualifiers()
    ensures QualifierRun("Day0 Hymnus1M", [], QualifierPatterns) == ("Hymnus1M", ["Day0"])
  {
    PatternsNamed();
    MonasticHymnDay();
    MonasticHymnRest();
    OnlyFirstQualifier("Day0 Hymnus1M", QualifierPatterns, "Day0", "Hymnus1M");
  }

  /** `Day0` is found at the start of `Day0 Hymnus1M` and cut from it. */
  lemma MonasticHymnDay()
    ensures Search("Day0 Hymnus1M", QualifierPatterns[0], 0) == Some(0)
    ensures MatchEnd("Day0 Hymnus1M", QualifierPatterns[0], 0) == Some(4)
    ensures RemoveMatches("Day0 Hymnus1M", QualifierPatterns[0], 0) == " Hymnus1M"
    ensures "Day0 Hymnus1M"[0..4] == "Day0"
  {
    var name := "Day0 Hymnus1M";
    var day := QualifierPatterns[0];
    assert day == Pattern("Day", OneDigit);
    assert MatchEnd(name, day, 0) == Some(4) by {
      assert name[0..3] == "Day" && IsDigit(name[3]);
    }
    assert forall k :: 4 <= k < |name| ==> name[k] != 'D';
    AbsentFrom(name, "Day", 4);
    RemoveNothing(name, day, 4);
    assert name[4..] == " Hymnus1M";
  }

  /** What is left once `Day0` is cut holds no other qualifier. */
  lemma MonasticHymnRest()
    ensures Strip(" Hymnus1M") == "Hymnus1M"
    ensures forall k :: 1 <= k < |QualifierPatterns| ==> !Contains("Hymnus1M", QualifierPatterns[k].literal)
  {
    var rest := "Hymnus1M";
    MonasticHymnStrip();
    forall k | 1 <= k < |QualifierPatterns| ensures !Contains(rest, QualifierPatterns[k].literal) {
      AbsentInitial(rest, QualifierPatterns[k].literal);
    }
  }

  lemma MonasticHymnStrip()
    ensures Strip(" Hymnus1M") == "Hymnus1M"
  {
    assert SkipSpaces(" Hymnus1M", 0) == 1;
    assert TrimEnd(" Hymnus1M", 1, 9) == 9;
  }

  lemma MonasticHymnLoops()
    ensures DayRun("Hymnus1M", ["Day0"], DayNames) == ("Hymnus1M", ["Day0"])
    ensures OfficeRun("Hymnus1M", ["matutinum"], Structures.Commands) == ("Hymnus1M", ["matutinum"])
  {
    PatternsNamed();
    var name := "Hymnus1M";
    AbsentInitial(name, "Dominica");
    AbsentInitial(name, "Feria");
    NoDays(name, ["Day0"], DayNames);
    MonasticHymnNoHour();
    NoOffices(name, ["matutinum"], Structures.Commands);
  }

  /** No hour occurs in `Hymnus1M`: its `M` is too near the end for `Matutinum`. */
  lemma MonasticHymnNoHour()
    ensures forall k :: 0 <= k < |Structures.Commands| ==> Structures.Commands[k] != [] && !Contains("Hymnus1M", Structures.Commands[k])
  {
    var name := "Hymnus1M";
    forall k | 0 <= k < |Structures.Commands| ensures Structures.Commands[k] != [] && !Contains(name, Structures.Commands[k]) {
      if k == 1 {
        AbsentNearEnd(name, Structures.Commands[k]);
      } else {
        AbsentInitial(name, Structures.Commands[k]);
      }
    }
  }

  /** A word whose first letter appears only too near the end is absent. */
  lemma AbsentNearEnd(s: string, p: string)
    requires p != [] && forall k :: 0 <= k < |s| && s[k] == p[0] ==> |s| < k + |p|
    ensures !Contains(s, p)
  {
    forall k | 0 <= k ensures !OccursAt(s, p, k) {
      if k + |p| <= |s| {
        assert s[k..k + |p|][0] == s[k];
      }
    }
  }

  lemma MonasticHymnFinish()
    ensures Finish("Hymnus1M", ["Day0"], ["matutinum"]) == SectionInfo(["Day0", "Hymnus1"], ["matutinum"], "hymnus", ["monastic"])
  {
    var name := "Hymnus1M";
    AbsentInitial(name, "Versum 2");
    assert MultiwordTitle(name) == (name, "");
    MonasticHymnus();
    NumberedHymnus();
    assert Lower(Strip("Hymnus")) == "hymnus" by {
      StripKeeps("Hymnus");
    }
  }

  /** The last `M` of `Hymnus1M` marks it monastic and is cut. */
  lemma MonasticHymnus()
    ensures Monastic("Hymnus1M") == ("Hymnus1", ["monastic"])
  {
    var name := "Hymnus1M";
    assert FindLastChar(name, 'M', 8) == Some(7);
    assert name[..7] + name[8..] == "Hymnus1";
  }

  /** `Hymnus1` records the hymn number and keeps `Hymnus`. */
  lemma NumberedHymnus()
    ensures NumberedHymn("Hymnus1", ["Day0"]) == ("Hymnus", ["Day0", "Hymnus1"])
  {
    var name := "Hymnus1";
    assert MatchEnd(name, HymnPattern, 0) == Some(7) by {
      assert name[0..6] == "Hymnus" && IsDigit(name[6]);
    }
    assert Search(name, HymnPattern, 0) == Some(0);
    assert name[0..7] == name;
    assert LastDigit(name, 7) == Some(6);
    assert DropLastDigit(name) == "Hymnus" by {
      assert name[..6] + name[7..] == "Hymnus";
    }
    StripKeeps("Hymnus");
    assert Strip(DropLastDigit(name)) == "Hymnus";
    assert ["Day0"] + [name[0..7]] == ["Day0", "Hymnus1"];
  }
}
