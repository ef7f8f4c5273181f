/** The martyrology parser, `M2obj`: a file named "M-D" holds the entry of
    one calendar day; the file "Mobile" holds entries for movable days,
    one section each, named by an abbreviation, a week and a weekday. */
module M2obj {
  import opened Text
  import opened Py
  import Tables
  import T2obj

  const ChristTheKingDatestr: string := "Sat between 23 Oct 31 Oct"

  /** The record `parse_file` returns for a fixed day. */
  datatype Entry = Entry(datestr: string, julianDate: string, content: seq<string>)

  /** The record `parse_mobile_file` returns for each movable day. */
  datatype MobileEntry = MobileEntry(datestr: string, content: Option<seq<string>>)

  datatype Parsed = Fixed(entry: Entry) | Mobile(entries: seq<MobileEntry>)

  // ---- fixed days ----

  /** `f"{day} {months[month - 1]}"` for the stem "month-day". */
  function StemDatestr(stem: string): (r: Outcome<string>)
    ensures r.Throw? ==> r.exc == ValueError || r.exc == IndexError
    ensures r.Throw? && r.exc == ValueError <==> DateParts(stem).Throw?
  {
    match DateParts(stem)
    case Throw(e) => Throw(e)
    case Return((month, day)) =>
      match PyIndex(Tables.Months, month - 1)
      case None => Throw(IndexError)
      case Some(m) => Return(IntToString(day) + " " + m)
  }

  /** The stem of a day in the twelve months names that day. */
  lemma StemOfDay(month: nat, day: nat)
    requires 1 <= month <= 12
    ensures StemDatestr(NatToString(month) + "-" + NatToString(day))
      == Return(NatToString(day) + " " + Tables.Months[month - 1])
  {
    var s := NatToString(month) + "-" + NatToString(day);
    assert DateParts(s) == Return((month as int, day as int)) by {
      SplitAtDash(NatToString(month), NatToString(day));
      IntOfWritten(month);
      IntOfWritten(day);
    }
    StemOfParts(s, month, day);
  }

  /** The stem of a month in range and any day. */
  lemma StemOfParts(stem: string, month: nat, day: nat)
    requires 1 <= month <= 12 && DateParts(stem) == Return((month as int, day as int))
    ensures StemDatestr(stem) == Return(NatToString(day) + " " + Tables.Months[month - 1])
  {
    assert PyIndex(Tables.Months, month - 1) == Some(Tables.Months[month - 1]);
  }

  /** The lines after the first two, stripped, without the "_" separators. */
  function Kept(lines: seq<string>): (r: seq<string>)
    ensures |r| <= |lines|
    ensures forall k :: 0 <= k < |r| ==> r[k] != "_"
    decreases |lines|
  {
    if lines == [] then []
    else if Strip(lines[0]) == "_" then Kept(lines[1..])
    else [Strip(lines[0])] + Kept(lines[1..])
  }

  /** Every line is kept, in order, unless it strips to "_". */
  lemma {:induction false} KeptAppend(a: seq<string>, b: seq<string>)
    ensures Kept(a + b) == Kept(a) + Kept(b)
    decreases |a|
  {
    if a == [] {
      assert a + b == b;
    } else {
      assert (a + b)[0] == a[0] && (a + b)[1..] == a[1..] + b;
      KeptAppend(a[1..], b);
    }
  }

  /** Blank lines stay in the content; only "_" lines go. */
  lemma KeptOne(line: string)
    ensures Kept([line]) == if Strip(line) == "_" then [] else [Strip(line)]
  {
    assert [line][1..] == [];
  }

  /** The loop over the rest of the file. */
  method CollectContent(lines: seq<string>) returns (content: seq<string>)
    ensures content == Kept(lines)
  {
    content := [];
    for i := 0 to |lines|
      invariant content == Kept(lines[..i])
    {
      assert lines[..i + 1] == lines[..i] + [lines[i]];
      KeptAppend(lines[..i], [lines[i]]);
      KeptOne(lines[i]);
      var line := Strip(lines[i]);
      if !(line == "_") {
        content := content + [line];
      }
    }
    assert lines[..|lines|] == lines;
  }

  /** `f.readline().strip()` on the first line; an empty file reads "". */
  function JulianDate(lines: seq<string>): string {
    if lines == [] then [] else Strip(lines[0])
  }

  /** The lines `f.readlines()` gives after two `readline` calls. */
  function Rest(lines: seq<string>): seq<string> {
    if |lines| <= 2 then [] else lines[2..]
  }

  // ---- movable days: `re.search(r"(.*?)([0-9]+)-([0-9])", name)` ----

  /** A digit run starts at `k` and is followed by "-" and a digit. */
  predicate MatchesAt(s: string, k: nat) {
    k < |s| && IsDigit(s[k]) &&
    var e := DigitsEnd(s, k);
    e + 1 < |s| && s[e] == '-' && IsDigit(s[e + 1])
  }

  /** The first `k` at or after `i` where the pattern's digits can start:
      where the lazy first group stops. */
  function FirstMatch(s: string, i: nat): (r: Option<nat>)
    ensures r.Some? ==> i <= r.value && MatchesAt(s, r.value)
    ensures r.Some? ==> forall k :: i <= k < r.value ==> !MatchesAt(s, k)
    ensures r.None? ==> forall k :: i <= k ==> !MatchesAt(s, k)
    decreases |s| - i
  {
    if i >= |s| then None
    else if MatchesAt(s, i) then Some(i)
    else FirstMatch(s, i + 1)
  }

  /** The three groups: the abbreviation, the week and the weekday. */
  datatype Groups = Groups(special: string, week: nat, day: nat)

  function Search(s: string): (r: Option<Groups>)
    ensures r.Some? ==> r.value.day < 10
  {
    match FirstMatch(s, 0)
    case None => None
    case Some(k) =>
      var e := DigitsEnd(s, k);
      Some(Groups(s[..k], DigitsValue(s[k..e]), DigitValue(s[e + 1])))
  }

  /** The datestr of one section of "Mobile", or `None` for a section that
      is skipped. An ordinal or weekday out of range falls back like a name
      the pattern does not fit; an unknown abbreviation raises KeyError. */
  function MobileDatestr(name: string): (r: Outcome<Option<string>>)
    ensures r.Throw? ==> r == Throw(KeyError)
  {
    match Search(name)
    case Some(g) =>
      if g.week < |Tables.Ordinals| && g.day < |Tables.Days| then
        if g.special in Tables.FileSpecials then
          Return(Some(Tables.Ordinals[g.week] + " " + Tables.Days[g.day] + " after " + Tables.FileSpecials[g.special]))
        else Throw(KeyError)
      else Fallback(name)
    case None => Fallback(name)
  }

  /** The `except` branch. */
  function Fallback(name: string): (r: Outcome<Option<string>>)
    ensures r == Return(None) <==> name == "Nativity" || name == "Defuncti"
    ensures r.Return?
    ensures r.value.Some? ==> r.value.value == if name == "10-DU" then ChristTheKingDatestr else name
  {
    if name == "Nativity" then Return(None)
    else if name == "10-DU" then Return(Some(ChristTheKingDatestr))
    else if name == "Defuncti" then Return(None)
    else Return(Some(name))
  }

  /** The groups of an abbreviation with no digit, a digit run, `-` and a digit. */
  lemma MobileGroups(special: string, w: string, c: char)
    requires forall k :: 0 <= k < |special| ==> !IsDigit(special[k])
    requires w != [] && AllDigits(w) && IsDigit(c)
    ensures Search(special + w + "-" + [c]) == Some(Groups(special, DigitsValue(w), DigitValue(c)))
  {
    var s := special + w + "-" + [c];
    var k := |special|;
    var e := k + |w|;
    assert forall j :: 0 <= j < k ==> s[j] == special[j];
    assert forall j :: k <= j < e ==> s[j] == w[j - k];
    assert s[e] == '-' && s[e + 1] == c;
    DigitsEndAt(s, k, e);
    assert MatchesAt(s, k);
    FirstMatchAt(s, 0, k);
    assert s[..k] == special && s[k..e] == w;
  }

  /** The name of a movable day is read back from its abbreviation, week
      and weekday. */
  lemma MobileRoundTrip(special: string, week: nat, day: nat)
    requires forall k :: 0 <= k < |special| ==> !IsDigit(special[k])
    requires week < 26 && day < 8 && special in Tables.FileSpecials
    ensures MobileDatestr(special + NatToString(week) + "-" + [DigitChar(day)])
      == Return(Some(Tables.Ordinals[week] + " " + Tables.Days[day] + " after " + Tables.FileSpecials[special]))
  {
    MobileGroups(special, NatToString(week), DigitChar(day));
  }

  lemma {:induction false} DigitsEndAt(s: string, i: nat, e: nat)
    requires i <= e < |s| && !IsDigit(s[e])
    requires forall j :: i <= j < e ==> IsDigit(s[j])
    ensures DigitsEnd(s, i) == e
    decreases e - i
  {
    if i < e {
      DigitsEndAt(s, i + 1, e);
    }
  }

  lemma {:induction false} FirstMatchAt(s: string, i: nat, k: nat)
    requires i <= k && MatchesAt(s, k)
    requires forall j :: i <= j < k ==> !IsDigit(s[j])
    ensures FirstMatch(s, i) == Some(k)
    decreases k - i
  {
    if i < k {
      FirstMatchAt(s, i + 1, k);
    }
  }

  /** A section name with no digit in it is not a date rule. */
  lemma NoDigitFallsBack(name: string)
    requires forall k :: 0 <= k < |name| ==> !IsDigit(name[k])
    ensures MobileDatestr(name) == Fallback(name)
  {
    assert FirstMatch(name, 0) == None;
  }

  /** "Nativity" and "Defuncti" are skipped, and "10-DU" is Christ the King. */
  lemma FixedNames()
    ensures MobileDatestr("Nativity") == Return(None)
    ensures MobileDatestr("Defuncti") == Return(None)
    ensures MobileDatestr("10-DU") == Return(Some(ChristTheKingDatestr))
  {
    NoDigitFallsBack("Nativity");
    NoDigitFallsBack("Defuncti");
    var s := "10-DU";
    DigitsEndAt(s, 0, 2);
    DigitsEndAt(s, 1, 2);
    assert !MatchesAt(s, 0) && !MatchesAt(s, 1) && !MatchesAt(s, 2) && !MatchesAt(s, 3) && !MatchesAt(s, 4);
    assert FirstMatch(s, 0) == None;
  }

  /** An ordinal or weekday beyond the tables keeps the raw name. */
  lemma OutOfRangeKeepsName(name: string)
    requires Search(name).Some?
    requires Search(name).value.week >= 26 || Search(name).value.day >= 8
    ensures MobileDatestr(name) == Fallback(name)
  {
  }

  /** The entries of the sections in order, without the skipped ones;
      the first KeyError stops the loop. */
  function MobileEntries(sections: Dict<string, Option<seq<string>>>): (r: Outcome<seq<MobileEntry>>)
    ensures r.Return? ==> |r.value| <= |sections|
    ensures r.Throw? ==> r.exc == KeyError
    decreases |sections|
  {
    if sections == [] then Return([])
    else match MobileDatestr(sections[0].0)
      case Throw(e) => Throw(e)
      case Return(None) => MobileEntries(sections[1..])
      case Return(Some(d)) => Prefixed([MobileEntry(d, sections[0].1)], MobileEntries(sections[1..]))
  }

  /** Every entry carries the content of one of the sections. */
  lemma {:induction false} MobileContents(sections: Dict<string, Option<seq<string>>>)
    requires MobileEntries(sections).Return?
    ensures forall e :: e in MobileEntries(sections).value ==>
      exists i :: 0 <= i < |sections| && sections[i].1 == e.content && MobileDatestr(sections[i].0) == Return(Some(e.datestr))
    decreases |sections|
  {
    if sections != [] {
      MobileContents(sections[1..]);
      forall e | e in MobileEntries(sections[1..]).value
        ensures exists i :: 0 <= i < |sections| && sections[i].1 == e.content && MobileDatestr(sections[i].0) == Return(Some(e.datestr))
      {
        var i :| 0 <= i < |sections[1..]| && sections[1..][i].1 == e.content && MobileDatestr(sections[1..][i].0) == Return(Some(e.datestr));
        assert sections[i + 1] == sections[1..][i];
      }
    }
  }

  /** The loop over `sections.items()`. */
  method CollectMobile(sections: Dict<string, Option<seq<string>>>) returns (r: Outcome<seq<MobileEntry>>)
    ensures r == MobileEntries(sections)
  {
    var mobile: seq<MobileEntry> := [];
    PrefixedNothing(MobileEntries(sections));
    for i := 0 to |sections|
      invariant MobileEntries(sections) == Prefixed(mobile, MobileEntries(sections[i..]))
    {
      assert sections[i..][0] == sections[i] && sections[i..][1..] == sections[i + 1..];
      var (name, section) := sections[i];
      var d := MobileDatestr(name);
      if d.Throw? {
        return Throw(d.exc);
      }
      if d.value.None? {
        continue;
      }
      var x := MobileEntry(d.value.value, section);
      PrefixedStep(mobile, x, MobileEntries(sections[i + 1..]));
      mobile := mobile + [x];
    }
    assert sections[|sections|..] == [];
    assert mobile + [] == mobile;
    return Return(mobile);
  }

  /** `parse_mobile_file`: the file's sections, then their entries. */
  function MobileFile(lines: seq<string>): Outcome<seq<MobileEntry>> {
    MobileEntries(T2obj.Sections(lines))
  }

  /** The file's last section never produces an entry. */
  lemma MobileLastDropped(lines: seq<string>, tail: seq<string>)
    requires T2obj.NoHeader(tail)
    ensures MobileFile(lines + tail) == MobileFile(lines)
  {
    T2obj.LastSectionDropped(lines, tail);
  }

  /** `parse_file(fn)` for a file with stem `stem` and lines `lines`. */
  function ParsedFile(stem: string, lines: seq<string>): Outcome<Parsed> {
    if stem == "Mobile" then
      match MobileFile(lines)
      case Throw(e) => Throw(e)
      case Return(es) => Return(Mobile(es))
    else match StemDatestr(stem)
      case Throw(e) => Throw(e)
      case Return(d) => Return(Fixed(Entry(d, JulianDate(lines), Kept(Rest(lines)))))
  }

  /** A fixed day: its datestr, the first line as the Julian date, and the
      kept lines after the second, blank ones included. */
  lemma FixedDay(stem: string, lines: seq<string>)
    requires stem != "Mobile" && StemDatestr(stem).Return? && |lines| >= 2
    ensures ParsedFile(stem, lines) == Return(Fixed(Entry(StemDatestr(stem).value, Strip(lines[0]), Kept(lines[2..]))))
  {
  }

  method ParseMobileFile(lines: seq<string>) returns (r: Outcome<seq<MobileEntry>>)
    ensures r == MobileFile(lines)
  {
    var sections := T2obj.ParseSections(lines);
    r := CollectMobile(sections);
  }

  method ParseFile(stem: string, lines: seq<string>) returns (r: Outcome<Parsed>)
    ensures r == ParsedFile(stem, lines)
  {
    if stem == "Mobile" {
      var m := ParseMobileFile(lines);
      if m.Throw? {
        return Throw(m.exc);
      }
      return Return(Mobile(m.value));
    }
    var datestr := StemDatestr(stem);
    if datestr.Throw? {
      return Throw(datestr.exc);
    }
    var content := CollectContent(Rest(lines));
    return Return(Fixed(Entry(datestr.value, JulianDate(lines), content)));
  }
}
