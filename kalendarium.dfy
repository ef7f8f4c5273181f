/** The calendar-table parser: a line `date=altdate=name=rank=...` becomes
    a feast with its commemorations; the table of rank names comes from the
    file's version, kept between calls. */
module Kalendarium {
  import opened Text
  import opened Py
  import Tables
  import Structures
  import Sorting
  import Lines

  /** `version_names`: file suffixes that stand for another version name. */
  const VersionNames: map<string, string> := map["M" := "monastic", "NC" := "newcal", "1954" := "DA", "1888" := "1910"]

  /** What `num` returns: an `int` when the text is one, otherwise a `float`. */
  datatype Num = IntNum(i: int) | FloatNum(r: real)

  function NumValue(n: Num): real {
    match n
    case IntNum(i) => i as real
    case FloatNum(r) => r
  }

  /** `num(s)`: `int(s)`, falling back to `float(s)`; `None` stands for
      the ValueError of the fallback. */
  function ToNum(s: string): (r: Option<Num>)
    ensures r.Some? ==> ParseFloat(s) == Some(NumValue(r.value))
    ensures r.None? <==> ParseFloat(s).None?
    ensures r.Some? && r.value.FloatNum? <==> ParseInt(s).None? && ParseFloat(s).Some?
  {
    match ParseInt(s)
    case Some(i) => Some(IntNum(i))
    case None =>
      match ParseFloat(s)
      case Some(x) => Some(FloatNum(x))
      case None => None
  }

  /** "4" is the int 4. */
  lemma IntExample()
    ensures ToNum("4") == Some(IntNum(4))
  {
    StripKeeps("4");
    assert DigitsValue("4") == 4 by {
      assert "4"[..0] == [];
    }
  }

  /** "1.5" is the float 1.5: `int` refuses it and `float` reads it. */
  lemma FloatExample()
    ensures ToNum("1.5") == Some(FloatNum(1.5))
  {
    StripKeeps("1.5");
    assert ParseInt("1.5") == None by {
      assert !IsDigit("1.5"[1]);
    }
    assert DecimalValue("1.5") == Some(1.5) by {
      assert FindChar("1.5", '.', 0) == Some(1);
      assert "1.5"[..1] == "1" && "1.5"[2..] == "5";
      assert DigitsValue("1") == 1 by { assert "1"[..0] == []; }
      assert DigitsValue("5") == 5 by { assert "5"[..0] == []; }
    }
  }

  // ---- the feast pattern `(.*?)=([0-9]+\.?[0-9]*)=*` ----

  /** An "=" directly followed by a digit at `k`: where a lazy name stops. */
  predicate IsSep(s: string, k: nat) {
    k + 1 < |s| && s[k] == '=' && IsDigit(s[k + 1])
  }

  /** The first separator at or after `i`. */
  function SepFrom(s: string, i: nat): (r: Option<nat>)
    ensures r.Some? ==> i <= r.value && IsSep(s, r.value)
    ensures r.Some? ==> forall k :: i <= k < r.value ==> !IsSep(s, k)
    ensures r.None? ==> forall k :: i <= k ==> !IsSep(s, k)
    decreases |s| - i
  {
    if i + 1 >= |s| then None
    else if IsSep(s, i) then Some(i)
    else SepFrom(s, i + 1)
  }

  /** One match of the pattern: its two groups, and where it ends. */
  datatype Match = Match(name: string, rank: string, end: nat)

  /** Text of the form `digits[.digits]`. */
  predicate RankText(t: string) {
    t != [] && IsDigit(t[0]) &&
    match FindChar(t, '.', 0)
    case None => AllDigits(t)
    case Some(k) => AllDigits(t[..k]) && AllDigits(t[k + 1..])
  }

  /** The leftmost match in `s`: the name runs up to the first "=" that a
      digit follows, the rank is the digits with at most one ".", and any
      "=" after the rank are consumed. */
  function MatchIn(s: string): (r: Option<Match>)
    ensures r.Some? ==> 0 < r.value.end <= |s|
    ensures r.Some? ==> RankText(r.value.rank)
  {
    match SepFrom(s, 0)
    case None => None
    case Some(k) =>
      var d1 := DigitsEnd(s, k + 1);
      var d2 := if d1 < |s| && s[d1] == '.' then DigitsEnd(s, d1 + 1) else d1;
      var rank := s[k + 1..d2];
      RankTextAt(s, k, d1, d2);
      Some(Match(s[..k], rank, RunEnd(s, d2, IsEquals)))
  }

  /** The name is the shortest possible: no separator occurs inside it,
      and there is no match exactly when there is no separator at all. */
  lemma MatchShortest(s: string)
    ensures MatchIn(s).Some? ==> var m := MatchIn(s).value;
      s[..|m.name|] == m.name && IsSep(s, |m.name|) &&
      forall j :: 0 <= j < |m.name| ==> !IsSep(s, j)
    ensures MatchIn(s).None? <==> forall k :: 0 <= k < |s| ==> !IsSep(s, k)
  {
  }

  lemma RankTextAt(s: string, k: nat, d1: nat, d2: nat)
    requires IsSep(s, k) && k + 1 <= d1 <= |s| && (forall j :: k + 1 <= j < d1 ==> IsDigit(s[j]))
    requires d1 < |s| ==> !IsDigit(s[d1])
    requires d1 < |s| && s[d1] == '.' ==> d1 + 1 <= d2 <= |s| && forall j :: d1 + 1 <= j < d2 ==> IsDigit(s[j])
    requires !(d1 < |s| && s[d1] == '.') ==> d2 == d1
    ensures RankText(s[k + 1..d2])
  {
    var t := s[k + 1..d2];
    var w := d1 - (k + 1);
    assert t[0] == s[k + 1];
    if d1 < |s| && s[d1] == '.' {
      assert t[w] == '.';
      assert FindChar(t, '.', 0) == Some(w);
      assert t[..w] == s[k + 1..d1];
      assert t[w + 1..] == s[d1 + 1..d2];
    } else {
      assert forall j :: 0 <= j < |t| ==> t[j] == s[k + 1 + j];
      assert FindChar(t, '.', 0).None?;
    }
  }

  /** `re.findall`: every match, left to right, each search resuming where
      the previous match ended. */
  function Findall(s: string): (r: seq<(string, string)>)
    ensures forall k :: 0 <= k < |r| ==> RankText(r[k].1)
    decreases |s|
  {
    match MatchIn(s)
    case None => []
    case Some(m) => [(m.name, m.rank)] + Findall(s[m.end..])
  }

  /** A feast as `extract_line` records it. */
  datatype RawFeast = RawFeast(name: string, rank: Num)

  /** The dict `extract_line` returns. */
  datatype LineData = LineData(date: string, alternativeDate: string, feasts: seq<RawFeast>)

  /** Rank text always parses, so `num` never raises on it. */
  lemma RankTextParses(t: string)
    requires RankText(t)
    ensures ToNum(t).Some?
  {
    assert Strip(t) == t by {
      StripKeeps(t);
    }
    match FindChar(t, '.', 0)
    case None =>
    case Some(k) =>
      assert t[0] == t[..k + 1][0];
  }

  /** What `extract_line` computes: `None` for a starred line, ValueError
      for fewer than two "=" fields, otherwise the date fields and a feast
      for every match in the text after the second "=". */
  function Extracted(line: string): (r: Outcome<Option<LineData>>)
  {
    var t := Strip(line);
    if StartsWith(t, "*") then Return(None)
    else
      var parts := Split(t, '=');
      if |parts| < 2 then Throw(ValueError)
      else
        var groups := Findall(Join(parts[2..], "="));
        FindallParses(groups);
        Return(Some(LineData(parts[0], parts[1],
          seq(|groups|, k requires 0 <= k < |groups| => RawFeast(groups[k].0, ToNum(groups[k].1).value)))))
  }

  lemma FindallParses(groups: seq<(string, string)>)
    requires forall k :: 0 <= k < |groups| ==> RankText(groups[k].1)
    ensures forall k :: 0 <= k < |groups| ==> ToNum(groups[k].1).Some?
  {
    forall k | 0 <= k < |groups| ensures ToNum(groups[k].1).Some? {
      RankTextParses(groups[k].1);
    }
  }

  /** `extract_line`: the loop over the matches appends one feast each. */
  method ExtractLine(line: string) returns (r: Outcome<Option<LineData>>)
    ensures r == Extracted(line)
  {
    var t := Strip(line);
    if StartsWith(t, "*") {
      return Return(None);
    }
    var parts := Split(t, '=');
    if |parts| < 2 {
      return Throw(ValueError);
    }
    var groups := Findall(Join(parts[2..], "="));
    FindallParses(groups);
    var feasts: seq<RawFeast> := [];
    for i := 0 to |groups|
      invariant |feasts| == i
      invariant forall k :: 0 <= k < i ==> feasts[k] == RawFeast(groups[k].0, ToNum(groups[k].1).value)
    {
      feasts := feasts + [RawFeast(groups[i].0, ToNum(groups[i].1).value)];
    }
    assert feasts == seq(|groups|, k requires 0 <= k < |groups| => RawFeast(groups[k].0, ToNum(groups[k].1).value));
    return Return(Some(LineData(parts[0], parts[1], feasts)));
  }

  // ---- writing feasts back ----

  /** A name the pattern gives back unchanged: not empty, not starting with
      "=" (the previous match would consume it) and with no "=" directly
      followed by a digit. */
  predicate PlainName(name: string) {
    name != [] && name[0] != '=' && forall j :: 0 <= j < |name| ==> !IsSep(name, j)
  }

  /** The text of a feast with an integer rank, as the calendar tables write it. */
  function RenderFeast(name: string, n: nat): string {
    name + "=" + NatToString(n) + "="
  }

  function Render(fs: seq<(string, nat)>): string
    decreases |fs|
  {
    if fs == [] then [] else RenderFeast(fs[0].0, fs[0].1) + Render(fs[1..])
  }

  /** The name of a rendered feast ends at the "=" before its rank. */
  lemma NameSep(name: string, u: string)
    requires PlainName(name) && u != [] && IsDigit(u[0])
    ensures SepFrom(name + "=" + u, 0) == Some(|name|)
  {
    var s := name + "=" + u;
    var k := |name|;
    assert forall j :: 0 <= j < k ==> !IsSep(s, j) by {
      forall j | 0 <= j < k ensures !IsSep(s, j) {
        assert s[j] == name[j];
        if j < k - 1 {
          assert !IsSep(name, j);
          assert s[j + 1] == name[j + 1];
        }
      }
    }
    assert IsSep(s, k) by {
      assert s[k] == '=' && s[k + 1] == u[0];
    }
    SepFromFirst(s, k);
  }

  /** The first separator is the one `SepFrom` finds. */
  lemma SepFromFirst(s: string, k: nat)
    requires IsSep(s, k) && forall j :: 0 <= j < k ==> !IsSep(s, j)
    ensures SepFrom(s, 0) == Some(k)
  {
  }

  /** The rank of a rendered feast is its decimal text and ends at the next "=". */
  lemma RankEnd(s: string, i: nat, digits: string, t: string)
    requires s == digits + "=" + t && digits != [] && AllDigits(digits)
    requires t == [] || t[0] != '='
    ensures DigitsEnd(s, 0) == |digits| && RunEnd(s, |digits|, IsEquals) == |digits| + 1
  {
    assert forall j :: 0 <= j < |digits| ==> s[j] == digits[j];
    assert s[|digits|] == '=';
    assert |digits| + 1 < |s| ==> s[|digits| + 1] == t[0];
  }

  /** A rendered feast is matched exactly, up to its last "=". */
  lemma MatchRendered(name: string, n: nat, t: string)
    requires PlainName(name) && (t == [] || t[0] != '=')
    ensures MatchIn(RenderFeast(name, n) + t) == Some(Match(name, NatToString(n), |RenderFeast(name, n)|))
  {
    var digits := NatToString(n);
    Regroup(name, digits, t);
    MatchDigits(RenderFeast(name, n) + t, name, digits, t);
  }

  lemma Regroup(name: string, digits: string, t: string)
    ensures name + "=" + digits + "=" + t == name + "=" + (digits + "=" + t)
  {
  }

  lemma MatchDigits(s: string, name: string, digits: string, t: string)
    requires s == name + "=" + (digits + "=" + t)
    requires PlainName(name) && (t == [] || t[0] != '=') && digits != [] && AllDigits(digits)
    ensures MatchIn(s) == Some(Match(name, digits, |name| + |digits| + 2))
  {
    var u := digits + "=" + t;
    RankEnd(u, 0, digits, t);
    assert u[..|digits|] == digits;
    MatchSplit(s, name, u, |digits|);
  }

  /** The match of `name=u`, once the rank's end `m` in `u` is known. */
  lemma MatchSplit(s: string, name: string, u: string, m: nat)
    requires s == name + "=" + u
    requires PlainName(name) && u != [] && IsDigit(u[0])
    requires DigitsEnd(u, 0) == m && m < |u| && u[m] == '=' && RunEnd(u, m, IsEquals) == m + 1
    ensures MatchIn(s) == Some(Match(name, u[..m], |name| + 1 + m + 1))
  {
    assert SepFrom(s, 0) == Some(|name|) by { NameSep(name, u); }
    SplitAtSep(name, u);
    MatchAfterSep(s, |name|, u, m);
  }

  /** The match of a line whose first separator is at `k`, once the rank's end
      `m` in the text `u` after it is known. */
  lemma MatchAfterSep(s: string, k: nat, u: string, m: nat)
    requires SepFrom(s, 0) == Some(k) && k + 1 <= |s| && s[k + 1..] == u
    requires DigitsEnd(u, 0) == m && m < |u| && u[m] == '=' && RunEnd(u, m, IsEquals) == m + 1
    ensures MatchIn(s) == Some(Match(s[..k], u[..m], k + 1 + m + 1))
  {
    var d := k + 1 + m;
    DigitsEndShift(s, k + 1);
    EqualsEndShift(s, k + 1, m);
    assert s[d] == u[m] && s[k + 1..d] == u[..m];
    MatchInAt(s, k, d);
  }

  lemma SplitAtSep(name: string, u: string)
    ensures (name + "=" + u)[..|name|] == name
    ensures (name + "=" + u)[|name| + 1..] == u
  {
  }

  /** The match once its separator, rank end and "=" run are known. */
  lemma MatchInAt(s: string, k: nat, d: nat)
    requires SepFrom(s, 0) == Some(k) && DigitsEnd(s, k + 1) == d
    requires d < |s| && s[d] == '=' && RunEnd(s, d, IsEquals) == d + 1
    ensures MatchIn(s) == Some(Match(s[..k], s[k + 1..d], d + 1))
  {
  }

  lemma {:induction false} DigitsEndShift(s: string, i: nat)
    requires i <= |s|
    ensures DigitsEnd(s, i) == i + DigitsEnd(s[i..], 0)
    decreases |s| - i
  {
    if i < |s| && IsDigit(s[i]) {
      DigitsEndShift(s, i + 1);
      DigitsEndShift(s[i..], 1);
      assert s[i..][1..] == s[i + 1..];
    }
  }

  lemma {:induction false} EqualsEndShift(s: string, i: nat, j: nat)
    requires i + j <= |s|
    ensures RunEnd(s, i + j, IsEquals) == i + RunEnd(s[i..], j, IsEquals)
    decreases |s| - (i + j)
  {
    if i + j < |s| && s[i + j] == '=' {
      EqualsEndShift(s, i, j + 1);
    }
  }

  /** The groups a list of written feasts should give back. */
  function Groups(fs: seq<(string, nat)>): (gs: seq<(string, string)>)
    ensures |gs| == |fs| && forall k :: 0 <= k < |fs| ==> gs[k] == (fs[k].0, NatToString(fs[k].1))
    decreases |fs|
  {
    if fs == [] then [] else [(fs[0].0, NatToString(fs[0].1))] + Groups(fs[1..])
  }

  /** Every rendered feast comes back, with the decimal text of its rank. */
  lemma {:induction false} FindallRender(fs: seq<(string, nat)>)
    requires forall k :: 0 <= k < |fs| ==> PlainName(fs[k].0)
    ensures Findall(Render(fs)) == Groups(fs)
    decreases |fs|
  {
    if fs != [] {
      var head := RenderFeast(fs[0].0, fs[0].1);
      var rest := Render(fs[1..]);
      if fs[1..] != [] {
        assert rest[0] == fs[1].0[0];
      }
      MatchRendered(fs[0].0, fs[0].1, rest);
      assert (head + rest)[|head|..] == rest;
      FindallRender(fs[1..]);
    }
  }

  /** A feast name from the 1960 calendar holding "=" with no digit after it. */
  const FelicisName: string := "Ss. Felicis" + "=" + "Simplicii" + "=" + "Faustini et Beatricis Mart"

  /** A name may hold "=" as long as no digit follows it. */
  lemma FelicisFixture()
    ensures Findall(FelicisName + "=1=") == [(FelicisName, "1")]
  {
    assert PlainName(FelicisName) by {
      var a, b, c := "Ss. Felicis", "Simplicii", "Faustini et Beatricis Mart";
      NoSepWithoutEquals(a);
      NoSepWithoutEquals(b);
      NoSepWithoutEquals(c);
      PlainJoin(a, b);
      PlainJoin(a + "=" + b, c);
    }
    FindallRender([(FelicisName, 1)]);
    assert Render([(FelicisName, 1)]) == FelicisName + "=1=" by {
      assert NatToString(1) == "1";
    }
    assert Groups([(FelicisName, 1)]) == [(FelicisName, "1")] by {
      assert NatToString(1) == "1";
    }
  }

  lemma NoSepWithoutEquals(s: string)
    requires '=' !in s
    ensures forall j :: 0 <= j < |s| ==> !IsSep(s, j)
  {
    forall j | 0 <= j < |s| ensures !IsSep(s, j) {
      assert s[j] in s;
    }
  }

  /** Two plain names joined by "=" make a plain name, if the second does
      not start with a digit. */
  lemma PlainJoin(a: string, b: string)
    requires PlainName(a) && PlainName(b) && !IsDigit(b[0])
    ensures PlainName(a + "=" + b)
  {
    var s := a + "=" + b;
    forall j | 0 <= j < |s| ensures !IsSep(s, j) {
      if j < |a| - 1 {
        assert s[j] == a[j] && s[j + 1] == a[j + 1];
        assert !IsSep(a, j);
      } else if j == |a| - 1 {
        assert s[j + 1] == '=';
      } else if j == |a| {
        assert s[j + 1] == b[0];
      } else {
        assert s[j] == b[j - |a| - 1];
        if j + 1 < |s| {
          assert s[j + 1] == b[j - |a|];
        }
        assert !IsSep(b, j - |a| - 1);
      }
    }
  }

  /** `num` gives back the integer rank that was written. */
  lemma NumOfWritten(n: nat)
    ensures ToNum(NatToString(n)) == Some(IntNum(n))
  {
    StripKeeps(NatToString(n));
  }

  // ---- the version and the rank table ----

  /** The version name of a file with stem `stem`: the stem without its
      first character, renamed through `version_names`. */
  function VersionOf(stem: string): string {
    var v := if stem == [] then [] else stem[1..];
    if v in VersionNames then VersionNames[v] else v
  }

  /** Only the 1960 calendar has a rank table: every other stem fails. */
  lemma OnlyK1960(stem: string)
    ensures VersionOf(stem) in Structures.RankTableByCalendar <==> stem != [] && stem[1..] == "1960"
  {
    var v := if stem == [] then [] else stem[1..];
    if v in VersionNames {
      assert VersionNames[v] != "1960";
    }
  }

  /** "KM" and "KNC" name the monastic and new calendars, which have no table. */
  lemma OtherCalendarsUnknown()
    ensures VersionOf("KM") == "monastic" && VersionOf("KNC") == "newcal"
    ensures "monastic" !in Structures.RankTableByCalendar && "newcal" !in Structures.RankTableByCalendar
  {
    assert "KM"[1..] == "M";
    assert "KNC"[1..] == "NC";
  }

  /** The feast record handed to the schema constructor. */
  datatype Feast = Feast(
    name: string, rank: Num, typeName: string, datestr: string, language: string,
    version: Option<string>, sourcefile: string, lineno: int, rankName: string, rankDefeatable: bool)

  datatype ParsedLine = ParsedLine(feast: Feast, commemorations: Option<seq<Feast>>)

  /** What every feast of a line shares. */
  datatype Context = Context(
    month: int, day: int, table: Option<seq<string>>, language: string,
    version: Option<string>, sourcefile: string, lineno: int)

    const TemporeDatestr: string := "Sun between 2 Jan 5 Jan OR 2 Jan"

  /** The feast type and date expression of a day. */
  function Datestr(month: int, day: int): (r: Outcome<(string, string)>)
    ensures day == 0 ==> r == Return(("de Tempore", TemporeDatestr))
    ensures day != 0 ==> (r.Throw? <==> !(-12 <= month - 1 < 12))
    ensures day != 0 && 1 <= month <= 12 ==> r == Return(("Sanctorum", IntToString(day) + " " + Tables.Months[month - 1]))
    ensures r.Throw? ==> r.exc == IndexError
  {
    if day == 0 then Return(("de Tempore", TemporeDatestr))
    else match PyIndex(Tables.Months, month - 1)
      case None => Throw(IndexError)
      case Some(m) => Return(("Sanctorum", IntToString(day) + " " + m))
  }

  /** `rank_table[rank]`, and for a float rank, which a list cannot be
      indexed by, `rank_table[int(rank + 0.5)]`; without a table both
      subscripts raise TypeError. */
  function RankName(table: Option<seq<string>>, rank: Num): (r: Outcome<string>)
    ensures table.None? ==> r == Throw(TypeError)
    ensures table.Some? && rank.IntNum? ==> r == match PyIndex(table.value, rank.i) case Some(x) => Return(x) case None => Throw(IndexError)
    ensures table.Some? && rank.FloatNum? ==> r == match PyIndex(table.value, Trunc(rank.r + 0.5)) case Some(x) => Return(x) case None => Throw(IndexError)
  {
    match table
    case None => Throw(TypeError)
    case Some(t) =>
      var i := match rank case IntNum(i) => i case FloatNum(x) => Trunc(x + 0.5);
      match PyIndex(t, i)
      case Some(x) => Return(x)
      case None => Throw(IndexError)
  }

  /** A float rank rounds half up: 1.5 is the name of rank 2. */
  lemma FloatRankRounds(x: real, n: nat)
    requires n as real - 0.5 <= x < n as real + 0.5
    ensures Trunc(x + 0.5) == n
  {
  }

  /** The record one feast receives in the loop of `parse_line`. */
  function Fill(f: RawFeast, ctx: Context): (r: Outcome<Feast>)
  {
    match Datestr(ctx.month, ctx.day)
    case Throw(e) => Throw(e)
    case Return((ty, ds)) =>
      match RankName(ctx.table, f.rank)
      case Throw(e) => Throw(e)
      case Return(rn) =>
        Return(Feast(f.name, f.rank, ty, ds, ctx.language, ctx.version, ctx.sourcefile, ctx.lineno, rn, f.rank.FloatNum?))
  }

  /** The loop over all feasts: the first error stops it. */
  function FillAll(fs: seq<RawFeast>, ctx: Context): (r: Outcome<seq<Feast>>)
    ensures r.Return? ==> |r.value| == |fs|
    decreases |fs|
  {
    if fs == [] then Return([])
    else match Fill(fs[0], ctx)
      case Throw(e) => Throw(e)
      case Return(x) =>
        match FillAll(fs[1..], ctx)
        case Throw(e) => Throw(e)
        case Return(xs) => Return([x] + xs)
  }

  /** Every feast that is filled in has the fields its rank and day call for. */
  lemma {:induction false} FillAllFields(fs: seq<RawFeast>, ctx: Context)
    requires FillAll(fs, ctx).Return?
    ensures forall k :: 0 <= k < |fs| ==> Fill(fs[k], ctx).Return? && FillAll(fs, ctx).value[k] == Fill(fs[k], ctx).value
    decreases |fs|
  {
    if fs != [] {
      FillAllFields(fs[1..], ctx);
      assert forall k :: 1 <= k < |fs| ==> fs[k] == fs[1..][k - 1];
    }
  }

  /** What one filled-in feast holds: its own name and rank, the day's type
      and date expression, the table's rank name, and defeatability
      exactly for a float rank. */
  lemma FillFields(f: RawFeast, ctx: Context)
    requires Fill(f, ctx).Return?
    ensures var x := Fill(f, ctx).value;
      x.name == f.name && x.rank == f.rank && x.version == ctx.version &&
      (x.typeName, x.datestr) == Datestr(ctx.month, ctx.day).value &&
      Return(x.rankName) == RankName(ctx.table, f.rank) &&
      x.rankDefeatable == f.rank.FloatNum?
  {
  }

  /** The weight a feast is sorted by. */
  function Keys(fs: seq<RawFeast>): (keys: seq<real>)
    ensures |keys| == |fs| && forall k :: 0 <= k < |fs| ==> keys[k] == NumValue(fs[k].rank)
  {
    seq(|fs|, k requires 0 <= k < |fs| => NumValue(fs[k].rank))
  }

  /** The positions of `sorted(feasts, reverse=True, key=rank)`. */
  function RankOrder(fs: seq<RawFeast>): (order: seq<nat>)
    ensures Sorting.InRange(Keys(fs), order)
    ensures multiset(order) == multiset(Sorting.Positions(|fs|))
  {
    Sorting.SortDesc(Keys(fs), Sorting.Positions(|fs|))
  }

  function ByRank(fs: seq<RawFeast>): (r: seq<RawFeast>)
    ensures |r| == |RankOrder(fs)| && forall k :: 0 <= k < |r| ==> r[k] == fs[RankOrder(fs)[k]]
  {
    var order := RankOrder(fs);
    seq(|order|, k requires 0 <= k < |order| => fs[order[k]])
  }

  /** The sort is stable and descending, and keeps every feast once. */
  lemma ByRankSorted(fs: seq<RawFeast>)
    ensures Sorting.Ordered(Keys(fs), RankOrder(fs))
    ensures |ByRank(fs)| == |fs|
    ensures forall a, b :: 0 <= a < b < |fs| ==> NumValue(ByRank(fs)[a].rank) >= NumValue(ByRank(fs)[b].rank)
  {
    var order := RankOrder(fs);
    Sorting.SortOrdered(Keys(fs), Sorting.Positions(|fs|));
    assert |multiset(order)| == |fs|;
    forall a, b | 0 <= a < b < |fs| ensures NumValue(ByRank(fs)[a].rank) >= NumValue(ByRank(fs)[b].rank) {
      assert Sorting.Precedes(Keys(fs), order[a], order[b]);
    }
  }

  /** What `parse_line` returns for `content`, given the state left by
      `get_version`. */
  function Parsed(content: string, language: string, version: Option<string>, table: Option<seq<string>>,
                  sourcefile: string, lineno: int): Outcome<Option<ParsedLine>>
  {
    match Extracted(content)
    case Throw(e) => Throw(e)
    case Return(None) => Return(None)
    case Return(Some(d)) =>
      match DateParts(d.date)
      case Throw(e) => Throw(e)
      case Return((month, day)) =>
        match FillAll(ByRank(d.feasts), Context(month, day, table, language, version, sourcefile, lineno))
        case Throw(e) => Throw(e)
        case Return(xs) =>
          if xs == [] then Throw(IndexError)
          else Return(Some(ParsedLine(xs[0], if |xs| == 1 then None else Some(xs[1..]))))
  }

  /** A starred line is a comment. */
  lemma ParsedStarred(content: string, language: string, version: Option<string>, table: Option<seq<string>>,
                      sourcefile: string, lineno: int)
    requires StartsWith(Strip(content), "*")
    ensures Parsed(content, language, version, table, sourcefile, lineno) == Return(None)
  {
  }

  /** Every feast of the line comes out once, in stable descending rank
      order: the first is the feast, the rest its commemorations, and each
      carries its table rank name and is defeatable exactly when its rank
      is a float. */
  lemma ParsedFeasts(content: string, language: string, version: Option<string>, table: Option<seq<string>>,
                     sourcefile: string, lineno: int)
    requires Parsed(content, language, version, table, sourcefile, lineno).Return?
    requires Parsed(content, language, version, table, sourcefile, lineno).value.Some?
    ensures Extracted(content).Return? && Extracted(content).value.Some?
    ensures var d := Extracted(content).value.value;
      var p := Parsed(content, language, version, table, sourcefile, lineno).value.value;
      var all := [p.feast] + (if p.commemorations.Some? then p.commemorations.value else []);
      var fs := ByRank(d.feasts);
      |all| == |d.feasts| == |fs| && (p.commemorations.None? <==> |d.feasts| == 1) &&
      (forall k :: 0 <= k < |all| ==>
        all[k].name == fs[k].name && all[k].rank == fs[k].rank && all[k].version == version &&
        all[k].rankDefeatable == fs[k].rank.FloatNum? && Return(all[k].rankName) == RankName(table, fs[k].rank)) &&
      (forall k :: 1 <= k < |all| ==> NumValue(all[k].rank) <= NumValue(p.feast.rank))
  {
    var d := Extracted(content).value.value;
    var month, day := DateParts(d.date).value.0, DateParts(d.date).value.1;
    var ctx := Context(month, day, table, language, version, sourcefile, lineno);
    var xs := FillAll(ByRank(d.feasts), ctx).value;
    var p := Parsed(content, language, version, table, sourcefile, lineno).value.value;
    assert p == ParsedLine(xs[0], if |xs| == 1 then None else Some(xs[1..]));
    LineFeasts(d.feasts, ctx, p);
  }

  /** The feast and the commemorations of a parsed line are its feasts
      filled in rank order. */
  lemma LineFeasts(feasts: seq<RawFeast>, ctx: Context, p: ParsedLine)
    requires FillAll(ByRank(feasts), ctx).Return?
    requires var xs := FillAll(ByRank(feasts), ctx).value;
      xs != [] && p == ParsedLine(xs[0], if |xs| == 1 then None else Some(xs[1..]))
    ensures var all := [p.feast] + (if p.commemorations.Some? then p.commemorations.value else []);
      var fs := ByRank(feasts);
      |all| == |feasts| == |fs| && (p.commemorations.None? <==> |feasts| == 1) &&
      (forall k :: 0 <= k < |all| ==>
        all[k].name == fs[k].name && all[k].rank == fs[k].rank && all[k].version == ctx.version &&
        all[k].rankDefeatable == fs[k].rank.FloatNum? && Return(all[k].rankName) == RankName(ctx.table, fs[k].rank)) &&
      (forall k :: 1 <= k < |all| ==> NumValue(all[k].rank) <= NumValue(p.feast.rank))
  {
    var xs := FillAll(ByRank(feasts), ctx).value;
    assert [p.feast] + (if p.commemorations.Some? then p.commemorations.value else []) == xs;
    FilledByRank(feasts, ctx);
  }

  /** The feasts filled in rank order keep their fields and their order. */
  lemma FilledByRank(feasts: seq<RawFeast>, ctx: Context)
    requires FillAll(ByRank(feasts), ctx).Return?
    ensures var xs := FillAll(ByRank(feasts), ctx).value;
      var fs := ByRank(feasts);
      |xs| == |feasts| == |fs| &&
      (forall k :: 0 <= k < |xs| ==>
        xs[k].name == fs[k].name && xs[k].rank == fs[k].rank && xs[k].version == ctx.version &&
        xs[k].rankDefeatable == fs[k].rank.FloatNum? && Return(xs[k].rankName) == RankName(ctx.table, fs[k].rank)) &&
      (forall k :: 1 <= k < |xs| ==> NumValue(xs[k].rank) <= NumValue(xs[0].rank))
  {
    var fs := ByRank(feasts);
    var xs := FillAll(fs, ctx).value;
    ByRankSorted(feasts);
    FillAllFields(fs, ctx);
    forall k | 0 <= k < |xs|
      ensures xs[k].name == fs[k].name && xs[k].rank == fs[k].rank && xs[k].version == ctx.version
      ensures xs[k].rankDefeatable == fs[k].rank.FloatNum? && Return(xs[k].rankName) == RankName(ctx.table, fs[k].rank)
    {
      FillFields(fs[k], ctx);
    }
  }

  /** A line without any feast fails once its date is read. */
  lemma ParsedNoFeasts(content: string, language: string, version: Option<string>, table: Option<seq<string>>,
                       sourcefile: string, lineno: int)
    requires Extracted(content).Return? && Extracted(content).value.Some?
    requires Extracted(content).value.value.feasts == []
    requires DateParts(Extracted(content).value.value.date).Return?
    ensures Parsed(content, language, version, table, sourcefile, lineno) == Throw(IndexError)
  {
    assert ByRank([]) == [];
  }

  /** Without a rank table (no successful `get_version`) a line with a
      feast on a "de Tempore" day fails with TypeError. */
  lemma ParsedNoTable(content: string, language: string, version: Option<string>, sourcefile: string, lineno: int)
    requires Extracted(content).Return? && Extracted(content).value.Some?
    requires Extracted(content).value.value.feasts != []
    requires DateParts(Extracted(content).value.value.date).Return?
    requires DateParts(Extracted(content).value.value.date).value.1 == 0
    ensures Parsed(content, language, version, None, sourcefile, lineno) == Throw(TypeError)
  {
    var d := Extracted(content).value.value;
    ByRankSorted(d.feasts);
  }

  /** The loop of `parse_line` that completes each feast in turn. */
  method FillFeasts(feasts: seq<RawFeast>, ctx: Context) returns (r: Outcome<seq<Feast>>)
    ensures r == FillAll(feasts, ctx)
  {
    var done: seq<Feast> := [];
    var i := 0;
    assert feasts[i..] == feasts;
    PrefixedNothing(FillAll(feasts, ctx));
    while i < |feasts|
      invariant 0 <= i <= |feasts| && |done| == i
      invariant FillAll(feasts, ctx) == Prefixed(done, FillAll(feasts[i..], ctx))
    {
      assert feasts[i..][1..] == feasts[i + 1..];
      var x := Fill(feasts[i], ctx);
      if x.Throw? {
        return Throw(x.exc);
      }
      PrefixedStep(done, x.value, FillAll(feasts[i + 1..], ctx));
      done := done + [x.value];
      i := i + 1;
    }
    assert FillAll(feasts[i..], ctx) == Return([]);
    assert done + [] == done;
    return Return(done);
  }

  /** The module state of the parser. */
  class Kalendarium {
    /** The global `version`. */
    var version: Option<string>
    /** The global `rank_table`. */
    var rankTable: Option<seq<string>>

    constructor()
      ensures version == None && rankTable == None
    {
      version := None;
      rankTable := None;
    }

    /** `get_version(fn)` for a file whose stem is `stem`: the version is
        set even when the table lookup then fails, and a failed lookup
        leaves the previous table in place. */
    method GetVersion(stem: string) returns (r: Outcome<()>)
      modifies this
      ensures version == Some(VersionOf(stem))
      ensures VersionOf(stem) in Structures.RankTableByCalendar ==>
        r == Return(()) && rankTable == Some(Structures.RankTableByCalendar[VersionOf(stem)])
      ensures VersionOf(stem) !in Structures.RankTableByCalendar ==>
        r == Throw(KeyError) && rankTable == old(rankTable)
    {
      var v := if stem == [] then [] else stem[1..];
      if v in VersionNames {
        version := Some(VersionNames[v]);
      } else {
        version := Some(v);
      }
      if version.value in Structures.RankTableByCalendar {
        rankTable := Some(Structures.RankTableByCalendar[version.value]);
        return Return(());
      }
      return Throw(KeyError);
    }

    /** `parse_line(line, language, fn)`. */
    method ParseLine(line: Lines.Line, language: string, sourcefile: string) returns (r: Outcome<Option<ParsedLine>>)
      ensures r == Parsed(line.content, language, version, rankTable, sourcefile, line.lineno)
    {
      var data := ExtractLine(line.content);
      if data.Throw? {
        return Throw(data.exc);
      }
      if data.value.None? {
        return Return(None);
      }
      var d := data.value.value;
      var md := DateParts(d.date);
      if md.Throw? {
        return Throw(md.exc);
      }
      var ctx := Context(md.value.0, md.value.1, rankTable, language, version, sourcefile, line.lineno);
      var filled := FillFeasts(ByRank(d.feasts), ctx);
      if filled.Throw? {
        return Throw(filled.exc);
      }
      var done := filled.value;
      if done == [] {
        return Throw(IndexError);
      }
      var commemorations := if |done| == 1 then None else Some(done[1..]);
      return Return(Some(ParsedLine(done[0], commemorations)));
    }
  }
}
