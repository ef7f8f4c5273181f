/** The older calendar-line parser, `K2obj.parse_line`: a line
    "date=duplicate date=name=rank[=commemorations...]" of a
    divinumofficium calendar table becomes a feast record for a calendar
    version. Unlike the kalendarium parser it splits on every "=", so a
    name can hold no "=", and the name itself is not kept. */
module K2obj {
  import opened Text
  import opened Py
  import Structures
  import Kalendarium

  datatype Commemoration = Commemoration(name: string, rankName: string, defeatable: bool)

  /** The fields handed to `FeastCreate`: there is no name among them. */
  datatype Feast = Feast(
    rankName: string, datestr: string, version: string, typeName: string,
    commemorations: Option<seq<Commemoration>>, defeatable: bool)

  /** A field `float` accepts: a rank rather than a commemorated name. */
  predicate IsNumber(part: string) {
    ParseFloat(part).Some?
  }

  /** `rank_table[int(rank)]`, not defeatable; when `int` refuses the text,
      `rank_table[int(float(rank) + 0.5)]`, defeatable. */
  function RankOf(table: seq<string>, text: string): (r: Outcome<(string, bool)>)
    ensures r == Throw(ValueError) <==> !IsNumber(text)
    ensures r.Throw? ==> r.exc == ValueError || r.exc == IndexError
    ensures r.Return? ==> r.value.0 in table && (r.value.1 <==> ParseInt(text).None?)
  {
    match ParseInt(text)
    case Some(i) =>
      (match PyIndex(table, i) case Some(n) => Return((n, false)) case None => Throw(IndexError))
    case None =>
      match ParseFloat(text)
      case None => Throw(ValueError)
      case Some(x) =>
        match PyIndex(table, Trunc(x + 0.5)) case Some(n) => Return((n, true)) case None => Throw(IndexError)
  }

  /** Both calendar parsers give a number the same rank name, and both call
      it defeatable exactly when it is not an integer. */
  lemma RankAgrees(table: seq<string>, text: string)
    requires IsNumber(text)
    ensures Kalendarium.ToNum(text).Some?
    ensures var n := Kalendarium.ToNum(text).value;
      RankOf(table, text) == match Kalendarium.RankName(Some(table), n)
        case Return(name) => Return((name, n.FloatNum?))
        case Throw(e) => Throw(e)
  {
  }

  /** The loop over `parts[4:]`: a number sets the current rank, any other
      field is commemorated with the current rank, and a field before any
      number finds `commemoration_rank_name` unbound. */
  function Commemorations(table: seq<string>, parts: seq<string>, current: Option<(string, bool)>)
    : (r: Outcome<seq<Commemoration>>)
    ensures r.Throw? ==> r.exc == IndexError || r.exc == UnboundLocalError
    decreases |parts|
  {
    if parts == [] then Return([])
    else if IsNumber(parts[0]) then
      match RankOf(table, parts[0])
      case Throw(e) => Throw(e)
      case Return(rank) => Commemorations(table, parts[1..], Some(rank))
    else match current
      case None => Throw(UnboundLocalError)
      case Some(rank) =>
        Prefixed([Commemoration(parts[0], rank.0, rank.1)], Commemorations(table, parts[1..], current))
  }

  /** The commemorated names are the fields that are not numbers, in order. */
  function Names(parts: seq<string>): (ns: seq<string>)
    ensures forall k :: 0 <= k < |ns| ==> ns[k] in parts && !IsNumber(ns[k])
    decreases |parts|
  {
    if parts == [] then []
    else if IsNumber(parts[0]) then Names(parts[1..])
    else [parts[0]] + Names(parts[1..])
  }

  function CommemoratedNames(cs: seq<Commemoration>): (ns: seq<string>)
    ensures |ns| == |cs| && forall k :: 0 <= k < |cs| ==> ns[k] == cs[k].name
  {
    seq(|cs|, k requires 0 <= k < |cs| => cs[k].name)
  }

  /** Every field that is not a number is commemorated once, in order. */
  lemma {:induction false} CommemorationNames(table: seq<string>, parts: seq<string>, current: Option<(string, bool)>)
    requires Commemorations(table, parts, current).Return?
    ensures CommemoratedNames(Commemorations(table, parts, current).value) == Names(parts)
    decreases |parts|
  {
    if parts != [] {
      if IsNumber(parts[0]) {
        CommemorationNames(table, parts[1..], Some(RankOf(table, parts[0]).value));
      } else {
        CommemorationNames(table, parts[1..], current);
      }
    }
  }

  /** A name before any number cannot be commemorated. */
  lemma UnboundName(table: seq<string>, parts: seq<string>)
    requires parts != [] && !IsNumber(parts[0])
    ensures Commemorations(table, parts, None) == Throw(UnboundLocalError)
  {
  }

  /** The table as a file writes it: each rank followed by the names it
      applies to. */
  function Flatten(groups: seq<(string, seq<string>)>): seq<string>
    decreases |groups|
  {
    if groups == [] then [] else [groups[0].0] + groups[0].1 + Flatten(groups[1..])
  }

  predicate WellGrouped(groups: seq<(string, seq<string>)>) {
    forall g :: g in groups ==> IsNumber(g.0) && forall n :: n in g.1 ==> !IsNumber(n)
  }

  function Named(names: seq<string>, rank: (string, bool)): (cs: seq<Commemoration>)
    ensures |cs| == |names| && forall k :: 0 <= k < |names| ==> cs[k] == Commemoration(names[k], rank.0, rank.1)
  {
    seq(|names|, k requires 0 <= k < |names| => Commemoration(names[k], rank.0, rank.1))
  }

  /** Group by group: every name gets the rank written before it. */
  function Grouped(table: seq<string>, groups: seq<(string, seq<string>)>): Outcome<seq<Commemoration>>
    decreases |groups|
  {
    if groups == [] then Return([])
    else match RankOf(table, groups[0].0)
      case Throw(e) => Throw(e)
      case Return(rank) => Prefixed(Named(groups[0].1, rank), Grouped(table, groups[1..]))
  }

  /** The loop commemorates each name with the rank most recently written
      before it, whatever rank was current when the groups began. */
  lemma {:induction false} GroupedCommemorations(table: seq<string>, groups: seq<(string, seq<string>)>,
                                                 current: Option<(string, bool)>)
    requires WellGrouped(groups)
    ensures Commemorations(table, Flatten(groups), current) == Grouped(table, groups)
    decreases |groups|
  {
    if groups != [] {
      var g := groups[0];
      var rest := Flatten(groups[1..]);
      assert g in groups;
      assert WellGrouped(groups[1..]) by {
        forall h | h in groups[1..] ensures h in groups { }
      }
      var s := Flatten(groups);
      assert s == [g.0] + (g.1 + rest);
      match RankOf(table, g.0)
      case Throw(e) =>
        RankFirst(table, g.0, g.1 + rest, current);
      case Return(rank) =>
        RankFirst(table, g.0, g.1 + rest, current);
        NamesThen(table, g.1, rank, groups[1..]);
        GroupedCommemorations(table, groups[1..], Some(rank));
    }
  }

  /** A number first: its rank becomes current, or its error is raised. */
  lemma RankFirst(table: seq<string>, rank: string, rest: seq<string>, current: Option<(string, bool)>)
    requires IsNumber(rank)
    ensures Commemorations(table, [rank] + rest, current) == match RankOf(table, rank)
      case Throw(e) => Throw(e)
      case Return(r) => Commemorations(table, rest, Some(r))
  {
    assert ([rank] + rest)[1..] == rest;
  }

  /** Names under one rank, then the following groups. */
  lemma {:induction false} NamesThen(table: seq<string>, names: seq<string>, rank: (string, bool),
                                     groups: seq<(string, seq<string>)>)
    requires forall n :: n in names ==> !IsNumber(n)
    ensures Commemorations(table, names + Flatten(groups), Some(rank))
      == Prefixed(Named(names, rank), Commemorations(table, Flatten(groups), Some(rank)))
    decreases |names|
  {
    var rest := Flatten(groups);
    if names == [] {
      assert names + rest == rest;
      PrefixedNothing(Commemorations(table, rest, Some(rank)));
      assert Named(names, rank) == [];
    } else {
      var s := names + rest;
      assert s[0] == names[0] && s[1..] == names[1..] + rest;
      assert names[0] in names;
      NamesThen(table, names[1..], rank, groups);
      var c := Commemoration(names[0], rank.0, rank.1);
      var tail := Commemorations(table, rest, Some(rank));
      assert Named(names, rank) == [c] + Named(names[1..], rank);
      if tail.Return? {
        assert [c] + (Named(names[1..], rank) + tail.value) == [c] + Named(names[1..], rank) + tail.value;
      }
    }
  }

  /** `qualifiers`: the duplicate date without its last character, when it
      differs from the date. The parser only prints it. */
  function Qualifiers(date: string, duplicate: string): (q: Option<string>)
    ensures q.Some? <==> date != duplicate
    ensures q.Some? && duplicate != [] ==> q.value + [duplicate[|duplicate| - 1]] == duplicate
    ensures q.Some? && duplicate == [] ==> q.value == []
  {
    if date == duplicate then None
    else if duplicate == [] then Some([])
    else Some(duplicate[..|duplicate| - 1])
  }

  /** Commemorations are read only when there are more than five fields and
      the fifth is not empty. */
  predicate HasCommemorations(parts: seq<string>) {
    |parts| > 5 && parts[4] != []
  }

  /** `parse_line` once the rank table of the version is known and the
      stripped line is split on "=". */
  function FromParts(table: seq<string>, parts: seq<string>, version: string): Outcome<Feast> {
    if |parts| < 4 then Throw(ValueError)
    else match RankOf(table, parts[3])
      case Throw(e) => Throw(e)
      case Return(rank) =>
        match (if HasCommemorations(parts) then Commemorations(table, parts[4..], None) else Return([]))
        case Throw(e) => Throw(e)
        case Return(cs) =>
          match DateParts(parts[0])
          case Throw(e) => Throw(e)
          case Return((month, day)) =>
            match Kalendarium.Datestr(month, day)
            case Throw(e) => Throw(e)
            case Return((typeName, datestr)) =>
              Return(Feast(rank.0, datestr, version, typeName,
                           if HasCommemorations(parts) then Some(cs) else None, rank.1))
  }

  /** `parse_line(line, version)`. */
  function Parsed(line: string, version: string): Outcome<Option<Feast>> {
    var s := Strip(line);
    if StartsWith(s, "*") then Return(None)
    else if version !in Structures.RankTableByCalendar then Throw(KeyError)
    else match FromParts(Structures.RankTableByCalendar[version], Split(s, '='), version)
      case Throw(e) => Throw(e)
      case Return(f) => Return(Some(f))
  }

  /** A starred line is a comment, whatever the version. */
  lemma ParsedStarred(line: string, version: string)
    requires StartsWith(Strip(line), "*")
    ensures Parsed(line, version) == Return(None)
  {
  }

  /** Any other line needs a version with a rank table: only "1960" has one. */
  lemma ParsedVersion(line: string, version: string)
    requires !StartsWith(Strip(line), "*")
    ensures Parsed(line, version) == Throw(KeyError) <==> version != "1960"
  {
    assert Structures.RankTableByCalendar.Keys == {"1960"};
  }

  /** What a parsed line holds: the version, the rank of field four, the
      type and date expression of field one, and commemorations exactly
      when the line has them. */
  lemma FromPartsFields(table: seq<string>, parts: seq<string>, version: string)
    requires FromParts(table, parts, version).Return?
    ensures |parts| >= 4
    ensures var f := FromParts(table, parts, version).value;
      f.version == version &&
      RankOf(table, parts[3]) == Return((f.rankName, f.defeatable)) &&
      DateParts(parts[0]).Return? &&
      Kalendarium.Datestr(DateParts(parts[0]).value.0, DateParts(parts[0]).value.1)
        == Return((f.typeName, f.datestr)) &&
      (f.commemorations.Some? <==> HasCommemorations(parts)) &&
      (f.commemorations.Some? ==> Commemorations(table, parts[4..], None) == Return(f.commemorations.value))
  {
  }

  /** Fewer than four fields cannot be unpacked. */
  lemma FromPartsShort(table: seq<string>, parts: seq<string>, version: string)
    requires |parts| < 4
    ensures FromParts(table, parts, version) == Throw(ValueError)
  {
  }

  /** The name field is read but has no effect on the result. */
  lemma NameIgnored(table: seq<string>, parts: seq<string>, version: string, name: string)
    requires |parts| >= 3
    ensures FromParts(table, parts[2 := name], version) == FromParts(table, parts, version)
  {
    var q := parts[2 := name];
    if |parts| >= 4 {
      assert q[3] == parts[3] && q[0] == parts[0];
      assert HasCommemorations(q) == HasCommemorations(parts);
      assert q[4..] == parts[4..];
    }
  }

  /** The loop over `parts[4:]`. */
  method CollectCommemorations(table: seq<string>, parts: seq<string>) returns (r: Outcome<seq<Commemoration>>)
    ensures r == Commemorations(table, parts, None)
  {
    var done: seq<Commemoration> := [];
    var current: Option<(string, bool)> := None;
    var i := 0;
    PrefixedNothing(Commemorations(table, parts, None));
    while i < |parts|
      invariant 0 <= i <= |parts|
      invariant Commemorations(table, parts, None) == Prefixed(done, Commemorations(table, parts[i..], current))
    {
      var part := parts[i];
      assert parts[i..][0] == part && parts[i..][1..] == parts[i + 1..];
      if IsNumber(part) {
        var rank := RankOf(table, part);
        if rank.Throw? {
          return Throw(rank.exc);
        }
        current := Some(rank.value);
      } else {
        if current.None? {
          return Throw(UnboundLocalError);
        }
        var c := Commemoration(part, current.value.0, current.value.1);
        PrefixedStep(done, c, Commemorations(table, parts[i + 1..], current));
        done := done + [c];
      }
      i := i + 1;
    }
    assert done + [] == done;
    return Return(done);
  }

  /** `parse_line(line, version)`, with the commemoration loop run as a loop. */
  method ParseLine(line: string, version: string) returns (r: Outcome<Option<Feast>>)
    ensures r == Parsed(line, version)
  {
    var s := Strip(line);
    if StartsWith(s, "*") {
      return Return(None);
    }
    if version !in Structures.RankTableByCalendar {
      return Throw(KeyError);
    }
    var table := Structures.RankTableByCalendar[version];
    var parts := Split(s, '=');
    if |parts| < 4 {
      return Throw(ValueError);
    }
    var rank := RankOf(table, parts[3]);
    if rank.Throw? {
      return Throw(rank.exc);
    }
    var commemorations: Option<seq<Commemoration>> := None;
    if HasCommemorations(parts) {
      var cs := CollectCommemorations(table, parts[4..]);
      if cs.Throw? {
        return Throw(cs.exc);
      }
      commemorations := Some(cs.value);
    }
    var date := DateParts(parts[0]);
    if date.Throw? {
      return Throw(date.exc);
    }
    var day := Kalendarium.Datestr(date.value.0, date.value.1);
    if day.Throw? {
      return Throw(day.exc);
    }
    return Return(Some(Feast(rank.value.0, day.value.1, version, day.value.0, commemorations, rank.value.1)));
  }
}
