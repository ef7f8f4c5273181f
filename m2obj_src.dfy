/** The older copy of the martyrology parser (`src/officiumdivinum`): the
    same datestr and content logic as `M2obj`, returning `Martyrology` and
    `MartyrologyInfo` objects instead of dictionaries. */
module OfficiumM2obj {
  import opened Text
  import opened Py
  import M2obj
  import T2obj

  /** `Date(datestr)`: a date rule, kept as its text. */
  datatype Date = Date(datestr: string)

  datatype Martyrology = Martyrology(date: Date, oldDate: string, content: seq<string>)

  datatype MartyrologyInfo = MartyrologyInfo(date: Date, content: Option<seq<string>>)

  datatype Parsed = Day(martyrology: Martyrology) | Mobile(infos: seq<MartyrologyInfo>)

  function Info(e: M2obj.MobileEntry): MartyrologyInfo {
    MartyrologyInfo(Date(e.datestr), e.content)
  }

  function Infos(es: seq<M2obj.MobileEntry>): (r: seq<MartyrologyInfo>)
    ensures |r| == |es| && forall k :: 0 <= k < |es| ==> r[k] == Info(es[k])
  {
    seq(|es|, k requires 0 <= k < |es| => Info(es[k]))
  }

  lemma InfosSnoc(es: seq<M2obj.MobileEntry>, x: M2obj.MobileEntry)
    ensures Infos(es + [x]) == Infos(es) + [Info(x)]
  {
  }

  function InfosOf(r: Outcome<seq<M2obj.MobileEntry>>): Outcome<seq<MartyrologyInfo>> {
    match r
    case Throw(e) => Throw(e)
    case Return(es) => Return(Infos(es))
  }

  /** The older copy's result for the record the newer copy builds. */
  function FromEntries(r: Outcome<M2obj.Parsed>): Outcome<Parsed> {
    match r
    case Throw(e) => Throw(e)
    case Return(Fixed(e)) => Return(Day(Martyrology(Date(e.datestr), e.julianDate, e.content)))
    case Return(Mobile(es)) => Return(Mobile(Infos(es)))
  }

  /** `parse_file(fn)` of the older copy. */
  function ParsedFile(stem: string, lines: seq<string>): Outcome<Parsed> {
    FromEntries(M2obj.ParsedFile(stem, lines))
  }

  /** Each movable section becomes one `MartyrologyInfo`, in file order,
      and the last section of the file yields none. */
  lemma MobileInfos(lines: seq<string>, tail: seq<string>)
    requires T2obj.NoHeader(tail)
    ensures ParsedFile("Mobile", lines + tail) == ParsedFile("Mobile", lines)
    ensures M2obj.MobileFile(lines).Return? ==>
      ParsedFile("Mobile", lines) == Return(Mobile(Infos(M2obj.MobileFile(lines).value)))
    ensures M2obj.MobileFile(lines).Throw? ==> ParsedFile("Mobile", lines) == Throw(KeyError)
  {
    M2obj.MobileLastDropped(lines, tail);
  }

  /** A fixed day keeps the datestr, the old date and the content of the newer copy. */
  lemma SameDay(stem: string, lines: seq<string>)
    requires stem != "Mobile"
    ensures ParsedFile(stem, lines).Return? <==> M2obj.StemDatestr(stem).Return?
    ensures ParsedFile(stem, lines).Return? ==>
      ParsedFile(stem, lines) == Return(Day(Martyrology(
        Date(M2obj.StemDatestr(stem).value), M2obj.JulianDate(lines), M2obj.Kept(M2obj.Rest(lines)))))
  {
  }

  /** The loop over `sections.items()` of the older copy. */
  method CollectInfos(sections: Dict<string, Option<seq<string>>>) returns (r: Outcome<seq<MartyrologyInfo>>)
    ensures r == InfosOf(M2obj.MobileEntries(sections))
  {
    var mobile: seq<MartyrologyInfo> := [];
    ghost var entries: seq<M2obj.MobileEntry> := [];
    PrefixedNothing(M2obj.MobileEntries(sections));
    for i := 0 to |sections|
      invariant mobile == Infos(entries)
      invariant M2obj.MobileEntries(sections) == Prefixed(entries, M2obj.MobileEntries(sections[i..]))
    {
      assert sections[i..][0] == sections[i] && sections[i..][1..] == sections[i + 1..];
      var (name, section) := sections[i];
      var d := M2obj.MobileDatestr(name);
      if d.Throw? {
        return Throw(d.exc);
      }
      if d.value.None? {
        continue;
      }
      var x := M2obj.MobileEntry(d.value.value, section);
      PrefixedStep(entries, x, M2obj.MobileEntries(sections[i + 1..]));
      InfosSnoc(entries, x);
      entries := entries + [x];
      mobile := mobile + [Info(x)];
    }
    assert sections[|sections|..] == [];
    assert entries + [] == entries;
    return Return(mobile);
  }

  method ParseFile(stem: string, lines: seq<string>) returns (r: Outcome<Parsed>)
    ensures r == ParsedFile(stem, lines)
  {
    if stem == "Mobile" {
      var sections := T2obj.ParseSections(lines);
      var infos := CollectInfos(sections);
      if infos.Throw? {
        return Throw(infos.exc);
      }
      return Return(Mobile(infos.value));
    }
    var datestr := M2obj.StemDatestr(stem);
    if datestr.Throw? {
      return Throw(datestr.exc);
    }
    var content := M2obj.CollectContent(M2obj.Rest(lines));
    return Return(Day(Martyrology(Date(datestr.value), M2obj.JulianDate(lines), content)));
  }
}
