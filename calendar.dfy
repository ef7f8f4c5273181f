/** The rank order shared by feasts and commemorations (`RankMixin`): a
    rank name is weighed through the traditional lookup table, and a
    defeatable rank weighs 0.1 less. Weights are reals: every weight is a
    multiple of 0.1 at least 0.1 from every other, so the float arithmetic
    of the original orders them the same way. */
module Calendar {
  import opened Text
  import opened Py
  import S = Structures

  /** The two rank columns of a feast or commemoration. */
  datatype Ranked = Ranked(rankName: string, defeatable: bool)

  /** The lookup key of a rank name: trimmed and lower-cased. */
  function RankKey(name: string): string {
    Lower(Strip(name))
  }

  /** `_rank_to_int`. A name missing from the traditional table raises
      KeyError: the handler that would try the 1960 and feria tables
      catches ValueError, which a dict lookup never raises. */
  function RankValue(x: Ranked): (r: Outcome<real>)
    ensures r.Return? <==> RankKey(x.rankName) in S.TraditionalRankLookup
    ensures r.Throw? ==> r.exc == KeyError
    ensures r.Return? && !x.defeatable ==> r.value == S.TraditionalRankLookup[RankKey(x.rankName)]
    ensures r.Return? && x.defeatable ==> r.value == S.TraditionalRankLookup[RankKey(x.rankName)] - 0.1
  {
    var name := RankKey(x.rankName);
    if name in S.TraditionalRankLookup then
      var v := S.TraditionalRankLookup[name];
      Return(if x.defeatable then v - 0.1 else v)
    else Throw(KeyError)
  }

  /** `a > b`; the left operand is weighed first. */
  function Gt(a: Ranked, b: Ranked): (r: Outcome<bool>)
    ensures r.Return? <==> RankValue(a).Return? && RankValue(b).Return?
    ensures r.Return? ==> (r.value <==> RankValue(a).value > RankValue(b).value)
  {
    match RankValue(a)
    case Throw(e) => Throw(e)
    case Return(x) =>
      match RankValue(b)
      case Throw(e) => Throw(e)
      case Return(y) => Return(x > y)
  }

  /** `a < b`. */
  function Lt(a: Ranked, b: Ranked): (r: Outcome<bool>)
    ensures r.Return? <==> RankValue(a).Return? && RankValue(b).Return?
    ensures r.Return? ==> (r.value <==> RankValue(a).value < RankValue(b).value)
  {
    match RankValue(a)
    case Throw(e) => Throw(e)
    case Return(x) =>
      match RankValue(b)
      case Throw(e) => Throw(e)
      case Return(y) => Return(x < y)
  }

  /** `a < b` is `b > a`, never both `a > b` and `a < b`, and equal
      weights satisfy neither. */
  lemma OrderConsistent(a: Ranked, b: Ranked)
    requires RankValue(a).Return? && RankValue(b).Return?
    ensures Lt(a, b) == Gt(b, a)
    ensures !(Gt(a, b).value && Lt(a, b).value)
    ensures RankValue(a) == RankValue(b) ==> Gt(a, b) == Lt(a, b) == Return(false)
  {
  }

  /** Surrounding whitespace and letter case do not change a rank. */
  lemma KeyNormalised(name: string)
    ensures RankKey(RankKey(name)) == RankKey(name)
  {
    var t := Strip(name);
    LowerTwice(t);
    StripKeeps(Lower(t));
  }

  /** Of two entries with the same known name, the non-defeatable one is greater. */
  lemma UndefeatableOutranks(name: string)
    requires RankKey(name) in S.TraditionalRankLookup
    ensures Gt(Ranked(name, false), Ranked(name, true)) == Return(true)
    ensures Lt(Ranked(name, true), Ranked(name, false)) == Return(true)
  {
  }

  /** A defeatable entry still beats any entry whose table weight is lower,
      whatever that entry's flag: table weights lie at least 0.5 apart. */
  lemma DefeatableStillOutranksLower(a: Ranked, b: Ranked)
    requires RankKey(a.rankName) in S.TraditionalRankLookup && RankKey(b.rankName) in S.TraditionalRankLookup
    requires S.TraditionalRankLookup[RankKey(a.rankName)] > S.TraditionalRankLookup[RankKey(b.rankName)]
    ensures Gt(a, b) == Return(true) && Lt(b, a) == Return(true)
  {
    S.TraditionalGaps(RankKey(a.rankName), RankKey(b.rankName));
  }

  /** The 1960 rank names other than "feria" fail to compare. */
  lemma NewRankNamesUnknown(k: nat, defeatable: bool)
    requires 1 <= k < |S.NewRankTable|
    ensures RankValue(Ranked(S.NewRankTable[k], defeatable)) == Throw(KeyError)
  {
    var n := S.NewRankTable[k];
    StripKeeps(n);
    assert Lower(n) == n;
  }
}
