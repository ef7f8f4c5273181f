/** The static rank tables of divinumofficium: the traditional ranks with
    their numeric weights, the 1960 ranks, the feria ranks, the table of
    rank names per calendar, and the Latin feminine ordinals. */
module Structures {
  import opened Text
  import Tables

  /** The hours of the office, in the order section names are searched for them. */
  const Commands: seq<string> := [
    "Ante", "Matutinum", "Laudes", "Prima", "Tertia", "Sexta", "Nona",
    "Vespera", "Completorium", "Past"]

  /** Rank names indexed by the numeric rank of a traditional calendar line. */
  const TraditionalRankTable: seq<string> := [
    "feria", "simplex", "semiduplex", "duplex", "duplex majus",
    "duplex ii classis", "duplex i classis", "duplex i classis"]

  /** The weight of each traditional rank name; only these names compare. */
  const TraditionalRankLookup: map<string, real> := map[
    "feria" := 0.0, "simplex" := 1.0, "semiduplex" := 2.0, "duplex" := 3.0,
    "duplex majus" := 4.0, "duplex ii classis" := 5.0, "duplex i classis" := 6.0,
    "semiduplex i classis" := 2.5, "i ordinis" := 6.0, "i classis" := 6.0]

  /** Rank names indexed by the numeric rank of a 1960 calendar line. */
  const NewRankTable: seq<string> := [
    "feria", "commemoratio", "iii. classis", "iii. classis", "iii. classis",
    "ii. classis", "i. classis", "i. classis"]

  const FeriaRanks: map<string, real> := map[
    "feria minor" := 0.0, "feria major" := 0.5, "feria privilegiata" := 8.0,
    "i classis" := 8.0, "ii classis" := 5.0, "iii classis" := 2.0, "iv classis" := 0.0]

  /** Only the 1960 calendar has a rank table. */
  const RankTableByCalendar: map<string, seq<string>> := map["1960" := NewRankTable]

  const LatinFeminineOrdinals: seq<string> := [
    "prima", "secunda", "tertia", "quarta", "quinta", "sexta", "septima",
    "octava", "nona", "decima", "undecima", "duodecima", "tertia decima",
    "quarta decima", "quinta decima", "sexta decima", "septima decima",
    "duodevicesima", "undevicesima", "vicesima", "vicesima prima",
    "vicesima secunda", "vicesima tertia", "vicesima quarta", "vicesima quinta",
    "vicesima sexta", "vicesima septima", "vicesima octava", "vicesima nona",
    "tricesima"]

  /** Weights strictly increase along the traditional table, whose last
      two entries are the same rank. */
  lemma TraditionalWeightsIncrease()
    ensures |TraditionalRankTable| == 8 && TraditionalRankTable[6] == TraditionalRankTable[7]
    ensures forall k :: 0 <= k < 8 ==> TraditionalRankTable[k] in TraditionalRankLookup
    ensures forall i, j :: 0 <= i < j < 7 ==>
      TraditionalRankLookup[TraditionalRankTable[i]] < TraditionalRankLookup[TraditionalRankTable[j]]
    ensures forall k :: 0 <= k < 7 ==> TraditionalRankLookup[TraditionalRankTable[k]] == k as real
  {
  }

  /** "semiduplex i classis" sits between semiduplex and duplex; "i ordinis"
      and "i classis" weigh as much as "duplex i classis". */
  lemma TraditionalAliases()
    ensures TraditionalRankLookup["semiduplex"] < TraditionalRankLookup["semiduplex i classis"] < TraditionalRankLookup["duplex"]
    ensures TraditionalRankLookup["semiduplex i classis"] == 2.5
    ensures TraditionalRankLookup["i ordinis"] == TraditionalRankLookup["i classis"] == TraditionalRankLookup["duplex i classis"] == 6.0
  {
  }

  /** `new_rank_table.index(name)` is the first position of the name:
      "iii. classis" gives 2, "ii. classis" 5 and "i. classis" 6. */
  lemma NewRankFirstPositions()
    ensures Tables.IndexOf(NewRankTable, "iii. classis") == Some(2)
    ensures Tables.IndexOf(NewRankTable, "ii. classis") == Some(5)
    ensures Tables.IndexOf(NewRankTable, "i. classis") == Some(6)
  {
    NewRankThird();
    NewRankSecond();
    NewRankFirst();
  }

  lemma NewRankThird()
    ensures Tables.IndexOf(NewRankTable, "iii. classis") == Some(2)
  {
    Tables.IndexOfAt(NewRankTable, "iii. classis", 2);
  }

  lemma NewRankSecond()
    ensures Tables.IndexOf(NewRankTable, "ii. classis") == Some(5)
  {
    Tables.IndexOfAt(NewRankTable, "ii. classis", 5);
  }

  lemma NewRankFirst()
    ensures Tables.IndexOf(NewRankTable, "i. classis") == Some(6)
  {
    Tables.IndexOfAt(NewRankTable, "i. classis", 6);
  }

  /** The two top feria ranks outweigh every traditional rank. */
  lemma FeriaRanksOutrank()
    ensures FeriaRanks["feria privilegiata"] == FeriaRanks["i classis"] == 8.0
    ensures forall n :: n in TraditionalRankLookup ==> TraditionalRankLookup[n] < FeriaRanks["feria privilegiata"]
  {
  }

  /** Every traditional weight is one of the seven whole ranks or 2.5. */
  lemma TraditionalWeights(n: string)
    requires n in TraditionalRankLookup
    ensures TraditionalRankLookup[n] in {0.0, 1.0, 2.0, 2.5, 3.0, 4.0, 5.0, 6.0}
  {
  }

  /** Distinct traditional weights are at least 0.5 apart. */
  lemma TraditionalGaps(a: string, b: string)
    requires a in TraditionalRankLookup && b in TraditionalRankLookup
    requires TraditionalRankLookup[a] > TraditionalRankLookup[b]
    ensures TraditionalRankLookup[a] - TraditionalRankLookup[b] >= 0.5
  {
    TraditionalWeights(a);
    TraditionalWeights(b);
  }

  lemma RankTablesByCalendar()
    ensures RankTableByCalendar.Keys == {"1960"}
    ensures RankTableByCalendar["1960"] == NewRankTable
  {
  }

  /** Thirty ordinals, from "prima" to "tricesima", all distinct. */
  lemma LatinOrdinalsCount()
    ensures |LatinFeminineOrdinals| == 30
    ensures LatinFeminineOrdinals[0] == "prima" && LatinFeminineOrdinals[29] == "tricesima"
    ensures Tables.Distinct(LatinFeminineOrdinals)
  {
    OrdinalsDistinctFirst();
    OrdinalsDistinctLow();
    OrdinalsDistinctMiddle();
    OrdinalsDistinctHigh();
  }

  /** The length of a word and its third letter from either end. */
  function Signature(w: string): (int, char, char) {
    if |w| < 3 then (|w|, ' ', ' ') else (|w|, w[2], w[|w| - 3])
  }

  /** Ordinals 0 to 7 differ from every later one: by length or by
      their third letter from either end. */
  lemma OrdinalsDistinctFirst()
    ensures forall i, j :: 0 <= i < 8 && i < j < |LatinFeminineOrdinals| ==>
      LatinFeminineOrdinals[i] != LatinFeminineOrdinals[j]
  {
    var xs := LatinFeminineOrdinals;
    forall i, j | 0 <= i < 8 && i < j < |xs| ensures xs[i] != xs[j] {
      assert Signature(xs[i]) != Signature(xs[j]);
    }
  }

  /** Ordinals 8 to 15 differ from every later one: by length or by
      their third letter from either end. */
  lemma OrdinalsDistinctLow()
    ensures forall i, j :: 8 <= i < 16 && i < j < |LatinFeminineOrdinals| ==>
      LatinFeminineOrdinals[i] != LatinFeminineOrdinals[j]
  {
    var xs := LatinFeminineOrdinals;
    forall i, j | 8 <= i < 16 && i < j < |xs| ensures xs[i] != xs[j] {
      assert Signature(xs[i]) != Signature(xs[j]);
    }
  }

  /** Ordinals 16 to 22 differ from every later one: by length or by
      their third letter from either end. */
  lemma OrdinalsDistinctMiddle()
    ensures forall i, j :: 16 <= i < 23 && i < j < |LatinFeminineOrdinals| ==>
      LatinFeminineOrdinals[i] != LatinFeminineOrdinals[j]
  {
    var xs := LatinFeminineOrdinals;
    forall i, j | 16 <= i < 23 && i < j < |xs| ensures xs[i] != xs[j] {
      assert Signature(xs[i]) != Signature(xs[j]);
    }
  }

  /** Ordinals 23 to 29 differ from every later one: by length or by
      their third letter from either end. */
  lemma OrdinalsDistinctHigh()
    ensures forall i, j :: 23 <= i < 30 && i < j < |LatinFeminineOrdinals| ==>
      LatinFeminineOrdinals[i] != LatinFeminineOrdinals[j]
  {
    var xs := LatinFeminineOrdinals;
    forall i, j | 23 <= i < 30 && i < j < |xs| ensures xs[i] != xs[j] {
      assert Signature(xs[i]) != Signature(xs[j]);
    }
  }
}
