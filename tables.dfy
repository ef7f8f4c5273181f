/** The token tables of the date-expression language: month and day
    abbreviations, English ordinals 0th..25th, and the map from
    divinumofficium file-name abbreviations to the language's special
    days. */
module Tables {
  import opened Text

  const Months: seq<string> := ["Jan", "Feb", "Mar", "Apr", "May", "Jun", "Jul", "Aug", "Sep", "Oct", "Nov", "Dec"]

  /** Sunday appears twice, so that both day codes 0 and 7 mean Sunday. */
  const Days: seq<string> := ["Sun", "Mon", "Tue", "Wed", "Thu", "Fri", "Sat", "Sun"]

  const Ordinals: seq<string> := [
    "0th", "1st", "2nd", "3rd", "4th", "5th", "6th", "7th", "8th", "9th",
    "10th", "11th", "12th", "13th", "14th", "15th", "16th", "17th", "18th", "19th",
    "20th", "21st", "22nd", "23rd", "24th", "25th"]

  /** File-name abbreviation to special-day name. */
  const FileSpecials: map<string, string> := map[
    "Pasc" := "Easter", "Epi" := "Epiphany", "Adv" := "Advent", "Pent" := "Pentecost",
    "Quad" := "Lent", "Quadp" := "Septuagesima", "Nat" := "Christmas"]

  /** Python's `tuple.index(x)`: the first position holding `x`;
      `None` stands for ValueError. */
  function IndexOf(xs: seq<string>, x: string): (r: Option<nat>)
    ensures r.Some? ==> r.value < |xs| && xs[r.value] == x
    ensures r.Some? ==> forall k :: 0 <= k < r.value ==> xs[k] != x
    ensures r.None? <==> x !in xs
    decreases |xs|
  {
    if xs == [] then None
    else if xs[0] == x then Some(0)
    else match IndexOf(xs[1..], x)
      case None => None
      case Some(k) => Some(k + 1)
  }

  /** English ordinal suffix of `n`. */
  function OrdinalSuffix(n: nat): string {
    if 11 <= n % 100 <= 13 then "th"
    else if n % 10 == 1 then "st"
    else if n % 10 == 2 then "nd"
    else if n % 10 == 3 then "rd"
    else "th"
  }

  /** The English ordinal of `n` below 100: its decimal digits and suffix. */
  function OrdinalWord(n: nat): string
    requires n < 100
  {
    if n < 10 then [DigitChar(n)] + OrdinalSuffix(n)
    else [DigitChar(n / 10), DigitChar(n % 10)] + OrdinalSuffix(n)
  }

  /** The digits of an ordinal word are `str(n)`. */
  lemma OrdinalWordDecimal(n: nat)
    requires n < 100
    ensures OrdinalWord(n) == NatToString(n) + OrdinalSuffix(n)
  {
    if n >= 10 {
      assert NatToString(n) == NatToString(n / 10) + [DigitChar(n % 10)];
    }
  }

  /** `ordinals` runs 0th..25th: 26 entries, entry `k` spelling `k`. */
  lemma OrdinalsSpelled()
    ensures |Ordinals| == 26
    ensures forall k :: 0 <= k < 26 ==> Ordinals[k] == OrdinalWord(k)
  {
    forall k | 0 <= k < 26 ensures Ordinals[k] == OrdinalWord(k) {
      OrdinalSpelledAt(k);
    }
  }

  /** One case per entry, so that each is checked on concrete text. */
  lemma OrdinalSpelledAt(k: nat)
    requires k < 26
    ensures Ordinals[k] == OrdinalWord(k)
  {
    if k < 5 {
      OrdinalsSpelledFirst(k);
    } else if k < 9 {
      OrdinalsSpelledLow(k);
    } else if k < 18 {
      OrdinalsSpelledMiddle(k);
    } else {
      OrdinalsSpelledHigh(k);
    }
  }

  lemma OrdinalsSpelledFirst(k: nat)
    requires 0 <= k < 5
    ensures Ordinals[k] == OrdinalWord(k)
  {
    match k {
      case 0 => case 1 => case 2 => case 3 => case 4 =>
      case _ =>
    }
  }

  lemma OrdinalsSpelledLow(k: nat)
    requires 5 <= k < 9
    ensures Ordinals[k] == OrdinalWord(k)
  {
    match k {
      case 5 => case 6 => case 7 => case 8 =>
      case _ =>
    }
  }

  lemma OrdinalsSpelledMiddle(k: nat)
    requires 9 <= k < 18
    ensures Ordinals[k] == OrdinalWord(k)
  {
    if k < 13 {
      match k {
        case 9 => case 10 => case 11 => case 12 =>
        case _ =>
      }
    } else {
      match k {
        case 13 => case 14 => case 15 => case 16 => case 17 =>
        case _ =>
      }
    }
  }

  lemma OrdinalsSpelledHigh(k: nat)
    requires 18 <= k < 26
    ensures Ordinals[k] == OrdinalWord(k)
  {
    match k {
      case 18 => case 19 => case 20 => case 21 => case 22 => case 23 => case 24 => case 25 =>
      case _ =>
    }
  }

  /** The first position holding `x` is what `IndexOf` returns. */
  lemma IndexOfAt(xs: seq<string>, x: string, k: nat)
    requires k < |xs| && xs[k] == x
    requires forall j :: 0 <= j < k ==> xs[j] != x
    ensures IndexOf(xs, x) == Some(k)
  {
    assert IndexOf(xs, x).Some?;
  }

  /** No two entries of `xs` are equal. */
  predicate Distinct(xs: seq<string>) {
    forall i, j :: 0 <= i < j < |xs| ==> xs[i] != xs[j]
  }

  lemma IndexOfDistinct(xs: seq<string>, k: nat)
    requires Distinct(xs) && k < |xs|
    ensures IndexOf(xs, xs[k]) == Some(k)
  {
  }

  /** `ordinals.index(o)` is the number `o` spells. */
  lemma OrdinalIndex(k: nat)
    requires k < 26
    ensures k < |Ordinals| && IndexOf(Ordinals, Ordinals[k]) == Some(k)
  {
    assert Distinct(Ordinals);
    IndexOfDistinct(Ordinals, k);
  }

  /** `months` has twelve entries and `months.index(m) + 1` is the month number. */
  lemma MonthsNumbered(k: nat)
    requires k < 12
    ensures |Months| == 12 && IndexOf(Months, Months[k]) == Some(k)
  {
    assert Distinct(Months);
    IndexOfDistinct(Months, k);
  }

  /** Day and month names are three letters long. */
  lemma NamesThreeLetters()
    ensures forall k :: 0 <= k < |Days| ==> |Days[k]| == 3
    ensures forall k :: 0 <= k < |Months| ==> |Months[k]| == 3
  {
  }

  /** `days` has eight entries; codes 0 and 7 are both Sunday, and the
      lookup of "Sun" lands on code 0. */
  lemma DaysSundayTwice()
    ensures |Days| == 8 && Days[0] == Days[7] == "Sun"
    ensures IndexOf(Days, "Sun") == Some(0)
    ensures forall k :: 1 <= k < 7 ==> Days[k] != "Sun"
  {
  }
}
