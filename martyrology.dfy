/** A martyrology entry ordered by the total length of its text. */
module Martyrology {

  /** A line of an entry; only its text takes part in the order. */
  datatype Line = Line(content: string)

  /** The text of all lines, one after another. */
  function Text(parts: seq<Line>): string
    decreases |parts|
  {
    if parts == [] then [] else parts[0].content + Text(parts[1..])
  }

  /** `sum(len(line.content) for line in parts)`. */
  function TotalLength(parts: seq<Line>): (n: nat)
    decreases |parts|
  {
    if parts == [] then 0 else |parts[0].content| + TotalLength(parts[1..])
  }

  /** The length of an entry is the length of all its text. */
  lemma {:induction false} TotalLengthIsTextLength(parts: seq<Line>)
    ensures TotalLength(parts) == |Text(parts)|
    decreases |parts|
  {
    if parts != [] {
      TotalLengthIsTextLength(parts[1..]);
    }
  }

  /** Lengths add up over concatenated parts. */
  lemma {:induction false} TotalLengthAppend(a: seq<Line>, b: seq<Line>)
    ensures TotalLength(a + b) == TotalLength(a) + TotalLength(b)
    decreases |a|
  {
    if a == [] {
      assert a + b == b;
    } else {
      assert (a + b)[1..] == a[1..] + b;
      TotalLengthAppend(a[1..], b);
    }
  }

  class Martyrology {
    var parts: seq<Line>

    constructor(parts: seq<Line>)
      ensures this.parts == parts
    {
      this.parts := parts;
    }

    /** `len(m)`. */
    function Len(): (n: nat)
      reads this
      ensures n == |Text(parts)|
    {
      TotalLengthIsTextLength(parts);
      TotalLength(parts)
    }

    /** `self < other`: strictly shorter text. */
    predicate Lt(other: Martyrology)
      reads this, other
    {
      Len() < other.Len()
    }

    /** `self > other`: strictly longer text. */
    predicate Gt(other: Martyrology)
      reads this, other
    {
      Len() > other.Len()
    }
  }

  /** The order is total on lengths: exactly one of `a < b`, `a > b` and
      equal length holds, `a < b` is `b > a`, and nothing but the text
      length decides. */
  lemma Trichotomy(a: Martyrology, b: Martyrology)
    ensures a.Lt(b) <==> b.Gt(a)
    ensures a.Lt(b) <==> |Text(a.parts)| < |Text(b.parts)|
    ensures a.Gt(b) <==> |Text(a.parts)| > |Text(b.parts)|
    ensures |Text(a.parts)| == |Text(b.parts)| <==> !a.Lt(b) && !a.Gt(b)
  {
  }
}
