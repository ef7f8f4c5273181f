/** The `Datestr` field type, accepted exactly when the date-expression
    evaluator can evaluate it for the year 2000, and the `RankLiteral`
    vocabulary of rank names. */
module CustomTypes {
  import opened Text
  import Dsl
  import S = Structures

  /** The value handed to the validator: a string or anything else. */
  datatype Input = Str(s: string) | NotStr

  datatype ValidationError = TypeError | Unevaluable(e: Dsl.DslError)

  datatype Validated = Accepted(value: string) | Rejected(error: ValidationError)

  /** `Datestr.validate`. */
  function Validate(v: Input): (r: Validated)
    ensures v.NotStr? ==> r == Rejected(TypeError)
    ensures v.Str? ==> (r.Accepted? <==> Dsl.DslParse(v.s, 2000).Ok?)
    ensures r.Accepted? ==> v == Str(r.value)
    ensures v.Str? && Dsl.DslParse(v.s, 2000).Err? ==> r == Rejected(Unevaluable(Dsl.DslParse(v.s, 2000).error))
  {
    match v
    case NotStr => Rejected(TypeError)
    case Str(s) =>
      match Dsl.DslParse(s, 2000)
      case Err(e) => Rejected(Unevaluable(e))
      case Ok(_) => Accepted(s)
  }

  /** Validation does not depend on anything but the text: validating an
      accepted value again accepts it unchanged. */
  lemma ValidateIdempotent(v: Input)
    requires Validate(v).Accepted?
    ensures Validate(Str(Validate(v).value)) == Validate(v)
  {
  }

  const RankLiteral: seq<string> := [
    "feria", "commemoratio", "iii. classis", "iii. classis", "iii. classis",
    "ii. classis", "i. classis", "i. classis",
    "feria", "simplex", "semiduplex", "duplex", "duplex majus",
    "duplex ii classis", "duplex i classis", "duplex i classis",
    "feria minor", "feria major", "feria privilegiata", "feria i classis",
    "feria ii classis", "feria iii classis", "feria iv classis"]

  /** Every name of the traditional and the 1960 rank tables is a `RankLiteral`. */
  lemma RankLiteralCoversTables()
    ensures forall k :: 0 <= k < |S.TraditionalRankTable| ==> S.TraditionalRankTable[k] in RankLiteral
    ensures forall k :: 0 <= k < |S.NewRankTable| ==> S.NewRankTable[k] in RankLiteral
  {
    assert RankLiteral[..8] == S.NewRankTable;
    assert RankLiteral[8..16] == S.TraditionalRankTable;
    forall k | 0 <= k < 8
      ensures S.NewRankTable[k] in RankLiteral && S.TraditionalRankTable[k] in RankLiteral
    {
      assert RankLiteral[k] == S.NewRankTable[k];
      assert RankLiteral[k + 8] == S.TraditionalRankTable[k];
    }
  }
}
