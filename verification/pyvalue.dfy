/**
 * Scalar JSON values as Python sees them after `json.load`, and the two
 * conversions the core applies to them: `str(v)` and `int(v)`.
 */
module PyValue {
  import opened Wrappers
  import Decimal

  /** A JSON string, a JSON integer, or `null` (Python's `None`). */
  datatype Scalar = JStr(s: string) | JInt(i: int) | JNull

  /** A JSON object after loading: a dictionary from keys to scalar values. */
  type Object = map<string, Scalar>

  /** Python's `str(v)`. */
  function Str(v: Scalar): string {
    match v
    case JStr(s) => s
    case JInt(i) => Decimal.IntToString(i)
    case JNull => "None"
  }

  /** Python's `int(v)`; `None` stands for the `ValueError`/`TypeError` it raises. */
  function Int(v: Scalar): Option<int> {
    match v
    case JStr(s) => Decimal.ParseInt(s)
    case JInt(i) => Some(i)
    case JNull => None
  }

  /**
   * A number and its decimal string convert to the same integer, so a year
   * given as `2023` or as `"2023"` means the same thing.
   */
  lemma IntAgreesOnNumberAndString(i: int)
    ensures Int(JStr(Str(JInt(i)))) == Int(JInt(i)) == Some(i)
  {
    Decimal.ParseIntOfIntToString(i);
  }

  /** `str` keeps distinct integers apart, so distinct numeric keys stay distinct. */
  lemma StrInjectiveOnInts(i: int, j: int)
    requires Str(JInt(i)) == Str(JInt(j))
    ensures i == j
  {
    Decimal.IntToStringInjective(i, j);
  }
}
