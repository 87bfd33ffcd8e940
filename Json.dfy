/** Decimal numbers and JSON values as the Python code sees them after `json.load`. */
module Json {
  import opened Text
  import opened Dicts

  function Pow10(n: nat): (p: nat)
    ensures p >= 1
  {
    if n == 0 then 1 else 10 * Pow10(n - 1)
  }

  /** A `Decimal`: the value `units / 10^scale`, kept exactly. */
  datatype Dec = Dec(units: int, scale: nat)
  {
    predicate IsPositive() { units > 0 }

    /** `0 <= self <= 1`. */
    predicate InUnitInterval() { 0 <= units <= Pow10(scale) }

    /** Python truthiness: zero is falsy. */
    predicate IsTruthy() { units != 0 }
  }

  datatype Json =
    | JNull
    | JBool(b: bool)
    | JNum(n: Dec)
    | JStr(s: String)
    | JArr(items: seq<Json>)
    | JObj(fields: Dict<Json>)
  {
    /** Python truthiness of the loaded value. */
    predicate IsTruthy() {
      match this
      case JNull => false
      case JBool(b) => b
      case JNum(n) => n.IsTruthy()
      case JStr(s) => s != []
      case JArr(a) => a != []
      case JObj(o) => o != []
    }
  }
}
