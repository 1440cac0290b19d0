/** Decoded JSON and YAML values, as both programs handle them. */
module JsonValues {
  datatype Json =
    | Null
    | Bool(b: bool)
    | Num(n: real)
    | Str(s: string)
    | Arr(items: seq<Json>)
    | Obj(fields: map<string, Json>)
  {
    /** The truth value `or` and `if` give it in Python. */
    predicate Truthy() {
      match this
      case Null => false
      case Bool(b) => b
      case Num(n) => n != 0.0
      case Str(s) => s != ""
      case Arr(items) => items != []
      case Obj(fields) => fields != map[]
    }
  }

  lemma TruthyIff(j: Json)
    ensures !j.Truthy() <==> j in {Null, Bool(false), Num(0.0), Str(""), Arr([]), Obj(map[])}
  {
  }

  type JsonObject = map<string, Json>

  /** Go's conversion of a floating-point number to an integer: it drops the fraction. */
  function Truncated(r: real): int {
    if r >= 0.0 then r.Floor else -((-r).Floor)
  }

  /** The integer nearest to the number on the side of zero. */
  lemma TruncatedTowardZero(r: real)
    ensures r >= 0.0 ==> 0 <= Truncated(r) && Truncated(r) as real <= r < Truncated(r) as real + 1.0
    ensures r <= 0.0 ==> Truncated(r) <= 0 && Truncated(r) as real - 1.0 < r <= Truncated(r) as real
  {
  }

  lemma TruncatedInteger(n: int)
    ensures Truncated(n as real) == n
  {
    assert (-(n as real)) == (-n) as real;
  }
}
