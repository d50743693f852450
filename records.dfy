/** The values a listing dictionary holds: JSON scalars and the price history list. */
module Records {
  import opened Text
  import opened Basics

  datatype Value =
    | Null
    | Bool(b: bool)
    | Int(i: int)
    | Str(s: string)
    | History(entries: seq<PriceEntry>)

  /** One `{'date': ..., 'price': ...}` element of `price_history`. */
  datatype PriceEntry = PriceEntry(date: string, price: Value)

  /** A listing or cache record: a dictionary from field names to values. */
  type Record = map<string, Value>

  /** Python truthiness. */
  predicate Truthy(v: Value) {
    match v
    case Null => false
    case Bool(b) => b
    case Int(i) => i != 0
    case Str(s) => s != ""
    case History(es) => es != []
  }

  predicate IsScalar(v: Value) {
    !v.History?
  }

  /** `record.get(key, default)` */
  function Get(r: Record, key: string, default: Value): (v: Value)
    ensures key in r ==> v == r[key]
    ensures key !in r ==> v == default
  {
    if key in r then r[key] else default
  }

  /** The text `x if x else ""` produces before a string method is applied to it: the empty
      string for a falsy value, the string itself for a non-empty string, and None where
      Python would raise `AttributeError` (a truthy value that is not a string). */
  function TextOf(v: Value): (r: Option<string>)
    ensures r.Some? <==> !Truthy(v) || v.Str?
    ensures v.Str? ==> r == Some(v.s)
    ensures !Truthy(v) ==> r == Some("")
  {
    if !Truthy(v) then Some("")
    else if v.Str? then Some(v.s)
    else None
  }

  /** `str(i)` for an integer: the decimal digits, after a minus sign when negative. */
  function SignedDecimal(i: int): (r: string)
    ensures i >= 0 ==> IsDigits(r) && ParseDigits(r) == i
    ensures i < 0 ==> |r| > 1 && r[0] == '-' && IsDigits(r[1..]) && ParseDigits(r[1..]) == -i
  {
    if i < 0 then
      ParseDecimal(-i);
      assert ("-" + Decimal(-i))[1..] == Decimal(-i);
      "-" + Decimal(-i)
    else
      ParseDecimal(i);
      Decimal(i)
  }

  /** `str(v)` (and `f"{v}"`) for a scalar. */
  function Render(v: Value): string
    requires IsScalar(v)
  {
    match v
    case Null => "None"
    case Bool(b) => if b then "True" else "False"
    case Int(i) => SignedDecimal(i)
    case Str(s) => s
  }
}
