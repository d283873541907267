/** The JSON values a loaded herb record can hold, with Python's truthiness
    and `str()` conversion, which the processor applies to them. */
module Json {
  import opened Strings

  /** A JSON value as `json.load` returns it; an object keeps its key order. */
  datatype Value =
    | Null
    | Bool(b: bool)
    | Int(i: int)
    | Str(s: string)
    | List(items: seq<Value>)
    | Obj(fields: seq<(string, Value)>)

  /** A record as loaded from the JSON array: a dictionary from field names to values. */
  type Record = map<string, Value>

  /** Python's `bool(v)`: None, False, 0 and empty strings, lists and objects are false. */
  predicate Truthy(v: Value)
  {
    match v
    case Null => false
    case Bool(b) => b
    case Int(i) => i != 0
    case Str(s) => s != []
    case List(items) => items != []
    case Obj(fields) => fields != []
  }

  function DigitChar(d: nat): (c: char)
    requires d < 10
    ensures IsDigit(c)
  {
    ('0' as int + d) as char
  }

  /** Decimal digits of a natural number, most significant first. */
  function NatToString(n: nat): (r: string)
    ensures r != [] && AllDigits(r)
    decreases n
  {
    if n < 10 then [DigitChar(n)] else NatToString(n / 10) + [DigitChar(n % 10)]
  }

  /** Python's `str(i)` for an integer. */
  function IntToString(i: int): string
  {
    if i < 0 then "-" + NatToString(-i) else NatToString(i)
  }

  /** A string literal as `repr` writes it, always single-quoted. */
  function Quote(s: string): string
  {
    "'" + s + "'"
  }

  /** Python's `repr(v)`; containers list their items' reprs in order. */
  function Repr(v: Value): string
    decreases v
  {
    match v
    case Null => "None"
    case Bool(b) => if b then "True" else "False"
    case Int(i) => IntToString(i)
    case Str(s) => Quote(s)
    case List(items) =>
      "[" + Join(", ", seq(|items|, k requires 0 <= k < |items| => Repr(items[k]))) + "]"
    case Obj(fields) =>
      "{" + Join(", ", seq(|fields|, k requires 0 <= k < |fields| =>
                         Quote(fields[k].0) + ": " + Repr(fields[k].1))) + "}"
  }

  /** Python's `str(v)`: a string is itself, anything else its repr. */
  function PyStr(v: Value): string
  {
    if v.Str? then v.s else Repr(v)
  }
}
