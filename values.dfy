/** The dynamically typed values stored in an asset record, and the
    JavaScript coercions the dashboard applies to them: truthiness,
    `String(v)`, `v || fallback` and `Number(v) || 0`. */
module Values {
  import opened Wrappers
  import opened Strings

  /** A field value: text (dates are text too) or a number. Quantities are
      modelled as integers. */
  datatype Value = Text(s: string) | Num(n: int)

  /** A JavaScript object with string keys: an asset record, a form, or the
      `data` column of a backend row. */
  type Obj = map<string, Value>

  /** A string-to-number conversion (`parseFloat` or `Number`); None stands
      for NaN. */
  type Parser = string -> Option<int>

  /** `o[key]`; None is `undefined`. */
  function Prop(o: Obj, key: string): Option<Value>
  {
    if key in o then Some(o[key]) else None
  }

  /** JavaScript truthiness: `undefined`, `""` and `0` are falsy. */
  predicate Truthy(v: Option<Value>)
  {
    match v
    case None => false
    case Some(Text(s)) => s != []
    case Some(Num(n)) => n != 0
  }

  /** `String(v)`. */
  function Show(v: Option<Value>): string
  {
    match v
    case None => "undefined"
    case Some(Text(s)) => s
    case Some(Num(n)) => DecimalString(n)
  }

  /** `v || fallback`. */
  function Or(v: Option<Value>, fallback: Value): Value
  {
    if Truthy(v) then v.value else fallback
  }

  /** `Number(v) || 0`, with `number` standing for `Number` on strings. */
  function NumberOr0(v: Option<Value>, number: Parser): int
  {
    match v
    case None => 0
    case Some(Num(n)) => n
    case Some(Text(s)) => number(s).GetOr(0)
  }
}
