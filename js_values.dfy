/** The JavaScript values that flow between the content script and the side
    panel: a product record is a map from field name to one of these. */
module JsValues {
  import opened Opt
  import opened JsNumbers

  datatype JsValue = Undefined | Null | Num(n: Number) | Str(s: string)

  /** JavaScript truthiness: `undefined`, `null`, `0`, `NaN` and `""` are falsy. */
  predicate Truthy(v: JsValue) {
    match v
    case Undefined => false
    case Null => false
    case Num(n) => n.Finite? && n.value != 0.0
    case Str(s) => s != ""
  }

  /** `String(v)`. */
  function ToText(v: JsValue): string {
    match v
    case Undefined => "undefined"
    case Null => "null"
    case Num(n) => NumberToString(n)
    case Str(s) => s
  }

  /** `v || ""` as text: the value's text when it is truthy, else the empty string. */
  function OrEmpty(v: JsValue): (r: string)
    ensures r == "" <==> !Truthy(v) || ToText(v) == ""
    ensures Truthy(v) ==> r == ToText(v)
  {
    if Truthy(v) then ToText(v) else ""
  }

  /** A property read: a missing property reads as `undefined`. */
  function Get(record: map<string, JsValue>, key: string): (v: JsValue)
    ensures key !in record ==> v == Undefined
    ensures key in record ==> v == record[key]
  {
    if key in record then record[key] else Undefined
  }

  /** A nullable string as a value. */
  function OfText(t: Option<string>): JsValue {
    if t.Some? then Str(t.value) else Null
  }

  /** A nullable number as a value. */
  function OfNumber(n: Option<Number>): JsValue {
    if n.Some? then Num(n.value) else Null
  }

  /** `parseFloat(v)`. A number is passed through unchanged (writing a
      double out and reading it back gives the same double); `undefined`
      and `null` read as the text "undefined" and "null", which are NaN. */
  function ParseFloatValue(v: JsValue): (r: Number)
    ensures v.Num? ==> r == v.n
    ensures v.Str? ==> r == ParseFloat(v.s)
  {
    match v
    case Num(n) => n
    case Str(s) => ParseFloat(s)
    case _ => NaN
  }
}
