/** A JSON value, and the lookups the source makes on one. */
module Json {
  import opened Wrappers

  datatype Value =
    | Null
    | Bool(flag: bool)
    | Number(number: int)
    | String(text: string)
    | Array(items: seq<Value>)
    | Object(fields: map<string, Value>)

  /** Parsing a text as JSON, which fails on text that is none. */
  type Parser = string -> Option<Value>

  /** `value.get(key)`: none unless the value is an object holding the key. */
  function Get(v: Value, key: string): (r: Option<Value>)
    ensures r.Some? ==> v.Object? && key in v.fields && r.value == v.fields[key]
  {
    if v.Object? && key in v.fields then Some(v.fields[key]) else None
  }

  function AsString(v: Option<Value>): Option<string> {
    match v
    case Some(String(s)) => Some(s)
    case _ => None
  }

  const I64_MIN: int := -0x8000_0000_0000_0000
  const I64_MAX: int := 0x7FFF_FFFF_FFFF_FFFF

  function AsI64(v: Option<Value>): Option<int> {
    match v
    case Some(Number(n)) => if I64_MIN <= n <= I64_MAX then Some(n) else None
    case _ => None
  }

  function GetString(v: Value, key: string): Option<string> {
    AsString(Get(v, key))
  }

  function StringOr(s: Option<string>, default: string): string {
    match s
    case Some(text) => text
    case None => default
  }
}
