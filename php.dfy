/** PHP's loosely typed values, as they reach the backend from decoded JSON request bodies and
    decoded tokens, and the conversions the code applies to them: truthiness (`empty`, `!`,
    `?:`), `isset`, `??`, `array_key_exists` and the `(int)`, `(string)`, `(bool)` casts. */
module Php {
  import opened Wrappers
  import opened Strings

  datatype Value =
    | Null
    | Bool(b: bool)
    | Int(i: int)
    | Str(s: string)
    /** an array whose keys are 0 .. n-1 */
    | List(items: seq<Value>)
    /** an array with string keys */
    | Dict(fields: map<string, Value>)
    /** an object (a decoded token payload is a stdClass object) */
    | Obj(props: map<string, Value>)

  predicate IsArray(v: Value) { v.List? || v.Dict? }

  predicate IsObject(v: Value) { v.Obj? }

  /** PHP's notion of an "empty" value: what `empty($v)` and `!$v` test. */
  predicate Falsy(v: Value) {
    match v
    case Null => true
    case Bool(b) => !b
    case Int(i) => i == 0
    case Str(s) => s == "" || s == "0"
    case List(items) => |items| == 0
    case Dict(fields) => |fields| == 0
    case Obj(_) => false
  }

  /** The entry stored under a string key of an array, or the property of an object. A list
      has integer keys only, so it has no entry for a non-numeric string key. */
  function Entry(v: Value, key: string): (r: Option<Value>)
    ensures r.Some? ==> v.Dict? || v.Obj?
  {
    match v
    case Dict(fields) => if key in fields then Some(fields[key]) else None
    case Obj(props) => if key in props then Some(props[key]) else None
    case _ => None
  }

  /** `array_key_exists($key, $v)` / `property_exists`: present, even when null. */
  predicate HasKey(v: Value, key: string) { Entry(v, key).Some? }

  /** `isset($v[$key])`: present and not null. */
  predicate IsSet(v: Value, key: string) {
    Entry(v, key).Some? && !Entry(v, key).value.Null?
  }

  /** `$v[$key] ?? null`: the entry when set, else None. */
  function Coalesce(v: Value, key: string): (r: Option<Value>)
    ensures r.Some? <==> IsSet(v, key)
    ensures r.Some? ==> !r.value.Null? && Entry(v, key) == r
  {
    if IsSet(v, key) then Entry(v, key) else None
  }

  /** `(int)$v`. Strings follow PHP's leading-numeric rule; an array casts to 0 when empty and
      1 otherwise. */
  function ToInt(v: Value): int
  {
    match v
    case Null => 0
    case Bool(b) => if b then 1 else 0
    case Int(i) => i
    case Str(s) => StringToInt(s)
    case List(items) => if |items| == 0 then 0 else 1
    case Dict(fields) => if |fields| == 0 then 0 else 1
    case Obj(_) => 1
  }

  /** `(int)$this->resolveArg(...)`: a route argument, which is text, cast to int. */
  function IntArg(arg: string): int { ToInt(Str(arg)) }

  /** `(bool)$v`. */
  function ToBool(v: Value): (r: bool)
    ensures r <==> !Falsy(v)
  {
    !Falsy(v)
  }

  /** `(string)$v` for the scalar values a JSON body carries; an array becomes "Array". */
  function ToStr(v: Value): string
  {
    match v
    case Null => ""
    case Bool(b) => if b then "1" else ""
    case Int(i) => IntToDecimal(i)
    case Str(s) => s
    case List(_) => "Array"
    case Dict(_) => "Array"
    case Obj(_) => ""
  }

  /** Casting an integer to a string and back to an integer is the identity. */
  lemma IntStrRoundTrip(i: int)
    ensures ToInt(Str(ToStr(Int(i)))) == i
  {
    IntToDecimalRoundTrip(i);
  }
}
