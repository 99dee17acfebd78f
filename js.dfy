/** The JavaScript values that the modelled code passes around, with the
    language rules the code relies on: truthiness, property access,
    numeric and string conversion, and the outcome of a call that may throw. */
module Js {
  import opened Strings

  datatype Option<T> = None | Some(value: T)

  /** A JavaScript value. Numbers are integers or NaN; `Error` is an instance
      of `Error` (or a subclass such as `TypeError`) with its `name` and
      `message`; `DbHandle` is the knex instance the server attaches as `req.db`. */
  datatype Value =
    | Undefined
    | Null
    | Bool(b: bool)
    | Num(n: int)
    | NaN
    | Str(s: string)
    | Arr(items: seq<Value>)
    | Obj(fields: map<string, Value>)
    | Error(name: string, message: string)
    | DbHandle

  /** What a call does: return a value or throw one (for an async function:
      resolve or reject). */
  datatype Outcome = Returns(value: Value) | Throws(thrown: Value)

  /** JavaScript truthiness: `if (v)`, `!v`, `v && ...`. */
  predicate Truthy(v: Value)
  {
    match v
    case Undefined => false
    case Null => false
    case Bool(b) => b
    case Num(n) => n != 0
    case NaN => false
    case Str(s) => s != ""
    case _ => true
  }

  /** The TypeError thrown when a property of `undefined` or `null` is read. */
  const PropertyOfNothing := Error("TypeError", "Cannot read properties of undefined or null")

  /** `v[key]`: None when reading throws (v is undefined or null), otherwise
      the property (Undefined when absent). Only own data properties of
      objects and the `name`/`message` of errors are modelled. */
  function Prop(v: Value, key: string): (r: Option<Value>)
    ensures r.None? <==> v.Undefined? || v.Null?
    ensures v.Obj? && key in v.fields ==> r == Some(v.fields[key])
    ensures v.Obj? && key !in v.fields ==> r == Some(Undefined)
  {
    match v
    case Undefined => None
    case Null => None
    case Obj(f) => Some(if key in f then f[key] else Undefined)
    case Error(name, message) =>
      Some(if key == "name" then Str(name) else if key == "message" then Str(message) else Undefined)
    case _ => Some(Undefined)
  }

  /** A property of a value known to be an object. */
  function Field(v: Value, key: string): Value
  {
    match Prop(v, key)
    case Some(x) => x
    case None => Undefined
  }

  /** `{code, message}`, the shape the server's domain functions throw. */
  function Coded(code: int, message: string): (v: Value)
    ensures Field(v, "code") == Num(code) && Field(v, "message") == Str(message)
  {
    Obj(map["code" := Num(code), "message" := Str(message)])
  }

  /** `new Error(message)`: an error with a message and no `code` property. */
  function PlainError(message: string): (v: Value)
    ensures Truthy(v) && Field(v, "message") == Str(message) && Field(v, "code") == Undefined
  {
    Error("Error", message)
  }

  /** Conversion of a string to a number (`+s`, `Number(s)`): surrounding
      white space is ignored, the empty text is 0, an optionally signed run of
      decimal digits is its value, and every other text is NaN in this model. */
  function StringToNumber(s: string): (r: Value)
    ensures r.Num? || r.NaN?
    ensures IsDigits(s) ==> r == Num(Decimal(s))
  {
    if IsDigits(s) then
      // text without white space: `TrimmedToNumber(Trim(s))` as well
      TrimDigits(s);
      assert TrimmedToNumber(Trim(s)) == Num(Decimal(s));
      Num(Decimal(s))
    else TrimmedToNumber(Trim(s))
  }

  /** The number a text without surrounding white space denotes. */
  function TrimmedToNumber(t: string): (r: Value)
    ensures r.Num? || r.NaN?
    ensures IsDigits(t) ==> r == Num(Decimal(t))
  {
    if |t| == 0 then Num(0)
    else if IsDigits(t) then Num(Decimal(t))
    else if t[0] == '+' && IsDigits(t[1..]) then Num(Decimal(t[1..]))
    else if t[0] == '-' && IsDigits(t[1..]) then Num(0 - Decimal(t[1..]) as int)
    else NaN
  }

  lemma TrimDigits(s: string)
    requires IsDigits(s)
    ensures Trim(s) == s
  {
    assert !IsJsSpace(s[0]) && !IsJsSpace(s[|s| - 1]);
  }

  /** `+v`, JavaScript's ToNumber. Arrays, objects and errors are NaN here
      (JavaScript first turns them into a primitive). */
  function ToNumber(v: Value): (r: Value)
    ensures r.Num? || r.NaN?
  {
    match v
    case Undefined => NaN
    case Null => Num(0)
    case Bool(b) => Num(if b then 1 else 0)
    case Num(n) => v
    case NaN => NaN
    case Str(s) => StringToNumber(s)
    case _ => NaN
  }

  /** `String(v)`, and the text a template literal inserts for `${v}`. */
  function ToStr(v: Value): string
  {
    match v
    case Undefined => "undefined"
    case Null => "null"
    case Bool(b) => if b then "true" else "false"
    case Num(n) => IntToString(n)
    case NaN => "NaN"
    case Str(s) => s
    case Arr(items) => JoinItems(items)
    case Obj(_) => "[object Object]"
    case Error(name, message) => if message == "" then name else name + ": " + message
    case DbHandle => "[object Function]"
  }

  /** `items.join(",")`, where undefined and null items become empty text. */
  function JoinItems(items: seq<Value>): string
    decreases items
  {
    if |items| == 0 then ""
    else
      var head := if items[0].Undefined? || items[0].Null? then "" else ToStr(items[0]);
      if |items| == 1 then head else head + "," + JoinItems(items[1..])
  }

  /** `a - b` on numbers. */
  function Minus(a: Value, b: Value): (r: Value)
    requires (a.Num? || a.NaN?) && (b.Num? || b.NaN?)
    ensures r.Num? <==> a.Num? && b.Num?
  {
    if a.Num? && b.Num? then Num(a.n - b.n) else NaN
  }

  /** `a + b` on numbers. */
  function Plus(a: Value, b: Value): (r: Value)
    requires (a.Num? || a.NaN?) && (b.Num? || b.NaN?)
    ensures r.Num? <==> a.Num? && b.Num?
  {
    if a.Num? && b.Num? then Num(a.n + b.n) else NaN
  }

  /** `a * b` on numbers. */
  function Times(a: Value, b: Value): (r: Value)
    requires (a.Num? || a.NaN?) && (b.Num? || b.NaN?)
    ensures r.Num? <==> a.Num? && b.Num?
  {
    if a.Num? && b.Num? then Num(a.n * b.n) else NaN
  }

  /** ToInt32: the 32-bit two's-complement wrap-around of an integer. */
  function ToInt32(n: int): (r: int)
    ensures -0x8000_0000 <= r < 0x8000_0000
    ensures -0x8000_0000 <= n < 0x8000_0000 ==> r == n
  {
    var m := n % 0x1_0000_0000;
    if m >= 0x8000_0000 then m - 0x1_0000_0000 else m
  }
}
