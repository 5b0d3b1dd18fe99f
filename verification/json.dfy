/** The JSON-like values the application reads: catalog entries, answers, nested data. */
module Json {

  /** A decoded JSON value. Python's int and float are both `Num`. */
  datatype Value =
    | Null
    | Bool(b: bool)
    | Num(n: real)
    | Str(s: string)
    | Arr(items: seq<Value>)
    | Obj(fields: map<string, Value>)

  /** Python's `isinstance(x, (int, float))`; `bool` is a subclass of `int`, so it passes. */
  predicate IsNumber(v: Value) {
    v.Num? || v.Bool?
  }

  /** The arithmetic value of a number; `True` and `False` behave as 1 and 0. */
  function AsReal(v: Value): real
    requires IsNumber(v)
  {
    if v.Bool? then (if v.b then 1.0 else 0.0) else v.n
  }

  /** Values Python can use as dictionary keys (lists and dicts cannot). */
  predicate Hashable(v: Value) {
    !v.Arr? && !v.Obj?
  }

  /** The key under which Python's dict files a hashable value: `True == 1` and `False == 0`. */
  function PyKey(v: Value): Value {
    if v.Bool? then Num(AsReal(v)) else v
  }

  /** Python's `==` between two hashable values. */
  predicate PyEq(a: Value, b: Value) {
    PyKey(a) == PyKey(b)
  }
}
