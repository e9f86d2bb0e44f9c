/** The dynamically typed scalar values that flow through configuration
    parameters, step contexts and feed entries, with the three Python
    behaviours the steps rely on: truthiness, `str(v)` and `==`. */
module Values {
  import opened Text

  /** A Python scalar: `None`, a bool, an int or a str. */
  datatype Value = Null | Bool(b: bool) | Int(i: int) | Str(s: string)

  /** A dict with string keys, such as a step's context or a parsed config
      entry. */
  type Dict = map<string, Value>

  /** The execution context shared by the steps of one run. */
  type Context = Dict

  /** The exceptions the modelled steps raise on data of the wrong shape:
      a `TypeError` (an operation applied to a value of the wrong type) or
      a `KeyError` (`d[k]` on a dict without `k`). */
  datatype PyError = TypeError(what: string) | KeyError(key: string)

  /** Python's `bool(v)`. */
  predicate Truthy(v: Value) {
    match v
    case Null => false
    case Bool(b) => b
    case Int(i) => i != 0
    case Str(s) => s != ""
  }

  /** Python's `str(v)`, as used in f-strings. */
  function Show(v: Value): (r: string)
    ensures v.Str? ==> r == v.s
    ensures v.Int? ==> r == IntToString(v.i)
  {
    match v
    case Null => "None"
    case Bool(b) => if b then "True" else "False"
    case Int(i) => IntToString(i)
    case Str(s) => s
  }

  /** Python compares `True == 1` and `False == 0`; a bool is replaced by the
      int it equals, so that Python equality becomes Dafny equality. */
  function Canon(v: Value): (r: Value)
    ensures !r.Bool?
    ensures v.Bool? ==> r == Int(if v.b then 1 else 0)
    ensures !v.Bool? ==> r == v
  {
    if v.Bool? then Int(if v.b then 1 else 0) else v
  }

  /** Python's `a == b` on scalars. */
  predicate PyEq(a: Value, b: Value) {
    Canon(a) == Canon(b)
  }

  /** Python's `d.get(k, default)`. */
  function GetOr(d: Dict, k: string, default: Value): (r: Value)
    ensures k in d ==> r == d[k]
    ensures k !in d ==> r == default
  {
    if k in d then d[k] else default
  }

  /** Python's `d.get(k)`: `None` when the key is absent. */
  function Get(d: Dict, k: string): Value {
    GetOr(d, k, Null)
  }

  /** Python's `d.get(k, default) or fallback`-style defaulting: the value
      when it is truthy, `fallback` otherwise. */
  function OrElse(v: Value, fallback: Value): (r: Value)
    ensures Truthy(v) ==> r == v
    ensures !Truthy(v) ==> r == fallback
  {
    if Truthy(v) then v else fallback
  }
}
