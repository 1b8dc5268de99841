/** The Python values that flow through a validated attribute, the closed set
    of types a field may expect, and the kinds of error the core raises. */
module Values {
  import opened Wrappers
  import opened ExtReals

  /** A Python value, as far as the validation core can tell values apart.
      `VCallable` stands for any function (its arity is recorded only to say
      that it is never looked at); `VObject` for any other object. */
  datatype Value =
    | VNone
    | VBool(b: bool)
    | VInt(i: int)
    | VFloat(x: ExtReal)
    | VStr(s: string)
    | VCallable(arity: nat)
    | VObject

  /** The types a field can name as its `expected_type`. */
  datatype PyType = BoolType | IntType | FloatType | RealType | StrType | CallableType

  datatype ErrorKind = TypeError | ValueError | AttributeError

  /** `isinstance(v, t)`: `bool` is a subclass of `int`, and both `int` and
      `float` are registered as `numbers.Real`. */
  predicate IsInstance(v: Value, t: PyType) {
    match t
    case BoolType => v.VBool?
    case IntType => v.VBool? || v.VInt?
    case FloatType => v.VFloat?
    case RealType => v.VBool? || v.VInt? || v.VFloat?
    case StrType => v.VStr?
    case CallableType => v.VCallable?
  }

  /** `isinstance(v, (t1, t2, ...))` for a tuple of types. */
  predicate IsInstanceOfAny(v: Value, ts: seq<PyType>) {
    exists k :: 0 <= k < |ts| && IsInstance(v, ts[k])
  }

  /** The built-in `callable(v)`. */
  predicate Callable(v: Value) {
    v.VCallable?
  }

  /** The number a `numbers.Real` value compares as; `None` for every other
      value. */
  function AsReal(v: Value): (r: Option<ExtReal>)
    ensures r.Some? <==> IsInstance(v, RealType)
  {
    match v
    case VBool(b) => Some(Fin(if b then 1.0 else 0.0))
    case VInt(i) => Some(Fin(i as real))
    case VFloat(x) => Some(x)
    case _ => None
  }
}
