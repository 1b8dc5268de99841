/** `RealNumberWithinInterval`: a RealNumber field whose one validator
    requires the value to lie in a fixed interval, given either as a
    definition string or as an already built interval. */
module Numbers {
  import opened Wrappers
  import opened ExtReals
  import opened Values
  import opened PyFloats
  import opened Text
  import opened Fields
  import opened Intervals

  /** The `interval` argument: an interval object, or any other Python value
      (a definition string among them). */
  datatype IntervalArg = IntervalObject(iv: Interval) | PlainValue(v: Value)

  /** The interval the field checks against: a string is parsed, an interval
      object is taken as it is, and anything else fails the type check for
      `Interval` with `None` disallowed. */
  function ResolveInterval(arg: IntervalArg): (r: Result<Interval, ErrorKind>)
    ensures arg.IntervalObject? ==> r == Ok(arg.iv)
    ensures arg.PlainValue? && arg.v.VStr? ==> r == Parse(arg.v)
    ensures arg.PlainValue? && !arg.v.VStr? ==> r == Err(TypeError)
  {
    match arg
    case IntervalObject(iv) => Ok(iv)
    case PlainValue(v) => if v.VStr? then Parse(v) else Err(TypeError)
  }

  /** `validate_num_in_interval`: ValueError unless the value is in the
      interval. */
  function InIntervalValidator(iv: Interval): Validator {
    (value: Value, name: string) => if iv.ContainsValue(value) then None else Some(ValueError)
  }

  /** The configuration the constructor hands to RealNumber: `None` not
      allowed, the interval validator, no extra preprocessors. */
  function WithinIntervalConfig(iv: Interval, autoConvert: bool): FieldConfig {
    RealNumber(false, [InIntervalValidator(iv)], [], autoConvert)
  }

  /** `RealNumberWithinInterval(interval, auto_convert=...)`: the field's
      configuration, or the error its constructor raises. */
  function RealNumberWithinInterval(arg: IntervalArg, autoConvert: bool): (r: Result<FieldConfig, ErrorKind>)
    ensures r.Ok? ==> r.value.expectedType == Some([RealType]) && !r.value.allowNone
                      && !r.value.overrideTypeValidator && |r.value.validators| == 1
  {
    var iv :- ResolveInterval(arg);
    Ok(WithinIntervalConfig(iv, autoConvert))
  }

  /** A definition string is parsed when the field is built: the field
      exists exactly when the text defines an interval, and a malformed or
      reversed definition raises there, with ValueError. Any other value
      that is not an interval, `None` included, raises TypeError. */
  lemma ConstructionOutcome(arg: IntervalArg, autoConvert: bool)
    ensures arg.PlainValue? && arg.v.VStr? ==>
              (RealNumberWithinInterval(arg, autoConvert).Ok? <==> Parse(arg.v).Ok?)
              && (Parse(arg.v).Err? ==> RealNumberWithinInterval(arg, autoConvert) == Err(ValueError))
              && (Parse(arg.v).Ok? ==> RealNumberWithinInterval(arg, autoConvert)
                                         == Ok(WithinIntervalConfig(Parse(arg.v).value, autoConvert)))
    ensures arg.PlainValue? && !arg.v.VStr? ==> RealNumberWithinInterval(arg, autoConvert) == Err(TypeError)
    ensures arg.IntervalObject? ==> RealNumberWithinInterval(arg, autoConvert) == Ok(WithinIntervalConfig(arg.iv, autoConvert))
  {
  }

  /** Every assignment: after the optional coercion of text, a non-real value
      (`None` included) raises TypeError, a real outside the interval raises
      ValueError, and a real inside it is stored as it is. */
  lemma WithinIntervalAssign(iv: Interval, autoConvert: bool, value: Value, name: string)
    ensures var w := if autoConvert then PreprocessStrToReal(value, name) else value;
            Assign(WithinIntervalConfig(iv, autoConvert), value, name)
            == if !IsInstance(w, RealType) then Err(TypeError)
               else if iv.Contains(AsReal(w).value) then Ok(w)
               else Err(ValueError)
  {
    var w := if autoConvert then PreprocessStrToReal(value, name) else value;
    var vs := [InIntervalValidator(iv)];
    RealNumberAssign(false, vs, autoConvert, value, name);
    assert FirstFailure(vs, w, name) == vs[0](w, name);
  }

  /** `None` is always rejected with TypeError: `allow_none` is not passed
      on, and the type check runs before the interval check. */
  lemma RejectsNone(iv: Interval, autoConvert: bool, name: string)
    ensures Assign(WithinIntervalConfig(iv, autoConvert), VNone, name) == Err(TypeError)
  {
    WithinIntervalAssign(iv, autoConvert, VNone, name);
  }

  /** A number equal to an open end raises ValueError; one equal to a closed
      end is stored whenever the other end admits it. */
  lemma EndpointAssignments(iv: Interval, autoConvert: bool, name: string)
    requires iv.Valid()
    ensures !iv.leftClosed ==> Assign(WithinIntervalConfig(iv, autoConvert), VFloat(iv.lower), name) == Err(ValueError)
    ensures !iv.rightClosed ==> Assign(WithinIntervalConfig(iv, autoConvert), VFloat(iv.upper), name) == Err(ValueError)
    ensures iv.leftClosed && (iv.rightClosed || iv.lower != iv.upper) ==>
              Assign(WithinIntervalConfig(iv, autoConvert), VFloat(iv.lower), name) == Ok(VFloat(iv.lower))
    ensures iv.rightClosed && (iv.leftClosed || iv.lower != iv.upper) ==>
              Assign(WithinIntervalConfig(iv, autoConvert), VFloat(iv.upper), name) == Ok(VFloat(iv.upper))
  {
    Endpoints(iv);
    WithinIntervalAssign(iv, autoConvert, VFloat(iv.lower), name);
    WithinIntervalAssign(iv, autoConvert, VFloat(iv.upper), name);
  }

  /** With the default `auto_convert`, numeric text is coerced before the
      range check: it is stored as its number when that lies in the interval
      and raises ValueError otherwise; other text raises TypeError. */
  lemma CoercesTextBeforeRangeCheck(iv: Interval, s: string, name: string)
    ensures Assign(WithinIntervalConfig(iv, true), VStr(s), name)
            == match PyFloat(RemoveBlanks(s))
               case Some(x) => if iv.Contains(x) then Ok(VFloat(x)) else Err(ValueError)
               case None => Err(TypeError)
  {
    WithinIntervalAssign(iv, true, VStr(s), name);
  }

  /** Storing through a field built from the interval: a value inside is
      stored under the field's name, and one outside raises ValueError and
      leaves the object's attributes as they were. */
  method AssignWithinUnitInterval(inst: Instance, x: real) returns (err: Option<ErrorKind>)
    modifies inst
    ensures 0.0 <= x <= 1.0 ==> err == None && inst.dict == old(inst.dict)["p" := VFloat(Fin(x))]
    ensures !(0.0 <= x <= 1.0) ==> err == Some(ValueError) && inst.dict == old(inst.dict)
  {
    var iv := Interval(Fin(0.0), Fin(1.0), true, true);
    var f := new Field("p", WithinIntervalConfig(iv, true));
    WithinIntervalAssign(iv, true, VFloat(Fin(x)), "p");
    err := f.Set(inst, VFloat(Fin(x)));
  }

  // as written

  /** The validator as the code stands: membership goes through
      `Interval.__contains__` as written. */
  function InIntervalValidatorAsWritten(iv: Interval): Validator {
    (value: Value, name: string) =>
      match ContainsAsWritten(iv, value)
      case Err(e) => Some(e)
      case Ok(inside) => if inside then None else Some(ValueError)
  }

  /** As written, no assignment to such a field ever succeeds: a real value
      reaches the membership test, which raises TypeError. */
  lemma AsWrittenRejectsEveryAssignment(iv: Interval, autoConvert: bool, value: Value, name: string)
    ensures var c := RealNumber(false, [InIntervalValidatorAsWritten(iv)], [], autoConvert);
            Assign(c, value, name) == Err(TypeError)
  {
    var vs := [InIntervalValidatorAsWritten(iv)];
    var w := if autoConvert then PreprocessStrToReal(value, name) else value;
    RealNumberAssign(false, vs, autoConvert, value, name);
    assert FirstFailure(vs, w, name) == vs[0](w, name);
  }
}
