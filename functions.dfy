/** `CallableField`: a field that accepts exactly the callables. */
module Functions {
  import opened Wrappers
  import opened Values
  import opened Fields

  /** `CallableField._validate_callable`: TypeError for anything that is
      not callable. */
  function ValidateCallable(value: Value, name: string): (r: Option<ErrorKind>)
    ensures r == None <==> Callable(value)
    ensures r != None ==> r == Some(TypeError)
  {
    if Callable(value) then None else Some(TypeError)
  }

  /** The configuration `CallableField(allow_none=...)` builds: the expected
      type is `Callable`, the generic type check is overridden, the only
      validator is the callable check, and there are no preprocessors. */
  function CallableField(allowNone: bool): FieldConfig {
    FieldConfig(Some([CallableType]), allowNone, true, [ValidateCallable], [])
  }

  /** An assignment stores exactly the callables, unchanged, whatever
      `allow_none` says; every other value raises TypeError. */
  lemma CallableFieldAssign(allowNone: bool, value: Value, name: string)
    ensures Assign(CallableField(allowNone), value, name)
            == if Callable(value) then Ok(value) else Err(TypeError)
  {
    var vs: seq<Validator> := [ValidateCallable];
    assert FirstFailure(vs, value, name) == ValidateCallable(value, name);
  }

  /** `None` is rejected even with `allow_none=True`: the only `None` check
      is the skipped type check. */
  lemma NoneRejectedEvenWhenAllowed(name: string)
    ensures Assign(CallableField(true), VNone, name) == Err(TypeError)
  {
    CallableFieldAssign(true, VNone, name);
  }

  /** Acceptance does not depend on the number of parameters. */
  lemma AnyArityAccepted(allowNone: bool, m: nat, n: nat, name: string)
    ensures Assign(CallableField(allowNone), VCallable(m), name) == Ok(VCallable(m))
    ensures Assign(CallableField(allowNone), VCallable(m), name).Ok?
            == Assign(CallableField(allowNone), VCallable(n), name).Ok?
  {
    CallableFieldAssign(allowNone, VCallable(m), name);
    CallableFieldAssign(allowNone, VCallable(n), name);
  }
}
