/** The descriptor-style attribute slot: a fixed configuration (expected type,
    whether `None` is allowed, whether the built-in type check is skipped,
    ordered validators and preprocessors) and the pipeline every assignment
    goes through: preprocess, then validate, then store under the field's
    name in the owning object's attribute dictionary. */
module Fields {
  import opened Wrappers
  import opened Values
  import opened Text
  import opened PyFloats
  import opened ExtReals

  /** A preprocessor maps `(value, name)` to a new value and never fails. */
  type Preprocessor = (Value, string) -> Value

  /** A validator either accepts `(value, name)` or names the error it raises. */
  type Validator = (Value, string) -> Option<ErrorKind>

  /** The settings a Field is constructed with; Python never changes them
      after `__init__`. */
  datatype FieldConfig = FieldConfig(
    expectedType: Option<seq<PyType>>,
    allowNone: bool,
    overrideTypeValidator: bool,
    validators: seq<Validator>,
    preprocessors: seq<Preprocessor>)

  /** `Field.validate_type`: no expected type accepts everything; `None` is
      accepted exactly when allowed; any other value must be an instance of
      one of the expected types. The only error it raises is TypeError. */
  function ValidateType(value: Value, expType: Option<seq<PyType>>, allowNone: bool): (r: Option<ErrorKind>)
    ensures expType.None? ==> r == None
    ensures r == None || r == Some(TypeError)
    ensures expType.Some? && value == VNone ==> (r == None <==> allowNone)
    ensures expType.Some? && value != VNone ==> (r == None <==> IsInstanceOfAny(value, expType.value))
  {
    if expType.None? then None
    else if value == VNone then (if allowNone then None else Some(TypeError))
    else if !IsInstanceOfAny(value, expType.value) then Some(TypeError)
    else None
  }

  /** The preprocessors folded over the value from left to right, each one
      receiving the previous one's output. */
  function ApplyPreprocessors(ps: seq<Preprocessor>, value: Value, name: string): Value
    decreases |ps|
  {
    if ps == [] then value else ApplyPreprocessors(ps[1..], ps[0](value, name), name)
  }

  /** Running one more preprocessor applies it to the result of the others. */
  lemma {:induction false} ApplyPreprocessorsSnoc(ps: seq<Preprocessor>, p: Preprocessor, value: Value, name: string)
    ensures ApplyPreprocessors(ps + [p], value, name) == p(ApplyPreprocessors(ps, value, name), name)
    decreases |ps|
  {
    if ps == [] {
      assert [] + [p] == [p];
    } else {
      assert (ps + [p])[0] == ps[0];
      assert (ps + [p])[1..] == ps[1..] + [p];
      ApplyPreprocessorsSnoc(ps[1..], p, ps[0](value, name), name);
    }
  }

  /** Preprocessing with a concatenation runs the first list, then the second;
      with an empty list it is the identity. */
  lemma {:induction false} ApplyPreprocessorsAppend(ps: seq<Preprocessor>, qs: seq<Preprocessor>, value: Value, name: string)
    ensures ApplyPreprocessors([], value, name) == value
    ensures ApplyPreprocessors(ps + qs, value, name) == ApplyPreprocessors(qs, ApplyPreprocessors(ps, value, name), name)
    decreases |ps|
  {
    if ps == [] {
      assert [] + qs == qs;
    } else {
      assert (ps + qs)[0] == ps[0];
      assert (ps + qs)[1..] == ps[1..] + qs;
      ApplyPreprocessorsAppend(ps[1..], qs, ps[0](value, name), name);
    }
  }

  /** The validators run in order and the first one that fails decides the
      error; no error means every validator accepted the value. */
  function FirstFailure(validators: seq<Validator>, value: Value, name: string): (r: Option<ErrorKind>)
    ensures r == None <==> forall i :: 0 <= i < |validators| ==> validators[i](value, name) == None
    ensures r != None ==> exists k :: 0 <= k < |validators| && validators[k](value, name) == r
                                      && forall j :: 0 <= j < k ==> validators[j](value, name) == None
    decreases |validators|
  {
    if validators == [] then None
    else
      match validators[0](value, name)
      case Some(e) => Some(e)
      case None =>
        var rest := FirstFailure(validators[1..], value, name);
        assert forall i :: 1 <= i < |validators| ==> validators[i] == validators[1..][i - 1];
        rest
  }

  /** `Field.validate`: the type check (unless overridden) comes first, then
      the validators in order. */
  function Validate(c: FieldConfig, value: Value, name: string): (r: Option<ErrorKind>)
    ensures r == None <==> (c.overrideTypeValidator || ValidateType(value, c.expectedType, c.allowNone) == None)
                           && forall i :: 0 <= i < |c.validators| ==> c.validators[i](value, name) == None
    ensures !c.overrideTypeValidator && ValidateType(value, c.expectedType, c.allowNone) != None ==> r == Some(TypeError)
    ensures c.overrideTypeValidator || ValidateType(value, c.expectedType, c.allowNone) == None
            ==> r == FirstFailure(c.validators, value, name)
  {
    var typeError := if c.overrideTypeValidator then None else ValidateType(value, c.expectedType, c.allowNone);
    if typeError.Some? then typeError else FirstFailure(c.validators, value, name)
  }

  /** What `Field.__set__` does apart from storing: the value that would be
      stored, or the error that is raised instead. A stored value has passed
      every check of the configuration. */
  function Assign(c: FieldConfig, value: Value, name: string): (r: Result<Value, ErrorKind>)
    ensures r.Ok? <==> Validate(c, ApplyPreprocessors(c.preprocessors, value, name), name) == None
    ensures r.Ok? ==> r.value == ApplyPreprocessors(c.preprocessors, value, name)
    ensures r.Ok? ==> (c.overrideTypeValidator || ValidateType(r.value, c.expectedType, c.allowNone) == None)
                      && forall i :: 0 <= i < |c.validators| ==> c.validators[i](r.value, name) == None
    ensures r.Err? ==> Some(r.error) == Validate(c, ApplyPreprocessors(c.preprocessors, value, name), name)
  {
    var w := ApplyPreprocessors(c.preprocessors, value, name);
    match Validate(c, w, name)
    case None => Ok(w)
    case Some(e) => Err(e)
  }

  /** The attribute dictionary of one owning object (`instance.__dict__`). */
  class Instance {
    var dict: map<string, Value>

    constructor()
      ensures dict == map[]
    {
      dict := map[];
    }
  }

  /** One validated attribute, bound to `name` on its owning type. */
  class Field {
    const name: string
    const config: FieldConfig

    constructor(name: string, config: FieldConfig)
      ensures this.name == name && this.config == config
    {
      this.name := name;
      this.config := config;
    }

    /** `Field.preprocess`: the loop over the preprocessors. */
    method Preprocess(value: Value) returns (r: Value)
      ensures r == ApplyPreprocessors(config.preprocessors, value, name)
    {
      var ps := config.preprocessors;
      r := value;
      for i := 0 to |ps|
        invariant r == ApplyPreprocessors(ps[..i], value, name)
      {
        ApplyPreprocessorsSnoc(ps[..i], ps[i], value, name);
        assert ps[..i + 1] == ps[..i] + [ps[i]];
        r := ps[i](r, name);
      }
      assert ps[..|ps|] == ps;
    }

    /** `Field.__set__`: on success the name maps to the preprocessed value
        and every other key is untouched; on failure nothing changes. */
    method Set(inst: Instance, value: Value) returns (err: Option<ErrorKind>)
      modifies inst
      ensures match Assign(config, value, name)
              case Ok(w) => err == None && inst.dict == old(inst.dict)[name := w]
              case Err(e) => err == Some(e) && inst.dict == old(inst.dict)
    {
      var w := Preprocess(value);
      err := Validate(config, w, name);
      if err == None {
        inst.dict := inst.dict[name := w];
      }
    }

    /** `Field.__get__` on an instance: the stored value, or AttributeError
        when the name has not been set. */
    method Get(inst: Instance) returns (r: Result<Value, ErrorKind>)
      ensures name in inst.dict ==> r == Ok(inst.dict[name])
      ensures name !in inst.dict ==> r == Err(AttributeError)
    {
      if name !in inst.dict {
        r := Err(AttributeError);
      } else {
        r := Ok(inst.dict[name]);
      }
    }

    /** `Field.__delete__`: removes the name if present; does nothing when it
        is absent or when there is no instance. */
    method Delete(inst: Instance?)
      modifies inst
      ensures inst != null ==> inst.dict == old(inst.dict) - {name}
    {
      if inst != null && name in inst.dict {
        inst.dict := inst.dict - {name};
      }
    }
  }

  /** Assigning, reading, deleting twice and reading again, as an owner of
      an `int` field would. */
  method DeleteScenario()
  {
    var x := new Field("x", FieldConfig(Some([IntType]), false, false, [], []));
    var e := new Instance();
    assert IsInstance(VInt(10), [IntType][0]);
    var err := x.Set(e, VInt(10));
    assert err == None;
    var got := x.Get(e);
    assert got == Ok(VInt(10));
    x.Delete(e);
    x.Delete(e);
    got := x.Get(e);
    assert got == Err(AttributeError);
  }

  // RealNumber

  /** `RealNumber.preprocess_str_to_real`: a string that `float()` accepts
      once its blanks are removed becomes that float; every other value,
      including an unparsable string, is returned as it was. */
  function PreprocessStrToReal(value: Value, name: string): (r: Value)
    ensures r == value || (value.VStr? && r.VFloat?)
    ensures value.VStr? ==> (r.VFloat? <==> PyFloat(RemoveBlanks(value.s)).Some?)
  {
    match value
    case VStr(s) =>
      (match PyFloat(RemoveBlanks(s))
       case Some(x) => VFloat(x)
       case None => value)
    case _ => value
  }

  lemma PreprocessStrToRealIdempotent(value: Value, name: string)
    ensures PreprocessStrToReal(PreprocessStrToReal(value, name), name) == PreprocessStrToReal(value, name)
  {
  }

  /** A word between blanks, such as `" jjjj "`, that does not start like
      an infinity word or `nan` is not a number, so the text is kept as it
      was. */
  lemma PreprocessStrToRealKeepsWords(w1: string, t: string, w2: string, name: string)
    requires AllBlank(w1) && AllBlank(w2) && ' ' !in t
    requires t != [] && 'a' <= t[0] <= 'z' && t[0] != 'i' && t[0] != 'n' && !IsSpace(t[|t| - 1])
    ensures PreprocessStrToReal(VStr(w1 + t + w2), name) == VStr(w1 + t + w2)
  {
    var a := w1 + t;
    RemoveBlanksOfBlanks(w1);
    RemoveBlanksOfBlanks(w2);
    RemoveBlanksAppend(w1, t);
    assert RemoveBlanks(a) == t;
    RemoveBlanksAppend(a, w2);
    assert RemoveBlanks(a + w2) == t;
    PyFloatRejectsWord(t);
  }

  /** Blanks inside a numeral, as after the point of `"2. 00"`, are dropped
      before it is read. */
  lemma PreprocessStrToRealDropsInnerBlanks(whole: string, w: string, frac: string, name: string)
    requires whole != [] && AllDigits(whole) && AllBlank(w) && AllDigits(frac)
    ensures PreprocessStrToReal(VStr(whole + ['.'] + w + frac), name)
            == VFloat(Fin(PointValue(whole, frac)))
  {
    var p := whole + ['.'];
    var s := p + w + frac;
    assert ' ' !in p by {
      assert forall i :: 0 <= i < |whole| ==> IsDigit(p[i]);
    }
    assert ' ' !in frac;
    RemoveBlanksAppend(p + w, frac);
    RemoveBlanksAppend(p, w);
    RemoveBlanksOfBlanks(w);
    assert RemoveBlanks(s) == p + frac by {
      assert RemoveBlanks(p) == p && RemoveBlanks(frac) == frac;
      assert p + [] == p;
    }
    PyFloatOfDecimal(whole, frac);
    assert PyFloat(RemoveBlanks(s)) == Some(Fin(PointValue(whole, frac)));
  }

  /** Text that reads as a signed or unsigned infinity word once its blanks
      are removed, in any letter case, becomes that infinity. */
  lemma PreprocessStrToRealInfinities(s: string, name: string)
    requires Lower(RemoveBlanks(s)) in {"-inf", "-infinity", "inf", "+inf", "infinity"}
    ensures PreprocessStrToReal(VStr(s), name)
            == VFloat(if Lower(RemoveBlanks(s))[0] == '-' then NegInf else PosInf)
  {
    var t := RemoveBlanks(s);
    PyFloatIgnoresCase(t);
    InfinityWordsAgree(Lower(t));
  }

  /** Blanks around and inside a text that `float()` reads once they are
      removed do not stop the coercion, as in `" +inf "` and `" - inf"`. */
  lemma PreprocessStrToRealDropsBlanks(w1: string, t: string, w2: string, u: string, w3: string, name: string)
    requires AllBlank(w1) && AllBlank(w2) && AllBlank(w3) && ' ' !in t && ' ' !in u
    ensures PreprocessStrToReal(VStr(w1 + t + w2 + u + w3), name)
            == match PyFloat(t + u)
               case Some(x) => VFloat(x)
               case None => VStr(w1 + t + w2 + u + w3)
  {
    var a := w1 + t;
    var b := a + w2;
    var c := b + u;
    RemoveBlanksOfBlanks(w1);
    RemoveBlanksOfBlanks(w2);
    RemoveBlanksOfBlanks(w3);
    RemoveBlanksAppend(w1, t);
    assert RemoveBlanks(a) == t;
    RemoveBlanksAppend(a, w2);
    assert RemoveBlanks(b) == t;
    RemoveBlanksAppend(b, u);
    assert RemoveBlanks(c) == t + u;
    RemoveBlanksAppend(c, w3);
    assert RemoveBlanks(c + w3) == t + u;
  }

  /** The row `" +inf "` of the test table becomes +inf. The text is a
      parameter fixed by `requires`, as in the examples below. */
  lemma PreprocessStrToRealPaddedPlusInf(s: string, name: string)
    requires s == " +inf "
    ensures PreprocessStrToReal(VStr(s), name) == VFloat(PosInf)
  {
    var b, e, p, i := " ", "", "+", "inf";
    assert s == b + p + e + i + b;
    PreprocessStrToRealDropsBlanks(b, p, e, i, b, name);
    InfinityWordsAgree(p + i);
  }

  /** The row `" - inf"` of the test table becomes -inf. */
  lemma PreprocessStrToRealPaddedMinusInf(s: string, name: string)
    requires s == " - inf"
    ensures PreprocessStrToReal(VStr(s), name) == VFloat(NegInf)
  {
    var b, e, m, i := " ", "", "-", "inf";
    assert s == b + m + b + i;
    assert s + e == s;
    PreprocessStrToRealDropsBlanks(b, m, b, i, e, name);
    InfinityWordsAgree(m + i);
  }

  /** The rows `"-INFINITY"` and `"-infinity"` of the test table: both
      become -inf. */
  lemma PreprocessStrToRealInfinityWords(s1: string, s2: string, name: string)
    requires s1 == "-INFINITY" && s2 == "-infinity"
    ensures PreprocessStrToReal(VStr(s1), name) == VFloat(NegInf)
    ensures PreprocessStrToReal(VStr(s2), name) == VFloat(NegInf)
  {
    assert ' ' !in s1 && ' ' !in s2;
    InfinityWordsAgree(s2);
    assert Lower(s1) == s2;
    PyFloatIgnoresCase(s1);
  }

  /** An information separator that `float()` does not skip leaves the text
      as it was, even when a numeral follows it. */
  lemma PreprocessStrToRealKeepsSeparated(c: char, t: string, name: string)
    requires IsSeparator(c)
    ensures PreprocessStrToReal(VStr([c] + t), name) == VStr([c] + t)
  {
    RemoveBlanksAppend([c], t);
    assert RemoveBlanks([c]) == [c];
    PyFloatRejectsSeparator([], c, RemoveBlanks(t));
    assert [] + [c] + RemoveBlanks(t) == [c] + RemoveBlanks(t);
  }

  /** The two examples: `" jjjj "` stays text and `"2. 00"` becomes 2.0.
      The texts are parameters fixed by `requires` rather than literals in
      the contract, which keeps the verifier from unfolding the string
      functions on them eagerly. */
  lemma PreprocessStrToRealExamples(s1: string, s2: string, name: string)
    requires s1 == " jjjj " && s2 == "2. 00"
    ensures PreprocessStrToReal(VStr(s1), name) == VStr(s1)
    ensures PreprocessStrToReal(VStr(s2), name) == VFloat(Fin(2.0))
  {
    var b, t, p, q := " ", "jjjj", "2", "00";
    assert s1 == b + t + b && s2 == p + ['.'] + b + q;
    assert t[0] == 'j' && t[|t| - 1] == 'j' && ' ' !in t;
    PreprocessStrToRealKeepsWords(b, t, b, name);
    assert DigitsValue(p) == 2 && DigitsValue(q) == 0;
    assert PointValue(p, q) == 2.0;
    PreprocessStrToRealDropsInnerBlanks(p, b, q, name);
  }

  /** `RealNumber(...)`: expects a real number; with `auto_convert` the
      coercion is placed before the caller's preprocessors. */
  function RealNumber(allowNone: bool, validators: seq<Validator>, preprocessors: seq<Preprocessor>,
                      autoConvert: bool): FieldConfig
  {
    FieldConfig(Some([RealType]), allowNone, false, validators,
                if autoConvert then [PreprocessStrToReal] + preprocessors else preprocessors)
  }

  /** With `auto_convert`, an assignment behaves as one without it made with
      the coerced value: the coercion runs first. */
  lemma RealNumberCoercesFirst(allowNone: bool, validators: seq<Validator>, preprocessors: seq<Preprocessor>,
                               value: Value, name: string)
    ensures Assign(RealNumber(allowNone, validators, preprocessors, true), value, name)
         == Assign(RealNumber(allowNone, validators, preprocessors, false), PreprocessStrToReal(value, name), name)
  {
    var ps: seq<Preprocessor> := [PreprocessStrToReal] + preprocessors;
    assert ps[1..] == preprocessors;
  }

  /** The outcome of assigning to a RealNumber without extra preprocessors:
      `None` only where allowed, non-reals rejected with TypeError, and a real
      value handed to the validators. */
  lemma RealNumberAssign(allowNone: bool, validators: seq<Validator>, autoConvert: bool, value: Value, name: string)
    ensures var w := if autoConvert then PreprocessStrToReal(value, name) else value;
            Assign(RealNumber(allowNone, validators, [], autoConvert), value, name)
            == if w == VNone && !allowNone then Err(TypeError)
               else if w != VNone && !IsInstance(w, RealType) then Err(TypeError)
               else match FirstFailure(validators, w, name)
                    case None => Ok(w)
                    case Some(e) => Err(e)
  {
    var w := if autoConvert then PreprocessStrToReal(value, name) else value;
    var c := RealNumber(allowNone, validators, [], autoConvert);
    if autoConvert {
      assert c.preprocessors == [PreprocessStrToReal];
      assert c.preprocessors[1..] == [];
    }
    assert ApplyPreprocessors(c.preprocessors, value, name) == w;
    assert IsInstanceOfAny(w, [RealType]) <==> IsInstance(w, RealType) by {
      if IsInstance(w, RealType) {
        assert [RealType][0] == RealType;
      }
    }
  }

  /** With `auto_convert` off, no string is stored: it fails the type check. */
  lemma RealNumberWithoutCoercionRejectsText(allowNone: bool, validators: seq<Validator>, s: string, name: string)
    ensures Assign(RealNumber(allowNone, validators, [], false), VStr(s), name) == Err(TypeError)
  {
    RealNumberAssign(allowNone, validators, false, VStr(s), name);
    assert VStr(s) != VNone && !IsInstance(VStr(s), RealType);
  }

  /** With `auto_convert` on, numeric text is stored as the float it denotes
      and any other text is rejected with TypeError. */
  lemma RealNumberCoercesText(allowNone: bool, s: string, name: string)
    ensures Assign(RealNumber(allowNone, [], [], true), VStr(s), name)
         == match PyFloat(RemoveBlanks(s))
            case Some(x) => Ok(VFloat(x))
            case None => Err(TypeError)
  {
    RealNumberAssign(allowNone, [], true, VStr(s), name);
    match PyFloat(RemoveBlanks(s))
    case Some(x) =>
      assert PreprocessStrToReal(VStr(s), name) == VFloat(x);
      assert VFloat(x) != VNone && IsInstance(VFloat(x), RealType);
      assert FirstFailure([], VFloat(x), name) == None;
    case None =>
      assert PreprocessStrToReal(VStr(s), name) == VStr(s);
      assert VStr(s) != VNone && !IsInstance(VStr(s), RealType);
  }

  /** A RealNumber stores every float, infinities included, unchanged. */
  lemma RealNumberStoresFloats(allowNone: bool, autoConvert: bool, x: ExtReal, name: string)
    ensures Assign(RealNumber(allowNone, [], [], autoConvert), VFloat(x), name) == Ok(VFloat(x))
  {
    RealNumberAssign(allowNone, [], autoConvert, VFloat(x), name);
  }
}
