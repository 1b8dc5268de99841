/** The part of Python's built-in `float(str)` that the validation core relies
    on: the whitespace `float()` skips is ignored around the text, then an
    optional sign, then either the words `inf` / `infinity` in any case, or a
    decimal numeral with an optional fractional part. Exponents, digit-group
    underscores and `nan` are not modelled. */
module PyFloats {
  import opened Wrappers
  import opened ExtReals
  import opened Text

  predicate IsDigit(c: char) {
    '0' <= c <= '9'
  }

  predicate AllDigits(s: string) {
    forall i :: 0 <= i < |s| ==> IsDigit(s[i])
  }

  /** The value of a run of decimal digits, most significant first. */
  function DigitsValue(ds: string): nat
    requires AllDigits(ds)
  {
    if ds == [] then 0
    else 10 * DigitsValue(ds[..|ds| - 1]) + (ds[|ds| - 1] as int - '0' as int)
  }

  function Pow10(n: nat): (p: nat)
    ensures p >= 1
  {
    if n == 0 then 1 else 10 * Pow10(n - 1)
  }

  /** An unsigned decimal numeral `ddd`, `ddd.`, `.ddd` or `ddd.ddd`. */
  function Decimal(body: string): (r: Option<real>)
    ensures r.Some? ==> body != [] && r.value >= 0.0
  {
    var k := IndexOf(body, '.');
    if k == |body| then
      if body != [] && AllDigits(body) then Some(DigitsValue(body) as real) else None
    else
      var whole, frac := body[..k], body[k + 1..];
      if AllDigits(whole) && AllDigits(frac) && |whole| + |frac| > 0 then
        Some(PointValue(whole, frac))
      else None
  }

  /** The value of the numeral `whole.frac`. */
  function PointValue(whole: string, frac: string): (v: real)
    requires AllDigits(whole) && AllDigits(frac)
    ensures v >= 0.0
  {
    DigitsValue(whole) as real + DigitsValue(frac) as real / Pow10(|frac|) as real
  }

  /** The characters `str.isspace()` counts as whitespace but `float()` does
      not skip: the information separators U+001C to U+001F. */
  predicate IsSeparator(c: char) {
    0x1C <= c as int <= 0x1F
  }

  /** The whitespace `float()` skips. CPython's `float()` first turns every
      non-ASCII whitespace character into a blank and then skips only the
      blank, tab, line feed, vertical tab, form feed and carriage return, so
      this is `str.isspace()` without the information separators. */
  predicate IsFloatSpace(c: char) {
    IsSpace(c) && !IsSeparator(c)
  }

  predicate AllFloatSpace(s: string) {
    forall i :: 0 <= i < |s| ==> IsFloatSpace(s[i])
  }

  function FloatLStrip(s: string): string {
    if s == [] then []
    else if IsFloatSpace(s[0]) then FloatLStrip(s[1..])
    else s
  }

  function FloatRStrip(s: string): string {
    if s == [] then []
    else if IsFloatSpace(s[|s| - 1]) then FloatRStrip(s[..|s| - 1])
    else s
  }

  /** The text `float()` reads once it has skipped the whitespace around it. */
  function FloatStrip(s: string): string {
    FloatRStrip(FloatLStrip(s))
  }

  /** `float(s)` for a string `s`: `None` where Python raises ValueError. */
  function PyFloat(s: string): (r: Option<ExtReal>)
    ensures r.Some? ==> FloatStrip(s) != []
  {
    SignedFloat(FloatStrip(s))
  }

  /** An optional sign followed by an unsigned numeral. */
  function SignedFloat(t: string): Option<ExtReal> {
    if |t| > 0 && t[0] == '-' then Negate(UnsignedFloat(t[1..]))
    else if |t| > 0 && t[0] == '+' then UnsignedFloat(t[1..])
    else UnsignedFloat(t)
  }

  /** The words `inf` / `infinity` in any case, or a decimal numeral. */
  function UnsignedFloat(body: string): Option<ExtReal> {
    var word := Lower(body);
    if word == "inf" || word == "infinity" then Some(PosInf)
    else match Decimal(body)
         case Some(x) => Some(Fin(x))
         case None => None
  }

  function Negate(r: Option<ExtReal>): Option<ExtReal> {
    match r
    case Some(NegInf) => Some(PosInf)
    case Some(Fin(x)) => Some(Fin(-x))
    case Some(PosInf) => Some(NegInf)
    case None => None
  }

  /** Whitespace in front of a text does not change what `FloatLStrip` keeps. */
  lemma {:induction false} FloatLStripSkipsSpace(w: string, t: string)
    requires AllFloatSpace(w)
    ensures FloatLStrip(w + t) == FloatLStrip(t)
  {
    if w != [] {
      assert (w + t)[0] == w[0] && IsFloatSpace(w[0]);
      assert (w + t)[1..] == w[1..] + t;
      FloatLStripSkipsSpace(w[1..], t);
    } else {
      assert w + t == t;
    }
  }

  /** Whitespace after a text does not change what `FloatRStrip` keeps. */
  lemma {:induction false} FloatRStripSkipsSpace(t: string, w: string)
    requires AllFloatSpace(w)
    ensures FloatRStrip(t + w) == FloatRStrip(t)
  {
    if w == [] {
      assert t + w == t;
    } else {
      var w' := w[..|w| - 1];
      assert (t + w)[|t + w| - 1] == w[|w| - 1] && IsFloatSpace(w[|w| - 1]);
      assert (t + w)[..|t + w| - 1] == t + w';
      FloatRStripSkipsSpace(t, w');
    }
  }

  /** What `FloatLStrip` keeps of `t` runs on into text appended to `t`,
      unless `t` is all whitespace. */
  lemma {:induction false} FloatLStripAppend(t: string, w: string)
    ensures FloatLStrip(t + w) == if FloatLStrip(t) == [] then FloatLStrip(w) else FloatLStrip(t) + w
  {
    if t == [] {
      assert t + w == w;
    } else {
      assert (t + w)[0] == t[0];
      if IsFloatSpace(t[0]) {
        assert (t + w)[1..] == t[1..] + w;
        FloatLStripAppend(t[1..], w);
      }
    }
  }

  /** Text that neither starts nor ends with whitespace is read as it is. */
  lemma FloatStripPlain(t: string)
    requires t == [] || (!IsFloatSpace(t[0]) && !IsFloatSpace(t[|t| - 1]))
    ensures FloatStrip(t) == t
  {
  }

  /** Whitespace that `float()` skips never changes what it returns. */
  lemma PyFloatIgnoresSurroundingSpace(w1: string, t: string, w2: string)
    requires AllFloatSpace(w1) && AllFloatSpace(w2)
    ensures PyFloat(w1 + t + w2) == PyFloat(t)
  {
    assert w1 + t + w2 == w1 + (t + w2);
    FloatLStripSkipsSpace(w1, t + w2);
    FloatLStripAppend(t, w2);
    if FloatLStrip(t) == [] {
      FloatLStripSkipsSpace(w2, []);
      assert w2 + [] == w2;
    } else {
      FloatRStripSkipsSpace(FloatLStrip(t), w2);
    }
  }

  /** A non-empty text that does not start with whitespace keeps its first
      character through `FloatRStrip`. */
  lemma {:induction false} FloatRStripKeepsHead(s: string)
    requires s != [] && !IsFloatSpace(s[0])
    ensures FloatRStrip(s) != [] && FloatRStrip(s)[0] == s[0]
  {
    if IsFloatSpace(s[|s| - 1]) {
      var s' := s[..|s| - 1];
      assert s'[0] == s[0];
      FloatRStripKeepsHead(s');
    }
  }

  /** `float()` does not skip an information separator, although
      `str.strip()` would: text whose first character after the skipped
      whitespace is one is not a number. */
  lemma PyFloatRejectsSeparator(w: string, c: char, t: string)
    requires AllFloatSpace(w) && IsSeparator(c)
    ensures PyFloat(w + [c] + t) == None
  {
    var u := [c] + t;
    assert w + [c] + t == w + u;
    FloatLStripSkipsSpace(w, u);
    assert FloatLStrip(u) == u;
    FloatRStripKeepsHead(u);
    var v := FloatRStrip(u);
    assert SignedFloat(v) == UnsignedFloat(v);
    NotInfinityWord(v);
    var k := IndexOf(v, '.');
    if k < |v| {
      assert v[..k][0] == c;
    }
  }

  /** A bare run of digits reads as the integer it denotes. */
  lemma PyFloatOfDigits(ds: string)
    requires ds != [] && AllDigits(ds)
    ensures PyFloat(ds) == Some(Fin(DigitsValue(ds) as real))
  {
    FloatStripPlain(ds);
    assert !(ds[0] == '+' || ds[0] == '-');
    assert SignedFloat(ds) == UnsignedFloat(ds);
    LowerDigits(ds);
    assert Lower(ds) == ds;
    assert ds != "inf" && ds != "infinity" by {
      assert "inf"[0] == 'i' && "infinity"[0] == 'i';
    }
    assert '.' !in ds;
    assert Decimal(ds) == Some(DigitsValue(ds) as real);
  }

  /** A numeral with a point reads as its whole part plus its fraction. */
  lemma PyFloatOfDecimal(whole: string, frac: string)
    requires whole != [] && AllDigits(whole) && AllDigits(frac)
    ensures PyFloat(whole + ['.'] + frac) == Some(Fin(PointValue(whole, frac)))
  {
    var t := whole + ['.'] + frac;
    assert t[0] == whole[0] && (t[|t| - 1] == '.' || IsDigit(t[|t| - 1]));
    FloatStripPlain(t);
    assert SignedFloat(t) == UnsignedFloat(t);
    NotInfinityWord(t);
    DecimalOfPoint(whole, frac);
  }

  lemma DecimalOfPoint(whole: string, frac: string)
    requires whole != [] && AllDigits(whole) && AllDigits(frac)
    ensures Decimal(whole + ['.'] + frac) == Some(PointValue(whole, frac))
  {
    var t := whole + ['.'] + frac;
    var k := |whole|;
    assert '.' !in whole;
    IndexOfAfter(whole, '.', frac);
    assert t[..k] == whole;
    assert t[k + 1..] == frac;
  }

  /** Text whose first letter is not `i` in either case is neither infinity
      word. */
  lemma NotInfinityWord(body: string)
    requires body != [] && LowerChar(body[0]) != 'i'
    ensures Lower(body) != "inf" && Lower(body) != "infinity"
  {
    assert Lower(body)[0] == LowerChar(body[0]);
    assert "inf"[0] == 'i' && "infinity"[0] == 'i';
  }

  /** Text that starts with a letter other than `i` (the start of the
      infinity words) and `n` (the start of `nan`, which Python reads too)
      and has no surrounding whitespace is not a number. */
  lemma PyFloatRejectsWord(t: string)
    requires t != [] && 'a' <= t[0] <= 'z' && t[0] != 'i' && t[0] != 'n' && !IsSpace(t[|t| - 1])
    ensures PyFloat(t) == None
  {
    FloatStripPlain(t);
    assert SignedFloat(t) == UnsignedFloat(t);
    NotInfinityWord(t);
    var k := IndexOf(t, '.');
    if k < |t| {
      assert t[..k][0] == t[0];
    }
  }

  /** Lowering changes no digit, and turns no other character into one. */
  lemma LowerDigits(w: string)
    ensures AllDigits(Lower(w)) <==> AllDigits(w)
    ensures AllDigits(w) ==> Lower(w) == w
  {
    if !AllDigits(w) {
      var i :| 0 <= i < |w| && !IsDigit(w[i]);
      assert !IsDigit(Lower(w)[i]);
    }
  }

  lemma {:induction false} IndexOfLowerPoint(s: string)
    ensures IndexOf(Lower(s), '.') == IndexOf(s, '.')
  {
    if s != [] {
      var ls := Lower(s);
      assert ls[0] == LowerChar(s[0]);
      assert ls[0] == '.' <==> s[0] == '.';
      LowerSlice(s, 1, |s|);
      assert ls[1..] == Lower(s[1..]);
      IndexOfLowerPoint(s[1..]);
      if s[0] != '.' {
        assert IndexOf(s, '.') == 1 + IndexOf(s[1..], '.');
        assert IndexOf(ls, '.') == 1 + IndexOf(ls[1..], '.');
      }
    }
  }

  /** A decimal numeral reads the same in any letter case. */
  lemma DecimalIgnoresCase(body: string)
    ensures Decimal(Lower(body)) == Decimal(body)
  {
    var k := IndexOf(body, '.');
    var lb := Lower(body);
    IndexOfLowerPoint(body);
    if k == |body| {
      LowerDigits(body);
    } else {
      var whole, frac := body[..k], body[k + 1..];
      LowerSlice(body, 0, k);
      LowerSlice(body, k + 1, |body|);
      assert lb[..k] == Lower(whole) && lb[k + 1..] == Lower(frac);
      LowerDigits(whole);
      LowerDigits(frac);
      if AllDigits(whole) && AllDigits(frac) {
        assert Lower(whole) == whole && Lower(frac) == frac;
      }
    }
  }

  lemma UnsignedFloatIgnoresCase(body: string)
    ensures UnsignedFloat(Lower(body)) == UnsignedFloat(body)
  {
    LowerIdempotent(body);
    DecimalIgnoresCase(body);
  }

  lemma SignedFloatIgnoresCase(t: string)
    ensures SignedFloat(Lower(t)) == SignedFloat(t)
  {
    var lt := Lower(t);
    if |t| > 0 {
      assert lt[0] == LowerChar(t[0]);
      LowerSlice(t, 1, |t|);
      assert lt[1..] == Lower(t[1..]);
      UnsignedFloatIgnoresCase(t[1..]);
    }
    UnsignedFloatIgnoresCase(t);
  }

  lemma {:induction false} LowerFloatLStrip(s: string)
    ensures Lower(FloatLStrip(s)) == FloatLStrip(Lower(s))
  {
    if s != [] {
      var ls := Lower(s);
      assert ls[0] == LowerChar(s[0]);
      LowerCharKeepsSpace(s[0]);
      if IsFloatSpace(s[0]) {
        LowerSlice(s, 1, |s|);
        assert ls[1..] == Lower(s[1..]);
        LowerFloatLStrip(s[1..]);
      } else {
        assert FloatLStrip(ls) == ls;
      }
    }
  }

  lemma {:induction false} LowerFloatRStrip(s: string)
    ensures Lower(FloatRStrip(s)) == FloatRStrip(Lower(s))
  {
    if s != [] {
      var ls := Lower(s);
      assert ls[|s| - 1] == LowerChar(s[|s| - 1]);
      LowerCharKeepsSpace(s[|s| - 1]);
      if IsFloatSpace(s[|s| - 1]) {
        LowerSlice(s, 0, |s| - 1);
        assert ls[..|s| - 1] == Lower(s[..|s| - 1]);
        LowerFloatRStrip(s[..|s| - 1]);
      } else {
        assert FloatRStrip(ls) == ls;
      }
    }
  }

  /** `float()` does not depend on the letter case of its argument. */
  lemma PyFloatIgnoresCase(s: string)
    ensures PyFloat(Lower(s)) == PyFloat(s)
  {
    LowerFloatLStrip(s);
    LowerFloatRStrip(FloatLStrip(s));
    SignedFloatIgnoresCase(FloatStrip(s));
  }

  lemma InfinityWordFacts(word: string)
    requires word == "inf" || word == "infinity"
    ensures |word| >= 3 && word[0] == 'i' && !IsSpace(word[|word| - 1]) && Lower(word) == word
  {
  }

  /** `float()` reads the infinity words without a sign as +inf... */
  lemma PyFloatPlainInfinity(word: string)
    requires word == "inf" || word == "infinity"
    ensures PyFloat(word) == Some(PosInf)
  {
    InfinityWordFacts(word);
    FloatStripPlain(word);
    assert SignedFloat(word) == UnsignedFloat(word);
  }

  /** ...and with a sign as the signed infinity. */
  lemma PyFloatSignedInfinity(c: char, word: string)
    requires c == '+' || c == '-'
    requires word == "inf" || word == "infinity"
    ensures PyFloat([c] + word) == Some(if c == '-' then NegInf else PosInf)
  {
    var t := [c] + word;
    InfinityWordFacts(word);
    assert t[0] == c && t[|t| - 1] == word[|word| - 1];
    FloatStripPlain(t);
    assert t[1..] == word;
    assert UnsignedFloat(word) == Some(PosInf);
  }

  /** The words `parse_number` maps to the infinities itself are read the
      same way by `float()`. */
  lemma InfinityWordsAgree(t: string)
    ensures t == "-inf" || t == "-infinity" ==> PyFloat(t) == Some(NegInf)
    ensures t == "inf" || t == "+inf" || t == "infinity" ==> PyFloat(t) == Some(PosInf)
  {
    if t == "-inf" || t == "-infinity" {
      PyFloatSignedInfinity('-', t[1..]);
      assert t == ['-'] + t[1..];
    } else if t == "+inf" {
      PyFloatSignedInfinity('+', "inf");
      assert t == ['+'] + "inf";
    } else if t == "inf" || t == "infinity" {
      PyFloatPlainInfinity(t);
    }
  }
}
