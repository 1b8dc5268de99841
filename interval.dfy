/** Numeric intervals written as text, e.g. `[0,1]`, `(-inf, 5]`: the
    bracket kinds, the parser of the bracket/comma notation, the bound check
    made at construction, membership and the rendering back to text. */
module Intervals {
  import opened Wrappers
  import opened ExtReals
  import opened Text
  import opened PyFloats
  import opened Values
  import opened Fields

  /** `IntervalBracket`: the four bracket characters and their kinds. */
  datatype IntervalBracket = LeftOpen | LeftClosed | RightOpen | RightClosed {
    function Char(): char {
      match this
      case LeftOpen => '('
      case LeftClosed => '['
      case RightOpen => ')'
      case RightClosed => ']'
    }

    predicate IsLeft() { this == LeftOpen || this == LeftClosed }
    predicate IsRight() { this == RightOpen || this == RightClosed }
    predicate IsClosed() { this == LeftClosed || this == RightClosed }
    predicate IsOpen() { this == LeftOpen || this == RightOpen }
  }

  /** Every bracket is exactly one of left/right and exactly one of
      open/closed, and no two brackets share a character. */
  lemma BracketKinds(a: IntervalBracket, b: IntervalBracket)
    ensures a.IsLeft() != a.IsRight() && a.IsOpen() != a.IsClosed()
    ensures a != b ==> a.Char() != b.Char()
  {
  }

  predicate IsLeftBracket(c: char) { c == '(' || c == '[' }
  predicate IsRightBracket(c: char) { c == ')' || c == ']' }

  /** The language of the interval pattern: optional whitespace, a left
      bracket, a non-empty lower text without a comma, a comma, a non-empty
      upper text without a comma or `]`, a right bracket, optional
      whitespace. (The pattern's `\s*` around each token is absorbed into the
      token texts `x` and `y`.) */
  ghost predicate Shaped(s: string, w1: string, l: char, x: string, y: string, r: char, w2: string) {
    && s == w1 + [l] + x + [','] + y + [r] + w2
    && AllSpace(w1) && AllSpace(w2)
    && IsLeftBracket(l) && IsRightBracket(r)
    && x != [] && y != []
    && ',' !in x && ',' !in y && ']' !in y
  }

  /** The four groups of a successful match. */
  datatype Components = Components(left: char, lower: string, upper: string, right: char)

  /** What a `[^,]+` group captures after a greedy `\s*`: the text with its
      leading whitespace dropped, or its last character when the text is all
      whitespace (the group needs one character). Trailing whitespace stays. */
  function GreedyToken(x: string): (tok: string)
    requires x != []
    ensures tok != [] && Strip(tok) == Strip(x)
  {
    LStripEmptyOnlyForSpace(x);
    StripOfLStrip(x);
    if LStrip(x) == [] then
      var c := x[|x| - 1];
      StripAllSpace([c]);
      [c]
    else
      LStrip(x)
  }

  /** `Interval.extract_pattern_components`, as its regular expression
      matches: TypeError for a non-string, ValueError for text that does not
      fit the pattern. */
  function ExtractPatternComponents(definition: Value): (r: Result<Components, ErrorKind>)
    ensures !definition.VStr? ==> r == Err(TypeError)
    ensures definition.VStr? && r.Err? ==> r.error == ValueError
    ensures r.Ok? ==> IsLeftBracket(r.value.left) && IsRightBracket(r.value.right)
  {
    match definition
    case VStr(s) => MatchBracketed(Strip(s))
    case _ => Err(TypeError)
  }

  /** The match on text without surrounding whitespace: a bracket at each
      end, and between them the two bounds around one comma. */
  function MatchBracketed(t: string): (r: Result<Components, ErrorKind>)
    ensures r.Err? ==> r.error == ValueError
    ensures r.Ok? ==> IsLeftBracket(r.value.left) && IsRightBracket(r.value.right)
  {
    if |t| < 2 || !IsLeftBracket(t[0]) || !IsRightBracket(t[|t| - 1]) then Err(ValueError)
    else SplitAtComma(t[0], t[1..|t| - 1], t[|t| - 1])
  }

  function SplitAtComma(l: char, inner: string, r: char): (res: Result<Components, ErrorKind>)
    ensures res.Err? ==> res.error == ValueError
    ensures res.Ok? ==> res.value.left == l && res.value.right == r
  {
    var k := IndexOf(inner, ',');
    if k == |inner| then Err(ValueError)
    else
      var x, y := inner[..k], inner[k + 1..];
      if x == [] || y == [] || ',' in y || ']' in y then Err(ValueError)
      else Ok(Components(l, GreedyToken(x), GreedyToken(y), r))
  }

  lemma SplitAtCommaOf(l: char, x: string, y: string, r: char)
    requires x != [] && y != [] && ',' !in x && ',' !in y && ']' !in y
    ensures SplitAtComma(l, x + [','] + y, r) == Ok(Components(l, GreedyToken(x), GreedyToken(y), r))
  {
    var inner := x + [','] + y;
    IndexOfAfter(x, ',', y);
    assert inner[..|x|] == x;
    assert inner[|x| + 1..] == y;
  }

  lemma {:induction false} StripShaped(s: string, w1: string, l: char, x: string, y: string, r: char, w2: string)
    requires Shaped(s, w1, l, x, y, r, w2)
    ensures Strip(s) == [l] + x + [','] + y + [r]
  {
    var m := [l] + x + [','] + y + [r];
    assert s == w1 + m + w2;
    assert m[0] == l && m[|m| - 1] == r;
    StripFramed(w1, m, w2);
  }

  lemma {:induction false} MatchBracketedOf(l: char, x: string, y: string, r: char)
    requires IsLeftBracket(l) && IsRightBracket(r)
    requires x != [] && y != [] && ',' !in x && ',' !in y && ']' !in y
    ensures MatchBracketed([l] + x + [','] + y + [r]) == Ok(Components(l, GreedyToken(x), GreedyToken(y), r))
  {
    var m := [l] + x + [','] + y + [r];
    assert m[1..|m| - 1] == x + [','] + y;
    SplitAtCommaOf(l, x, y, r);
  }

  /** Every text of the pattern's shape matches, with the brackets as given
      and the tokens as the greedy groups capture them. */
  lemma {:induction false} ExtractAcceptsShape(s: string, w1: string, l: char, x: string, y: string, r: char, w2: string)
    requires Shaped(s, w1, l, x, y, r, w2)
    ensures ExtractPatternComponents(VStr(s)) == Ok(Components(l, GreedyToken(x), GreedyToken(y), r))
  {
    StripShaped(s, w1, l, x, y, r, w2);
    MatchBracketedOf(l, x, y, r);
  }

  lemma {:induction false} SplitAtCommaOnly(l: char, inner: string, r: char)
    requires SplitAtComma(l, inner, r).Ok?
    ensures var k := IndexOf(inner, ',');
            var x, y := inner[..k], inner[k + 1..];
            && k < |inner| && inner == x + [','] + y
            && x != [] && y != [] && ',' !in x && ',' !in y && ']' !in y
            && SplitAtComma(l, inner, r) == Ok(Components(l, GreedyToken(x), GreedyToken(y), r))
  {
    var k := IndexOf(inner, ',');
    assert k < |inner|;
    SplitAt(inner, k);
  }

  lemma SplitAt(s: string, k: nat)
    requires k < |s|
    ensures s == s[..k] + [s[k]] + s[k + 1..]
  {
  }

  /** A successful match on unpadded text splits it into the two brackets
      around the two token texts and the comma. */
  lemma {:induction false} MatchBracketedOnly(t: string) returns (x: string, y: string)
    requires MatchBracketed(t).Ok?
    ensures var c := MatchBracketed(t).value;
            && t == [c.left] + x + [','] + y + [c.right]
            && x != [] && y != [] && ',' !in x && ',' !in y && ']' !in y
            && c.lower == GreedyToken(x) && c.upper == GreedyToken(y)
  {
    var inner := t[1..|t| - 1];
    SplitAtCommaOnly(t[0], inner, t[|t| - 1]);
    Unwrap(t);
    var k := IndexOf(inner, ',');
    x, y := inner[..k], inner[k + 1..];
    Regroup(t[0], x, y, t[|t| - 1]);
  }

  lemma Regroup(l: char, x: string, y: string, r: char)
    ensures [l] + (x + [','] + y) + [r] == [l] + x + [','] + y + [r]
  {
  }

  lemma RegroupPadded(w1: string, l: char, x: string, y: string, r: char, w2: string)
    ensures w1 + ([l] + x + [','] + y + [r]) + w2 == w1 + [l] + x + [','] + y + [r] + w2
  {
  }

  lemma Unwrap(s: string)
    requires |s| >= 2
    ensures s == [s[0]] + s[1..|s| - 1] + [s[|s| - 1]]
  {
  }

  /** Only texts of the pattern's shape match: the matched text splits into
      whitespace, the two brackets, the two token texts and the comma. */
  lemma {:induction false} ExtractOnlyShape(s: string)
    requires ExtractPatternComponents(VStr(s)).Ok?
    ensures var c := ExtractPatternComponents(VStr(s)).value;
            exists w1, x, y, w2 :: Shaped(s, w1, c.left, x, y, c.right, w2)
                                   && c.lower == GreedyToken(x) && c.upper == GreedyToken(y)
  {
    var t := Strip(s);
    assert ExtractPatternComponents(VStr(s)) == MatchBracketed(t);
    var c := MatchBracketed(t).value;
    var w1, w2 := StripSplit(s);
    var x, y := MatchBracketedOnly(t);
    RegroupPadded(w1, c.left, x, y, c.right, w2);
    assert Shaped(s, w1, c.left, x, y, c.right, w2);
  }

  /** The bound texts with the whitespace around them removed, which is what
      the tests expect the extracted tokens to be. */
  function BoundTokens(definition: Value): (r: Result<Components, ErrorKind>)
    ensures !definition.VStr? ==> r == Err(TypeError)
    ensures definition.VStr? && r.Err? ==> r.error == ValueError
    ensures r.Ok? ==> r.value.lower == Strip(r.value.lower)
    ensures r.Ok? ==> r.value.upper == Strip(r.value.upper)
  {
    var c :- ExtractPatternComponents(definition);
    StripIdempotent(c.lower);
    StripIdempotent(c.upper);
    Ok(c.(lower := Strip(c.lower), upper := Strip(c.upper)))
  }

  /** After leading whitespace, a group captures the rest of its text. */
  lemma GreedyTokenAfterSpace(w: string, m: string)
    requires AllSpace(w) && m != [] && !IsSpace(m[0])
    ensures GreedyToken(w + m) == m
  {
    LStripSkipsSpace(w, m);
    assert LStrip(m) == m;
  }

  /** The groups capture a bound text without its leading whitespace but
      with its trailing whitespace. */
  lemma {:induction false} TokensKeepTrailingBlanks(s: string, w1: string, l: char, a: string, m: string, v: string,
                                                    b: string, n: string, u: string, r: char, w2: string)
    requires Shaped(s, w1, l, a + m + v, b + n + u, r, w2)
    requires AllSpace(a) && AllSpace(v) && AllSpace(b) && AllSpace(u)
    requires m != [] && !IsSpace(m[0]) && !IsSpace(m[|m| - 1])
    requires n != [] && !IsSpace(n[0]) && !IsSpace(n[|n| - 1])
    ensures ExtractPatternComponents(VStr(s)) == Ok(Components(l, m + v, n + u, r))
  {
    ExtractAcceptsShape(s, w1, l, a + m + v, b + n + u, r, w2);
    TokenOfPadded(a, m, v);
    TokenOfPadded(b, n, u);
  }

  lemma TokenOfPadded(a: string, m: string, v: string)
    requires AllSpace(a) && AllSpace(v)
    requires m != [] && !IsSpace(m[0]) && !IsSpace(m[|m| - 1])
    ensures a + m + v != [] && GreedyToken(a + m + v) == m + v && Strip(m + v) == m
  {
    assert a + m + v == a + (m + v);
    assert (m + v)[0] == m[0];
    GreedyTokenAfterSpace(a, m + v);
    StripFramed([], m, v);
    assert [] + m + v == m + v;
  }

  /** The bound tokens are the captured tokens, stripped. */
  lemma BoundTokensStripCaptured(definition: Value)
    ensures BoundTokens(definition) == match ExtractPatternComponents(definition)
                                       case Ok(c) => Ok(c.(lower := Strip(c.lower), upper := Strip(c.upper)))
                                       case Err(e) => Err(e)
  {
  }

  /** The definition `"  [  -5 ,  10  )  "`: the captured lower token is
      `"-5 "` and the upper one `"10  "`, where the stripped bound tokens are
      `"-5"` and `"10"`.
      The definitions are parameters fixed by `requires` rather than literals
      in the contract, which keeps the verifier from unfolding the string
      functions on them eagerly. */
  lemma {:induction false} TokensOfPaddedDefinition(s: string)
    requires s == "  [  -5 ,  10  )  "
    ensures ExtractPatternComponents(VStr(s)) == Ok(Components('[', "-5 ", "10  ", ')'))
    ensures BoundTokens(VStr(s)) == Ok(Components('[', "-5", "10", ')'))
  {
    var w, m, n, v := "  ", "-5", "10", " ";
    PaddedDefinitionShape(s, w, m, n, v);
    TokensKeepTrailingBlanks(s, w, '[', w, m, v, w, n, w, ')', w);
    TokenOfPadded(w, m, v);
    TokenOfPadded(w, n, w);
    BoundTokensStripCaptured(VStr(s));
  }

  /** How the padded definition splits into the pattern's parts; the pieces
      are parameters fixed by `requires`, for the same reason. */
  lemma PaddedDefinitionShape(s: string, w: string, m: string, n: string, v: string)
    requires s == "  [  -5 ,  10  )  " && w == "  " && m == "-5" && n == "10" && v == " "
    ensures Shaped(s, w, '[', w + m + v, w + n + w, ')', w)
    ensures AllSpace(w) && AllSpace(v) && m + v == "-5 " && n + w == "10  "
  {
    assert s == w + ['['] + (w + m + v) + [','] + (w + n + w) + [')'] + w;
  }


  // parse_number

  /** `Interval.parse_number`: the text is stripped and lowered, the infinity
      words are recognised, and anything else goes to `float()`; text that
      is not a number raises ValueError. */
  function ParseNumber(text: string): (r: Result<ExtReal, ErrorKind>)
    ensures r.Err? ==> r.error == ValueError
  {
    var t := Lower(Strip(text));
    if t == "-inf" || t == "-infinity" then Ok(NegInf)
    else if t == "inf" || t == "+inf" || t == "infinity" then Ok(PosInf)
    else match PyFloat(t)
         case Some(x) => Ok(x)
         case None => Err(ValueError)
  }

  /** The infinity words are a shortcut only: `parse_number` returns what
      `float()` returns for the text `str.strip()` leaves, and raises
      ValueError exactly where `float()` does on that text. */
  lemma ParseNumberIsFloat(text: string)
    ensures ParseNumber(text) == match PyFloat(Strip(text))
                                 case Some(x) => Ok(x)
                                 case None => Err(ValueError)
  {
    var t := Lower(Strip(text));
    PyFloatIgnoresCase(Strip(text));
    InfinityWordsAgree(t);
  }

  /** `str.strip()` removes the information separators that `float()` does
      not skip, so `parse_number` reads a numeral after one, where `float()`
      alone raises. */
  lemma ParseNumberStripsSeparators(c: char, ds: string)
    requires IsSeparator(c) && ds != [] && AllDigits(ds)
    ensures ParseNumber([c] + ds) == Ok(Fin(DigitsValue(ds) as real))
    ensures PyFloat([c] + ds) == None
  {
    StripFramed([c], ds, []);
    assert [c] + ds + [] == [c] + ds;
    ParseNumberIsFloat([c] + ds);
    PyFloatOfDigits(ds);
    PyFloatRejectsSeparator([], c, ds);
    assert [] + [c] + ds == [c] + ds;
  }

  /** Whitespace around a bound and the case of its letters do not matter. */
  lemma ParseNumberIgnoresSpaceAndCase(text: string)
    ensures ParseNumber(Strip(text)) == ParseNumber(text)
    ensures ParseNumber(Lower(text)) == ParseNumber(text)
  {
    StripIdempotent(text);
    LowerStrip(text);
    LowerIdempotent(Strip(text));
  }

  /** The infinity words, in any case and with any surrounding whitespace. */
  lemma ParseNumberInfinities(w1: string, t: string, w2: string)
    requires AllSpace(w1) && AllSpace(w2)
    requires Lower(t) in {"-inf", "-infinity", "inf", "+inf", "infinity"}
    ensures ParseNumber(w1 + t + w2) == if Lower(t)[0] == '-' then Ok(NegInf) else Ok(PosInf)
  {
    var lt := Lower(t);
    assert lt[0] == LowerChar(t[0]) && lt[|t| - 1] == LowerChar(t[|t| - 1]);
    LowerCharKeepsSpace(t[0]);
    LowerCharKeepsSpace(t[|t| - 1]);
    StripFramed(w1, t, w2);
  }

  /** The bounds parsed from the captured tokens and from the stripped
      tokens are the same. */
  lemma RawTokensParseAlike(definition: Value)
    requires ExtractPatternComponents(definition).Ok?
    ensures var raw := ExtractPatternComponents(definition).value;
            var c := BoundTokens(definition).value;
            ParseNumber(raw.lower) == ParseNumber(c.lower) && ParseNumber(raw.upper) == ParseNumber(c.upper)
  {
    var raw := ExtractPatternComponents(definition).value;
    ParseNumberIgnoresSpaceAndCase(raw.lower);
    ParseNumberIgnoresSpaceAndCase(raw.upper);
  }

  // Interval

  /** An interval: its two bounds and whether each end is closed. */
  datatype Interval = Interval(lower: ExtReal, upper: ExtReal, leftClosed: bool, rightClosed: bool) {
    /** What construction guarantees: the bounds are not reversed. */
    predicate Valid() {
      Le(lower, upper)
    }

    /** `__contains__` past its type guard: a closed end rejects only values
        beyond it, an open end rejects the bound itself too. */
    predicate Contains(x: ExtReal) {
      var lowerFails := if leftClosed then Lt(x, lower) else Le(x, lower);
      var upperFails := if rightClosed then Lt(upper, x) else Le(upper, x);
      !lowerFails && !upperFails
    }

    /** `value in interval` for any value: only real numbers can be members. */
    predicate ContainsValue(v: Value) {
      match AsReal(v)
      case Some(x) => Contains(x)
      case None => false
    }

    function LeftChar(): char { if leftClosed then '[' else '(' }
    function RightChar(): char { if rightClosed then ']' else ')' }

    /** `__repr__`, given how each bound is printed. */
    function Render(show: ExtReal -> string): (text: string)
      ensures |text| >= 2 && text[0] == LeftChar() && text[|text| - 1] == RightChar()
    {
      [LeftChar()] + show(lower) + ", " + show(upper) + [RightChar()]
    }
  }

  /** `Interval(definition)`: extract the parts, parse both bounds, reject
      reversed bounds; the flags record which brackets were square. */
  function Parse(definition: Value): (r: Result<Interval, ErrorKind>)
    ensures !definition.VStr? ==> r == Err(TypeError)
    ensures definition.VStr? && r.Err? ==> r.error == ValueError
    ensures r.Ok? ==> r.value.Valid()
  {
    var c :- BoundTokens(definition);
    var lower :- ParseNumber(c.lower);
    var upper :- ParseNumber(c.upper);
    if Lt(upper, lower) then Err(ValueError)
    else
      NotLtIsLe(upper, lower);
      Ok(Interval(lower, upper, c.left == '[', c.right == ']'))
  }

  /** The class attributes `lower` and `upper`: RealNumber fields with the
      default settings. */
  function BoundField(): FieldConfig {
    RealNumber(false, [], [], true)
  }

  /** Storing the parsed bounds in the `lower` / `upper` fields never fails
      and stores them unchanged. */
  lemma BoundFieldsStoreParsedBounds(definition: Value)
    requires Parse(definition).Ok?
    ensures var iv := Parse(definition).value;
            && Assign(BoundField(), VFloat(iv.lower), "lower") == Ok(VFloat(iv.lower))
            && Assign(BoundField(), VFloat(iv.upper), "upper") == Ok(VFloat(iv.upper))
  {
    var iv := Parse(definition).value;
    RealNumberStoresFloats(false, true, iv.lower, "lower");
    RealNumberStoresFloats(false, true, iv.upper, "upper");
  }

  /** A text of the pattern's shape is parsed from its two bound texts: a
      bound that is not a number or bounds in the wrong order raise
      ValueError, and otherwise the flags follow the brackets. */
  lemma {:induction false} ParseOfShape(s: string, w1: string, l: char, x: string, y: string, r: char, w2: string)
    requires Shaped(s, w1, l, x, y, r, w2)
    ensures ParseNumber(x).Err? || ParseNumber(y).Err? ==> Parse(VStr(s)) == Err(ValueError)
    ensures ParseNumber(x).Ok? && ParseNumber(y).Ok? ==>
              Parse(VStr(s)) == var lo, hi := ParseNumber(x).value, ParseNumber(y).value;
                                if Lt(hi, lo) then Err(ValueError) else Ok(Interval(lo, hi, l == '[', r == ']'))
  {
    ExtractAcceptsShape(s, w1, l, x, y, r, w2);
    var c := BoundTokens(VStr(s)).value;
    assert c.lower == Strip(GreedyToken(x)) && c.upper == Strip(GreedyToken(y));
    ParseNumberIgnoresSpaceAndCase(x);
    ParseNumberIgnoresSpaceAndCase(y);
    assert ParseNumber(c.lower) == ParseNumber(x);
    assert ParseNumber(c.upper) == ParseNumber(y);
  }

  /** Every interval that is built comes from a text of the pattern's shape
      whose bound texts parse to its bounds and whose brackets give its flags. */
  lemma {:induction false} ParseOnlyShape(s: string)
    requires Parse(VStr(s)).Ok?
    ensures var iv := Parse(VStr(s)).value;
            exists w1, x, y, w2 :: Shaped(s, w1, iv.LeftChar(), x, y, iv.RightChar(), w2)
                                   && ParseNumber(x) == Ok(iv.lower) && ParseNumber(y) == Ok(iv.upper)
  {
    var iv := Parse(VStr(s)).value;
    var c := ExtractPatternComponents(VStr(s)).value;
    ExtractOnlyShape(s);
    var w1, x, y, w2 :| Shaped(s, w1, c.left, x, y, c.right, w2)
                        && c.lower == GreedyToken(x) && c.upper == GreedyToken(y);
    ParseOfShape(s, w1, c.left, x, y, c.right, w2);
    assert iv.LeftChar() == c.left && iv.RightChar() == c.right;
  }

  /** The flags of a built interval are the closedness of the bracket kinds
      written at the two ends of its definition. */
  lemma ParsedFlagsFollowBrackets(s: string)
    requires Parse(VStr(s)).Ok?
    ensures var t := Strip(s); |t| >= 2
    ensures var iv, t := Parse(VStr(s)).value, Strip(s);
            exists lb: IntervalBracket :: lb.IsLeft() && lb.Char() == t[0] && lb.IsClosed() == iv.leftClosed
    ensures var iv, t := Parse(VStr(s)).value, Strip(s);
            exists rb: IntervalBracket :: rb.IsRight() && rb.Char() == t[|t| - 1] && rb.IsClosed() == iv.rightClosed
  {
    var iv, t := Parse(VStr(s)).value, Strip(s);
    var c := ParseFlags(VStr(s));
    assert MatchBracketed(t).Ok?;
    assert |t| >= 2 && c.left == t[0] && c.right == t[|t| - 1];
    var lb := if t[0] == '[' then LeftClosed else LeftOpen;
    var rb := if t[|t| - 1] == ']' then RightClosed else RightOpen;
    assert lb.IsLeft() && lb.Char() == t[0] && lb.IsClosed() == iv.leftClosed;
    assert rb.IsRight() && rb.Char() == t[|t| - 1] && rb.IsClosed() == iv.rightClosed;
  }

  lemma ParseFlags(definition: Value) returns (c: Components)
    requires Parse(definition).Ok?
    ensures ExtractPatternComponents(definition) == Ok(c)
    ensures Parse(definition).value.leftClosed == (c.left == '[')
    ensures Parse(definition).value.rightClosed == (c.right == ']')
  {
    c := ExtractPatternComponents(definition).value;
    assert BoundTokens(definition).value.left == c.left;
    assert BoundTokens(definition).value.right == c.right;
  }

  /** Rendering with a printer whose bound texts read back as the bounds, and
      contain no comma (nor, for the upper one, a `]`), gives text that parses
      to the same interval. */
  lemma {:induction false} RenderRoundTrip(iv: Interval, show: ExtReal -> string)
    requires iv.Valid()
    requires show(iv.lower) != [] && ',' !in show(iv.lower) && ParseNumber(show(iv.lower)) == Ok(iv.lower)
    requires show(iv.upper) != [] && ',' !in show(iv.upper) && ']' !in show(iv.upper)
    requires ParseNumber(show(iv.upper)) == Ok(iv.upper)
    ensures Parse(VStr(iv.Render(show))) == Ok(iv)
  {
    var lt, ut := show(iv.lower), show(iv.upper);
    var y := " " + ut;
    RenderShape(iv, lt, ut);
    BlankBeforeBound(ut);
    NotLtIsLe(iv.upper, iv.lower);
    ParseOfShape(iv.Render(show), [], iv.LeftChar(), lt, y, iv.RightChar(), []);
  }

  lemma RenderShape(iv: Interval, lt: string, ut: string)
    requires lt != [] && ',' !in lt && ut != [] && ',' !in ut && ']' !in ut
    ensures Shaped([iv.LeftChar()] + lt + ", " + ut + [iv.RightChar()], [], iv.LeftChar(), lt, " " + ut, iv.RightChar(), [])
  {
    var text := [iv.LeftChar()] + lt + ", " + ut + [iv.RightChar()];
    assert text == [] + [iv.LeftChar()] + lt + [','] + (" " + ut) + [iv.RightChar()] + [];
  }

  /** The blank `__repr__` writes after the comma does not change the bound. */
  lemma BlankBeforeBound(ut: string)
    ensures ParseNumber(" " + ut) == ParseNumber(ut)
  {
    LStripSkipsSpace(" ", ut);
    assert Strip(" " + ut) == Strip(ut);
    ParseNumberIgnoresSpaceAndCase(" " + ut);
    ParseNumberIgnoresSpaceAndCase(ut);
  }

  /** Membership in normal form: each end compares strictly when open and
      non-strictly when closed. */
  lemma ContainsIff(iv: Interval, x: ExtReal)
    ensures iv.Contains(x) <==> (if iv.leftClosed then Le(iv.lower, x) else Lt(iv.lower, x))
                                && (if iv.rightClosed then Le(x, iv.upper) else Lt(x, iv.upper))
  {
    NotLtIsLe(x, iv.lower);
    NotLtIsLe(iv.upper, x);
  }

  /** A member lies between the bounds. */
  lemma ContainsBetweenBounds(iv: Interval, x: ExtReal)
    requires iv.Contains(x)
    ensures Le(iv.lower, x) && Le(x, iv.upper)
  {
    ContainsIff(iv, x);
  }

  /** An open end excludes its own bound; a closed end includes it whenever
      the other end admits it. */
  lemma Endpoints(iv: Interval)
    requires iv.Valid()
    ensures !iv.leftClosed ==> !iv.Contains(iv.lower)
    ensures !iv.rightClosed ==> !iv.Contains(iv.upper)
    ensures iv.Contains(iv.lower) <==> iv.leftClosed && (iv.rightClosed || iv.lower != iv.upper)
    ensures iv.Contains(iv.upper) <==> iv.rightClosed && (iv.leftClosed || iv.lower != iv.upper)
  {
    ContainsIff(iv, iv.lower);
    ContainsIff(iv, iv.upper);
    LtIrreflexive(iv.lower);
    LtIrreflexive(iv.upper);
  }

  /** Closing either end never loses a member; in particular the open
      interval lies inside the closed one with the same bounds. */
  lemma ClosingKeepsMembers(iv: Interval, x: ExtReal)
    requires iv.Contains(x)
    ensures iv.(leftClosed := true).Contains(x)
    ensures iv.(rightClosed := true).Contains(x)
    ensures iv.(leftClosed := true, rightClosed := true).Contains(x)
  {
    ContainsIff(iv, x);
    ContainsIff(iv.(leftClosed := true), x);
    ContainsIff(iv.(rightClosed := true), x);
    ContainsIff(iv.(leftClosed := true, rightClosed := true), x);
  }

  /** An infinite bound lets every finite number past that end. */
  lemma InfiniteBoundsAdmitFinite(iv: Interval, r: real)
    ensures iv.lower == NegInf ==> (iv.Contains(Fin(r)) <==> if iv.rightClosed then Le(Fin(r), iv.upper) else Lt(Fin(r), iv.upper))
    ensures iv.upper == PosInf ==> (iv.Contains(Fin(r)) <==> if iv.leftClosed then Le(iv.lower, Fin(r)) else Lt(iv.lower, Fin(r)))
    ensures iv.lower == NegInf && iv.upper == PosInf ==> iv.Contains(Fin(r))
  {
    ContainsIff(iv, Fin(r));
  }

  /** Equal bounds with an open end admit nothing, though such an interval
      is accepted at construction. */
  lemma DegenerateOpenIsEmpty(iv: Interval, x: ExtReal)
    requires iv.lower == iv.upper && !(iv.leftClosed && iv.rightClosed)
    ensures !iv.Contains(x)
  {
    ContainsIff(iv, x);
  }

  /** Only real numbers can be members, each as the number it compares as. */
  lemma ContainsValueIff(iv: Interval, v: Value)
    ensures iv.ContainsValue(v) <==> IsInstance(v, RealType) && iv.Contains(AsReal(v).value)
  {
  }

  // __contains__ as written

  /** `isinstance(value)` called with one argument: Python raises TypeError
      before looking at the value. */
  function IsInstanceOneArgument(v: Value): Result<bool, ErrorKind> {
    Err(TypeError)
  }

  /** `Interval.__contains__` as the code stands: the guard raises, so the
      comparisons are never reached. */
  function ContainsAsWritten(iv: Interval, v: Value): (r: Result<bool, ErrorKind>)
    ensures r.Err? && r.error == TypeError
  {
    match IsInstanceOneArgument(v)
    case Err(e) => Err(e)
    case Ok(isReal) => if !isReal then Ok(false) else Ok(iv.ContainsValue(v))
  }

  /** Every member of an interval, as the comparisons decide it, is met with
      TypeError by the code as written. */
  lemma ContainsAsWrittenRaises(iv: Interval, x: int)
    requires iv.Contains(Fin(x as real))
    ensures iv.ContainsValue(VInt(x)) && ContainsAsWritten(iv, VInt(x)) == Err(TypeError)
  {
  }

  /** `0 in Interval("[0,1]")` (and `"[0,1)"`) is True by the intended check
      and raises TypeError as written; with `(` it is False by the intended
      check. */
  lemma {:induction false} ZeroInUnitInterval(s: string, l: char, r: char)
    requires IsLeftBracket(l) && IsRightBracket(r)
    requires s == [l, '0', ',', '1', r]
    ensures Parse(VStr(s)).Ok?
    ensures Parse(VStr(s)).value.ContainsValue(VInt(0)) <==> l == '['
    ensures ContainsAsWritten(Parse(VStr(s)).value, VInt(0)) == Err(TypeError)
  {
    ParseUnitInterval(s, l, r);
    var iv := Interval(Fin(0.0), Fin(1.0), l == '[', r == ']');
    assert AsReal(VInt(0)) == Some(Fin(0.0));
    assert iv.ContainsValue(VInt(0)) == iv.Contains(Fin(0.0));
    ContainsIff(iv, Fin(0.0));
  }

  // examples

  lemma ParseNumberOfDigit(d: string)
    requires |d| == 1 && IsDigit(d[0])
    ensures ParseNumber(d) == Ok(Fin((d[0] as int - '0' as int) as real))
  {
    ParseNumberIsFloat(d);
    PyFloatOfDigits(d);
    assert d[..0] == [];
  }

  /** The unit interval with any pair of brackets. */
  lemma {:induction false} ParseUnitInterval(s: string, l: char, r: char)
    requires IsLeftBracket(l) && IsRightBracket(r)
    requires s == [l, '0', ',', '1', r]
    ensures Parse(VStr(s)) == Ok(Interval(Fin(0.0), Fin(1.0), l == '[', r == ']'))
  {
    ShapedOfFive(s, l, '0', '1', r);
    assert [s[1]] == "0" && [s[3]] == "1";
    ParseNumberOfDigit("0");
    ParseNumberOfDigit("1");
    ParseOfShape(s, [], l, "0", "1", r, []);
  }

  /** Text without a comma never matches. */
  lemma ExtractNeedsComma(s: string)
    requires ',' !in s
    ensures ExtractPatternComponents(VStr(s)) == Err(ValueError)
  {
    var t := Strip(s);
    var w1, w2 := StripSplit(s);
    assert t == s[|w1|..|w1| + |t|];
    if |t| >= 2 {
      assert ',' !in t[1..|t| - 1];
    }
  }

  /** Text whose stripped form does not start with `(` or `[` and end with
      `)` or `]` never matches. */
  lemma ExtractNeedsBrackets(s: string)
    requires var t := Strip(s); |t| < 2 || !IsLeftBracket(t[0]) || !IsRightBracket(t[|t| - 1])
    ensures ExtractPatternComponents(VStr(s)) == Err(ValueError)
  {
  }

  /** Text with nothing between the left bracket and the comma never
      matches. */
  lemma ExtractNeedsLowerText(w1: string, l: char, rest: string)
    requires AllSpace(w1) && IsLeftBracket(l)
    ensures ExtractPatternComponents(VStr(w1 + [l, ','] + rest)) == Err(ValueError)
  {
    var m := [l, ','] + rest;
    assert w1 + [l, ','] + rest == w1 + m + [];
    LStripFramed(w1, m, []);
    assert m + [] == m;
    var t := RStrip(m);
    var w := RStripSplit(m);
    if |t| >= 3 {
      var inner := t[1..|t| - 1];
      assert inner[0] == m[1] == ',';
      assert IndexOf(inner, ',') == 0;
    }
  }

  /** Definitions the tests list as malformed for their brackets: `""`,
      `"1,2"`, `"[1,2"` and `"1,2]"` raise ValueError.
      The definitions are parameters fixed by `requires` rather than literals
      in the contract, which keeps the verifier from unfolding the string
      functions on them eagerly. */
  lemma {:induction false} MissingBracketExamples(s1: string, s2: string, s3: string, s4: string)
    requires s1 == [] && s2 == ['1', ',', '2'] && s3 == ['[', '1', ',', '2'] && s4 == ['1', ',', '2', ']']
    ensures ExtractPatternComponents(VStr(s1)) == Err(ValueError)
    ensures ExtractPatternComponents(VStr(s2)) == Err(ValueError)
    ensures ExtractPatternComponents(VStr(s3)) == Err(ValueError)
    ensures ExtractPatternComponents(VStr(s4)) == Err(ValueError)
  {
    ExtractNeedsBrackets(s1);
    UnpaddedBracketCheck(s2);
    UnpaddedBracketCheck(s3);
    UnpaddedBracketCheck(s4);
  }

  lemma UnpaddedBracketCheck(s: string)
    requires |s| >= 2 && !IsSpace(s[0]) && !IsSpace(s[|s| - 1])
    requires !IsLeftBracket(s[0]) || !IsRightBracket(s[|s| - 1])
    ensures ExtractPatternComponents(VStr(s)) == Err(ValueError)
  {
    StripFramed([], s, []);
    assert [] + s + [] == s;
    ExtractNeedsBrackets(s);
  }

  /** `"[1 2]"` (no comma) and `"[,]"` (no lower bound) raise ValueError.
      The definitions are parameters fixed by `requires` rather than literals
      in the contract, which keeps the verifier from unfolding the string
      functions on them eagerly. */
  lemma {:induction false} MissingPartExamples(s5: string, s6: string)
    requires s5 == ['[', '1', ' ', '2', ']'] && s6 == ['[', ',', ']']
    ensures ExtractPatternComponents(VStr(s5)) == Err(ValueError)
    ensures ExtractPatternComponents(VStr(s6)) == Err(ValueError)
  {
    ExtractNeedsComma(s5);
    assert s6 == [] + ['[', ','] + [']'];
    ExtractNeedsLowerText([], '[', [']']);
  }

  /** A five-character definition: two brackets around two one-character
      bound texts and the comma. */
  lemma ShapedOfFive(s: string, l: char, a: char, b: char, r: char)
    requires IsLeftBracket(l) && IsRightBracket(r) && a != ',' && b != ',' && b != ']'
    requires s == [l, a, ',', b, r]
    ensures Shaped(s, [], l, [a], [b], r, [])
  {
    assert s == [] + [l] + [a] + [','] + [b] + [r] + [];
  }

  /** Single-digit bounds in the wrong order, such as `"[1,0]"` and
      `"(5,2)"`, are rejected with ValueError. */
  lemma {:induction false} ReversedDigitsRejected(s: string, l: char, a: char, b: char, r: char)
    requires IsLeftBracket(l) && IsRightBracket(r) && IsDigit(a) && IsDigit(b) && a > b
    requires s == [l, a, ',', b, r]
    ensures Parse(VStr(s)) == Err(ValueError)
  {
    ShapedOfFive(s, l, a, b, r);
    ParseNumberOfDigit([a]);
    ParseNumberOfDigit([b]);
    var lo, hi := Fin((a as int - '0' as int) as real), Fin((b as int - '0' as int) as real);
    assert ParseNumber([a]) == Ok(lo) && ParseNumber([b]) == Ok(hi);
    assert Lt(hi, lo);
    ParseOfShape(s, [], l, [a], [b], r, []);
  }

  /** A bound that is a single lower-case letter, such as the `a` of
      `"[a,b]"`, is not a number. */
  lemma ParseNumberRejectsLetter(c: char)
    requires 'a' <= c <= 'z'
    ensures ParseNumber([c]) == Err(ValueError)
  {
    StripFramed([], [c], []);
    assert [] + [c] + [] == [c];
    assert Lower([c]) == [c];
    FloatStripPlain([c]);
    assert [c] != "inf" && [c] != "infinity";
  }

  lemma {:induction false} LetterBoundsRejected(s: string, l: char, a: char, b: char, r: char)
    requires IsLeftBracket(l) && IsRightBracket(r)
    requires 'a' <= a <= 'z' && 'a' <= b <= 'z'
    requires s == [l, a, ',', b, r]
    ensures Parse(VStr(s)) == Err(ValueError)
  {
    ShapedOfFive(s, l, a, b, r);
    ParseNumberRejectsLetter(a);
    ParseOfShape(s, [], l, [a], [b], r, []);
  }

  /** Membership in the unit interval with either kind of bracket at each
      end, as the tests tabulate it. */
  lemma UnitIntervalMembership(lc: bool, rc: bool)
    ensures var iv := Interval(Fin(0.0), Fin(1.0), lc, rc);
            && (iv.Contains(Fin(0.0)) <==> lc) && (iv.Contains(Fin(1.0)) <==> rc)
            && iv.Contains(Fin(0.5)) && !iv.Contains(Fin(-0.1)) && !iv.Contains(Fin(1.1))
  {
  }
}
