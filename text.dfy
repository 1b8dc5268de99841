/** Character-level helpers shared by the coercion and the interval parser:
    Python's notion of whitespace, `str.strip()`, `str.lower()` on ASCII
    letters, `str.replace(" ", "")` and a first-occurrence search. */
module Text {

  /** `str.isspace()`: the characters that `str.strip()` and the
      regular-expression class `\s` treat as whitespace. `float()` skips
      fewer of them (`PyFloats.IsFloatSpace`). */
  predicate IsSpace(c: char) {
    var n := c as int;
    n == 0x20 || 0x09 <= n <= 0x0D || 0x1C <= n <= 0x1F || n == 0x85 || n == 0xA0
    || n == 0x1680 || 0x2000 <= n <= 0x200A || n == 0x2028 || n == 0x2029
    || n == 0x202F || n == 0x205F || n == 0x3000
  }

  predicate AllSpace(s: string) {
    forall i :: 0 <= i < |s| ==> IsSpace(s[i])
  }

  /** `str.lstrip()`: drops the leading whitespace. */
  function LStrip(s: string): string {
    if s == [] then []
    else if IsSpace(s[0]) then LStrip(s[1..])
    else s
  }

  /** `str.rstrip()`: drops the trailing whitespace. */
  function RStrip(s: string): string {
    if s == [] then []
    else if IsSpace(s[|s| - 1]) then RStrip(s[..|s| - 1])
    else s
  }

  /** `str.strip()`. */
  function Strip(s: string): string {
    RStrip(LStrip(s))
  }

  /** `LStrip(s)` is what follows a run of leading whitespace in `s`, and
      it does not itself start with whitespace. */
  lemma {:induction false} LStripSplit(s: string) returns (w: string)
    ensures s == w + LStrip(s) && AllSpace(w)
    ensures LStrip(s) == [] || !IsSpace(LStrip(s)[0])
  {
    if s != [] && IsSpace(s[0]) {
      var w' := LStripSplit(s[1..]);
      var c := s[0];
      w := [c] + w';
      assert s == [c] + s[1..];
      Regroup3([c], w', LStrip(s[1..]));
      assert LStrip(s) == LStrip(s[1..]);
      assert AllSpace(w) by {
        forall i | 0 <= i < |w|
          ensures IsSpace(w[i])
        {
          if i > 0 {
            assert w[i] == w'[i - 1];
          }
        }
      }
    } else {
      w := [];
      assert s == [] + s;
    }
  }

  /** `RStrip(s)` is what precedes a run of trailing whitespace in `s`, and
      it does not itself end with whitespace. */
  lemma {:induction false} RStripSplit(s: string) returns (w: string)
    ensures s == RStrip(s) + w && AllSpace(w)
    ensures RStrip(s) == [] || !IsSpace(RStrip(s)[|RStrip(s)| - 1])
  {
    if s == [] {
      w := [];
    } else if IsSpace(s[|s| - 1]) {
      var c := s[|s| - 1];
      var s' := s[..|s| - 1];
      var w' := RStripSplit(s');
      var r := RStrip(s');
      assert RStrip(s) == r;
      w := w' + [c];
      SpaceAppend(w', c);
      assert s == s' + [c];
      Regroup3(r, w', [c]);
    } else {
      w := [];
      assert RStrip(s) == s;
      assert s == s + [];
    }
  }

  lemma SpaceAppend(w: string, c: char)
    requires AllSpace(w) && IsSpace(c)
    ensures AllSpace(w + [c])
  {
  }

  lemma LStripEmptyOnlyForSpace(s: string)
    ensures LStrip(s) == [] <==> AllSpace(s)
  {
    var w := LStripSplit(s);
    if LStrip(s) == [] {
      assert s == w + [];
    }
    if AllSpace(s) {
      LStripSkipsSpace(s, []);
      assert s + [] == s;
    }
  }

  /** Whitespace in front of a text does not change what `LStrip` keeps. */
  lemma {:induction false} LStripSkipsSpace(w: string, t: string)
    requires AllSpace(w)
    ensures LStrip(w + t) == LStrip(t)
  {
    if w != [] {
      assert (w + t)[0] == w[0] && IsSpace(w[0]);
      assert (w + t)[1..] == w[1..] + t;
      assert LStrip(w + t) == LStrip(w[1..] + t);
      LStripSkipsSpace(w[1..], t);
    } else {
      assert w + t == t;
    }
  }

  /** Whitespace after a text does not change what `RStrip` keeps. */
  lemma {:induction false} RStripSkipsSpace(t: string, w: string)
    requires AllSpace(w)
    ensures RStrip(t + w) == RStrip(t)
  {
    if w == [] {
      assert t + w == t;
    } else {
      var w' := w[..|w| - 1];
      assert (t + w)[|t + w| - 1] == w[|w| - 1] && IsSpace(w[|w| - 1]);
      assert (t + w)[..|t + w| - 1] == t + w';
      RStripSkipsSpace(t, w');
    }
  }

  lemma {:induction false} LStripFramed(w1: string, m: string, w2: string)
    requires AllSpace(w1)
    requires m != [] && !IsSpace(m[0])
    ensures LStrip(w1 + m + w2) == m + w2
  {
    var mw := m + w2;
    assert w1 + m + w2 == w1 + mw;
    LStripSkipsSpace(w1, mw);
    assert mw[0] == m[0];
    assert LStrip(mw) == mw;
  }

  lemma {:induction false} RStripFramed(m: string, w2: string)
    requires AllSpace(w2)
    requires m != [] && !IsSpace(m[|m| - 1])
    ensures RStrip(m + w2) == m
  {
    RStripSkipsSpace(m, w2);
    assert RStrip(m) == m;
  }

  /** Stripping removes exactly the whitespace around a text whose first and
      last characters are not whitespace. */
  lemma {:induction false} StripFramed(w1: string, m: string, w2: string)
    requires AllSpace(w1) && AllSpace(w2)
    requires m != [] && !IsSpace(m[0]) && !IsSpace(m[|m| - 1])
    ensures Strip(w1 + m + w2) == m
  {
    LStripFramed(w1, m, w2);
    RStripFramed(m, w2);
  }

  /** Every text is its stripped core between two runs of whitespace, and
      the core neither starts nor ends with whitespace. */
  lemma {:induction false} StripSplit(s: string) returns (w1: string, w2: string)
    ensures s == w1 + Strip(s) + w2 && AllSpace(w1) && AllSpace(w2)
    ensures var t := Strip(s);
            t == [] || (!IsSpace(t[0]) && !IsSpace(t[|t| - 1]))
  {
    var ls := LStrip(s);
    var t := RStrip(ls);
    w1 := LStripSplit(s);
    w2 := RStripSplit(ls);
    Regroup3(w1, t, w2);
    if t != [] {
      assert ls[0] == t[0];
    }
  }

  lemma Regroup3(a: string, b: string, c: string)
    ensures a + (b + c) == a + b + c
  {
  }

  lemma {:induction false} StripOfLStrip(s: string)
    ensures Strip(LStrip(s)) == Strip(s)
  {
    var r := LStrip(s);
    var w := LStripSplit(s);
    assert LStrip(r) == r;
  }

  lemma {:induction false} StripIdempotent(s: string)
    ensures Strip(Strip(s)) == Strip(s)
  {
    var r := Strip(s);
    var w1, w2 := StripSplit(s);
    if r != [] {
      StripFramed([], r, []);
      assert [] + r + [] == r;
    }
  }

  /** A text made only of whitespace strips to nothing. */
  lemma {:induction false} StripAllSpace(w: string)
    requires AllSpace(w)
    ensures Strip(w) == []
  {
    LStripSkipsSpace(w, []);
    assert w + [] == w;
  }

  /** `str.lower()` on one character; only ASCII letters are modelled. */
  function LowerChar(c: char): char {
    if 'A' <= c <= 'Z' then (c as int + 32) as char else c
  }

  function Lower(s: string): string {
    seq(|s|, i requires 0 <= i < |s| => LowerChar(s[i]))
  }

  /** Lowering never turns whitespace into non-whitespace or back. */
  lemma LowerCharKeepsSpace(c: char)
    ensures IsSpace(LowerChar(c)) <==> IsSpace(c)
  {
  }

  lemma LowerSlice(s: string, i: nat, j: nat)
    requires i <= j <= |s|
    ensures Lower(s[i..j]) == Lower(s)[i..j]
  {
  }

  lemma {:induction false} LowerLStrip(s: string)
    ensures Lower(LStrip(s)) == LStrip(Lower(s))
  {
    if s != [] {
      var ls := Lower(s);
      LowerCharKeepsSpace(s[0]);
      assert ls[0] == LowerChar(s[0]);
      if IsSpace(s[0]) {
        LowerSlice(s, 1, |s|);
        assert ls[1..] == Lower(s[1..]);
        LowerLStrip(s[1..]);
        assert LStrip(s) == LStrip(s[1..]);
        assert LStrip(ls) == LStrip(ls[1..]);
      } else {
        assert LStrip(ls) == ls;
      }
    }
  }

  lemma {:induction false} LowerRStrip(s: string)
    ensures Lower(RStrip(s)) == RStrip(Lower(s))
  {
    if s != [] {
      var ls := Lower(s);
      LowerCharKeepsSpace(s[|s| - 1]);
      assert ls[|s| - 1] == LowerChar(s[|s| - 1]);
      if IsSpace(s[|s| - 1]) {
        LowerSlice(s, 0, |s| - 1);
        assert ls[..|s| - 1] == Lower(s[..|s| - 1]);
        LowerRStrip(s[..|s| - 1]);
        assert RStrip(s) == RStrip(s[..|s| - 1]);
        assert RStrip(ls) == RStrip(ls[..|s| - 1]);
      } else {
        assert RStrip(ls) == ls;
      }
    }
  }

  /** `s.strip().lower() == s.lower().strip()`. */
  lemma LowerStrip(s: string)
    ensures Lower(Strip(s)) == Strip(Lower(s))
  {
    LowerLStrip(s);
    LowerRStrip(LStrip(s));
  }

  lemma LowerIdempotent(s: string)
    ensures Lower(Lower(s)) == Lower(s)
  {
  }

  /** `str.replace(" ", "")`: removes every blank, and only blanks. */
  function RemoveBlanks(s: string): (r: string)
    ensures ' ' !in r
    ensures |r| <= |s|
    ensures ' ' !in s ==> r == s
  {
    if s == [] then []
    else (if s[0] == ' ' then [] else [s[0]]) + RemoveBlanks(s[1..])
  }

  /** Blanks are removed piece by piece. */
  lemma {:induction false} RemoveBlanksAppend(a: string, b: string)
    ensures RemoveBlanks(a + b) == RemoveBlanks(a) + RemoveBlanks(b)
  {
    if a == [] {
      assert a + b == b;
    } else {
      assert (a + b)[0] == a[0] && (a + b)[1..] == a[1..] + b;
      RemoveBlanksAppend(a[1..], b);
    }
  }

  /** Text made only of the blank `' '`. */
  predicate AllBlank(w: string) {
    forall i :: 0 <= i < |w| ==> w[i] == ' '
  }

  lemma {:induction false} RemoveBlanksOfBlanks(w: string)
    requires AllBlank(w)
    ensures RemoveBlanks(w) == []
  {
    if w != [] {
      RemoveBlanksOfBlanks(w[1..]);
    }
  }

  /** The index of the first `c` in `s`, or `|s|` when there is none. */
  function IndexOf(s: string, c: char): (k: nat)
    ensures k <= |s|
    ensures k < |s| ==> s[k] == c
    ensures c !in s[..k]
  {
    if s == [] then 0
    else if s[0] == c then 0
    else 1 + IndexOf(s[1..], c)
  }

  lemma IndexOfAfter(x: string, c: char, y: string)
    requires c !in x
    ensures IndexOf(x + [c] + y, c) == |x|
  {
    var s := x + [c] + y;
    assert s[|x|] == c;
    assert s[..|x|] == x;
  }
}
