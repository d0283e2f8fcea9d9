/**
  The number syntax the parser's patterns accept, `\d+(\.\d+)?`, and the values
  `parseInt` and `Number` give it, taken as exact integers and decimals.
  Positions are indices into the line, so that no pattern needs to cut it up.
*/
module Numbers {
  import opened Wrappers
  import opened Text

  /** `\d` without the `u` flag: an ASCII digit. */
  predicate IsDigit(c: char) {
    '0' <= c <= '9'
  }

  /** Every character of `s[a..b]` is a digit. */
  predicate DigitsIn(s: string, a: nat, b: nat)
    requires a <= b <= |s|
  {
    forall k | a <= k < b :: IsDigit(s[k])
  }

  /** The first index at or after `a` that does not hold a digit (what a greedy `\d+` at `a` reaches). */
  function SkipDigits(s: string, a: nat): (b: nat)
    requires a <= |s|
    ensures a <= b <= |s| && DigitsIn(s, a, b)
    ensures b < |s| ==> !IsDigit(s[b])
    decreases |s| - a
  {
    if a < |s| && IsDigit(s[a]) then SkipDigits(s, a + 1) else a
  }

  /** `s[a..b]` is exactly one token `\d+(\.\d+)?`. */
  predicate IsDecimalAt(s: string, a: nat, b: nat)
    requires a <= b <= |s|
  {
    var d := SkipDigits(s, a);
    a < d && (d == b || (d < b && s[d] == '.' && d + 1 < b && DigitsIn(s, d + 1, b)))
  }

  /** The end of the token `\d+(\.\d+)?` that a greedy match takes at `a`; `a` itself if there is none. */
  function DecimalEnd(s: string, a: nat): (b: nat)
    requires a <= |s|
    ensures a <= b <= |s|
    ensures b > a ==> IsDecimalAt(s, a, b)
  {
    var d := SkipDigits(s, a);
    if d == a then a
    else if d + 1 < |s| && s[d] == '.' && IsDigit(s[d + 1]) then SkipDigits(s, d + 1)
    else d
  }

  /** A token followed by white space or the end of the line is taken whole by the greedy match. */
  lemma DecimalEndExact(s: string, a: nat, b: nat)
    requires a <= b <= |s| && IsDecimalAt(s, a, b)
    requires b < |s| ==> IsSpace(s[b])
    ensures DecimalEnd(s, a) == b
  {
    var d := SkipDigits(s, a);
    if d < b {
      assert IsDigit(s[d + 1]);
      assert SkipDigits(s, d + 1) == b;
    }
  }

  function DigitValue(c: char): nat
    requires IsDigit(c)
  {
    c as int - '0' as int
  }

  function Pow10(n: nat): (p: nat)
    ensures p >= 1
  {
    if n == 0 then 1 else 10 * Pow10(n - 1)
  }

  /** `parseInt` of the digits `s[a..b]`. */
  function DigitsValue(s: string, a: nat, b: nat): (v: nat)
    requires a <= b <= |s| && DigitsIn(s, a, b)
    ensures v < Pow10(b - a)
    decreases b - a
  {
    if a == b then 0
    else
      var v := DigitsValue(s, a, b - 1) * 10 + DigitValue(s[b - 1]);
      assert Pow10(b - a) == Pow10(b - 1 - a) * 10;
      v
  }

  /** The fraction `0.<s[a..b]>`, read digit by digit from the left. */
  function Fraction(s: string, a: nat, b: nat): (f: real)
    requires a <= b <= |s| && DigitsIn(s, a, b)
    ensures 0.0 <= f < 1.0
    decreases b - a
  {
    if a == b then 0.0 else (DigitValue(s[a]) as real + Fraction(s, a + 1, b)) / 10.0
  }

  /** `Number` of the token `s[a..b]`, exactly: its whole part plus a fraction below one. */
  function DecimalValue(s: string, a: nat, b: nat): (v: real)
    requires a <= b <= |s| && IsDecimalAt(s, a, b)
    ensures var d := SkipDigits(s, a); DigitsValue(s, a, d) as real <= v < DigitsValue(s, a, d) as real + 1.0
  {
    var d := SkipDigits(s, a);
    DigitsValue(s, a, d) as real + if d == b then 0.0 else Fraction(s, d + 1, b)
  }

  /**
    `s[a..]` splits as white space, `sep` at `i`, white space, a number token
    `s[j..k]` and white space to the end: `\s*<sep>\s*(\d+(\.\d+)?)\s*$`.
  */
  predicate NumberShape(s: string, a: nat, sep: char, i: nat, j: nat, k: nat) {
    a <= i < |s| && SpacesIn(s, a, i) && s[i] == sep && TokenShape(s, i + 1, j, k)
  }

  /** `s[j0..]` splits as white space, a number token `s[j..k]` and white space to the end. */
  predicate TokenShape(s: string, j0: nat, j: nat, k: nat) {
    j0 <= j < k <= |s| && SpacesIn(s, j0, j) && IsDecimalAt(s, j, k) && SpacesIn(s, k, |s|)
  }

  /**
    Where the number token of a tail `s[a..]` of that shape lies, or None when
    the tail does not have it: the greedy `\s*`, the separator, then the token.
  */
  function NumberSpan(s: string, a: nat, sep: char): (r: Option<(nat, nat)>)
    requires a <= |s| && !IsSpace(sep)
    ensures r.Some? ==> r.value.0 < r.value.1 <= |s| && IsDecimalAt(s, r.value.0, r.value.1)
    decreases |s| - a
  {
    if a < |s| && IsSpace(s[a]) then NumberSpan(s, a + 1, sep)
    else if a < |s| && s[a] == sep then TokenSpan(s, a + 1)
    else None
  }

  /** `\s*(\d+(\.\d+)?)\s*$` on `s[j..]`: where the token lies, or None. */
  function TokenSpan(s: string, j: nat): (r: Option<(nat, nat)>)
    requires j <= |s|
    ensures r.Some? ==> r.value.0 < r.value.1 <= |s| && IsDecimalAt(s, r.value.0, r.value.1)
    decreases |s| - j
  {
    if j < |s| && IsSpace(s[j]) then TokenSpan(s, j + 1)
    else
      var k := DecimalEnd(s, j);
      if k > j && SpacesIn(s, k, |s|) then Some((j, k)) else None
  }

  /** The value of the number in a tail `s[a..]` of that shape, or None. */
  function NumberAfter(s: string, a: nat, sep: char): (r: Option<real>)
    requires a <= |s| && !IsSpace(sep)
    ensures r.Some? ==> r.value >= 0.0
  {
    match NumberSpan(s, a, sep)
    case Some(span) => Some(DecimalValue(s, span.0, span.1))
    case None => None
  }

  /** A recognised tail has the shape, around the token found. */
  lemma {:induction false} NumberSpanSound(s: string, a: nat, sep: char)
    requires a <= |s| && !IsSpace(sep) && NumberSpan(s, a, sep).Some?
    ensures exists i: nat :: NumberShape(s, a, sep, i, NumberSpan(s, a, sep).value.0, NumberSpan(s, a, sep).value.1)
    decreases |s| - a
  {
    var span := NumberSpan(s, a, sep).value;
    if IsSpace(s[a]) {
      NumberSpanSound(s, a + 1, sep);
      var i: nat :| NumberShape(s, a + 1, sep, i, span.0, span.1);
      assert NumberShape(s, a, sep, i, span.0, span.1);
    } else {
      TokenSpanSound(s, a + 1);
      assert NumberShape(s, a, sep, a, span.0, span.1);
    }
  }

  lemma {:induction false} TokenSpanSound(s: string, j0: nat)
    requires j0 <= |s| && TokenSpan(s, j0).Some?
    ensures TokenShape(s, j0, TokenSpan(s, j0).value.0, TokenSpan(s, j0).value.1)
    decreases |s| - j0
  {
    if j0 < |s| && IsSpace(s[j0]) {
      TokenSpanSound(s, j0 + 1);
    }
  }

  /** Every tail of that shape is recognised, with its token. */
  lemma {:induction false} NumberSpanExact(s: string, a: nat, sep: char, i: nat, j: nat, k: nat)
    requires !IsSpace(sep) && NumberShape(s, a, sep, i, j, k)
    ensures NumberSpan(s, a, sep) == Some((j, k))
    decreases i - a
  {
    if a < i {
      assert IsSpace(s[a]);
      NumberSpanExact(s, a + 1, sep, i, j, k);
    } else {
      TokenSpanExact(s, i + 1, j, k);
    }
  }

  lemma {:induction false} TokenSpanExact(s: string, j0: nat, j: nat, k: nat)
    requires TokenShape(s, j0, j, k)
    ensures TokenSpan(s, j0) == Some((j, k))
    decreases j - j0
  {
    if j0 < j {
      assert IsSpace(s[j0]);
      TokenSpanExact(s, j0 + 1, j, k);
    } else {
      assert SkipDigits(s, j) > j;
      assert !IsSpace(s[j]);
      DecimalEndExact(s, j, k);
    }
  }

  /** A tail of that shape for one separator is no tail for any other. */
  lemma {:induction false} NumberSpanOtherSep(s: string, a: nat, sep: char, other: char, i: nat, j: nat, k: nat)
    requires !IsSpace(sep) && !IsSpace(other) && other != sep && NumberShape(s, a, sep, i, j, k)
    ensures NumberSpan(s, a, other) == None
    decreases i - a
  {
    if a < i {
      assert IsSpace(s[a]);
      NumberSpanOtherSep(s, a + 1, sep, other, i, j, k);
    }
  }

  /** White space in front of a tail does not change what it reads. */
  lemma {:induction false} NumberSpanOver(s: string, a: nat, b: nat, sep: char)
    requires a <= b <= |s| && !IsSpace(sep) && SpacesIn(s, a, b)
    ensures NumberSpan(s, a, sep) == NumberSpan(s, b, sep)
    decreases b - a
  {
    if a < b {
      NumberSpanOver(s, a + 1, b, sep);
    }
  }

  /** Past its separator, a tail of that shape holds only white space, digits and one dot. */
  lemma NumberShapeChars(s: string, a: nat, sep: char, i: nat, j: nat, k: nat, p: nat)
    requires NumberShape(s, a, sep, i, j, k) && i < p < |s|
    ensures IsSpace(s[p]) || IsDigit(s[p]) || s[p] == '.'
  {
    if j <= p < k {
      var d := SkipDigits(s, j);
      assert p < d || p == d || p > d;
    }
  }

  /** `s[a..a + n]` and `t[c..c + n]` hold the same characters. */
  predicate SameRun(s: string, a: nat, t: string, c: nat, n: nat) {
    a + n <= |s| && c + n <= |t| && forall k | a <= k < a + n :: s[k] == t[c + (k - a)]
  }

  /** The digit scan reads only the characters it passes. */
  lemma {:induction false} SkipDigitsSuffix(s: string, a: nat, t: string, c: nat)
    requires a <= |s| && |t| - c == |s| - a && SameRun(s, a, t, c, |s| - a)
    ensures SkipDigits(s, a) - a == SkipDigits(t, c) - c
    decreases |s| - a
  {
    if a < |s| {
      assert s[a] == t[c];
      SkipDigitsSuffix(s, a + 1, t, c + 1);
    }
  }

  /** The value of a run of digits depends only on those digits. */
  lemma {:induction false} DigitsValueCopy(s: string, a: nat, b: nat, t: string, c: nat)
    requires a <= b <= |s| && SameRun(s, a, t, c, b - a) && DigitsIn(s, a, b)
    ensures DigitsIn(t, c, c + (b - a)) && DigitsValue(t, c, c + (b - a)) == DigitsValue(s, a, b)
    decreases b - a
  {
    assert DigitsIn(t, c, c + (b - a)) by {
      forall q | c <= q < c + (b - a) ensures IsDigit(t[q]) {
        assert s[a + (q - c)] == t[c + (a + (q - c) - a)];
      }
    }
    if a < b {
      DigitsValueCopy(s, a, b - 1, t, c);
      assert s[b - 1] == t[c + (b - 1 - a)];
    }
  }

  /** The fraction of a run of digits depends only on those digits. */
  lemma {:induction false} FractionCopy(s: string, a: nat, b: nat, t: string, c: nat)
    requires a <= b <= |s| && SameRun(s, a, t, c, b - a) && DigitsIn(s, a, b) && DigitsIn(t, c, c + (b - a))
    ensures Fraction(t, c, c + (b - a)) == Fraction(s, a, b)
    decreases b - a
  {
    if a < b {
      assert s[a] == t[c];
      FractionCopy(s, a + 1, b, t, c + 1);
    }
  }

  /** `Number` of a token is its whole part plus its fraction digits, if any. */
  lemma DecimalValueParts(s: string, a: nat, b: nat, d: nat)
    requires a <= b <= |s| && IsDecimalAt(s, a, b) && d == SkipDigits(s, a)
    ensures d == b ==> DecimalValue(s, a, b) == DigitsValue(s, a, d) as real
    ensures d < b ==> s[d] == '.' && DigitsIn(s, d + 1, b)
    ensures d < b ==> DecimalValue(s, a, b) == DigitsValue(s, a, d) as real + Fraction(s, d + 1, b)
  {
  }

  /** A number token running to the end of `s` is read the same from a copy of its characters. */
  lemma DecimalCopy(s: string, a: nat, t: string, c: nat)
    requires a <= |s| && |t| == c + (|s| - a) && SameRun(s, a, t, c, |s| - a) && IsDecimalAt(s, a, |s|)
    ensures IsDecimalAt(t, c, |t|) && DecimalValue(t, c, |t|) == DecimalValue(s, a, |s|)
  {
    SkipDigitsSuffix(s, a, t, c);
    var d := SkipDigits(s, a);
    var e := SkipDigits(t, c);
    assert DigitsValue(t, c, e) == DigitsValue(s, a, d) by {
      DigitsValueCopy(s, a, d, t, c);
    }
    DecimalValueParts(s, a, |s|, d);
    if d < |s| {
      assert t[e] == '.' && DigitsIn(t, e + 1, |t|) && Fraction(t, e + 1, |t|) == Fraction(s, d + 1, |s|) by {
        assert s[d] == t[e];
        DigitsValueCopy(s, d + 1, |s|, t, e + 1);
        FractionCopy(s, d + 1, |s|, t, e + 1);
      }
    }
    assert IsDecimalAt(t, c, |t|);
    DecimalValueParts(t, c, |t|, e);
  }
}
