/**
  The total reconciler: `extractTotalNumber` (api/whatsapp-webhook.js:29-38),
  `round2` (75-77) and `sumLineTotals` (79-81). Numbers are exact reals, so
  `round2` is rounding to the nearest cent with halves going up, as
  `Math.round` does.
*/
module Totals {
  import opened Wrappers
  import opened Text
  import opened Numbers
  import opened Items

  /** A whole number of cents. */
  predicate IsCents(x: real) {
    (x * 100.0).Floor as real == x * 100.0
  }

  /** `Math.round(n * 100) / 100`: the nearest cent, halves rounded up. */
  function Round2(x: real): (r: real)
    ensures IsCents(r)
    ensures x - 0.005 < r <= x + 0.005
  {
    var n := (x * 100.0 + 0.5).Floor;
    assert (n as real / 100.0) * 100.0 == n as real;
    n as real / 100.0
  }

  /** A whole number of cents is left as it is. */
  lemma Round2Cents(x: real)
    requires IsCents(x)
    ensures Round2(x) == x
  {
    var c := (x * 100.0).Floor;
    assert (x * 100.0 + 0.5).Floor == c;
  }

  /** Rounding twice is rounding once, so the repeated `round2` calls change nothing. */
  lemma Round2Idempotent(x: real)
    ensures Round2(Round2(x)) == Round2(x)
  {
    Round2Cents(Round2(x));
  }

  /** Halves go up, also below zero: `Math.round(-12.5)` is `-12`. */
  lemma Round2Halves(x: real, y: real)
    requires x == 0.125 && y == -0.125
    ensures Round2(x) == 0.13 && Round2(y) == -0.12
  {
    assert (x * 100.0 + 0.5).Floor == 13;
    assert (y * 100.0 + 0.5).Floor == -12;
  }

  /** `items.reduce((acc, it) => acc + it.line_total, 0)`, left to right. */
  function Sum(items: seq<LineItem>): (r: real)
    ensures (forall i | 0 <= i < |items| :: items[i].lineTotal >= 0.0) ==> r >= 0.0
  {
    if items == [] then 0.0 else Sum(items[..|items| - 1]) + items[|items| - 1].lineTotal
  }

  /** The sum of a concatenation is the sum of the sums. */
  lemma {:induction false} SumAppend(a: seq<LineItem>, b: seq<LineItem>)
    ensures Sum(a + b) == Sum(a) + Sum(b)
    decreases |b|
  {
    if b != [] {
      var c := b[..|b| - 1];
      assert (a + b)[..|a + b| - 1] == a + c;
      assert (a + b)[|a + b| - 1] == b[|b| - 1];
      SumAppend(a, c);
      calc {
        Sum(a + b);
        Sum(a + c) + b[|b| - 1].lineTotal;
        Sum(a) + Sum(c) + b[|b| - 1].lineTotal;
        Sum(a) + Sum(b);
      }
    } else {
      assert a + b == a;
    }
  }

  /** The sum depends on the line totals only: quantities are not multiplied in. */
  lemma {:induction false} SumOfLineTotals(a: seq<LineItem>, b: seq<LineItem>)
    requires |a| == |b| && forall i | 0 <= i < |a| :: a[i].lineTotal == b[i].lineTotal
    ensures Sum(a) == Sum(b)
    decreases |a|
  {
    if a != [] {
      SumOfLineTotals(a[..|a| - 1], b[..|b| - 1]);
    }
  }

  /** `sumLineTotals`: the sum rounded to cents; 0 for no items. */
  function SumLineTotals(items: seq<LineItem>): (r: real)
    ensures IsCents(r) && Sum(items) - 0.005 < r <= Sum(items) + 0.005
    ensures items == [] ==> r == 0.0
  {
    if items == [] then
      assert Round2(0.0) == 0.0 by { Round2Cents(0.0); }
      Round2(0.0)
    else Round2(Sum(items))
  }

  /** `^total\s*<sep>\s*(\d+(\.\d+)?)\s*$` with the `i` flag: what `line.match` captures, as a number. */
  function TotalMatch(line: string, sep: char): (r: Option<real>)
    requires !IsSpace(sep)
    ensures r.Some? ==> r.value >= 0.0 && MatchesAt(line, 0, "total")
  {
    if MatchesAt(line, 0, "total") then NumberAfter(line, 5, sep) else None
  }

  /** The number a line states as the total: the `-` form first, then the `=` form. */
  function TotalIn(line: string): (r: Option<real>)
    ensures r.Some? ==> r.value >= 0.0 && MatchesAt(line, 0, "total")
  {
    match TotalMatch(line, '-')
    case Some(v) => Some(v)
    case None => TotalMatch(line, '=')
  }

  /** A total line: `total`, white space, `sep` at `i`, white space, the number `line[j..k]`, white space. */
  predicate TotalShape(line: string, sep: char, i: nat, j: nat, k: nat) {
    (sep == '-' || sep == '=') && MatchesAt(line, 0, "total") && NumberShape(line, 5, sep, i, j, k)
  }

  /** Only a line of that shape states a total, and the total is its number. */
  lemma TotalInSound(line: string)
    requires TotalIn(line).Some?
    ensures exists sep: char, i: nat, j: nat, k: nat ::
      TotalShape(line, sep, i, j, k) && TotalIn(line).value == DecimalValue(line, j, k)
  {
    var sep := if TotalMatch(line, '-').Some? then '-' else '=';
    var span := NumberSpan(line, 5, sep).value;
    NumberSpanSound(line, 5, sep);
    var i: nat :| NumberShape(line, 5, sep, i, span.0, span.1);
    assert TotalShape(line, sep, i, span.0, span.1);
  }

  /** Every line of that shape states its number, whichever separator it uses. */
  lemma TotalInExact(line: string, sep: char, i: nat, j: nat, k: nat)
    requires TotalShape(line, sep, i, j, k)
    ensures TotalIn(line) == Some(DecimalValue(line, j, k))
  {
    NumberSpanExact(line, 5, sep, i, j, k);
    if sep == '=' {
      NumberSpanOtherSep(line, 5, sep, '-', i, j, k);
    }
  }

  /** The index of the first line at or after `from` that states a total; `|lines|` if none does. */
  function FirstTotalLine(lines: seq<string>, from: nat): (n: nat)
    requires from <= |lines|
    ensures from <= n <= |lines|
    ensures forall k | from <= k < n :: TotalIn(lines[k]).None?
    ensures n < |lines| ==> TotalIn(lines[n]).Some?
    decreases |lines| - from
  {
    if from == |lines| || TotalIn(lines[from]).Some? then from else FirstTotalLine(lines, from + 1)
  }

  /** The total of the first line that states one, or None when none does. */
  function FirstTotal(lines: seq<string>): (r: Option<real>)
    ensures r.Some? ==> r.value >= 0.0
  {
    var n := FirstTotalLine(lines, 0);
    if n < |lines| then TotalIn(lines[n]) else None
  }

  /** The total is None exactly when no line states one, and otherwise that of a first such line. */
  lemma FirstTotalFirst(lines: seq<string>)
    ensures FirstTotal(lines).None? <==> forall i | 0 <= i < |lines| :: TotalIn(lines[i]).None?
    ensures FirstTotal(lines).Some? ==> exists i | 0 <= i < |lines| ::
      FirstTotal(lines) == TotalIn(lines[i]) && forall k | 0 <= k < i :: TotalIn(lines[k]).None?
  {
  }

  /** `extractTotalNumber` (api/whatsapp-webhook.js:29-38). */
  method ExtractTotalNumber(text: string) returns (r: Option<real>)
    ensures r == FirstTotal(Lines(text))
  {
    var lines := Lines(text);
    var i := 0;
    while i < |lines|
      invariant 0 <= i <= |lines|
      invariant FirstTotalLine(lines, i) == FirstTotalLine(lines, 0)
    {
      var line := lines[i];
      var m := TotalMatch(line, '-');
      if m.Some? {
        assert TotalIn(lines[i]) == m;
        assert FirstTotalLine(lines, i) == i;
        return m;
      }
      m := TotalMatch(line, '=');
      if m.Some? {
        assert TotalIn(lines[i]) == m;
        assert FirstTotalLine(lines, i) == i;
        return m;
      }
      assert TotalIn(lines[i]).None?;
      assert FirstTotalLine(lines, i) == FirstTotalLine(lines, i + 1);
      i := i + 1;
    }
    return None;
  }

  /** A colon is not a separator: `Total: 25` states no total. */
  lemma ColonIsNoSeparator(line: string)
    requires line == "Total: 25"
    ensures TotalIn(line) == None
  {
    assert NumberSpan(line, 5, '-') == None;
    assert NumberSpan(line, 5, '=') == None;
  }

  /** The number must run to the end of the line: `Total - 25 AED` states no total. */
  lemma TrailingUnitIsNoTotal(line: string)
    requires line == "Total - 25 AED"
    ensures TotalIn(line) == None
  {
    assert DecimalEnd(line, 8) == 10 by {
      assert SkipDigits(line, 10) == 10;
      assert SkipDigits(line, 9) == 10;
    }
    assert !SpacesIn(line, 10, |line|) by {
      assert !IsSpace(line[11]);
    }
    assert TokenSpan(line, 8) == None;
    assert NumberSpan(line, 5, '-') == None;
    assert NumberSpan(line, 6, '=') == None;
    assert NumberSpan(line, 5, '=') == None;
  }

  /** Either separator, any case and any spacing: `TOTAL=7.50` states 7.5. */
  lemma EqualsForm(line: string)
    requires line == "TOTAL=7.50"
    ensures TotalIn(line) == Some(7.5)
  {
    assert SkipDigits(line, 6) == 7 by {
      assert SkipDigits(line, 7) == 7;
    }
    assert TotalShape(line, '=', 5, 6, 10) by {
      assert MatchesAt(line, 4, "l");
      assert MatchesAt(line, 3, "al");
      assert MatchesAt(line, 2, "tal");
      assert MatchesAt(line, 1, "otal");
      assert MatchesAt(line, 0, "total");
      assert SkipDigits(line, 10) == 10;
      assert SkipDigits(line, 9) == 10;
      assert SkipDigits(line, 8) == 10;
    }
    TotalInExact(line, '=', 5, 6, 10);
    assert DecimalValue(line, 6, 10) == 7.5 by {
      assert DigitsValue(line, 6, 7) == 7;
      assert Fraction(line, 9, 10) == 0.0;
      assert Fraction(line, 8, 10) == 0.5;
    }
  }
}
