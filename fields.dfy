/**
  The label extractors: `extractCustomerName` reads the first line only, and
  `extractAfterDash` returns the value of the first `<Label> - value` line.

  Every line these see is normalised, so it holds neither `\n` nor `\r`; there
  the pattern `\s*(.+)` followed by `\s*$` or `$` matches exactly the non-empty
  remainders, and trimming its capture gives the trimmed remainder.
*/
module Fields {
  import opened Wrappers
  import opened Text

  /** `^order\s*summary\s*-\s*(.+)$` with the `i` flag: the line splits at `i` and `j` like this. */
  predicate NameShape(line: string, i: nat, j: nat) {
    5 <= i && i + 7 <= j && j + 1 < |line|
    && MatchesAt(line, 0, "order") && SpacesIn(line, 5, i)
    && MatchesAt(line, i, "summary") && SpacesIn(line, i + 7, j)
    && line[j] == '-'
  }

  /** The remainder after the dash, when the line matches. */
  function NameRest(line: string): (r: Option<string>)
    ensures r.Some? ==> r.value != [] && 13 + |r.value| <= |line| && r.value == line[|line| - |r.value|..]
  {
    if MatchesAt(line, 0, "order") then
      var i := SkipSpaces(line, 5);
      if MatchesAt(line, i, "summary") then
        var j := SkipSpaces(line, i + 7);
        if j + 1 < |line| && line[j] == '-' then Some(line[j + 1..]) else None
      else None
    else None
  }

  /** Only lines of that shape are recognised. */
  lemma NameRestSound(line: string)
    requires NameRest(line).Some?
    ensures exists i: nat, j: nat :: NameShape(line, i, j) && NameRest(line).value == line[j + 1..]
  {
    var i := SkipSpaces(line, 5);
    var j := SkipSpaces(line, i + 7);
    assert NameShape(line, i, j);
  }

  /** Every line of that shape is recognised, with the remainder after its dash. */
  lemma NameRestExact(line: string, i: nat, j: nat)
    requires NameShape(line, i, j)
    ensures NameRest(line) == Some(line[j + 1..])
  {
    assert Lower(line[i]) == 's';
    assert SkipSpaces(line, 5) == i;
    assert SkipSpaces(line, i + 7) == j;
  }

  /** The customer name one line gives: the trimmed capture, or null when that is empty (`|| null`). */
  function NameIn(line: string): (r: Option<string>)
    ensures r.Some? ==> r.value != [] && IsTrimmed(r.value) && |r.value| < |line|
  {
    match NameRest(line)
    case Some(rest) => if Trim(rest) == [] then None else Some(Trim(rest))
    case None => None
  }

  /** The model of `extractCustomerName` (api/whatsapp-webhook.js:13-17). */
  function CustomerName(text: string): (r: Option<string>)
    ensures r.Some? ==> r.value != [] && IsTrimmed(r.value) && |r.value| < |text|
  {
    NormalizeLineChars(Split(text)[0]);
    NameIn(NormalizeLine(Split(text)[0]))
  }

  /** A label with a non-space first character, like the four the parser passes. */
  predicate IsLabel(key: string) {
    key != [] && !IsSpace(key[0])
  }

  /** `^\s*<label>\s*-\s*(.+)\s*$` with the `i` flag: the line splits at `i` and `j` like this. */
  predicate LabelShape(line: string, key: string, i: nat, j: nat) {
    i + |key| <= j && j + 1 < |line|
    && SpacesIn(line, 0, i) && MatchesAt(line, i, key)
    && SpacesIn(line, i + |key|, j) && line[j] == '-'
  }

  /** The remainder after the dash, when the line matches. */
  function LabelRest(line: string, key: string): (r: Option<string>)
    ensures r.Some? ==> r.value != [] && |key| + 1 + |r.value| <= |line| && r.value == line[|line| - |r.value|..]
  {
    var i := SkipSpaces(line, 0);
    if MatchesAt(line, i, key) then
      var j := SkipSpaces(line, i + |key|);
      if j + 1 < |line| && line[j] == '-' then Some(line[j + 1..]) else None
    else None
  }

  /** Only lines of that shape are recognised. */
  lemma LabelRestSound(line: string, key: string)
    requires LabelRest(line, key).Some?
    ensures exists i: nat, j: nat :: LabelShape(line, key, i, j) && LabelRest(line, key).value == line[j + 1..]
  {
    var i := SkipSpaces(line, 0);
    var j := SkipSpaces(line, i + |key|);
    assert LabelShape(line, key, i, j);
  }

  /** The trimmed value one line gives for a label, or None when the line does not match. */
  function LabelValue(line: string, key: string): (r: Option<string>)
    ensures r.Some? ==> IsTrimmed(r.value) && |r.value| < |line|
  {
    match LabelRest(line, key)
    case Some(rest) => Some(Trim(rest))
    case None => None
  }

  /** Every line of that shape is recognised, with the remainder after its dash. */
  lemma LabelRestExact(line: string, key: string, i: nat, j: nat)
    requires IsLabel(key) && LabelShape(line, key, i, j)
    ensures LabelRest(line, key) == Some(line[j + 1..])
  {
    assert Lower(line[i]) == Lower(key[0]);
    assert SkipSpaces(line, 0) == i;
    assert SkipSpaces(line, i + |key|) == j;
  }

  /** The index of the first line at or after `from` that matches the label; `|lines|` if none does. */
  function FirstLabelLine(lines: seq<string>, key: string, from: nat): (n: nat)
    requires from <= |lines|
    ensures from <= n <= |lines|
    ensures forall k | from <= k < n :: LabelValue(lines[k], key).None?
    ensures n < |lines| ==> LabelValue(lines[n], key).Some?
    decreases |lines| - from
  {
    if from == |lines| || LabelValue(lines[from], key).Some? then from
    else FirstLabelLine(lines, key, from + 1)
  }

  /** The value of the first matching line, or None when no line matches. */
  function FirstLabelValue(lines: seq<string>, key: string): (r: Option<string>)
    ensures r.Some? ==> IsTrimmed(r.value)
  {
    var n := FirstLabelLine(lines, key, 0);
    if n < |lines| then LabelValue(lines[n], key) else None
  }

  /** The value is None exactly when no line matches, and otherwise that of a first matching line. */
  lemma FirstLabelValueFirst(lines: seq<string>, key: string)
    ensures FirstLabelValue(lines, key).None? <==> forall i | 0 <= i < |lines| :: LabelValue(lines[i], key).None?
    ensures FirstLabelValue(lines, key).Some? ==> exists i | 0 <= i < |lines| ::
      FirstLabelValue(lines, key) == LabelValue(lines[i], key) && forall k | 0 <= k < i :: LabelValue(lines[k], key).None?
  {
  }

  /** The model of `extractAfterDash` (api/whatsapp-webhook.js:19-27). */
  method ExtractAfterDash(text: string, key: string) returns (r: Option<string>)
    ensures r == FirstLabelValue(Lines(text), key)
  {
    var lines := Lines(text);
    var i := 0;
    while i < |lines|
      invariant 0 <= i <= |lines|
      invariant FirstLabelLine(lines, key, i) == FirstLabelLine(lines, key, 0)
    {
      var m := LabelValue(lines[i], key);
      if m.Some? {
        assert FirstLabelLine(lines, key, i) == i;
        return m;
      }
      assert FirstLabelLine(lines, key, i) == FirstLabelLine(lines, key, i + 1);
      i := i + 1;
    }
    return None;
  }

  /** Lines after the first match are never looked at. */
  lemma FirstLabelValueIgnoresLater(before: seq<string>, after: seq<string>, key: string)
    requires FirstLabelValue(before, key).Some?
    ensures FirstLabelValue(before + after, key) == FirstLabelValue(before, key)
  {
    var lines := before + after;
    var n := FirstLabelLine(before, key, 0);
    assert forall k | 0 <= k < |before| :: lines[k] == before[k];
    assert FirstLabelLine(lines, key, 0) == n;
  }

  /** Lines that do not match are skipped. */
  lemma FirstLabelValueSkips(before: seq<string>, after: seq<string>, key: string)
    requires FirstLabelValue(before, key).None?
    ensures FirstLabelValue(before + after, key) == FirstLabelValue(after, key)
  {
    var lines := before + after;
    var n := FirstLabelLine(after, key, 0);
    assert forall k | 0 <= k < |before| :: lines[k] == before[k];
    assert forall k | 0 <= k < |after| :: lines[|before| + k] == after[k];
    assert FirstLabelLine(lines, key, 0) == |before| + n;
  }

  /** On a normalised line a label's value is never empty, so it is never falsy. */
  lemma LabelValueNonEmpty(line: string, key: string)
    requires IsNormalized(line) && LabelValue(line, key).Some?
    ensures LabelValue(line, key).value != []
  {
    LabelRestSound(line, key);
    var i: nat, j: nat :| LabelShape(line, key, i, j) && LabelRest(line, key).value == line[j + 1..];
    var rest := line[j + 1..];
    assert rest[|rest| - 1] == line[|line| - 1];
    TrimEmpty(rest);
  }

  /** Whatever `extractAfterDash` returns for a message is non-empty. */
  lemma FirstLabelValueNonEmpty(text: string, key: string)
    requires FirstLabelValue(Lines(text), key).Some?
    ensures FirstLabelValue(Lines(text), key).value != []
  {
    var lines := Lines(text);
    var n := FirstLabelLine(lines, key, 0);
    LabelValueNonEmpty(lines[n], key);
  }

  /** Only the text before the first newline decides the customer name. */
  lemma CustomerNameFirstLineOnly(line: string, rest: string)
    requires '\n' !in line
    ensures CustomerName(line + "\n" + rest) == NameIn(NormalizeLine(line))
    ensures CustomerName(line) == NameIn(NormalizeLine(line))
  {
    SplitAfterLine(line, rest);
    SplitNoNewline(line);
  }

  /** A first line `order summary - <rest>` gives the trimmed rest, whatever the case and spacing. */
  lemma NameFromOrderSummaryLine(line: string, i: nat, j: nat)
    requires NameShape(line, i, j) && !AllSpaces(line[j + 1..])
    ensures NameIn(line) == Some(Trim(line[j + 1..]))
  {
    NameRestExact(line, i, j);
    TrimEmpty(line[j + 1..]);
  }

  /** The words and the dash need no spaces between them: `OrderSummary-X` names `X`. */
  lemma NameWithoutSpaces(line: string)
    requires line == "OrderSummary-X"
    ensures NameIn(line) == Some("X")
  {
    OrderSummaryShape(line);
    assert NameRest(line) == Some("X") by {
      NameRestExact(line, 5, 12);
      assert line[13..] == "X";
    }
    TrimNoop("X");
  }

  /** `OrderSummary-X` splits at 5 and 12. */
  lemma OrderSummaryShape(line: string)
    requires line == "OrderSummary-X"
    ensures NameShape(line, 5, 12)
  {
    assert MatchesAt(line, 4, "r");
    assert MatchesAt(line, 3, "er");
    assert MatchesAt(line, 2, "der");
    assert MatchesAt(line, 1, "rder");
    assert MatchesAt(line, 0, "order");
    assert MatchesAt(line, 11, "y");
    assert MatchesAt(line, 10, "ry");
    assert MatchesAt(line, 9, "ary");
    assert MatchesAt(line, 8, "mary");
    assert MatchesAt(line, 7, "mmary");
    assert MatchesAt(line, 6, "ummary");
    assert MatchesAt(line, 5, "summary");
  }

  /** `<label> - <value>` gives the value for any non-empty trimmed value, whatever dashes it holds. */
  lemma LabelLineValue(key: string, v: string)
    requires IsLabel(key) && v != [] && IsTrimmed(v)
    ensures LabelValue(key + " - " + v, key) == Some(v)
  {
    var line := key + " - " + v;
    var j := |key| + 1;
    MatchesAtCopy(line, 0, key);
    assert LabelShape(line, key, 0, j);
    LabelRestExact(line, key, 0, j);
    assert line[j + 1..] == " " + v;
    TrimAfterSpaces(" ", v);
  }

  /** A value may itself hold dashes: only the first dash after the label separates. */
  lemma ValueKeepsLaterDashes(key: string, v: string)
    requires key == "Location" && v == "12 Oak St - Apt 3"
    ensures LabelValue(key + " - " + v, key) == Some(v)
  {
    LabelLineValue(key, v);
  }
}
