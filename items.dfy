/**
  The items block of an order message: `extractItems`
  (api/whatsapp-webhook.js:40-73) and the item-line pattern
  `^(\d+)\s+(.+?)\s*-\s*(\d+(\.\d+)?)\s*$` it applies to each line.
*/
module Items {
  import opened Wrappers
  import opened Text
  import opened Numbers

  /** One pushed item: `{ name, qty, line_total }`. */
  datatype LineItem = LineItem(name: string, qty: nat, lineTotal: real)

  /** `/^items:/i`. */
  predicate IsItemsHeader(line: string)
    ensures IsItemsHeader(line) ==> 6 <= |line| && line[5] == ':'
  {
    MatchesAt(line, 0, "items:")
  }

  /** A character `\b` counts as part of a word. */
  predicate IsWordChar(c: char) {
    'a' <= c <= 'z' || 'A' <= c <= 'Z' || IsDigit(c) || c == '_'
  }

  /** `/^<w>\b/i` for a word `w` of letters. */
  predicate StartsWithWord(line: string, w: string) {
    MatchesAt(line, 0, w) && (|line| == |w| || !IsWordChar(line[|w|]))
  }

  /** The lines that end the items block; none of them is an `items:` line. */
  predicate IsTerminator(line: string)
    ensures IsTerminator(line) ==> !IsItemsHeader(line)
  {
    StartsWithWord(line, "total") || StartsWithWord(line, "delivery") || StartsWithWord(line, "location")
    || StartsWithWord(line, "contact") || StartsWithWord(line, "payment")
  }

  /** `line[j..]` is the item's price tail `\s*-\s*(\d+(\.\d+)?)\s*$`. */
  predicate PriceTail(line: string, j: nat)
    requires j <= |line|
  {
    NumberSpan(line, j, '-').Some?
  }

  /** The least index at or after `from` where a price tail starts: where the lazy name ends. */
  function FirstPriceTail(line: string, from: nat): (r: Option<nat>)
    requires from <= |line|
    ensures r.Some? ==> from <= r.value <= |line| && PriceTail(line, r.value)
    decreases |line| - from
  {
    if PriceTail(line, from) then Some(from)
    else if from == |line| then None
    else FirstPriceTail(line, from + 1)
  }

  /** No price tail starts before the first one, and none at all when there is no first one. */
  lemma {:induction false} FirstPriceTailFirst(line: string, from: nat, k: nat)
    requires from <= k <= |line|
    requires FirstPriceTail(line, from).Some? ==> k < FirstPriceTail(line, from).value
    ensures !PriceTail(line, k)
    decreases k - from
  {
    if from < k {
      FirstPriceTailFirst(line, from + 1, k);
    }
  }

  /** The item read from a match whose groups are `line[..d]`, `line[s..j]` and the tail at `j`. */
  function ItemAt(line: string, d: nat, s: nat, j: nat): (it: LineItem)
    requires d <= s <= j <= |line| && DigitsIn(line, 0, d) && PriceTail(line, j)
    ensures IsTrimmed(it.name) && |it.name| <= j - s && it.lineTotal >= 0.0
  {
    LineItem(Trim(line[s..j]), DigitsValue(line, 0, d), NumberAfter(line, j, '-').value)
  }

  /**
    The item pattern with the backtracking of JavaScript's engine spelled out:
    `\s+` first takes every space after the quantity and the lazy name grows
    from one character; only when no end works does `\s+` give one space back,
    which leaves the name a single space.
  */
  function ParseItemLine(line: string): (r: Option<LineItem>)
    ensures r.Some? ==> IsTrimmed(r.value.name) && |r.value.name| < |line| && r.value.lineTotal >= 0.0
  {
    match ItemSpan(line)
    case None => None
    case Some(span) => Some(ItemAt(line, SkipDigits(line, 0), span.0, span.1))
  }

  /** Where the match puts the name, `line[s..j]`, when the item pattern matches at all. */
  function ItemSpan(line: string): (r: Option<(nat, nat)>)
    ensures r.Some? ==> SkipDigits(line, 0) <= r.value.0 <= r.value.1 <= |line| && PriceTail(line, r.value.1)
  {
    var d := SkipDigits(line, 0);
    var a := SkipSpaces(line, d);
    if d == 0 || a == d || a == |line| then None
    else match FirstPriceTail(line, a + 1)
      case Some(j) => Some((a, j))
      case None => if a - d >= 2 && PriceTail(line, a) then Some((a - 1, a)) else None
  }

  /**
    One way the item pattern can match: quantity digits `line[..d]`, white
    space `line[d..s]`, a nonempty name `line[s..j]` and a price tail at `j`.
  */
  predicate ItemShape(line: string, d: nat, s: nat, j: nat) {
    0 < d < s < j <= |line| && DigitsIn(line, 0, d) && SpacesIn(line, d, s) && PriceTail(line, j)
  }

  /** An item is read exactly when the line has the shape of the pattern. */
  lemma ParseItemLineExact(line: string)
    ensures ParseItemLine(line).Some? <==> exists d: nat, s: nat, j: nat :: ItemShape(line, d, s, j)
  {
    assert ParseItemLine(line).Some? <==> ItemSpan(line).Some?;
    if ParseItemLine(line).Some? {
      ParseItemLineSound(line, ParseItemLine(line).value);
    }
    if exists d: nat, s: nat, j: nat :: ItemShape(line, d, s, j) {
      var d, s, j :| ItemShape(line, d, s, j);
      ParseItemLineComplete(line, d, s, j);
    }
  }

  /** Every shape of the pattern is found, by the greedy spaces or by the one given back. */
  lemma ParseItemLineComplete(line: string, d: nat, s: nat, j: nat)
    requires ItemShape(line, d, s, j)
    ensures ItemSpan(line).Some?
  {
    ShapeBounds(line, d, s, j);
    var a := SkipSpaces(line, d);
    assert 0 < d < a;
    if j <= a {
      PriceTailOver(line, j, a);
      assert a - d >= 2;
      if FirstPriceTail(line, a + 1).None? {
        assert ItemSpan(line) == Some((a - 1, a));
      }
    } else if FirstPriceTail(line, a + 1).None? {
      FirstPriceTailFirst(line, a + 1, j);
      assert false;
    }
  }

  /** White space in front of a price tail is part of it. */
  lemma PriceTailOver(line: string, j: nat, a: nat)
    requires j <= a <= |line| && SpacesIn(line, j, a) && PriceTail(line, j)
    ensures PriceTail(line, a)
  {
    NumberSpanOver(line, j, a, '-');
  }

  /** In any shape the quantity is the whole digit run and the name starts within the spaces after it. */
  lemma ShapeBounds(line: string, d: nat, s: nat, j: nat)
    requires ItemShape(line, d, s, j)
    ensures d == SkipDigits(line, 0) && d < s <= SkipSpaces(line, d)
  {
    assert IsSpace(line[d]);
  }

  /**
    What a read item is: the pattern's shape holds, the name is the shortest
    one the shape allows from its start, trimmed; the quantity is `parseInt`
    of the digits and the total `Number` of the price token.
  */
  lemma ParseItemLineSound(line: string, it: LineItem)
    requires ParseItemLine(line) == Some(it)
    ensures exists d: nat, s: nat, j: nat ::
      ItemShape(line, d, s, j) && it == ItemAt(line, d, s, j) && NoTailBetween(line, s, j)
  {
    var d := SkipDigits(line, 0);
    var span := ItemSpan(line).value;
    ItemSpanShape(line);
    assert ItemShape(line, d, span.0, span.1) && it == ItemAt(line, d, span.0, span.1) && NoTailBetween(line, span.0, span.1);
  }

  /** The span found has the shape, and no shorter name would do. */
  lemma ItemSpanShape(line: string)
    requires ItemSpan(line).Some?
    ensures ItemShape(line, SkipDigits(line, 0), ItemSpan(line).value.0, ItemSpan(line).value.1)
    ensures NoTailBetween(line, ItemSpan(line).value.0, ItemSpan(line).value.1)
  {
    var d := SkipDigits(line, 0);
    var a := SkipSpaces(line, d);
    assert 0 < d < a < |line|;
    match FirstPriceTail(line, a + 1)
    case Some(j) =>
      assert ItemSpan(line) == Some((a, j));
      NoPriceTailBefore(line, a + 1);
      assert ItemShape(line, d, a, j);
    case None =>
      assert ItemSpan(line) == Some((a - 1, a));
      assert SpacesIn(line, d, a - 1);
      assert ItemShape(line, d, a - 1, a);
  }

  /** No price tail starts strictly between `s` and `j`: a name ending at `j` is the shortest. */
  predicate NoTailBetween(line: string, s: nat, j: nat)
    requires j <= |line|
  {
    forall k | s < k < j :: !PriceTail(line, k)
  }

  /** Before the first price tail there is none. */
  lemma NoPriceTailBefore(line: string, from: nat)
    requires from <= |line| && FirstPriceTail(line, from).Some?
    ensures forall k | from <= k < FirstPriceTail(line, from).value :: !PriceTail(line, k)
  {
    forall k | from <= k < FirstPriceTail(line, from).value
      ensures !PriceTail(line, k)
    {
      FirstPriceTailFirst(line, from, k);
    }
  }

  /**
    A line written as quantity, one space, a trimmed name, ` - ` and a price
    is read back as that item, whatever dashes the name itself holds.
  */
  lemma ItemLineParts(q: string, name: string, price: string)
    requires |q| > 0 && DigitsIn(q, 0, |q|)
    requires name != [] && IsTrimmed(name)
    requires IsDecimalAt(price, 0, |price|)
    ensures ParseItemLine(q + " " + name + " - " + price)
      == Some(LineItem(name, DigitsValue(q, 0, |q|), DecimalValue(price, 0, |price|)))
  {
    var line := q + " " + name + " - " + price;
    var n := |q|;
    var f := n + 1 + |name|;
    ItemLineLayout(line, q, name, price, n, f);
    QuantityOfItemLine(line, q, name, price);
    PriceOfItemLine(line, q, name, price, f);
    ItemLineRead(line, n, f, name);
  }

  /** The quantity digits of such a line are `q`'s. */
  lemma QuantityOfItemLine(line: string, q: string, name: string, price: string)
    requires line == q + " " + name + " - " + price && DigitsIn(q, 0, |q|)
    ensures DigitsIn(line, 0, |q|) && DigitsValue(line, 0, |q|) == DigitsValue(q, 0, |q|)
  {
    assert SameRun(q, 0, line, 0, |q|) by {
      forall k | 0 <= k < |q| ensures q[k] == line[0 + (k - 0)] {
        assert line[k] == (q + " " + name + " - " + price)[k];
      }
    }
    DigitsValueCopy(q, 0, |q|, line, 0);
  }

  /** The number token at the end of such a line is `price`. */
  lemma PriceOfItemLine(line: string, q: string, name: string, price: string, f: nat)
    requires line == q + " " + name + " - " + price && IsDecimalAt(price, 0, |price|) && f == |q| + 1 + |name|
    ensures f + 3 <= |line| && IsDecimalAt(line, f + 3, |line|)
    ensures DecimalValue(line, f + 3, |line|) == DecimalValue(price, 0, |price|)
  {
    var c := f + 3;
    assert |line| == c + |price|;
    assert SameRun(price, 0, line, c, |price|) by {
      forall k | 0 <= k < |price| ensures price[k] == line[c + (k - 0)] {
        assert line[c + k] == (q + " " + name + " - " + price)[c + k];
      }
    }
    DecimalCopy(price, 0, line, c);
  }

  /**
    A line holding digits `line[..n]`, one space, a trimmed name
    `line[n + 1..f]`, ` - ` and a number token to the end is read as that
    item.
  */
  lemma ItemLineRead(line: string, n: nat, f: nat, name: string)
    requires 0 < n && n + 2 <= f && f + 3 <= |line| && DigitsIn(line, 0, n)
    requires line[n] == ' ' && line[n + 1..f] == name && IsTrimmed(name)
    requires line[f] == ' ' && line[f + 1] == '-' && line[f + 2] == ' ' && IsDecimalAt(line, f + 3, |line|)
    ensures ParseItemLine(line)
      == Some(LineItem(name, DigitsValue(line, 0, n), DecimalValue(line, f + 3, |line|)))
  {
    assert !IsSpace(line[n + 1]) && !IsSpace(line[f - 1]) by {
      assert line[n + 1] == name[0] && line[f - 1] == name[|name| - 1];
    }
    PriceAfterName(line, f);
    ItemLineSpan(line, n, f);
    ParseFromSpan(line, n, n + 1, f);
    ItemAtParts(line, n, n + 1, f, name, DecimalValue(line, f + 3, |line|));
  }

  /** ` - ` and a number token to the end of the line is a price tail holding that number. */
  lemma PriceAfterName(line: string, f: nat)
    requires f + 3 <= |line| && line[f] == ' ' && line[f + 1] == '-' && line[f + 2] == ' '
    requires IsDecimalAt(line, f + 3, |line|)
    ensures PriceTail(line, f) && NumberAfter(line, f, '-') == Some(DecimalValue(line, f + 3, |line|))
  {
    assert NumberShape(line, f, '-', f + 1, f + 3, |line|);
    NumberSpanExact(line, f, '-', f + 1, f + 3, |line|);
  }

  /** The quantity is `line[..n]` and the name runs from `n + 1` to the last ` - `. */
  lemma ItemLineSpan(line: string, n: nat, f: nat)
    requires 0 < n && n + 2 <= f && f + 3 <= |line| && DigitsIn(line, 0, n)
    requires line[n] == ' ' && !IsSpace(line[n + 1]) && !IsSpace(line[f - 1])
    requires line[f + 1] == '-' && PriceTail(line, f)
    ensures SkipDigits(line, 0) == n && ItemSpan(line) == Some((n + 1, f))
  {
    ItemLineHead(line, n);
    ItemLineNameHasNoTail(line, n, f);
    FirstPriceTailIs(line, n + 2, f);
  }

  /** The item read is the one at the span found. */
  lemma ParseFromSpan(line: string, d: nat, s: nat, j: nat)
    requires SkipDigits(line, 0) == d && ItemSpan(line) == Some((s, j)) && DigitsIn(line, 0, d)
    ensures ParseItemLine(line) == Some(ItemAt(line, d, s, j))
  {
  }

  /** The parts of the item at a span: the trimmed name, the quantity and the price tail's value. */
  lemma ItemAtParts(line: string, d: nat, s: nat, j: nat, name: string, v: real)
    requires d <= s <= j <= |line| && DigitsIn(line, 0, d) && PriceTail(line, j)
    requires line[s..j] == name && IsTrimmed(name) && NumberAfter(line, j, '-') == Some(v)
    ensures ItemAt(line, d, s, j) == LineItem(name, DigitsValue(line, 0, d), v)
  {
    TrimNoop(name);
  }

  /** Where the parts of such a line sit. */
  lemma ItemLineLayout(line: string, q: string, name: string, price: string, n: nat, f: nat)
    requires line == q + " " + name + " - " + price && n == |q| && f == n + 1 + |name|
    ensures |line| == f + 3 + |price| && line[n] == ' ' && line[n + 1..f] == name
    ensures line[f] == ' ' && line[f + 1] == '-' && line[f + 2] == ' '
  {
  }

  /** The quantity ends at the first space after it, and the name starts one space later. */
  lemma ItemLineHead(line: string, n: nat)
    requires n + 1 < |line| && DigitsIn(line, 0, n) && line[n] == ' ' && !IsSpace(line[n + 1])
    ensures SkipDigits(line, 0) == n && SkipSpaces(line, n) == n + 1
  {
    SkipDigitsBack(line, 0, n);
  }

  /** No price tail starts inside a name that ends at `f`, the space before the last dash. */
  lemma ItemLineNameHasNoTail(line: string, n: nat, f: nat)
    requires n + 2 <= f && f + 1 < |line| && !IsSpace(line[f - 1]) && line[f + 1] == '-'
    ensures forall k | n + 2 <= k < f :: !PriceTail(line, k)
  {
    forall k | n + 2 <= k < f
      ensures !PriceTail(line, k)
    {
      if PriceTail(line, k) {
        NumberSpanSound(line, k, '-');
        var span := NumberSpan(line, k, '-').value;
        var i: nat :| NumberShape(line, k, '-', i, span.0, span.1);
        if i <= f {
          NumberShapeChars(line, k, '-', i, span.0, span.1, f + 1);
        }
      }
    }
  }

  /** The first price tail is the one with none before it. */
  lemma {:induction false} FirstPriceTailIs(line: string, from: nat, f: nat)
    requires from <= f <= |line| && PriceTail(line, f)
    requires forall k | from <= k < f :: !PriceTail(line, k)
    ensures FirstPriceTail(line, from) == Some(f)
    decreases f - from
  {
    if from < f {
      FirstPriceTailIs(line, from + 1, f);
    }
  }

  /** A digit run ended by a non-digit is what the digit scan reaches. */
  lemma SkipDigitsBack(s: string, a: nat, b: nat)
    requires a <= b <= |s| && DigitsIn(s, a, b) && (b < |s| ==> !IsDigit(s[b]))
    ensures SkipDigits(s, a) == b
  {
  }

  /** A name may hold dashes of its own: `2 Widget - Blue - 10.00` reads as two `Widget - Blue` for 10. */
  lemma DashInName(q: string, name: string, price: string)
    requires q == "2" && name == "Widget - Blue" && price == "10.00"
    ensures ParseItemLine(q + " " + name + " - " + price) == Some(LineItem(name, 2, 10.0))
  {
    ExampleNumbers(q, price);
    ItemLineParts(q, name, price);
  }

  /** The quantity `2` and the price `10.00` of that line. */
  lemma ExampleNumbers(q: string, price: string)
    requires q == "2" && price == "10.00"
    ensures DigitsIn(q, 0, |q|) && DigitsValue(q, 0, |q|) == 2
    ensures IsDecimalAt(price, 0, |price|) && DecimalValue(price, 0, |price|) == 10.0
  {
    assert DigitsIn(q, 0, |q|);
    assert SkipDigits(price, 2) == 2;
    assert SkipDigits(price, 1) == 2;
    assert SkipDigits(price, 0) == 2;
    assert DigitsValue(q, 0, 1) == 2;
    assert DigitsValue(price, 0, 1) == 1;
    assert DigitsValue(price, 0, 2) == 10;
    assert Fraction(price, 4, 5) == 0.0;
  }

  /** The items a single line contributes. */
  function ItemsOfLine(line: string): (r: seq<LineItem>)
    ensures |r| <= 1
    ensures r == [] <==> ParseItemLine(line).None?
  {
    match ParseItemLine(line)
    case None => []
    case Some(it) => [it]
  }

  /** What a line means to `extractItems`, in the order it tests for them. */
  datatype Role = Header | Terminator | Entry(items: seq<LineItem>)

  function RoleOf(line: string): Role {
    if IsItemsHeader(line) then Header
    else if IsTerminator(line) then Terminator
    else Entry(ItemsOfLine(line))
  }

  /** The role of every line, in order. */
  function Roles(lines: seq<string>): (roles: seq<Role>)
    ensures |roles| == |lines|
  {
    if lines == [] then [] else [RoleOf(lines[0])] + Roles(lines[1..])
  }

  lemma {:induction false} RolesAt(lines: seq<string>, i: nat)
    requires i < |lines|
    ensures Roles(lines)[i] == RoleOf(lines[i])
  {
    if i > 0 {
      RolesAt(lines[1..], i - 1);
    }
  }

  /** The items of the entries among `roles[a..b]`, in order. */
  function Collect(roles: seq<Role>, a: nat, b: nat): (items: seq<LineItem>)
    requires a <= b <= |roles|
    decreases b - a
  {
    if a == b then []
    else (if roles[a].Entry? then roles[a].items else []) + Collect(roles, a + 1, b)
  }

  /** The index of the first header at or after `from`, or `|roles|` when there is none. */
  function FirstHeader(roles: seq<Role>, from: nat): (h: nat)
    requires from <= |roles|
    ensures from <= h <= |roles|
    ensures h < |roles| ==> roles[h] == Header
    decreases |roles| - from
  {
    if from == |roles| || roles[from] == Header then from else FirstHeader(roles, from + 1)
  }

  /** The index of the first terminator at or after `from`, or `|roles|` when there is none. */
  function BlockEnd(roles: seq<Role>, from: nat): (e: nat)
    requires from <= |roles|
    ensures from <= e <= |roles|
    ensures e < |roles| ==> roles[e] == Terminator
    decreases |roles| - from
  {
    if from == |roles| || roles[from] == Terminator then from else BlockEnd(roles, from + 1)
  }

  /**
    The items block: nothing before the first header; after it, the items
    of the lines up to the first terminating line.
  */
  function BlockItems(roles: seq<Role>): seq<LineItem> {
    var h := FirstHeader(roles, 0);
    if h == |roles| then [] else Collect(roles, h + 1, BlockEnd(roles, h + 1))
  }

  /** What `extractItems` returns for a message. */
  function ItemsOf(text: string): seq<LineItem> {
    BlockItems(Roles(Lines(text)))
  }

  /**
    The loop of `extractItems` as a function of the line index, the
    `insideItems` flag and the items collected so far.
  */
  function Scan(roles: seq<Role>, i: nat, inside: bool, acc: seq<LineItem>): seq<LineItem>
    requires i <= |roles|
    decreases |roles| - i
  {
    if i == |roles| then acc
    else if roles[i] == Header then Scan(roles, i + 1, true, acc)
    else if !inside then Scan(roles, i + 1, false, acc)
    else if roles[i] == Terminator then acc
    else Scan(roles, i + 1, true, acc + roles[i].items)
  }

  /** `extractItems` (api/whatsapp-webhook.js:40-73). */
  method ExtractItems(text: string) returns (items: seq<LineItem>)
    ensures items == ItemsOf(text)
  {
    var lines := Lines(text);
    ghost var roles := Roles(lines);
    items := [];
    var insideItems := false;
    var i := 0;
    while i < |lines|
      invariant 0 <= i <= |lines|
      invariant Scan(roles, i, insideItems, items) == Scan(roles, 0, false, [])
    {
      var line := lines[i];
      if IsItemsHeader(line) {
        RoleHeader(lines, i);
        insideItems := true;
        assert Scan(roles, i + 1, insideItems, items) == Scan(roles, 0, false, []);
      } else if insideItems {
        if IsTerminator(line) {
          RoleTerminator(lines, i);
          assert Scan(roles, i, insideItems, items) == items;
          break;
        }
        var parsed := ParseItemLine(line);
        RoleEntry(lines, i);
        if parsed.Some? {
          assert ItemsOfLine(line) == [parsed.value];
          items := items + [parsed.value];
          assert Scan(roles, i + 1, insideItems, items) == Scan(roles, 0, false, []);
        } else {
          assert ItemsOfLine(line) == [];
          assert items + [] == items;
          assert Scan(roles, i + 1, insideItems, items) == Scan(roles, 0, false, []);
        }
      } else {
        RoleNotHeader(lines, i);
        assert Scan(roles, i + 1, insideItems, items) == Scan(roles, 0, false, []);
      }
      i := i + 1;
    }
    ScanIsBlockItems(roles);
  }

  /** The loop's result is the items of the block after the first header, up to its end. */
  lemma ScanIsBlockItems(roles: seq<Role>)
    ensures Scan(roles, 0, false, []) == BlockItems(roles)
  {
    var h := FirstHeader(roles, 0);
    ScanBeforeHeader(roles, 0);
    if h < |roles| {
      var e := BlockEnd(roles, h + 1);
      forall k | h + 1 <= k < e
        ensures roles[k] != Terminator
      {
        BlockEndFirst(roles, h + 1, k);
      }
      ScanInBlock(roles, h + 1, e, []);
    }
  }

  /** Before the first header nothing is collected. */
  lemma {:induction false} ScanBeforeHeader(roles: seq<Role>, i: nat)
    requires i <= |roles|
    ensures var h := FirstHeader(roles, i);
      Scan(roles, i, false, []) == if h == |roles| then [] else Scan(roles, h + 1, true, [])
    decreases |roles| - i
  {
    if i < |roles| && roles[i] != Header {
      ScanBeforeHeader(roles, i + 1);
    }
  }

  /** Inside the block each line adds its items until the block's end. */
  lemma {:induction false} ScanInBlock(roles: seq<Role>, i: nat, e: nat, acc: seq<LineItem>)
    requires i <= e <= |roles| && (e < |roles| ==> roles[e] == Terminator)
    requires forall k | i <= k < e :: roles[k] != Terminator
    ensures Scan(roles, i, true, acc) == acc + Collect(roles, i, e)
    decreases e - i
  {
    if i < e {
      var here := if roles[i].Entry? then roles[i].items else [];
      if roles[i] == Header {
        assert acc + here == acc;
      }
      ScanInBlock(roles, i + 1, e, acc + here);
      assert acc + here + Collect(roles, i + 1, e) == acc + (here + Collect(roles, i + 1, e));
    }
  }

  /** No line before the first header is one. */
  lemma {:induction false} FirstHeaderFirst(roles: seq<Role>, from: nat, k: nat)
    requires from <= |roles| && from <= k < FirstHeader(roles, from)
    ensures roles[k] != Header
    decreases k - from
  {
    if from < k {
      FirstHeaderFirst(roles, from + 1, k);
    }
  }

  /** No line before the end of a block ends it. */
  lemma {:induction false} BlockEndFirst(roles: seq<Role>, from: nat, k: nat)
    requires from <= |roles| && from <= k < BlockEnd(roles, from)
    ensures roles[k] != Terminator
    decreases k - from
  {
    if from < k {
      BlockEndFirst(roles, from + 1, k);
    }
  }

  /** The items of every line, in order, as if the whole of `lines` were inside the block. */
  function ItemsOfLines(lines: seq<string>): seq<LineItem> {
    if lines == [] then [] else ItemsOfLine(lines[0]) + ItemsOfLines(lines[1..])
  }

  /** An `items:` line neither ends the block nor is read as an item. */
  lemma HeaderIsNoItem(line: string)
    requires IsItemsHeader(line)
    ensures !IsTerminator(line) && ItemsOfLine(line) == []
  {
    assert Lower(line[0]) == 'i';
    assert !IsDigit(line[0]);
  }

  /** The role of a line that does not end the block contributes exactly its items. */
  lemma EntryItems(line: string)
    requires !IsTerminator(line)
    ensures RoleOf(line) != Terminator
    ensures (if RoleOf(line).Entry? then RoleOf(line).items else []) == ItemsOfLine(line)
  {
    if IsItemsHeader(line) {
      HeaderIsNoItem(line);
    }
  }

  /** Inside the block, the collected items are those of every line in turn. */
  lemma {:induction false} CollectLines(lines: seq<string>, a: nat, b: nat)
    requires a <= b <= |lines|
    requires forall k | a <= k < b :: !IsTerminator(lines[k])
    ensures Collect(Roles(lines), a, b) == ItemsOfLines(lines[a..b])
    decreases b - a
  {
    if a < b {
      RolesAt(lines, a);
      EntryItems(lines[a]);
      CollectLines(lines, a + 1, b);
      assert lines[a..b][1..] == lines[a + 1..b];
    }
  }

  /** The first header is the first line whose role is Header. */
  lemma {:induction false} FirstHeaderIs(roles: seq<Role>, from: nat, h: nat)
    requires from <= h <= |roles| && (h < |roles| ==> roles[h] == Header)
    requires forall k | from <= k < h :: roles[k] != Header
    ensures FirstHeader(roles, from) == h
    decreases h - from
  {
    if from < h {
      FirstHeaderIs(roles, from + 1, h);
    }
  }

  /** The block ends at the first line whose role is Terminator. */
  lemma {:induction false} BlockEndIs(roles: seq<Role>, from: nat, e: nat)
    requires from <= e <= |roles| && (e < |roles| ==> roles[e] == Terminator)
    requires forall k | from <= k < e :: roles[k] != Terminator
    ensures BlockEnd(roles, from) == e
    decreases e - from
  {
    if from < e {
      BlockEndIs(roles, from + 1, e);
    }
  }

  /**
    The block boundaries: with no `items:` line before `header`, and
    `body` free of terminating lines up to `post`, which is empty or starts
    with one, the items are exactly those of the lines of `body`. Lines of
    `pre` do not count even when they are items or terminators, later
    `items:` lines inside `body` add nothing, and nothing of `post` counts.
  */
  lemma ItemsBlock(pre: seq<string>, header: string, body: seq<string>, post: seq<string>)
    requires forall k | 0 <= k < |pre| :: !IsItemsHeader(pre[k])
    requires IsItemsHeader(header)
    requires forall k | 0 <= k < |body| :: !IsTerminator(body[k])
    requires post == [] || IsTerminator(post[0])
    ensures BlockItems(Roles(pre + [header] + body + post)) == ItemsOfLines(body)
  {
    var lines := pre + [header] + body + post;
    var h := |pre|;
    var e := h + 1 + |body|;
    assert forall k | 0 <= k < h :: !IsItemsHeader(lines[k]) by {
      forall k | 0 <= k < h
        ensures !IsItemsHeader(lines[k])
      {
        assert lines[k] == pre[k];
      }
    }
    assert IsItemsHeader(lines[h]) by {
      assert lines[h] == header;
    }
    assert forall k | h + 1 <= k < e :: !IsTerminator(lines[k]) by {
      forall k | h + 1 <= k < e
        ensures !IsTerminator(lines[k])
      {
        assert lines[k] == body[k - h - 1];
      }
    }
    assert e < |lines| ==> IsTerminator(lines[e]) by {
      if e < |lines| {
        assert lines[e] == post[0];
      }
    }
    assert lines[h + 1..e] == body;
    BlockAt(lines, h, e);
  }

  /**
    With the first `items:` line at `h` and the first terminating line after
    it at `e` (or no such line, `e == |lines|`), the items are those of the
    lines strictly between them.
  */
  lemma BlockAt(lines: seq<string>, h: nat, e: nat)
    requires h < e <= |lines|
    requires forall k | 0 <= k < h :: !IsItemsHeader(lines[k])
    requires IsItemsHeader(lines[h])
    requires forall k | h + 1 <= k < e :: !IsTerminator(lines[k])
    requires e < |lines| ==> IsTerminator(lines[e])
    ensures BlockItems(Roles(lines)) == ItemsOfLines(lines[h + 1..e])
  {
    FirstHeaderAt(lines, h);
    BlockEndAt(lines, h, e);
    CollectLines(lines, h + 1, e);
  }

  /** The first `items:` line is the first line whose role is Header. */
  lemma FirstHeaderAt(lines: seq<string>, h: nat)
    requires h < |lines| && IsItemsHeader(lines[h])
    requires forall k | 0 <= k < h :: !IsItemsHeader(lines[k])
    ensures FirstHeader(Roles(lines), 0) == h
  {
    forall k | 0 <= k < h
      ensures Roles(lines)[k] != Header
    {
      RoleNotHeader(lines, k);
    }
    RoleHeader(lines, h);
    FirstHeaderIs(Roles(lines), 0, h);
  }

  /** The first terminating line after `h` is the first line after it whose role is Terminator. */
  lemma BlockEndAt(lines: seq<string>, h: nat, e: nat)
    requires h < e <= |lines|
    requires forall k | h + 1 <= k < e :: !IsTerminator(lines[k])
    requires e < |lines| ==> IsTerminator(lines[e])
    ensures BlockEnd(Roles(lines), h + 1) == e
  {
    forall k | h + 1 <= k < e
      ensures Roles(lines)[k] != Terminator
    {
      RoleNotTerminator(lines, k);
    }
    if e < |lines| {
      RoleTerminator(lines, e);
    }
    BlockEndIs(Roles(lines), h + 1, e);
  }

  lemma RoleHeader(lines: seq<string>, k: nat)
    requires k < |lines| && IsItemsHeader(lines[k])
    ensures Roles(lines)[k] == Header
  {
    RolesAt(lines, k);
  }

  lemma RoleNotHeader(lines: seq<string>, k: nat)
    requires k < |lines| && !IsItemsHeader(lines[k])
    ensures Roles(lines)[k] != Header
  {
    RolesAt(lines, k);
  }

  lemma RoleTerminator(lines: seq<string>, k: nat)
    requires k < |lines| && IsTerminator(lines[k])
    ensures Roles(lines)[k] == Terminator
  {
    RolesAt(lines, k);
  }

  lemma RoleEntry(lines: seq<string>, k: nat)
    requires k < |lines| && !IsItemsHeader(lines[k]) && !IsTerminator(lines[k])
    ensures Roles(lines)[k] == Entry(ItemsOfLine(lines[k]))
  {
    RolesAt(lines, k);
  }

  lemma RoleNotTerminator(lines: seq<string>, k: nat)
    requires k < |lines| && !IsTerminator(lines[k])
    ensures Roles(lines)[k] != Terminator
  {
    RolesAt(lines, k);
    EntryItems(lines[k]);
  }

  /** Without an `items:` line there are no items. */
  lemma NoHeaderNoItems(lines: seq<string>)
    requires forall k | 0 <= k < |lines| :: !IsItemsHeader(lines[k])
    ensures BlockItems(Roles(lines)) == []
  {
    var roles := Roles(lines);
    forall k | 0 <= k < |lines|
      ensures roles[k] != Header
    {
      RolesAt(lines, k);
    }
    FirstHeaderIs(roles, 0, |lines|);
  }

  /** `\b` needs a non-word character after the word: `Totals 30` does not end the block. */
  lemma LongerWordIsNoTerminator(line: string)
    requires line == "Totals 30"
    ensures !IsTerminator(line)
  {
  }

  /** Any case will do, and the word may be followed by anything that is not a word character. */
  lemma TotalLineIsTerminator(line: string)
    requires line == "TOTAL - 30"
    ensures IsTerminator(line)
  {
    assert MatchesAt(line, 4, "l");
    assert MatchesAt(line, 3, "al");
    assert MatchesAt(line, 2, "tal");
    assert MatchesAt(line, 1, "otal");
    assert MatchesAt(line, 0, "total");
  }
}
