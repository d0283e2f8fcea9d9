# Order-message parser, modelled in Dafny

This project models the free-text order parser of `api/whatsapp-webhook.js`.
The parser reads a message written to a loose template: `Order Summary - Name`,
`Delivery Date - ...`, an `Items:` block and `Total - N`. It builds an order
record from it and decides whether the order needs a manual review.

The model has one module per part of the parser:

- `Text` (`text.dfy`): line splitting and `normalizeLine`.
- `Numbers` (`numbers.dfy`): the number syntax `\d+(\.\d+)?`, and the values
  `parseInt` and `Number` give it.
- `Fields` (`fields.dfy`): `extractCustomerName` and `extractAfterDash`.
- `Items` (`items.dfy`): `extractItems` and its item-line pattern.
- `Totals` (`totals.dfy`): `extractTotalNumber`, `round2` and `sumLineTotals`.
- `Order` (`order.dfy`): `parseMessage`.
- `Wrappers` (`wrappers.dfy`): the `Option` type used for `null`.

### How the code is modelled

- Pure code becomes functions.
- Loops become methods, each proved equal to a specification function:
  - the loops of `extractAfterDash`, `extractTotalNumber` and `extractItems`;
  - the reassignment of `requires_review` in `parseMessage`.
- Each anchored regular expression is a predicate or a scanner over a
  `seq<char>`. Where a backtracking match has more than one way to split a
  line, the scanner makes the same choice JavaScript's engine makes.
- The condition `customer_name && ... && phone` uses JavaScript truthiness:
  `null` and the empty string count as false.

### Behaviour worth knowing

- **Quantities are not multiplied in.** The computed total adds up the
  `line_total` values as they stand (api/whatsapp-webhook.js:80). Items
  `2 Widget - 10.00` and `1 Gadget - 5.00` give a computed total of 15.00, so
  `Total - 25.00` flags the order (`Order.LineTotalsAreNotMultiplied`).
- **Quantity 0 is accepted.** `\d+` matches `0`, so `0 Widget - 10.00` is an
  item.

## Model

| member | source | states |
|---|---|---|
| Text.NormalizeLine | api/whatsapp-webhook.js:9-11 | the result has no carriage return and no white space at either end |
| Text.NormalizeLineChars | api/whatsapp-webhook.js:9-11 | the normalised line is no longer than the input and holds only characters of it |
| Text.StripCR | api/whatsapp-webhook.js:10 | `replace(/\r/g, '')` leaves no carriage return and never lengthens the line |
| Text.StripCRKeeps | api/whatsapp-webhook.js:10 | removing carriage returns keeps every other character, as often as it occurs, and adds none |
| Text.NormalizeLineIdempotent | api/whatsapp-webhook.js:9-11 | normalising a normalised line gives it back unchanged |
| Text.NormalizeLineIgnoresCR | api/whatsapp-webhook.js:9-11 | a carriage return anywhere in a line makes no difference to the result |
| Text.Trim | api/whatsapp-webhook.js:10 | `trim()`: no white space is left at either end and the string never grows; TrimAround says it removes exactly the white space on both sides |
| Text.TrimAround | api/whatsapp-webhook.js:10 | white space, a trimmed string, white space: `trim()` gives exactly the trimmed string, so it removes the leading and the trailing white space and nothing else |
| Text.TrimEndAfter | api/whatsapp-webhook.js:10 | white space after a string that ends in a non-space is all the trailing trim removes |
| Text.TrimEmpty | api/whatsapp-webhook.js:10 | `trim()` leaves nothing exactly when the string is all white space |
| Text.TrimChars | api/whatsapp-webhook.js:10 | `trim()` only removes characters: the result is no longer than the input and holds only its characters |
| Text.Split | api/whatsapp-webhook.js:14 | `split('\n')` always gives at least one piece, and no piece holds a newline |
| Text.JoinSplit | api/whatsapp-webhook.js:14 | joining the pieces of a split with newlines gives back the text |
| Text.SplitJoin | api/whatsapp-webhook.js:14 | splitting newline-free pieces joined by newlines gives back the pieces |
| Text.SplitAfterLine | api/whatsapp-webhook.js:14 | a line ended by a newline is the first piece, and the rest of the text is split on its own |
| Text.Lines | api/whatsapp-webhook.js:21 | there is one line per piece of the split |
| Text.LinesNormalized | api/whatsapp-webhook.js:21 | every line the extractors scan is normalised and free of newlines |
| Numbers.SkipDigits | api/whatsapp-webhook.js:63 | the greedy `\d+` stops at the first non-digit: everything it passes is a digit |
| Numbers.DecimalEnd | api/whatsapp-webhook.js:32 | the greedy `\d+(\.\d+)?` ends on a well-formed number token, or takes nothing |
| Numbers.DecimalEndExact | api/whatsapp-webhook.js:32 | a number token followed by white space or the end of the line is taken whole |
| Numbers.DigitsValue | api/whatsapp-webhook.js:67 | `parseInt` of n digits is below 10^n |
| Numbers.Fraction | api/whatsapp-webhook.js:68 | the fraction digits of a number stand for a value in [0, 1) |
| Numbers.DecimalValue | api/whatsapp-webhook.js:68 | `Number` of a token lies between its whole part and the whole part plus one |
| Numbers.NumberSpan | api/whatsapp-webhook.js:32 | a tail found after a separator holds a well-formed, non-empty number token inside the line |
| Numbers.NumberAfter | api/whatsapp-webhook.js:32-35 | `Number(m[1])` of the token a tail holds: never negative; NumberSpanSound and NumberSpanExact say which tails hold one |
| Numbers.NumberSpanSound | api/whatsapp-webhook.js:32 | a tail recognised after a separator has the shape `\s*<sep>\s*(\d+(\.\d+)?)\s*$` around the token found |
| Numbers.NumberSpanExact | api/whatsapp-webhook.js:32 | every tail of that shape is recognised, with its own token |
| Numbers.NumberSpanOtherSep | api/whatsapp-webhook.js:32-34 | a tail of that shape for `-` is no tail for `=`, and the other way round |
| Numbers.NumberSpanOver | api/whatsapp-webhook.js:63 | white space in front of a tail does not change what it reads |
| Numbers.DecimalCopy | api/whatsapp-webhook.js:68 | a number token copied character for character to the end of another string is a token there with the same value |
| Fields.CustomerName | api/whatsapp-webhook.js:13-17 | `extractCustomerName`: a name it finds is non-empty, trimmed and shorter than the message; NameRestSound and NameRestExact say which first lines give one |
| Fields.NameRest | api/whatsapp-webhook.js:15 | the `(.+)` capture of the name pattern: a non-empty suffix of the line after at least the 13 characters of `ordersummary-`; NameRestSound and NameRestExact say which lines give one |
| Fields.NameRestSound | api/whatsapp-webhook.js:15 | a first line is recognised only if it has the shape `order\s*summary\s*-` (any case) followed by at least one character |
| Fields.NameRestExact | api/whatsapp-webhook.js:15 | every line of that shape is recognised, and the rest after its dash is captured |
| Fields.NameIn | api/whatsapp-webhook.js:16 | the name is trimmed, shorter than the line and never empty: an empty trimmed capture becomes null (`\|\| null`) |
| Fields.CustomerNameFirstLineOnly | api/whatsapp-webhook.js:13-17 | only the text before the first newline decides the customer name; later lines never do |
| Fields.NameFromOrderSummaryLine | api/whatsapp-webhook.js:15-16 | a first line of the pattern's shape gives the trimmed rest after its dash |
| Fields.NameWithoutSpaces | api/whatsapp-webhook.js:15 | `OrderSummary-X` gives `X`: no spaces are needed between the words and the dash |
| Fields.LabelValue | api/whatsapp-webhook.js:20-24 | the value one line gives for a label is trimmed and shorter than the line; LabelRestSound and LabelRestExact say which lines give one |
| Fields.LabelRest | api/whatsapp-webhook.js:20 | the `(.+)` capture of the label pattern: a non-empty suffix of the line after at least the label and the dash; LabelRestSound and LabelRestExact say which lines give one |
| Fields.LabelRestSound | api/whatsapp-webhook.js:20 | a line is recognised for a label only if it is white space, the label (any case), white space, `-` and at least one character |
| Fields.LabelRestExact | api/whatsapp-webhook.js:20 | every line of that shape is recognised, and the rest after its first dash is captured |
| Fields.FirstLabelLine | api/whatsapp-webhook.js:22-25 | the index found is that of a matching line, no earlier line matches, and the end means no line matches |
| Fields.FirstLabelValue | api/whatsapp-webhook.js:19-27 | what `extractAfterDash` returns: a value found is trimmed; FirstLabelValueFirst says it is that of the first matching line, and None when none matches |
| Fields.FirstLabelValueFirst | api/whatsapp-webhook.js:22-26 | the value is null exactly when no line matches; otherwise it is that of a matching line with none before it |
| Fields.ExtractAfterDash | api/whatsapp-webhook.js:19-27 | the loop with its early return gives the value of the first matching normalised line, or null |
| Fields.FirstLabelValueIgnoresLater | api/whatsapp-webhook.js:22-25 | lines after the first match, other matches of the same label included, are never looked at |
| Fields.FirstLabelValueSkips | api/whatsapp-webhook.js:22-25 | lines that do not match are skipped |
| Fields.LabelValueNonEmpty | api/whatsapp-webhook.js:24-25 | on a normalised line, a matched value is never empty |
| Fields.FirstLabelValueNonEmpty | api/whatsapp-webhook.js:24-25 | whatever `extractAfterDash` returns for a message is a non-empty string, so it is truthy |
| Fields.LabelLineValue | api/whatsapp-webhook.js:20-25 | the line `<label> - <v>` gives `v` for any non-empty trimmed `v`, whatever dashes it holds |
| Fields.ValueKeepsLaterDashes | api/whatsapp-webhook.js:20-25 | `Location - 12 Oak St - Apt 3` gives `12 Oak St - Apt 3` |
| Items.FirstPriceTail | api/whatsapp-webhook.js:63 | the lazy name ends where a price tail starts |
| Items.FirstPriceTailFirst | api/whatsapp-webhook.js:63 | no price tail starts before the one found, and none at all when none is found |
| Items.ItemSpan | api/whatsapp-webhook.js:63 | the name sits after the quantity digits and ends where a price tail starts |
| Items.ItemAt | api/whatsapp-webhook.js:65-69 | the pushed item: its name is trimmed and no longer than the captured span, and its line total is never negative |
| Items.ParseItemLine | api/whatsapp-webhook.js:63-69 | the item one line gives has a trimmed name shorter than the line and a non-negative line total; ParseItemLineExact and ParseItemLineSound say which lines give one and what it holds |
| Items.ParseItemLineExact | api/whatsapp-webhook.js:63 | a line is read as an item exactly when it is digits, white space, a non-empty name and a price tail |
| Items.ParseItemLineComplete | api/whatsapp-webhook.js:63 | every line of that shape is matched, by the greedy spaces or with one space given back |
| Items.ParseItemLineSound | api/whatsapp-webhook.js:63-69 | a read item comes from a match of that shape with the shortest name: the name trimmed, the quantity `parseInt` of the digits, the total `Number` of the price token |
| Items.ItemSpanShape | api/whatsapp-webhook.js:63 | the span found has the pattern's shape, and no shorter name would do |
| Items.ItemLineParts | api/whatsapp-webhook.js:63-69 | `<q> <name> - <price>` with a trimmed name reads back as that quantity, name and price, whatever dashes the name holds |
| Items.ItemLineRead | api/whatsapp-webhook.js:63-69 | a line of digits, a space, a trimmed name, ` - ` and a number token to the end parses as that name, quantity and price: the lazy name cannot stop at an earlier dash |
| Items.DashInName | api/whatsapp-webhook.js:63-69 | `2 Widget - Blue - 10.00` gives name `Widget - Blue`, quantity 2 and total 10 |
| Items.ItemsOfLine | api/whatsapp-webhook.js:63-70 | a line adds at most one item, and adds none exactly when the pattern fails |
| Items.Roles | api/whatsapp-webhook.js:46-61 | every line has exactly one role, in line order |
| Items.RolesAt | api/whatsapp-webhook.js:46-61 | the role of each line is read from that line alone: header first, then terminator, then item line |
| Items.FirstHeader | api/whatsapp-webhook.js:47-51 | the index found holds an `items:` line, or is the end |
| Items.FirstHeaderFirst | api/whatsapp-webhook.js:47-51 | no line before the first header is a header |
| Items.BlockEnd | api/whatsapp-webhook.js:53-61 | the index found holds a terminating line, or is the end |
| Items.BlockEndFirst | api/whatsapp-webhook.js:53-61 | no line before the end of the block terminates it |
| Items.ExtractItems | api/whatsapp-webhook.js:40-73 | the loop with its flag, `continue` and `break` gives the items of the block after the first `items:` line, up to the first terminating line |
| Items.BlockItems | api/whatsapp-webhook.js:46-72 | the block definition the loop is proved against: BlockAt and ItemsBlock say it holds exactly the items of the lines between the first `items:` line and the first terminator after it |
| Items.ItemsOf | api/whatsapp-webhook.js:40-73 | what `extractItems` returns for a message, the block items of its normalised lines; ExtractItems is proved equal to it |
| Items.Scan | api/whatsapp-webhook.js:46-71 | the loop as a state machine over the line index, the `insideItems` flag and the items so far; ScanIsBlockItems says it gives the block's items |
| Items.ScanIsBlockItems | api/whatsapp-webhook.js:46-72 | the loop's state machine, run from the start, gives the block's items |
| Items.ScanBeforeHeader | api/whatsapp-webhook.js:47-51 | before the first header nothing is collected, terminators included |
| Items.ScanInBlock | api/whatsapp-webhook.js:53-71 | inside the block every line adds its items until the block's end; headers add nothing |
| Items.IsItemsHeader | api/whatsapp-webhook.js:47 | `/^items:/i`: such a line has its colon at index 5 |
| Items.StartsWithWord | api/whatsapp-webhook.js:54-58 | `/^<word>\b/i`: the word at the start in any case, then the end of the line or a character that is not a letter, digit or `_`; LongerWordIsNoTerminator and TotalLineIsTerminator show both sides |
| Items.IsTerminator | api/whatsapp-webhook.js:54-58 | `total`, `delivery`, `location`, `contact` or `payment` as a whole word at the start, in any case: a terminating line is never an `items:` line |
| Items.HeaderIsNoItem | api/whatsapp-webhook.js:47-50 | an `items:` line neither ends the block nor reads as an item |
| Items.CollectLines | api/whatsapp-webhook.js:63-70 | in a stretch without terminators the items collected are those of every line, in order |
| Items.BlockAt | api/whatsapp-webhook.js:46-72 | when line `h` is the first header and `e` the first terminator after it (or the end), the items are those of lines `h+1` to `e` |
| Items.ItemsBlock | api/whatsapp-webhook.js:40-72 | with no header before `header` and no terminator in `body` up to an empty or terminator-led `post`, the items are exactly those of `body`'s lines in order: earlier lines, later headers and everything from the terminator on add nothing |
| Items.NoHeaderNoItems | api/whatsapp-webhook.js:46-51 | without an `items:` line the result is empty |
| Items.LongerWordIsNoTerminator | api/whatsapp-webhook.js:54 | `Totals 30` does not end the block: `\b` needs a non-word character |
| Items.TotalLineIsTerminator | api/whatsapp-webhook.js:54 | `TOTAL - 30` ends the block, in any case |
| Totals.Round2 | api/whatsapp-webhook.js:75-77 | the result is a whole number of cents within half a cent of the input, halves up |
| Totals.Round2Cents | api/whatsapp-webhook.js:75-77 | a whole number of cents is left as it is |
| Totals.Round2Idempotent | api/whatsapp-webhook.js:75-77 | rounding twice is rounding once, so the repeated rounding at lines 94, 100 and 112 changes nothing |
| Totals.Round2Halves | api/whatsapp-webhook.js:76 | halves go up, also below zero: 0.125 gives 0.13 and -0.125 gives -0.12 |
| Totals.Sum | api/whatsapp-webhook.js:80 | the `reduce` over `line_total`, left to right: never negative when no line total is; SumAppend and SumOfLineTotals say how it combines |
| Totals.SumAppend | api/whatsapp-webhook.js:80 | the sum over a concatenation is the sum of the two sums |
| Totals.SumOfLineTotals | api/whatsapp-webhook.js:80 | the sum depends on the line totals only; quantities are not multiplied in |
| Totals.SumLineTotals | api/whatsapp-webhook.js:79-81 | the result is whole cents within half a cent of the plain sum, and 0 for no items |
| Totals.TotalMatch | api/whatsapp-webhook.js:32-35 | one of the two total patterns: a total it reads is non-negative and its line starts with `total` in any case |
| Totals.TotalIn | api/whatsapp-webhook.js:32-35 | the `-` form first, then the `=` form: a stated total is non-negative and its line starts with `total`; TotalInSound and TotalInExact say which lines state one |
| Totals.TotalInSound | api/whatsapp-webhook.js:32-35 | a line states a total only if it is `total`, white space, `-` or `=`, white space and a number to the end of the line; the total is that number |
| Totals.TotalInExact | api/whatsapp-webhook.js:32-35 | every such line states its number, whichever separator it uses |
| Totals.FirstTotalLine | api/whatsapp-webhook.js:31-36 | the index found holds a total line, no earlier line does, and the end means none does |
| Totals.FirstTotal | api/whatsapp-webhook.js:29-38 | what `extractTotalNumber` returns: a total found is never negative; FirstTotalFirst says it is that of the first total line, and None when none exists |
| Totals.FirstTotalFirst | api/whatsapp-webhook.js:31-37 | the total is null exactly when no line states one; otherwise it is that of a total line with none before it |
| Totals.ExtractTotalNumber | api/whatsapp-webhook.js:29-38 | the loop with its two matches and early returns gives the total of the first line that states one, or null |
| Totals.ColonIsNoSeparator | api/whatsapp-webhook.js:32-35 | `Total: 25` states no total |
| Totals.TrailingUnitIsNoTotal | api/whatsapp-webhook.js:32-35 | `Total - 25 AED` states no total |
| Totals.EqualsForm | api/whatsapp-webhook.js:34-35 | `TOTAL=7.50` states 7.5 |
| Order.Truthy | api/whatsapp-webhook.js:97 | JavaScript truthiness of a field: null and the empty string are false; PresentIsTruthy shows the extractors never return the empty string |
| Order.Mismatch | api/whatsapp-webhook.js:99-101 | a stated total more than a cent from the computed one after rounding both: it needs the two to differ, and totals more than two cents apart always mismatch; CentsMismatch and OneCentIsTolerated give the exact threshold |
| Order.ReviewFor | api/whatsapp-webhook.js:96-102 | the review rule: `'no'` only when the four required fields are truthy, and `'yes'` whenever the totals mismatch; ReviewExactly gives both directions |
| Order.Record | api/whatsapp-webhook.js:94-114 | the record built from the extractors' results: its computed total is `sumLineTotals` of its items and its stated total is whole cents |
| Order.OrderOf | api/whatsapp-webhook.js:104-114 | the record for a message: a customer name in it is non-empty and trimmed; RecordReview and RecordTotals say what the rest holds |
| Order.ParseMessage | api/whatsapp-webhook.js:83-115 | the record holds each extractor's result, and it is flagged exactly when a required field is null or its rounded stated total is more than 0.01 from its computed total |
| Order.Decide | api/whatsapp-webhook.js:96-102 | `requires_review`, set from the four required fields and then possibly raised by the total check, is the review rule |
| Order.RecordReview | api/whatsapp-webhook.js:96-113 | the review flag can be read off the record: a required field missing, or the record's two totals more than a cent apart |
| Order.RecordFlagged | api/whatsapp-webhook.js:96-102 | on any record whose field values are truthy exactly when present, review is a missing field or totals more than a cent apart |
| Order.ReviewExactly | api/whatsapp-webhook.js:96-102 | review is needed exactly when the name, delivery date, delivery time or phone is missing, or the totals mismatch; the address plays no part |
| Order.PresentIsTruthy | api/whatsapp-webhook.js:24 | a value the label extractor finds is never empty, so it is truthy exactly when present |
| Order.ReviewByPresence | api/whatsapp-webhook.js:96-102 | when truthiness is presence, the review rule flags exactly a missing field or a mismatch |
| Order.RecordTotals | api/whatsapp-webhook.js:94-112 | the record's computed total is `sumLineTotals` of its items, its stated total is whole cents, and comparing them is the check at line 100 |
| Order.RecordTotalsOf | api/whatsapp-webhook.js:94-101 | a record's computed total is `sumLineTotals` of its items, its stated total is whole cents, and its totals are apart exactly on a mismatch |
| Order.CentsMismatch | api/whatsapp-webhook.js:100-101 | two whole-cent totals count as a mismatch exactly when they are at least two cents apart |
| Order.OneCentIsTolerated | api/whatsapp-webhook.js:100-101 | a one-cent difference does not flag the order; a two-cent difference does |
| Order.TotalCheckOnlyAdds | api/whatsapp-webhook.js:96-102 | the total check can only turn `'no'` into `'yes'`, and only on a mismatch |
| Order.LineTotalsAreNotMultiplied | api/whatsapp-webhook.js:79-101 | items `2 Widget - 10.00` and `1 Gadget - 5.00` give 15.00, so a stated 25.00 mismatches and a stated 15.00 does not |

## Left out

- `handler` (api/whatsapp-webhook.js:117-184) is left out. It is HTTP glue: request dispatch, webhook
  verification, payload digging, the Supabase insert and logging.
- The Supabase client and `process.env` (api/whatsapp-webhook.js:1-6) are left out. They are a foreign library and environment access.
- Numbers are exact reals, not IEEE-754 doubles. This affects `Number`, the sum in
  `reduce` and `Math.round(x * 100) / 100`, so floating-point noise is not
  modelled. Two examples:
  - `round2(2.675)` is 2.67 in JavaScript but 2.68 here.
  - A difference of one cent can evaluate slightly above 0.01 with doubles; here it is exactly 0.01.
- Totals.Round2: does not model the `Number(n) || 0` coercion. Every caller
  passes a number that is never NaN.
- Totals.SumLineTotals: does not model the `Number(it.line_total) || 0`
  coercion. Every item's total comes from `Number` of a digit token.
- Numbers.DigitsValue: `parseInt` is an exact natural number. The precision limit of doubles on very long digit runs is not modelled.
- White space is ASCII only: space, tab, newline, carriage return, vertical tab and form feed.
  JavaScript's `trim()` and `\s` also accept Unicode spaces.
- Case folding under the `i` flag is ASCII only.
- The regex `.` is modelled as any character. This is exact here: every line the patterns see has no
  `\n` or `\r`. The Unicode line separators U+2028 and U+2029 are left out.
- The patterns are not run through a general regex engine. Each fixed pattern
  (lines 15, 20, 32, 34, 47, 54-58 and 63) is its own predicate or scanner.
- Fields.LabelRest: the label is matched as literal text, while line 20 splices it into the
  pattern's source, where regex metacharacters would act as operators. The four labels passed at
  lines 86-89 hold only letters and a space, so for them the two agree.
