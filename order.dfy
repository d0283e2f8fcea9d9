/**
  The orchestrator `parseMessage` (api/whatsapp-webhook.js:83-115): it runs
  every extractor over the same message, reconciles the stated total with
  the computed one and decides `requires_review`.
*/
module Order {
  import opened Wrappers
  import opened Text
  import opened Fields
  import opened Items
  import opened Totals

  /** The two values of `requires_review`. */
  datatype Review = No | Yes

  /** The record `parseMessage` returns. */
  datatype ParsedOrder = ParsedOrder(
    customerName: Option<string>,
    deliveryDate: Option<string>,
    deliveryTime: Option<string>,
    address: Option<string>,
    phone: Option<string>,
    items: seq<LineItem>,
    statedTotal: Option<real>,
    computedTotal: real,
    requiresReview: Review)

  /** JavaScript truthiness of a string or null: null and the empty string are falsy. */
  predicate Truthy(v: Option<string>) {
    v.Some? && v.value != []
  }

  function Abs(x: real): (r: real)
    ensures r >= 0.0 && (r == x || r == -x)
  {
    if x < 0.0 then -x else x
  }

  /** A stated total exists and the rounded totals differ by more than a cent. */
  predicate Mismatch(stated: Option<real>, computed: real)
    ensures Mismatch(stated, computed) ==> stated.Some? && stated.value != computed
    ensures stated.Some? && Abs(stated.value - computed) > 0.02 ==> Mismatch(stated, computed)
  {
    stated.Some? && Abs(Round2(stated.value) - Round2(computed)) > 0.01
  }

  /**
    The review rule: review unless the four required fields are truthy and
    the totals reconcile. The address is not among them.
  */
  function ReviewFor(name: Option<string>, date: Option<string>, time: Option<string>, phone: Option<string>,
                     stated: Option<real>, computed: real): (r: Review)
    ensures r == No ==> Truthy(name) && Truthy(date) && Truthy(time) && Truthy(phone)
    ensures Mismatch(stated, computed) ==> r == Yes
  {
    if Truthy(name) && Truthy(date) && Truthy(time) && Truthy(phone) && !Mismatch(stated, computed) then No else Yes
  }

  /** The record `parseMessage` builds from the extractors' results (lines 96-114). */
  function Record(name: Option<string>, date: Option<string>, time: Option<string>, address: Option<string>,
                  phone: Option<string>, items: seq<LineItem>, stated: Option<real>): (order: ParsedOrder)
    ensures order.computedTotal == SumLineTotals(order.items)
    ensures order.statedTotal.Some? ==> IsCents(order.statedTotal.value)
  {
    var computed := SumLineTotals(items);
    Round2Cents(computed);
    ParsedOrder(name, date, time, address, phone, items,
      if stated.Some? then Some(Round2(stated.value)) else None,
      Round2(computed), ReviewFor(name, date, time, phone, stated, computed))
  }

  /** The record for a message, from the extractors' specifications. */
  function OrderOf(text: string): (order: ParsedOrder)
    ensures order.customerName.Some? ==> order.customerName.value != [] && IsTrimmed(order.customerName.value)
  {
    var lines := Lines(text);
    Record(CustomerName(text), FirstLabelValue(lines, "Delivery Date"), FirstLabelValue(lines, "Delivery Time"),
      FirstLabelValue(lines, "Location"), FirstLabelValue(lines, "Contact"), ItemsOf(text), FirstTotal(lines))
  }

  /** What the record itself shows: a required field missing, or its two totals more than a cent apart. */
  predicate Flagged(order: ParsedOrder) {
    order.customerName.None? || order.deliveryDate.None? || order.deliveryTime.None? || order.phone.None?
    || (order.statedTotal.Some? && Abs(order.statedTotal.value - order.computedTotal) > 0.01)
  }

  /** `parseMessage` (api/whatsapp-webhook.js:83-115). */
  method ParseMessage(text: string) returns (order: ParsedOrder)
    ensures order == OrderOf(text)
    ensures order.requiresReview == Yes <==> Flagged(order)
  {
    var customerName := CustomerName(text);
    var deliveryDate := ExtractAfterDash(text, "Delivery Date");
    var deliveryTime := ExtractAfterDash(text, "Delivery Time");
    var address := ExtractAfterDash(text, "Location");
    var phone := ExtractAfterDash(text, "Contact");
    var items := ExtractItems(text);
    var statedTotal := ExtractTotalNumber(text);
    var computedTotal := SumLineTotals(items);
    var requiresReview := Decide(customerName, deliveryDate, deliveryTime, phone, statedTotal, computedTotal);
    order := ParsedOrder(customerName, deliveryDate, deliveryTime, address, phone, items,
      if statedTotal.Some? then Some(Round2(statedTotal.value)) else None,
      Round2(computedTotal), requiresReview);
    RecordReview(text);
  }

  /** Lines 96-102: `requires_review` from the required fields, then possibly raised by the total check. */
  method Decide(customerName: Option<string>, deliveryDate: Option<string>, deliveryTime: Option<string>,
                phone: Option<string>, statedTotal: Option<real>, computedTotal: real) returns (requiresReview: Review)
    ensures requiresReview == ReviewFor(customerName, deliveryDate, deliveryTime, phone, statedTotal, computedTotal)
  {
    requiresReview :=
      if Truthy(customerName) && Truthy(deliveryDate) && Truthy(deliveryTime) && Truthy(phone) then No else Yes;
    if statedTotal.Some? {
      var diff := Abs(Round2(statedTotal.value) - Round2(computedTotal));
      if diff > 0.01 {
        requiresReview := Yes;
      }
    }
  }

  /** The review decision read off the record itself: a field missing, or the record's totals apart. */
  lemma RecordReview(text: string)
    ensures OrderOf(text).requiresReview == Yes <==> Flagged(OrderOf(text))
  {
    var lines := Lines(text);
    var date := FirstLabelValue(lines, "Delivery Date");
    var time := FirstLabelValue(lines, "Delivery Time");
    var phone := FirstLabelValue(lines, "Contact");
    assert OrderOf(text)
      == Record(CustomerName(text), date, time, FirstLabelValue(lines, "Location"), phone, ItemsOf(text), FirstTotal(lines));
    PresentIsTruthy(text, "Delivery Date");
    PresentIsTruthy(text, "Delivery Time");
    PresentIsTruthy(text, "Contact");
    RecordFlagged(CustomerName(text), date, time, FirstLabelValue(lines, "Location"), phone, ItemsOf(text), FirstTotal(lines));
  }

  /** On the record itself, when truthiness is presence, review is exactly what Flagged reads off it. */
  lemma RecordFlagged(name: Option<string>, date: Option<string>, time: Option<string>, address: Option<string>,
                      phone: Option<string>, items: seq<LineItem>, stated: Option<real>)
    requires (Truthy(name) <==> name.Some?) && (Truthy(date) <==> date.Some?)
    requires (Truthy(time) <==> time.Some?) && (Truthy(phone) <==> phone.Some?)
    ensures Record(name, date, time, address, phone, items, stated).requiresReview == Yes
      <==> Flagged(Record(name, date, time, address, phone, items, stated))
  {
    ReviewByPresence(name, date, time, phone, stated, SumLineTotals(items));
  }

  /**
    Review is needed exactly when a required field is missing or the totals
    disagree: the extractors never return an empty string, so truthiness is
    presence.
  */
  lemma ReviewExactly(text: string)
    ensures var lines := Lines(text);
      OrderOf(text).requiresReview == Yes <==>
        CustomerName(text).None? || FirstLabelValue(lines, "Delivery Date").None?
        || FirstLabelValue(lines, "Delivery Time").None? || FirstLabelValue(lines, "Contact").None?
        || Mismatch(FirstTotal(lines), SumLineTotals(ItemsOf(text)))
  {
    var lines := Lines(text);
    var date := FirstLabelValue(lines, "Delivery Date");
    var time := FirstLabelValue(lines, "Delivery Time");
    var phone := FirstLabelValue(lines, "Contact");
    PresentIsTruthy(text, "Delivery Date");
    PresentIsTruthy(text, "Delivery Time");
    PresentIsTruthy(text, "Contact");
    assert OrderOf(text)
      == Record(CustomerName(text), date, time, FirstLabelValue(lines, "Location"), phone, ItemsOf(text), FirstTotal(lines));
    ReviewByPresence(CustomerName(text), date, time, phone, FirstTotal(lines), SumLineTotals(ItemsOf(text)));
  }

  /** A value `extractAfterDash` finds is never the empty string, so it is truthy exactly when present. */
  lemma PresentIsTruthy(text: string, key: string)
    ensures Truthy(FirstLabelValue(Lines(text), key)) <==> FirstLabelValue(Lines(text), key).Some?
  {
    if FirstLabelValue(Lines(text), key).Some? {
      FirstLabelValueNonEmpty(text, key);
    }
  }

  /** When truthiness is presence, the review rule asks for review exactly on a missing field or a mismatch. */
  lemma ReviewByPresence(name: Option<string>, date: Option<string>, time: Option<string>, phone: Option<string>,
                         stated: Option<real>, computed: real)
    requires (Truthy(name) <==> name.Some?) && (Truthy(date) <==> date.Some?)
    requires (Truthy(time) <==> time.Some?) && (Truthy(phone) <==> phone.Some?)
    ensures ReviewFor(name, date, time, phone, stated, computed) == Yes <==>
      name.None? || date.None? || time.None? || phone.None? || Mismatch(stated, computed)
  {
  }

  /**
    The record's totals are cents, the computed one is `sumLineTotals` of
    the record's items, and comparing the record's two totals is the check
    `parseMessage` makes.
  */
  lemma RecordTotals(text: string)
    ensures OrderOf(text).computedTotal == SumLineTotals(OrderOf(text).items)
    ensures OrderOf(text).statedTotal.Some? ==> IsCents(OrderOf(text).statedTotal.value)
    ensures Mismatch(FirstTotal(Lines(text)), SumLineTotals(OrderOf(text).items)) <==>
      OrderOf(text).statedTotal.Some? && Abs(OrderOf(text).statedTotal.value - OrderOf(text).computedTotal) > 0.01
  {
    var lines := Lines(text);
    var date := FirstLabelValue(lines, "Delivery Date");
    var time := FirstLabelValue(lines, "Delivery Time");
    var phone := FirstLabelValue(lines, "Contact");
    RecordTotalsOf(OrderOf(text), CustomerName(text), date, time, FirstLabelValue(lines, "Location"), phone,
      ItemsOf(text), FirstTotal(lines));
  }

  /** The totals of a record built from a stated and a computed total. */
  lemma RecordTotalsOf(order: ParsedOrder, name: Option<string>, date: Option<string>, time: Option<string>,
                       address: Option<string>, phone: Option<string>, items: seq<LineItem>, stated: Option<real>)
    requires order == Record(name, date, time, address, phone, items, stated)
    ensures order.computedTotal == SumLineTotals(order.items)
    ensures order.statedTotal.Some? ==> IsCents(order.statedTotal.value)
    ensures Mismatch(stated, SumLineTotals(order.items)) <==>
      order.statedTotal.Some? && Abs(order.statedTotal.value - order.computedTotal) > 0.01
  {
  }

  /** Two whole-cent totals mismatch exactly when they are at least two cents apart. */
  lemma CentsMismatch(stated: real, computed: real)
    requires IsCents(stated) && IsCents(computed)
    ensures Mismatch(Some(stated), computed) <==> Abs(stated - computed) >= 0.02
  {
    Round2Cents(stated);
    Round2Cents(computed);
    var s := (stated * 100.0).Floor;
    var c := (computed * 100.0).Floor;
    assert stated - computed == (s - c) as real / 100.0;
  }

  /** In exact arithmetic a one-cent difference does not flag the order. */
  lemma OneCentIsTolerated(computed: real)
    requires IsCents(computed)
    ensures !Mismatch(Some(computed + 0.01), computed)
    ensures Mismatch(Some(computed + 0.02), computed)
  {
    var c := (computed * 100.0).Floor;
    assert (computed + 0.01) * 100.0 == (c + 1) as real;
    assert (computed + 0.02) * 100.0 == (c + 2) as real;
    CentsMismatch(computed + 0.01, computed);
    CentsMismatch(computed + 0.02, computed);
  }

  /** Without a stated total only the required fields decide: the total check can only add a review. */
  lemma TotalCheckOnlyAdds(name: Option<string>, date: Option<string>, time: Option<string>, phone: Option<string>,
                           stated: Option<real>, computed: real)
    ensures ReviewFor(name, date, time, phone, None, computed) == No ==>
      ReviewFor(name, date, time, phone, stated, computed) == No || Mismatch(stated, computed)
    ensures ReviewFor(name, date, time, phone, None, computed) == Yes ==>
      ReviewFor(name, date, time, phone, stated, computed) == Yes
  {
  }

  /**
    The items `2 Widget - 10.00` and `1 Gadget - 5.00` give a computed
    total of 15.00, not 25.00: `line_total` is summed as it stands. So
    `Total - 25.00` flags the order and `Total - 15.00` does not.
  */
  lemma LineTotalsAreNotMultiplied(items: seq<LineItem>)
    requires items == [LineItem("Widget", 2, 10.0), LineItem("Gadget", 1, 5.0)]
    ensures SumLineTotals(items) == 15.0
    ensures Mismatch(Some(25.0), SumLineTotals(items))
    ensures !Mismatch(Some(15.0), SumLineTotals(items))
  {
    assert Totals.Sum(items[..1]) == 10.0;
    assert (15.0 * 100.0 + 0.5).Floor == 1500;
    assert (25.0 * 100.0 + 0.5).Floor == 2500;
  }
}
