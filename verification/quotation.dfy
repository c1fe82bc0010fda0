/**
 * The quotation page: what each product line adds, the subtotal fold, tax and
 * grand total, the quotation number, and the checks that guard saving (and
 * printing) a quotation.
 */
module Quotation {
  import opened Wrappers
  import opened Text
  import opened Numbers

  /**
   * One product line of a quotation, with the fields the page and the PDF
   * templates read. A missing text field is "": where the page tests a text
   * field for truthiness, `undefined` and "" behave alike. A missing number is
   * taken as 0, which the page does not do: `product.price * product.quantity`
   * with an `undefined` operand is NaN, and the NaN spreads into the totals.
   */
  datatype QuotedProduct = QuotedProduct(
    brand: string,
    productCode: string,
    shade: string,
    area: real,
    boxes: real,
    price: real,
    quantity: real,
    discount: real)

  /** Price times quantity, before the discount. */
  function GrossAmount(p: QuotedProduct): real {
    Amount(p.price, p.quantity)
  }

  /** What one line adds to the subtotal: its gross amount less its discount percentage. */
  function LineAmount(p: QuotedProduct): (r: real)
    ensures r == GrossAmount(p) * (1.0 - p.discount / 100.0)
  {
    DiscountedTotal(GrossAmount(p), p.discount)
  }

  /** A line whose price and quantity are non-negative and whose discount is a percentage. */
  predicate ValidLine(p: QuotedProduct) {
    0.0 <= p.price && 0.0 <= p.quantity && 0.0 <= p.discount <= 100.0
  }

  /** A valid line adds something between nothing and its undiscounted amount. */
  lemma LineWithinGross(p: QuotedProduct)
    requires ValidLine(p)
    ensures 0.0 <= LineAmount(p) <= GrossAmount(p)
  {
    var g := GrossAmount(p);
    assert 0.0 <= g;
    assert g * p.discount <= g * 100.0;
  }

  /**
   * The row total the page displays, computed the other way round: the unit
   * price is discounted first and then multiplied by the quantity.
   */
  function DisplayedRowTotal(p: QuotedProduct): real {
    Amount(p.price - p.price * p.discount / 100.0, p.quantity)
  }

  /** The displayed row total is exactly what the line adds to the subtotal. */
  lemma DisplayedRowIsLine(p: QuotedProduct)
    ensures DisplayedRowTotal(p) == LineAmount(p)
  {
    var d := p.discount / 100.0;
    assert p.price * p.discount / 100.0 == p.price * d;
    assert Amount(p.price, p.quantity) * p.discount / 100.0 == p.price * p.quantity * d;
    assert (p.price - p.price * d) * p.quantity == p.price * p.quantity - p.price * p.quantity * d;
  }

  // ---------------------------------------------------------------------------
  // Totals

  /** Sum of the gross amounts, in list order. */
  function GrossTotal(ps: seq<QuotedProduct>): real
    decreases |ps|
  {
    if |ps| == 0 then 0.0 else GrossTotal(ps[..|ps| - 1]) + GrossAmount(ps[|ps| - 1])
  }

  /** All lines are valid. */
  predicate ValidLines(ps: seq<QuotedProduct>) {
    forall i :: 0 <= i < |ps| ==> ValidLine(ps[i])
  }

  /**
   * `calculateSubtotal`: `reduce` from 0 over the lines in order, each adding
   * its discounted amount. With valid lines it lies between 0 and the gross total.
   */
  function Subtotal(ps: seq<QuotedProduct>): (r: real)
    ensures ValidLines(ps) ==> 0.0 <= r <= GrossTotal(ps)
    decreases |ps|
  {
    if |ps| == 0 then 0.0
    else
      var init := ps[..|ps| - 1];
      var last := ps[|ps| - 1];
      assert ValidLines(ps) ==> ValidLines(init) && ValidLine(last);
      if ValidLines(ps) then LineWithinGross(last); Subtotal(init) + LineAmount(last)
      else Subtotal(init) + LineAmount(last)
  }

  /** The sum of the line amounts, taken from the front: an independent reading of the subtotal. */
  function SumOfLines(ps: seq<QuotedProduct>): real
    decreases |ps|
  {
    if |ps| == 0 then 0.0 else LineAmount(ps[0]) + SumOfLines(ps[1..])
  }

  /** The subtotal of a concatenation is the sum of the subtotals. */
  lemma {:induction false} SubtotalAppend(a: seq<QuotedProduct>, b: seq<QuotedProduct>)
    ensures Subtotal(a + b) == Subtotal(a) + Subtotal(b)
    decreases |b|
  {
    if |b| == 0 {
      assert a + b == a;
    } else {
      var b0 := b[..|b| - 1];
      assert (a + b)[..|a + b| - 1] == a + b0;
      assert (a + b)[|a + b| - 1] == b[|b| - 1];
      SubtotalAppend(a, b0);
    }
  }

  /** The left fold and the sum from the front agree: the order of the lines does not change the subtotal. */
  lemma {:induction false} SubtotalIsSumOfLines(ps: seq<QuotedProduct>)
    ensures Subtotal(ps) == SumOfLines(ps)
    decreases |ps|
  {
    if |ps| > 0 {
      assert ps == [ps[0]] + ps[1..];
      SubtotalAppend([ps[0]], ps[1..]);
      assert [ps[0]][..0] == [];
      SubtotalIsSumOfLines(ps[1..]);
    }
  }

  /** `subtotal * taxRate / 100`. */
  function TaxAmount(subtotal: real, taxRate: real): (r: real)
    ensures r * 100.0 == subtotal * taxRate
  {
    subtotal * taxRate / 100.0
  }

  datatype Totals = Totals(subtotal: real, taxAmount: real, grandTotal: real)

  /**
   * `calculateSubtotal`, `calculateTaxAmount` and `calculateGrandTotal` together:
   * the tax is the rate's percentage of the subtotal, the grand total adds the
   * tax, and with a non-negative rate on a non-negative subtotal the grand total
   * is at least the subtotal.
   */
  function ComputeTotals(ps: seq<QuotedProduct>, taxRate: real): (t: Totals)
    ensures t.subtotal == Subtotal(ps)
    ensures t.taxAmount * 100.0 == t.subtotal * taxRate
    ensures t.grandTotal == t.subtotal + t.taxAmount
    ensures 0.0 <= taxRate && 0.0 <= t.subtotal ==> t.subtotal <= t.grandTotal
  {
    var subtotal := Subtotal(ps);
    var tax := TaxAmount(subtotal, taxRate);
    assert 0.0 <= taxRate && 0.0 <= subtotal ==> 0.0 <= subtotal * taxRate;
    Totals(subtotal, tax, subtotal + tax)
  }

  /** With valid lines and a non-negative rate, every total is non-negative and ordered. */
  lemma TotalsOrdered(ps: seq<QuotedProduct>, taxRate: real)
    requires ValidLines(ps) && 0.0 <= taxRate
    ensures var t := ComputeTotals(ps, taxRate);
      0.0 <= t.subtotal <= GrossTotal(ps) && 0.0 <= t.taxAmount && t.subtotal <= t.grandTotal
  {
  }

  /** Two undiscounted lines, 2500 x 10 and 1800 x 5, at 18% tax. */
  lemma SampleTotals()
    ensures ComputeTotals([QuotedProduct("", "", "", 0.0, 0.0, 2500.0, 10.0, 0.0),
                           QuotedProduct("", "", "", 0.0, 0.0, 1800.0, 5.0, 0.0)], 18.0)
            == Totals(34000.0, 6120.0, 40120.0)
  {
    var a := QuotedProduct("", "", "", 0.0, 0.0, 2500.0, 10.0, 0.0);
    var b := QuotedProduct("", "", "", 0.0, 0.0, 1800.0, 5.0, 0.0);
    assert [a, b][..1] == [a];
    assert [a][..0] == [];
    assert LineAmount(a) == 25000.0;
    assert LineAmount(b) == 9000.0;
    assert Subtotal([a, b]) == 34000.0;
  }

  // ---------------------------------------------------------------------------
  // The quotation template's totals

  /** One line as the on-screen template sums it: `price * quantity * (1 - discount / 100)`. */
  function TemplateLine(p: QuotedProduct): real {
    Amount(GrossAmount(p), 1.0 - p.discount / 100.0)
  }

  /** The template's `reduce` over the lines, in order. */
  function TemplateSubtotal(ps: seq<QuotedProduct>): real
    decreases |ps|
  {
    if |ps| == 0 then 0.0 else TemplateSubtotal(ps[..|ps| - 1]) + TemplateLine(ps[|ps| - 1])
  }

  /** The template's `calculateTotal`. */
  function TemplateTotals(ps: seq<QuotedProduct>, taxRate: real): (t: Totals)
    ensures t.subtotal == TemplateSubtotal(ps)
    ensures t.taxAmount * 100.0 == t.subtotal * taxRate && t.grandTotal == t.subtotal + t.taxAmount
  {
    var subtotal := TemplateSubtotal(ps);
    var tax := TaxAmount(subtotal, taxRate);
    Totals(subtotal, tax, subtotal + tax)
  }

  /** The template and the page compute the same subtotal, tax and total. */
  lemma {:induction false} TemplateTotalsAgree(ps: seq<QuotedProduct>, taxRate: real)
    ensures TemplateSubtotal(ps) == Subtotal(ps)
    ensures TemplateTotals(ps, taxRate) == ComputeTotals(ps, taxRate)
    decreases |ps|
  {
    if |ps| > 0 {
      var last := ps[|ps| - 1];
      TemplateTotalsAgree(ps[..|ps| - 1], taxRate);
      var g := GrossAmount(last);
      assert TemplateLine(last) == g * (1.0 - last.discount / 100.0);
      assert g * (1.0 - last.discount / 100.0) == g - g * last.discount / 100.0;
    }
  }

  // ---------------------------------------------------------------------------
  // Quotation number

  /** `s.substr(-2)`: the last two characters, or the whole of a shorter string. */
  function LastTwo(s: string): (r: string)
    ensures |s| >= 2 ==> |r| == 2 && r == s[|s| - 2..]
    ensures |s| < 2 ==> r == s
  {
    if |s| >= 2 then s[|s| - 2..] else s
  }

  lemma DigitCharValue(d: nat)
    requires d < 10
    ensures IsDigit(DigitChar(d)) && DigitValue(DigitChar(d)) == d
  {
  }

  /** Two digit characters read back as a two-digit number. */
  lemma PairValue(a: nat, b: nat)
    requires a < 10 && b < 10
    ensures AllDigits([DigitChar(a), DigitChar(b)])
    ensures DigitsValue([DigitChar(a), DigitChar(b)]) == 10 * a + b
  {
    DigitCharValue(a);
    DigitCharValue(b);
    var t := [DigitChar(a), DigitChar(b)];
    var u := [DigitChar(a)];
    assert t[..1] == u;
    assert u[..0] == [];
    assert DigitsValue(u) == DigitValue(DigitChar(a));
    assert DigitsValue(t) == 10 * DigitsValue(u) + DigitValue(DigitChar(b));
  }

  lemma TensAndUnits(n: nat)
    ensures 10 * (n / 10 % 10) + n % 10 == n % 100
  {
    var q, u := n / 10, n % 10;
    var h, t := q / 10, q % 10;
    assert n == 10 * q + u;
    assert q == 10 * h + t;
    HundredsRemainder(n, h, 10 * t + u);
  }

  /** Writing `n` as `100 * h + r` with `r` below 100 makes `r` the remainder. */
  lemma HundredsRemainder(n: nat, h: nat, r: nat)
    requires r < 100 && n == 100 * h + r
    ensures n % 100 == r
  {
  }

  /** The last two digits of a year from 10 on read back as the year modulo 100. */
  lemma YearDigits(year: nat)
    requires 10 <= year
    ensures |LastTwo(NatToString(year))| == 2
    ensures AllDigits(LastTwo(NatToString(year)))
    ensures DigitsValue(LastTwo(NatToString(year))) == year % 100
  {
    var s := NatToString(year);
    var head := NatToString(year / 10);
    var a := year / 10 % 10;
    var b := year % 10;
    assert s == head + [DigitChar(b)];
    assert head[|head| - 1] == DigitChar(a);
    assert LastTwo(s) == [DigitChar(a), DigitChar(b)];
    PairValue(a, b);
    TensAndUnits(year);
  }

  /** Date parts as the browser's clock reports them, and `Math.floor(Math.random() * 1000)`. */
  predicate ValidStamp(month: nat, day: nat, random: nat) {
    1 <= month <= 12 && 1 <= day <= 31 && random < 1000
  }

  /**
   * `generateQuotationNumber`: "PTM-", the year's last two digits, the month and
   * the day (two digits each), "-", and the random part as three digits. From year
   * 10 on it is always 14 characters long.
   */
  function QuotationNumber(year: nat, month: nat, day: nat, random: nat): (r: string)
    requires ValidStamp(month, day, random)
    ensures |r| >= 4 && r[..4] == "PTM-"
    ensures 10 <= year ==> |r| == 14
  {
    PaddedRoundTrip(month, 2);
    PaddedRoundTrip(day, 2);
    PaddedRoundTrip(random, 3);
    "PTM-" + (LastTwo(NatToString(year)) + (PadStart(NatToString(month), 2, '0')
      + (PadStart(NatToString(day), 2, '0') + ("-" + PadStart(NatToString(random), 3, '0')))))
  }

  datatype NumberParts = NumberParts(year2: nat, month: nat, day: nat, random: nat)

  /** Reads a quotation number of the generated shape back into its parts. */
  function ParseQuotationNumber(s: string): Option<NumberParts> {
    if |s| == 14 && s[..4] == "PTM-" && s[10] == '-'
       && AllDigits(s[4..6]) && AllDigits(s[6..8]) && AllDigits(s[8..10]) && AllDigits(s[11..])
    then Some(NumberParts(DigitsValue(s[4..6]), DigitsValue(s[6..8]), DigitsValue(s[8..10]), DigitsValue(s[11..])))
    else None
  }

  /** Where the parts sit in an assembled number. */
  lemma AssembledSlices(yy: string, mm: string, dd: string, rr: string)
    requires |yy| == 2 && |mm| == 2 && |dd| == 2 && |rr| == 3
    ensures var s := "PTM-" + (yy + (mm + (dd + ("-" + rr))));
      |s| == 14 && s[..4] == "PTM-" && s[4..6] == yy && s[6..8] == mm && s[8..10] == dd
      && s[10] == '-' && s[11..] == rr
  {
    var tail := dd + ("-" + rr);
    var s := "PTM-" + (yy + (mm + tail));
    assert s[4..] == yy + (mm + tail);
    assert s[6..] == mm + tail;
    assert s[8..] == tail;
  }

  /** Any number assembled from digit strings of the generated widths reads back into them. */
  lemma ParseAssembled(yy: string, mm: string, dd: string, rr: string)
    requires |yy| == 2 && |mm| == 2 && |dd| == 2 && |rr| == 3
    requires AllDigits(yy) && AllDigits(mm) && AllDigits(dd) && AllDigits(rr)
    ensures ParseQuotationNumber("PTM-" + (yy + (mm + (dd + ("-" + rr)))))
            == Some(NumberParts(DigitsValue(yy), DigitsValue(mm), DigitsValue(dd), DigitsValue(rr)))
  {
    AssembledSlices(yy, mm, dd, rr);
  }

  /** A generated number reads back as the year modulo 100, the month, the day and the random part. */
  lemma QuotationNumberRoundTrip(year: nat, month: nat, day: nat, random: nat)
    requires 10 <= year && ValidStamp(month, day, random)
    ensures ParseQuotationNumber(QuotationNumber(year, month, day, random))
            == Some(NumberParts(year % 100, month, day, random))
  {
    YearDigits(year);
    PaddedRoundTrip(month, 2);
    PaddedRoundTrip(day, 2);
    PaddedRoundTrip(random, 3);
    ParseAssembled(LastTwo(NatToString(year)), PadStart(NatToString(month), 2, '0'),
                   PadStart(NatToString(day), 2, '0'), PadStart(NatToString(random), 3, '0'));
  }

  // ---------------------------------------------------------------------------
  // Saving

  datatype Staff = Staff(id: string, name: string, position: string, staffCode: string)

  datatype Company = Company(name: string, address: string, city: string, state: string,
                             zipCode: string, phone: string, email: string)

  /** What the quotation form holds when it is saved. */
  datatype QuotationForm = QuotationForm(
    quotationNumber: string,
    quotationDate: string,
    validityDays: string,
    customerName: string,
    customerEmail: string,
    customerPhone: string,
    customerAddress: string,
    company: Company,
    products: seq<QuotedProduct>,
    taxRate: real,
    termsAndConditions: string)

  /** A stored quotation: the form, the salesperson, the totals, an id and a creation time. */
  datatype SavedQuotation = SavedQuotation(
    id: string,
    form: QuotationForm,
    staffId: string,
    staffName: string,
    staffPosition: string,
    staffCode: string,
    totals: Totals,
    createdAt: string)

  const CustomerMissing: string := "Please enter customer name"
  const StaffMissing: string := "Please select a salesperson"
  const SavedMessage: string := "Quotation saved successfully"

  /**
   * The checks before saving or printing, in the order the page makes them:
   * first a customer name, then a salesperson. `None` means both passed.
   */
  function CheckQuotation(customerName: string, staff: Option<Staff>): (r: Option<string>)
    ensures r.None? <==> customerName != "" && staff.Some?
    ensures customerName == "" ==> r == Some(CustomerMissing)
    ensures customerName != "" && staff.None? ==> r == Some(StaffMissing)
  {
    if customerName == "" then Some(CustomerMissing)
    else if staff.None? then Some(StaffMissing)
    else None
  }

  datatype Saved = Saved(quotations: seq<SavedQuotation>, message: string)

  /**
   * `handleSaveQuotation`: after the checks, the new quotation (with the fresh
   * `id` and the clock's `createdAt`) goes in front of the stored ones, which
   * keep their order.
   */
  function SaveQuotation(form: QuotationForm, staff: Option<Staff>, id: string, createdAt: string,
                         existing: seq<SavedQuotation>): (r: Result<Saved>)
    ensures r.Err? <==> CheckQuotation(form.customerName, staff).Some?
    ensures r.Err? ==> r.message == CheckQuotation(form.customerName, staff).value
    ensures r.Ok? ==> r.value.message == SavedMessage
    ensures r.Ok? ==> |r.value.quotations| == |existing| + 1 && r.value.quotations[1..] == existing
    ensures r.Ok? ==> var q := r.value.quotations[0];
      q.id == id && q.form == form && q.createdAt == createdAt
      && q.staffId == staff.value.id && q.staffName == staff.value.name
      && q.totals == ComputeTotals(form.products, form.taxRate)
  {
    match CheckQuotation(form.customerName, staff)
    case Some(message) => Err(message)
    case None =>
      var s := staff.value;
      var q := SavedQuotation(id, form, s.id, s.name, s.position, s.staffCode,
                              ComputeTotals(form.products, form.taxRate), createdAt);
      Ok(Saved([q] + existing, SavedMessage))
  }

  /** The list the page stores after a save: the new list on success, the old one when a check fails. */
  function StoredAfter(r: Result<Saved>, existing: seq<SavedQuotation>): seq<SavedQuotation> {
    if r.Ok? then r.value.quotations else existing
  }

  /** A failed check (customer or salesperson) saves nothing; a passed one adds exactly one quotation in front. */
  lemma SaveEffect(form: QuotationForm, staff: Option<Staff>, id: string, createdAt: string,
                   existing: seq<SavedQuotation>)
    ensures var r := SaveQuotation(form, staff, id, createdAt, existing);
      var stored := StoredAfter(r, existing);
      && (r.Err? <==> form.customerName == "" || staff.None?)
      && (r.Err? ==> stored == existing)
      && (r.Ok? ==> |stored| == |existing| + 1 && stored[1..] == existing && stored[0].id == id)
      && (r.Ok? ==> multiset(stored) == multiset(existing) + multiset{stored[0]})
  {
    var r := SaveQuotation(form, staff, id, createdAt, existing);
    if r.Ok? {
      var stored := r.value.quotations;
      assert stored == [stored[0]] + existing;
    }
  }

  /** Two passing saves in a row store the later quotation first, then the earlier one, then the old list. */
  lemma SaveTwiceNewestFirst(form1: QuotationForm, form2: QuotationForm, staff: Option<Staff>,
                             id1: string, id2: string, createdAt1: string, createdAt2: string,
                             existing: seq<SavedQuotation>)
    requires form1.customerName != "" && form2.customerName != "" && staff.Some?
    ensures var r1 := SaveQuotation(form1, staff, id1, createdAt1, existing);
      r1.Ok? &&
      var r2 := SaveQuotation(form2, staff, id2, createdAt2, r1.value.quotations);
      r2.Ok? && |r2.value.quotations| == |existing| + 2
      && r2.value.quotations[0].id == id2 && r2.value.quotations[0].form == form2
      && r2.value.quotations[1].id == id1 && r2.value.quotations[1].form == form1
      && r2.value.quotations[2..] == existing
  {
    var r1 := SaveQuotation(form1, staff, id1, createdAt1, existing);
    var r2 := SaveQuotation(form2, staff, id2, createdAt2, r1.value.quotations);
    assert r2.value.quotations[2..] == r1.value.quotations[1..];
  }
}
