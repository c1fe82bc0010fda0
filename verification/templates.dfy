/**
 * The text the PDF templates put on the page: the rows of the items table with
 * their composed product names and "N/A" fallbacks, the renumbered terms, the
 * tax label and the customer block. Where text goes on the page is not modelled.
 */
module Templates {
  import opened Wrappers
  import opened Text
  import Quotation

  const NotAvailable := "N/A"

  /** `s || 'N/A'` for a text field. */
  function OrNotAvailable(s: string): (r: string)
    ensures r == NotAvailable <==> s == "" || s == NotAvailable
    ensures s != "" ==> r == s
  {
    if s != "" then s else NotAvailable
  }

  // ---------------------------------------------------------------------------
  // Item rows

  /** The amount column: price times quantity, less the discount percentage of it. */
  function RowAmount(p: Quotation.QuotedProduct): (r: real)
    ensures r == Quotation.LineAmount(p)
  {
    var productTotal := p.price * p.quantity;
    productTotal - productTotal * p.discount / 100.0
  }

  /**
   * The product-name column: the brand, followed by " - " and the code when
   * both are present, or the code alone when there is no brand.
   */
  function ProductName(brand: string, productCode: string): (r: string)
    ensures productCode == "" ==> r == brand
    ensures brand == "" ==> r == productCode
    ensures |r| >= |brand| && r[..|brand|] == brand
    ensures |r| >= |productCode| && r[|r| - |productCode|..] == productCode
    ensures brand != "" && productCode != "" ==> |r| == |brand| + 3 + |productCode| && r[|brand|..|brand| + 3] == " - "
  {
    if productCode == "" then brand
    else if brand != "" then brand + " - " + productCode
    else productCode
  }

  /** A cell of the items table whose number rendering is left to the page. */
  datatype Cell = Text(s: string) | Number(x: real) | SquareFeet(x: real)

  /** The shade column: the shade, or "N/A" when it is empty. */
  function ShadeCell(p: Quotation.QuotedProduct): (r: Cell)
    ensures r == Text(NotAvailable) <==> p.shade == "" || p.shade == NotAvailable
    ensures p.shade != "" ==> r == Text(p.shade)
  {
    Text(OrNotAvailable(p.shade))
  }

  /** The area column: the area in square feet, or "N/A" when it is zero. */
  function AreaCell(p: Quotation.QuotedProduct): (r: Cell)
    ensures r.SquareFeet? <==> p.area != 0.0
    ensures r.SquareFeet? ==> r.x == p.area
    ensures !r.SquareFeet? ==> r == Text(NotAvailable)
  {
    if p.area != 0.0 then SquareFeet(p.area) else Text(NotAvailable)
  }

  /** The boxes column: the box count, else the quantity, else "N/A". */
  function BoxesCell(p: Quotation.QuotedProduct): (r: Cell)
    ensures r == Text(NotAvailable) <==> p.boxes == 0.0 && p.quantity == 0.0
    ensures r.Number? ==> r.x != 0.0 && (r.x == p.boxes || (p.boxes == 0.0 && r.x == p.quantity))
  {
    if p.boxes != 0.0 then Number(p.boxes)
    else if p.quantity != 0.0 then Number(p.quantity)
    else Text(NotAvailable)
  }

  /** One row of the items table. */
  datatype Row = Row(number: nat, name: string, shade: Cell, area: Cell, boxes: Cell, price: real, amount: real)

  /** The rows of the items table, numbered from 1 in list order. */
  function Rows(ps: seq<Quotation.QuotedProduct>): (r: seq<Row>)
    ensures |r| == |ps|
    ensures forall i :: 0 <= i < |ps| ==>
      && r[i].number == i + 1
      && r[i].name == ProductName(ps[i].brand, ps[i].productCode)
      && r[i].shade == ShadeCell(ps[i]) && r[i].area == AreaCell(ps[i]) && r[i].boxes == BoxesCell(ps[i])
      && r[i].price == ps[i].price && r[i].amount == Quotation.LineAmount(ps[i])
  {
    seq(|ps|, (i: int) requires 0 <= i < |ps| =>
      var p := ps[i];
      Row(i + 1, ProductName(p.brand, p.productCode), ShadeCell(p), AreaCell(p), BoxesCell(p), p.price, RowAmount(p)))
  }

  /** The sum of the amount column. */
  function AmountColumn(rows: seq<Row>): real
  {
    if |rows| == 0 then 0.0 else rows[0].amount + AmountColumn(rows[1..])
  }

  /** A column of line amounts sums to the lines' sum. */
  lemma {:induction false} ColumnOfLines(rows: seq<Row>, ps: seq<Quotation.QuotedProduct>)
    requires |rows| == |ps|
    requires forall i :: 0 <= i < |ps| ==> rows[i].amount == Quotation.LineAmount(ps[i])
    ensures AmountColumn(rows) == Quotation.SumOfLines(ps)
    decreases |ps|
  {
    if |ps| > 0 {
      ColumnOfLines(rows[1..], ps[1..]);
    }
  }

  /** The amounts in the table add up to the quotation's subtotal. */
  lemma RowsAddUpToSubtotal(ps: seq<Quotation.QuotedProduct>)
    ensures AmountColumn(Rows(ps)) == Quotation.Subtotal(ps)
  {
    ColumnOfLines(Rows(ps), ps);
    Quotation.SubtotalIsSumOfLines(ps);
  }

  // ---------------------------------------------------------------------------
  // Terms and conditions

  /** Whether the line starts with `\d+\.`: at least one digit, then a dot. */
  predicate NumberPrefixed(line: string) {
    0 < LeadingDigits(line) < |line| && line[LeadingDigits(line)] == '.'
  }

  /**
   * The line without one leading match of `^\d+\.\s*`: digits, a dot and the whitespace after them.
   * A numbered line is the digits, the dot, a run of whitespace and the result, which starts with
   * no whitespace; any other line is kept.
   */
  function StripNumber(line: string): (r: string)
    ensures |r| <= |line| && r == line[|line| - |r|..]
    ensures !NumberPrefixed(line) ==> r == line
    ensures NumberPrefixed(line) ==>
      var d, k := LeadingDigits(line), |line| - |r|;
      d + 1 <= k && line == line[..d] + "." + line[d + 1..k] + r
      && (forall i :: d + 1 <= i < k ==> IsSpace(line[i])) && NoLeadingSpace(r)
  {
    var d := LeadingDigits(line);
    if 0 < d < |line| && line[d] == '.' then
      var rest := line[d + 1..];
      rest[LeadingSpaces(rest)..]
    else line
  }

  /** Line `i` (from 0) of the rendered terms. */
  function NumberedLine(i: nat, line: string): string {
    NatToString(i + 1) + ". " + StripNumber(line)
  }

  /** The terms as Template3 prints them: every line renumbered from 1, in order. */
  function Renumber(terms: string): (r: seq<string>)
    ensures |r| == |Split(terms, '\n')|
    ensures forall i :: 0 <= i < |r| ==> r[i] == NumberedLine(i, Split(terms, '\n')[i])
  {
    var lines := Split(terms, '\n');
    seq(|lines|, (i: int) requires 0 <= i < |lines| => NumberedLine(i, lines[i]))
  }

  /** The number a rendered line starts with. */
  function LeadingNumber(line: string): nat {
    DigitsValue(line[..LeadingDigits(line)])
  }

  /** The leading digits of digits followed by a non-digit are exactly those digits. */
  lemma {:induction false} DigitsThenOther(digits: string, rest: string)
    requires AllDigits(digits) && |rest| > 0 && !IsDigit(rest[0])
    ensures LeadingDigits(digits + rest) == |digits|
    decreases |digits|
  {
    if |digits| > 0 {
      assert (digits + rest)[1..] == digits[1..] + rest;
      DigitsThenOther(digits[1..], rest);
    } else {
      assert digits + rest == rest;
    }
  }

  /** A rendered line starts with its 1-based position. */
  lemma NumberedLineNumber(i: nat, line: string)
    ensures LeadingNumber(NumberedLine(i, line)) == i + 1
  {
    var n := NatToString(i + 1);
    DigitsThenOther(n, ". " + StripNumber(line));
    assert NumberedLine(i, line) == n + (". " + StripNumber(line));
    assert NumberedLine(i, line)[..|n|] == n;
    NatToStringRoundTrip(i + 1);
  }

  /** The printed numbering is exactly 1, 2, ..., n in order. */
  lemma RenumberCounts(terms: string)
    ensures var r := Renumber(terms);
      forall i :: 0 <= i < |r| ==> LeadingNumber(r[i]) == i + 1
  {
    var r := Renumber(terms);
    forall i | 0 <= i < |r| ensures LeadingNumber(r[i]) == i + 1 {
      NumberedLineNumber(i, Split(terms, '\n')[i]);
    }
  }

  /** Text that does not begin with whitespace. */
  predicate NoLeadingSpace(s: string) {
    |s| == 0 || !IsSpace(s[0])
  }

  /** A stripped line keeps no leading whitespace when the line had none. */
  lemma StripKeepsNoLeadingSpace(line: string)
    requires NoLeadingSpace(line)
    ensures NoLeadingSpace(StripNumber(line))
  {
  }

  /** Stripping a rendered line gives back the text that was numbered. */
  lemma StripNumbered(i: nat, text: string)
    requires NoLeadingSpace(text)
    ensures StripNumber(NatToString(i + 1) + ". " + text) == text
  {
    var n := NatToString(i + 1);
    var line := n + ". " + text;
    DigitsThenOther(n, ". " + text);
    assert line == n + (". " + text);
    assert line[|n|] == '.';
    var rest := line[|n| + 1..];
    assert rest == " " + text;
    assert LeadingSpaces(rest) == 1;
    assert rest[1..] == text;
    assert StripNumber(line) == rest[LeadingSpaces(rest)..];
  }

  /** A rendered line holds no line break when the original line held none. */
  lemma NumberedLineHasNoBreak(i: nat, line: string)
    requires '\n' !in line
    ensures '\n' !in NumberedLine(i, line)
  {
    var n := NatToString(i + 1);
    var t := StripNumber(line);
    assert forall k :: 0 <= k < |t| ==> t[k] == line[|line| - |t| + k];
    assert forall k :: 0 <= k < |n| ==> IsDigit(n[k]);
    assert NumberedLine(i, line) == n + ". " + t;
  }

  /**
   * Renumbering terms that were already rendered prints them unchanged, as long
   * as no original line began with whitespace.
   */
  lemma RenumberIdempotent(terms: string)
    requires forall i :: 0 <= i < |Split(terms, '\n')| ==> NoLeadingSpace(Split(terms, '\n')[i])
    ensures Renumber(Join(Renumber(terms), "\n")) == Renumber(terms)
  {
    var lines := Split(terms, '\n');
    var r := Renumber(terms);
    forall i | 0 <= i < |r| ensures '\n' !in r[i] {
      NumberedLineHasNoBreak(i, lines[i]);
    }
    JoinSplitRoundTrip(r, '\n');
    assert Split(Join(r, "\n"), '\n') == r;
    forall i | 0 <= i < |r| ensures NumberedLine(i, r[i]) == r[i] {
      StripKeepsNoLeadingSpace(lines[i]);
      StripNumbered(i, StripNumber(lines[i]));
    }
  }

  /** A default term: its one-digit number, a dot, a space and the text. */
  function Term(number: char, text: string): string {
    [number] + ". " + text
  }

  /** The texts of the terms Template5 prints when the quotation has none. */
  const DefaultTexts: seq<string> := [
    "Prices are subject to change without prior notice.",
    "Delivery timeline: 7-10 working days after confirmation.",
    "Payment Terms: 50% advance, balance before delivery.",
    "Warranty as per manufacturer terms.",
    "This quotation is valid for the mentioned validity period."]

  /** The default terms, numbered 1 to 5. */
  const DefaultTerms: seq<string> := [
    Term('1', DefaultTexts[0]), Term('2', DefaultTexts[1]), Term('3', DefaultTexts[2]),
    Term('4', DefaultTexts[3]), Term('5', DefaultTexts[4])]

  /** At most this many terms lines fit on Template5's page. */
  const MaxTermsLines := 5

  /** The terms lines Template5 prints: the default list for empty terms, and never more than five. */
  function PrintedTerms(terms: string): (r: seq<string>)
    ensures terms == "" ==> r == DefaultTerms
    ensures terms != "" ==> |r| == Min(|Split(terms, '\n')|, MaxTermsLines) && r == Split(terms, '\n')[..|r|]
    ensures |r| <= MaxTermsLines
  {
    var lines := if terms != "" then Split(terms, '\n') else DefaultTerms;
    lines[..Min(|lines|, MaxTermsLines)]
  }

  function Min(a: nat, b: nat): nat {
    if a < b then a else b
  }

  /** A term numbered by one digit reads back as that number. */
  lemma TermNumber(c: char, text: string)
    requires '1' <= c <= '9'
    ensures LeadingNumber(Term(c, text)) == c as int - '0' as int
  {
    DigitsThenOther([c], ". " + text);
    assert Term(c, text) == [c] + (". " + text);
    assert Term(c, text)[..1] == [c];
    assert [c][..0] == [];
    assert DigitsValue([c]) == DigitValue(c);
  }

  /** The default terms are numbered 1 to 5 in order. */
  lemma DefaultTermsNumbered()
    ensures |DefaultTerms| == 5
    ensures forall i :: 0 <= i < |DefaultTerms| ==> LeadingNumber(DefaultTerms[i]) == i + 1
  {
    forall i | 0 <= i < 5 ensures LeadingNumber(DefaultTerms[i]) == i + 1 {
      var c := "12345"[i];
      assert c as int - '0' as int == i + 1;
      assert DefaultTerms[i] == Term(c, DefaultTexts[i]);
      TermNumber(c, DefaultTexts[i]);
    }
  }

  // ---------------------------------------------------------------------------
  // Tax label and customer block

  /** Template5's tax label, `'IGST ' + (taxRate || 18) + '.0%'`, for a whole-number rate. */
  function TaxLabel(taxRate: Option<nat>): (r: string)
    ensures |r| > 8 && r[..5] == "IGST " && r[|r| - 3..] == ".0%"
    ensures AllDigits(r[5..|r| - 3])
  {
    var rate := if taxRate == None || taxRate == Some(0) then 18 else taxRate.value;
    var digits := NatToString(rate);
    var r := "IGST " + digits + ".0%";
    assert r[5..|r| - 3] == digits;
    r
  }

  /** The label's digits read back as the rate in force: the quotation's, or 18 when it has none. */
  lemma TaxLabelRate(taxRate: Option<nat>)
    ensures var r := TaxLabel(taxRate);
      DigitsValue(r[5..|r| - 3]) == (if taxRate == None || taxRate == Some(0) then 18 else taxRate.value)
  {
    var rate := if taxRate == None || taxRate == Some(0) then 18 else taxRate.value;
    var r := TaxLabel(taxRate);
    assert r[5..|r| - 3] == NatToString(rate);
    NatToStringRoundTrip(rate);
  }

  /** The address line: every comma followed by a space, or "N/A" when there is no address. */
  function AddressText(address: string): (r: string)
    ensures address == "" ==> r == NotAvailable
    ensures address != "" ==> r == ReplaceChar(address, ',', ", ")
  {
    if address != "" then
      SplitJoinIsReplace(address, ',', ", ");
      Join(Split(address, ','), ", ")
    else NotAvailable
  }

  /** A captioned line, `${caption}${value || 'N/A'}`: the caption, then the value or N/A when it is empty. */
  function LabelLine(caption: string, value: string): (r: string)
    ensures |r| > |caption| && r[..|caption|] == caption
    ensures r[|caption|..] == NotAvailable <==> value == "" || value == NotAvailable
    ensures value != "" ==> r[|caption|..] == value
  {
    caption + OrNotAvailable(value)
  }
}
