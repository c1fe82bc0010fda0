/**
 * Bulk import of spreadsheet rows into the active category of the catalog: row
 * validation, number parsing, the derived fields, normalisation of tile dimensions,
 * serial numbers, and the success / failure report.
 */
module Importer {
  import opened Wrappers
  import opened Text
  import opened Numbers
  import opened Lists
  import opened Catalog

  /** A spreadsheet cell as the sheet reader hands it over: text or a number. */
  datatype Cell = TextCell(s: string) | NumberCell(x: real)

  /** A row keyed by column header; a missing key is an empty cell. */
  type Row = map<string, Cell>

  /** The cell is present and not falsy (`""` and `0` are falsy). */
  predicate Truthy(row: Row, key: string) {
    key in row && row[key] != TextCell("") && row[key] != NumberCell(0.0)
  }

  /** The value stored for a text column; `show` renders a number as the page would. */
  function CellText(row: Row, key: string, show: real -> string): string {
    if key !in row then ""
    else match row[key]
      case TextCell(s) => s
      case NumberCell(x) => show(x)
  }

  /** `parseFloat(row[key]) || 0`. */
  function CellReal(row: Row, key: string): (r: real)
    ensures key !in row ==> r == 0.0
    ensures key in row && row[key].NumberCell? ==> r == row[key].x
  {
    if key !in row then 0.0
    else match row[key]
      case TextCell(s) => ParsedReal(s)
      case NumberCell(x) => x
  }

  /** `parseInt(row[key]) || 0`; a number cell is truncated toward zero. */
  function CellInt(row: Row, key: string): (r: int)
    ensures key !in row ==> r == 0
    ensures key in row && row[key].NumberCell? && row[key].x >= 0.0 ==> r as real <= row[key].x < r as real + 1.0
  {
    if key !in row then 0
    else match row[key]
      case TextCell(s) => ParsedInt(s)
      case NumberCell(x) => Trunc(x)
  }

  // ---------------------------------------------------------------------------
  // Dimension normalisation: `replace(/\s*\*\s*/g, ' * ')`

  /** A run of whitespace followed by `*` starts here: the pattern matches at this position. */
  predicate StarAhead(s: string) {
    s != [] && (s[0] == '*' || (IsSpace(s[0]) && StarAhead(s[1..])))
  }

  /** What follows the `*` of a match starting here. */
  function AfterStar(s: string): (r: string)
    requires StarAhead(s)
    ensures |r| < |s|
  {
    if s[0] == '*' then s[1..] else AfterStar(s[1..])
  }

  /** `s` without its leading whitespace. */
  function SkipSpaces(s: string): (r: string)
    ensures |r| <= |s|
    ensures r == [] || !IsSpace(r[0])
  {
    if s != [] && IsSpace(s[0]) then SkipSpaces(s[1..]) else s
  }

  /**
   * Every run of whitespace, one `*`, and whitespace becomes exactly `" * "`; the scan
   * moves left to right and resumes after each match.
   */
  function NormalizeDimensions(s: string): string
    decreases |s|
  {
    if s == [] then []
    else if StarAhead(s) then " * " + NormalizeDimensions(SkipSpaces(AfterStar(s)))
    else [s[0]] + NormalizeDimensions(s[1..])
  }

  /** Every `*` has exactly one space on each side. */
  predicate StarsSpaced(r: string) {
    forall i :: 0 <= i < |r| && r[i] == '*' ==> 0 < i < |r| - 1 && r[i - 1] == ' ' && r[i + 1] == ' '
  }

  /** Every `*` of a normalised string has exactly one space on each side. */
  lemma {:induction false} NormalizeSpacesStars(s: string)
    ensures StarsSpaced(NormalizeDimensions(s))
    decreases |s|
  {
    if s != [] {
      var r := NormalizeDimensions(s);
      if StarAhead(s) {
        var tail := NormalizeDimensions(SkipSpaces(AfterStar(s)));
        NormalizeSpacesStars(SkipSpaces(AfterStar(s)));
        assert r == " * " + tail;
        forall i | 0 <= i < |r| && r[i] == '*'
          ensures 0 < i < |r| - 1 && r[i - 1] == ' ' && r[i + 1] == ' '
        {
          if i >= 3 {
            var j := i - 3;
            assert r[i] == tail[j] == '*';
            assert 0 < j < |tail| - 1 && tail[j - 1] == ' ' && tail[j + 1] == ' ';
            assert r[i - 1] == tail[i - 4];
            assert r[i + 1] == tail[i - 2];
          } else {
            assert r[0] == ' ' && r[1] == '*' && r[2] == ' ';
          }
        }
      } else {
        var tail := NormalizeDimensions(s[1..]);
        NormalizeSpacesStars(s[1..]);
        assert r == [s[0]] + tail;
        forall i | 0 <= i < |r| && r[i] == '*'
          ensures 0 < i < |r| - 1 && r[i - 1] == ' ' && r[i + 1] == ' '
        {
          assert r[0] == s[0] != '*';
          var j := i - 1;
          assert r[i] == tail[j] == '*';
          assert 0 < j < |tail| - 1 && tail[j - 1] == ' ' && tail[j + 1] == ' ';
          assert r[i - 1] == tail[i - 2];
          assert r[i + 1] == tail[i];
        }
      }
    }
  }

  /** `s` without its whitespace characters. */
  function Squeeze(s: string): (r: string)
    ensures |r| <= |s|
  {
    if s == [] then [] else (if IsSpace(s[0]) then [] else [s[0]]) + Squeeze(s[1..])
  }

  lemma {:induction false} SqueezeSkip(s: string)
    ensures Squeeze(SkipSpaces(s)) == Squeeze(s)
  {
    if s != [] && IsSpace(s[0]) {
      SqueezeSkip(s[1..]);
    }
  }

  lemma {:induction false} SqueezeStarAhead(s: string)
    requires StarAhead(s)
    ensures Squeeze(s) == "*" + Squeeze(AfterStar(s))
  {
    if s[0] != '*' {
      SqueezeStarAhead(s[1..]);
    }
  }

  lemma SqueezeStarred(y: string)
    ensures Squeeze(" * " + y) == "*" + Squeeze(y)
  {
    assert (" " + y)[1..] == y;
    assert Squeeze(" " + y) == Squeeze(y);
    assert ("* " + y)[1..] == " " + y;
    assert Squeeze("* " + y) == "*" + Squeeze(y);
    assert (" * " + y)[1..] == "* " + y;
  }

  /** Normalising only moves whitespace: the other characters are kept, in order. */
  lemma {:induction false} NormalizeKeepsText(s: string)
    ensures Squeeze(NormalizeDimensions(s)) == Squeeze(s)
    decreases |s|
  {
    if s != [] {
      if StarAhead(s) {
        var w := SkipSpaces(AfterStar(s));
        NormalizeKeepsText(w);
        SqueezeStarred(NormalizeDimensions(w));
        SqueezeSkip(AfterStar(s));
        SqueezeStarAhead(s);
      } else {
        NormalizeKeepsText(s[1..]);
      }
    }
  }

  /** The pattern matches in a normalised string exactly where it matched in the original. */
  lemma {:induction false} NormalizeKeepsStarAhead(s: string)
    ensures StarAhead(NormalizeDimensions(s)) <==> StarAhead(s)
  {
    if s != [] && !StarAhead(s) && IsSpace(s[0]) {
      NormalizeKeepsStarAhead(s[1..]);
      assert NormalizeDimensions(s) == [s[0]] + NormalizeDimensions(s[1..]);
      StarAheadAfterSpace(s[0], NormalizeDimensions(s[1..]));
    } else if StarAhead(s) {
      StarAheadAfterSpace(' ', "* " + NormalizeDimensions(SkipSpaces(AfterStar(s))));
      assert NormalizeDimensions(s) == [' '] + ("* " + NormalizeDimensions(SkipSpaces(AfterStar(s))));
    }
  }

  /** A leading whitespace character does not decide whether the pattern matches. */
  lemma StarAheadAfterSpace(c: char, x: string)
    requires IsSpace(c)
    ensures StarAhead([c] + x) <==> StarAhead(x)
  {
    assert ([c] + x)[1..] == x;
  }

  /** A character that is not part of a match is copied. */
  lemma NormalizePlain(c: char, x: string)
    requires c != '*' && (!IsSpace(c) || !StarAhead(x))
    ensures NormalizeDimensions([c] + x) == [c] + NormalizeDimensions(x)
  {
    assert ([c] + x)[1..] == x;
  }

  /** What normalisation does right after a star it has produced. */
  lemma NormalizeAfterStar(x: string)
    ensures NormalizeDimensions("* " + x) == " * " + NormalizeDimensions(SkipSpaces(x))
    ensures NormalizeDimensions(" * " + x) == " * " + NormalizeDimensions(SkipSpaces(x))
  {
    var b := "* " + x;
    assert b[1..] == " " + x;
    assert (" " + x)[1..] == x;
    assert SkipSpaces(" " + x) == SkipSpaces(x);
    var a := " * " + x;
    assert a[1..] == b;
  }

  /** Normalising twice gives what normalising once gives. */
  lemma {:induction false} NormalizeIdempotent(s: string)
    ensures NormalizeDimensions(NormalizeDimensions(s)) == NormalizeDimensions(s)
    decreases |s|, 1
  {
    if s == [] {
    } else if StarAhead(s) {
      var w := SkipSpaces(AfterStar(s));
      NormalizeAfterStar(NormalizeDimensions(w));
      NormalizeSettled(w);
    } else {
      var n := NormalizeDimensions(s[1..]);
      if IsSpace(s[0]) {
        NormalizeKeepsStarAhead(s[1..]);
      }
      NormalizePlain(s[0], n);
      NormalizeIdempotent(s[1..]);
    }
  }

  /** A normalised piece that starts with text is unchanged by skipping its leading whitespace and normalising again. */
  lemma {:induction false} NormalizeSettled(w: string)
    requires w == [] || !IsSpace(w[0])
    ensures NormalizeDimensions(SkipSpaces(NormalizeDimensions(w))) == NormalizeDimensions(w)
    decreases |w|, 2
  {
    if w == [] {
    } else if w[0] == '*' {
      var w2 := SkipSpaces(AfterStar(w));
      var n2 := NormalizeDimensions(w2);
      assert NormalizeDimensions(w) == " * " + n2;
      assert SkipSpaces(" * " + n2) == "* " + n2 by {
        assert (" * " + n2)[1..] == "* " + n2;
      }
      NormalizeAfterStar(n2);
      NormalizeSettled(w2);
    } else {
      NormalizeIdempotent(w);
    }
  }

  /** Text with neither whitespace nor `*`. */
  predicate Plain(s: string) {
    forall i :: 0 <= i < |s| ==> !IsSpace(s[i]) && s[i] != '*'
  }

  /** A plain prefix is copied unchanged. */
  lemma {:induction false} NormalizeAfterPlain(a: string, x: string)
    requires Plain(a)
    ensures NormalizeDimensions(a + x) == a + NormalizeDimensions(x)
  {
    if a != [] {
      NormalizePlain(a[0], a[1..] + x);
      assert a + x == [a[0]] + (a[1..] + x);
      NormalizeAfterPlain(a[1..], x);
    } else {
      assert a + x == x;
    }
  }

  /** Whitespace followed by `*` is a match, and the rest follows it. */
  lemma {:induction false} BlankThenStar(blank: string, y: string)
    requires forall i :: 0 <= i < |blank| ==> IsSpace(blank[i])
    ensures StarAhead(blank + "*" + y) && AfterStar(blank + "*" + y) == y
  {
    if blank != [] {
      assert (blank + "*" + y)[1..] == blank[1..] + "*" + y;
      BlankThenStar(blank[1..], y);
    } else {
      assert blank + "*" + y == "*" + y;
    }
  }

  lemma {:induction false} SkipBlank(blank: string, b: string)
    requires forall i :: 0 <= i < |blank| ==> IsSpace(blank[i])
    requires b == [] || !IsSpace(b[0])
    ensures SkipSpaces(blank + b) == b
  {
    if blank != [] {
      assert (blank + b)[1..] == blank[1..] + b;
      SkipBlank(blank[1..], b);
    } else {
      assert blank + b == b;
    }
  }

  /**
   * A size written as two plain parts around a `*`, with any whitespace on either side
   * of the star, comes out as the parts joined by `" * "`.
   */
  lemma NormalizeSize(a: string, before: string, after: string, b: string)
    requires Plain(a) && Plain(b)
    requires forall i :: 0 <= i < |before| ==> IsSpace(before[i])
    requires forall i :: 0 <= i < |after| ==> IsSpace(after[i])
    ensures NormalizeDimensions(a + (before + "*" + (after + b))) == a + (" * " + b)
  {
    NormalizeAfterPlain(a, before + "*" + (after + b));
    NormalizeStarTail(before, after, b);
  }

  lemma NormalizeStarTail(before: string, after: string, b: string)
    requires Plain(b)
    requires forall i :: 0 <= i < |before| ==> IsSpace(before[i])
    requires forall i :: 0 <= i < |after| ==> IsSpace(after[i])
    ensures NormalizeDimensions(before + "*" + (after + b)) == " * " + b
  {
    var tail := before + "*" + (after + b);
    BlankThenStar(before, after + b);
    SkipBlank(after, b);
    assert NormalizeDimensions(tail) == " * " + NormalizeDimensions(b);
    NormalizeAfterPlain(b, []);
    assert b + [] == b;
  }

  /** Both spellings of a tile size end up the same. */
  lemma NormalizeSamples()
    ensures NormalizeDimensions("100*200") == "100 * 200"
    ensures NormalizeDimensions("100 * 200") == "100 * 200"
  {
    assert Plain("100") && Plain("200");
    NormalizeSize("100", "", "", "200");
    assert "100" + ("" + "*" + ("" + "200")) == "100*200";
    assert "100" + (" * " + "200") == "100 * 200";
    NormalizeSize("100", " ", " ", "200");
    assert "100" + (" " + "*" + (" " + "200")) == "100 * 200";
  }

  // ---------------------------------------------------------------------------
  // Rows to records

  predicate TileRowValid(row: Row) {
    && Truthy(row, "brand") && Truthy(row, "areaOfApplication") && Truthy(row, "shadeName")
    && Truthy(row, "dimensions") && Truthy(row, "surface")
  }

  predicate AdhesiveRowValid(row: Row) {
    Truthy(row, "brand") && Truthy(row, "category")
  }

  predicate CpswRowValid(row: Row) {
    Truthy(row, "brand") && Truthy(row, "productCode") && Truthy(row, "description")
  }

  /** `discountedPrice / areaRequired`, or 0 without an area. */
  function PricePerSqFt(discountedPrice: real, areaRequired: real): (r: real)
    ensures areaRequired > 0.0 ==> Amount(r, areaRequired) == discountedPrice
    ensures areaRequired <= 0.0 ==> r == 0.0
  {
    if areaRequired > 0.0 then discountedPrice / areaRequired else 0.0
  }

  /** A tile record from a valid row. */
  function TileFromRow(row: Row, id: string, sno: string, show: real -> string): (p: TileProduct)
    ensures p.id == id && p.sno == Some(sno) && p.image == ""
    ensures p.mrp == CellReal(row, "mrp") && p.discount == CellReal(row, "discount")
    ensures p.areaRequired == CellReal(row, "areaRequired") && p.areaInOneBox == CellReal(row, "areaInOneBox")
    ensures TileTotalsConsistent(p)
    ensures p.areaInOneBox > 0.0 ==> p.noOfBoxes == Ceil(p.areaRequired / p.areaInOneBox)
    ensures p.areaInOneBox <= 0.0 ==> p.noOfBoxes == CellInt(row, "noOfBoxes")
    ensures p.areaRequired > 0.0 ==> Amount(p.pricePerSqFt, p.areaRequired) == p.discountedPrice
    ensures p.areaRequired <= 0.0 ==> p.pricePerSqFt == 0.0
    ensures "dimensions" in row && row["dimensions"].TextCell? ==> p.dimensions == NormalizeDimensions(row["dimensions"].s)
  {
    var areaRequired := CellReal(row, "areaRequired");
    var areaInOneBox := CellReal(row, "areaInOneBox");
    var dimensions :=
      if "dimensions" in row && row["dimensions"].TextCell? then NormalizeDimensions(row["dimensions"].s)
      else CellText(row, "dimensions", show);
    var parsed := TileProduct(
      id := id,
      sno := Some(sno),
      brand := CellText(row, "brand", show),
      areaOfApplication := CellText(row, "areaOfApplication", show),
      shadeName := CellText(row, "shadeName", show),
      image := "",
      dimensions := dimensions,
      surface := CellText(row, "surface", show),
      mrp := CellReal(row, "mrp"),
      discount := CellReal(row, "discount"),
      discountedPrice := 0.0,
      areaRequired := areaRequired,
      noOfBoxes := if areaInOneBox > 0.0 then Ceil(areaRequired / areaInOneBox) else CellInt(row, "noOfBoxes"),
      totalAmount := 0.0,
      pricePerSqFt := 0.0,
      areaInOneBox := areaInOneBox);
    var priced := Recalculate(parsed);
    priced.(pricePerSqFt := PricePerSqFt(priced.discountedPrice, areaRequired))
  }

  /** An adhesive record from a valid row; unlike the form, the MRP is stored as a number. */
  function AdhesiveFromRow(row: Row, id: string, sno: string, show: real -> string): (p: AdhesiveProduct)
    ensures p.id == id && p.sno == Some(sno)
    ensures p.mrp == Num(CellReal(row, "mrp"))
    ensures p.dPrice == CellReal(row, "dPrice") && p.noOfBags == CellInt(row, "noOfBags")
    ensures p.totalAmount == BagTotal(p.dPrice, p.noOfBags)
  {
    var dPrice := CellReal(row, "dPrice");
    var noOfBags := CellInt(row, "noOfBags");
    AdhesiveProduct(id, Some(sno), CellText(row, "brand", show), CellText(row, "category", show),
                    Num(CellReal(row, "mrp")), dPrice, noOfBags, BagTotal(dPrice, noOfBags))
  }

  /** A CP & SW record from a valid row. */
  function CpswFromRow(row: Row, id: string, sno: string, show: real -> string): (p: CpswProduct)
    ensures p.id == id && p.sno == Some(sno) && p.image == ""
    ensures p.mrp == Num(CellReal(row, "mrp"))
    ensures p.dPrice == CellReal(row, "dPrice") && p.nos == CellInt(row, "nos")
    ensures p.totalAmount == BagTotal(p.dPrice, p.nos)
  {
    var dPrice := CellReal(row, "dPrice");
    var nos := CellInt(row, "nos");
    CpswProduct(id, Some(sno), CellText(row, "brand", show), CellText(row, "productCode", show),
                CellText(row, "description", show), "", Num(CellReal(row, "mrp")), dPrice, nos, BagTotal(dPrice, nos))
  }

  // ---------------------------------------------------------------------------
  // The row loop

  /**
   * How a new record's serial number is computed: as written, from the length of the
   * list the loop appends to plus the success count plus one; consecutively, from the
   * length of that list plus one.
   */
  datatype Numbering = AsWritten | Consecutive

  /** The loop state: the list being appended to, the counters and the error lines. */
  datatype Tally<T> = Tally(items: seq<T>, success: nat, failed: nat, errors: seq<string>)

  function RowError(index: nat): string {
    "Row " + NatToString(index + 1) + ": Missing required fields"
  }

  function Serial<T>(t: Tally<T>, numbering: Numbering): string {
    match numbering
    case AsWritten => NatToString(|t.items| + t.success + 1)
    case Consecutive => NatToString(|t.items| + 1)
  }

  /**
   * Processes the rows in order: an invalid row adds an error line naming its 1-based
   * position; a valid row appends the record built from it, its index and its serial.
   */
  function Fold<T>(existing: seq<T>, rows: seq<Row>, valid: Row -> bool,
                   build: (Row, nat, string) -> T, numbering: Numbering): (t: Tally<T>)
    ensures t.success + t.failed == |rows|
    ensures |t.items| == |existing| + t.success
    ensures t.items[..|existing|] == existing
    ensures |t.errors| == t.failed
    decreases |rows|
  {
    if rows == [] then Tally(existing, 0, 0, [])
    else
      var i := |rows| - 1;
      var init := rows[..i];
      var prev := Fold(existing, init, valid, build, numbering);
      if valid(rows[i]) then
        var t := prev.(items := prev.items + [build(rows[i], i, Serial(prev, numbering))], success := prev.success + 1);
        assert t.items[..|existing|] == prev.items[..|existing|];
        t
      else
        prev.(failed := prev.failed + 1, errors := prev.errors + [RowError(i)])
  }

  /** The success count is the number of valid rows. */
  lemma {:induction false} FoldSuccess<T>(existing: seq<T>, rows: seq<Row>, valid: Row -> bool,
                                           build: (Row, nat, string) -> T, numbering: Numbering)
    ensures Fold(existing, rows, valid, build, numbering).success == |Filter(rows, valid)|
    decreases |rows|
  {
    if rows != [] {
      var i := |rows| - 1;
      FoldSuccess(existing, rows[..i], valid, build, numbering);
      assert rows == rows[..i] + [rows[i]];
      FilterAppend(rows[..i], [rows[i]], valid);
    }
  }

  /** Every error line names an invalid row by its 1-based position. */
  predicate NamesInvalidRows(errors: seq<string>, rows: seq<Row>, valid: Row -> bool) {
    forall j :: 0 <= j < |errors| ==> exists i :: 0 <= i < |rows| && !valid(rows[i]) && errors[j] == RowError(i)
  }

  /** The error lines of the loop are the invalid rows', each naming its row. */
  lemma {:induction false} FoldErrors<T>(existing: seq<T>, rows: seq<Row>, valid: Row -> bool,
                                          build: (Row, nat, string) -> T, numbering: Numbering)
    ensures NamesInvalidRows(Fold(existing, rows, valid, build, numbering).errors, rows, valid)
    decreases |rows|
  {
    if rows != [] {
      var i := |rows| - 1;
      var init := rows[..i];
      var prev := Fold(existing, init, valid, build, numbering);
      var t := Fold(existing, rows, valid, build, numbering);
      FoldErrors(existing, init, valid, build, numbering);
      forall j | 0 <= j < |t.errors|
        ensures exists k :: 0 <= k < |rows| && !valid(rows[k]) && t.errors[j] == RowError(k)
      {
        if j < |prev.errors| {
          var k :| 0 <= k < |init| && !valid(init[k]) && prev.errors[j] == RowError(k);
          assert init[k] == rows[k];
          assert t.errors[j] == prev.errors[j];
        } else {
          assert !valid(rows[i]) && t.errors == prev.errors + [RowError(i)];
        }
      }
    }
  }

  /** Every record from position `from` on satisfies `inv`. */
  predicate AllFrom<T>(items: seq<T>, from: nat, inv: T -> bool) {
    forall j :: from <= j < |items| ==> inv(items[j])
  }

  /** Every record from position `from` on has its 1-based position as serial number. */
  predicate NumberedByPosition<T>(items: seq<T>, from: nat, sno: T -> Option<string>) {
    forall j :: from <= j < |items| ==> sno(items[j]) == Some(NatToString(j + 1))
  }

  /** The k-th record after position `from` (counting from 0) has serial `from + 2k + 1`. */
  predicate NumberedSkipping<T>(items: seq<T>, from: nat, sno: T -> Option<string>) {
    forall j :: from <= j < |items| ==> sno(items[j]) == Some(NatToString(from + 2 * (j - from) + 1))
  }

  /** One step of the loop: the last row appends a record when it is valid and nothing otherwise. */
  lemma FoldStep<T>(existing: seq<T>, rows: seq<Row>, valid: Row -> bool,
                    build: (Row, nat, string) -> T, numbering: Numbering)
    requires rows != []
    ensures var i := |rows| - 1;
      var prev := Fold(existing, rows[..i], valid, build, numbering);
      var t := Fold(existing, rows, valid, build, numbering);
      && t.items == (if valid(rows[i]) then prev.items + [build(rows[i], i, Serial(prev, numbering))] else prev.items)
      && t.success == (if valid(rows[i]) then prev.success + 1 else prev.success)
  {
  }

  /** Records built from valid rows that all satisfy `inv` make every appended record satisfy it. */
  lemma {:induction false} FoldKeeps<T>(existing: seq<T>, rows: seq<Row>, valid: Row -> bool,
                                         build: (Row, nat, string) -> T, numbering: Numbering, inv: T -> bool)
    requires forall r, i, s :: valid(r) ==> inv(build(r, i, s))
    ensures AllFrom(Fold(existing, rows, valid, build, numbering).items, |existing|, inv)
    decreases |rows|
  {
    if rows != [] {
      var i := |rows| - 1;
      FoldKeeps(existing, rows[..i], valid, build, numbering, inv);
      FoldStep(existing, rows, valid, build, numbering);
    }
  }

  /** Appending the record numbered after the list keeps the numbering by position. */
  lemma ExtendNumbered<T>(items: seq<T>, added: T, from: nat, sno: T -> Option<string>)
    requires NumberedByPosition(items, from, sno)
    requires sno(added) == Some(NatToString(|items| + 1))
    ensures NumberedByPosition(items + [added], from, sno)
  {
    var r := items + [added];
    forall j | from <= j < |r|
      ensures sno(r[j]) == Some(NatToString(j + 1))
    {
      if j < |items| {
        assert r[j] == items[j];
      } else {
        assert j == |items| && r[j] == added;
      }
    }
  }

  /** With consecutive numbering every appended record's serial is its 1-based position. */
  lemma {:induction false} FoldConsecutive<T>(existing: seq<T>, rows: seq<Row>, valid: Row -> bool,
                                               build: (Row, nat, string) -> T, sno: T -> Option<string>)
    requires forall r, i, s :: sno(build(r, i, s)) == Some(s)
    ensures NumberedByPosition(Fold(existing, rows, valid, build, Consecutive).items, |existing|, sno)
    decreases |rows|
  {
    if rows != [] {
      var i := |rows| - 1;
      var prev := Fold(existing, rows[..i], valid, build, Consecutive);
      FoldConsecutive(existing, rows[..i], valid, build, sno);
      FoldStep(existing, rows, valid, build, Consecutive);
      if valid(rows[i]) {
        ExtendNumbered(prev.items, build(rows[i], i, NatToString(|prev.items| + 1)), |existing|, sno);
      }
    }
  }

  /** Appending the record numbered `from + 2k + 1`, k the number appended so far, keeps the skipping numbering. */
  lemma ExtendSkipping<T>(items: seq<T>, added: T, from: nat, sno: T -> Option<string>)
    requires from <= |items| && NumberedSkipping(items, from, sno)
    requires sno(added) == Some(NatToString(from + 2 * (|items| - from) + 1))
    ensures NumberedSkipping(items + [added], from, sno)
  {
    var r := items + [added];
    forall j | from <= j < |r|
      ensures sno(r[j]) == Some(NatToString(from + 2 * (j - from) + 1))
    {
      if j < |items| {
        assert r[j] == items[j];
      } else {
        assert j == |items| && r[j] == added;
      }
    }
  }

  /** Appending the record the loop as written builds next keeps the skipping numbering. */
  lemma SkipStep<T>(prev: Tally<T>, from: nat, added: T, sno: T -> Option<string>)
    requires |prev.items| == from + prev.success
    requires NumberedSkipping(prev.items, from, sno)
    requires sno(added) == Some(Serial(prev, AsWritten))
    ensures NumberedSkipping(prev.items + [added], from, sno)
  {
    assert |prev.items| + prev.success + 1 == from + 2 * (|prev.items| - from) + 1;
    ExtendSkipping(prev.items, added, from, sno);
  }

  /** Whether or not the loop as written appended a record, the skipping numbering survives. */
  lemma SkipAfter<T>(prev: Tally<T>, t: Tally<T>, from: nat, appended: bool, added: T, sno: T -> Option<string>)
    requires |prev.items| == from + prev.success
    requires NumberedSkipping(prev.items, from, sno)
    requires t.items == if appended then prev.items + [added] else prev.items
    requires appended ==> sno(added) == Some(Serial(prev, AsWritten))
    ensures NumberedSkipping(t.items, from, sno)
  {
    if appended {
      SkipStep(prev, from, added, sno);
    }
  }

  /** One step of the loop as written keeps the skipping numbering. */
  lemma {:induction false} AsWrittenStep<T>(existing: seq<T>, rows: seq<Row>, valid: Row -> bool,
                         build: (Row, nat, string) -> T, sno: T -> Option<string>)
    requires rows != []
    requires var i := |rows| - 1; var prev := Fold(existing, rows[..i], valid, build, AsWritten);
      && NumberedSkipping(prev.items, |existing|, sno)
      && sno(build(rows[i], i, Serial(prev, AsWritten))) == Some(Serial(prev, AsWritten))
    ensures NumberedSkipping(Fold(existing, rows, valid, build, AsWritten).items, |existing|, sno)
  {
    var i := |rows| - 1;
    var prev := Fold(existing, rows[..i], valid, build, AsWritten);
    var added := build(rows[i], i, Serial(prev, AsWritten));
    FoldStep(existing, rows, valid, build, AsWritten);
    SkipAfter(prev, Fold(existing, rows, valid, build, AsWritten), |existing|, valid(rows[i]), added, sno);
  }

  /** As written, the k-th appended record (from 0) gets serial `existing + 2k + 1`. */
  lemma {:induction false} FoldAsWritten<T>(existing: seq<T>, rows: seq<Row>, valid: Row -> bool,
                                             build: (Row, nat, string) -> T, sno: T -> Option<string>)
    requires forall r, i, s :: sno(build(r, i, s)) == Some(s)
    ensures NumberedSkipping(Fold(existing, rows, valid, build, AsWritten).items, |existing|, sno)
    decreases |rows|
  {
    if rows != [] {
      FoldAsWritten(existing, rows[..|rows| - 1], valid, build, sno);
      AsWrittenStep(existing, rows, valid, build, sno);
    }
  }

  // ---------------------------------------------------------------------------
  // What the loop produces, stated without the loop

  /** A row with its 0-based index. */
  type IndexedRow = (nat, Row)

  /** The rows paired with their 0-based indices. */
  function Indexed(rows: seq<Row>): (r: seq<(nat, Row)>)
    ensures |r| == |rows| && forall i :: 0 <= i < |rows| ==> r[i] == (i, rows[i])
  {
    seq(|rows|, i requires 0 <= i < |rows| => (i, rows[i]))
  }

  function Passes(valid: Row -> bool): IndexedRow -> bool {
    (p: IndexedRow) => valid(p.1)
  }

  function Fails(valid: Row -> bool): IndexedRow -> bool {
    (p: IndexedRow) => !valid(p.1)
  }

  /** The valid rows with their indices, in row order. */
  function ValidRows(rows: seq<Row>, valid: Row -> bool): seq<(nat, Row)> {
    Filter(Indexed(rows), Passes(valid))
  }

  /** The invalid rows with their indices, in row order. */
  function InvalidRows(rows: seq<Row>, valid: Row -> bool): seq<(nat, Row)> {
    Filter(Indexed(rows), Fails(valid))
  }

  /** The serial number of the k-th appended record (from 0) after `from` existing ones. */
  function SerialNumber(from: nat, k: nat, numbering: Numbering): nat {
    match numbering
    case AsWritten => from + 2 * k + 1
    case Consecutive => from + k + 1
  }

  /** The record built from each valid row, with its index and its serial number. */
  function Built<T>(valids: seq<(nat, Row)>, from: nat, build: (Row, nat, string) -> T, numbering: Numbering): seq<T> {
    seq(|valids|, k requires 0 <= k < |valids| => build(valids[k].1, valids[k].0, NatToString(SerialNumber(from, k, numbering))))
  }

  /** The error line naming each invalid row. */
  function ErrorLines(invalids: seq<(nat, Row)>): seq<string> {
    seq(|invalids|, k requires 0 <= k < |invalids| => RowError(invalids[k].0))
  }

  /** Splitting off the last row splits the indexed rows the same way. */
  lemma IndexedSnoc(rows: seq<Row>)
    requires rows != []
    ensures var i := |rows| - 1; Indexed(rows) == Indexed(rows[..i]) + [(i, rows[i])]
  {
  }

  /** Filtering the indexed rows one row longer adds that row when it passes. */
  lemma FilterSnoc(rows: seq<Row>, keep: IndexedRow -> bool)
    requires rows != []
    ensures var i := |rows| - 1;
      Filter(Indexed(rows), keep) == Filter(Indexed(rows[..i]), keep) + (if keep((i, rows[i])) then [(i, rows[i])] else [])
  {
    var i := |rows| - 1;
    IndexedSnoc(rows);
    var last: IndexedRow := (i, rows[i]);
    FilterAppend<IndexedRow>(Indexed(rows[..i]), [last], keep);
    assert [last][1..] == [];
  }

  lemma ValidRowsSnoc(rows: seq<Row>, valid: Row -> bool)
    requires rows != []
    ensures var i := |rows| - 1;
      ValidRows(rows, valid) == ValidRows(rows[..i], valid) + (if valid(rows[i]) then [(i, rows[i])] else [])
  {
    FilterSnoc(rows, Passes(valid));
  }

  lemma InvalidRowsSnoc(rows: seq<Row>, valid: Row -> bool)
    requires rows != []
    ensures var i := |rows| - 1;
      InvalidRows(rows, valid) == InvalidRows(rows[..i], valid) + (if valid(rows[i]) then [] else [(i, rows[i])])
  {
    FilterSnoc(rows, Fails(valid));
  }

  lemma BuiltSnoc<T>(valids: seq<(nat, Row)>, v: (nat, Row), from: nat, build: (Row, nat, string) -> T, numbering: Numbering)
    ensures Built(valids + [v], from, build, numbering)
      == Built(valids, from, build, numbering) + [build(v.1, v.0, NatToString(SerialNumber(from, |valids|, numbering)))]
  {
  }

  lemma ErrorLinesSnoc(invalids: seq<(nat, Row)>, v: (nat, Row))
    ensures ErrorLines(invalids + [v]) == ErrorLines(invalids) + [RowError(v.0)]
  {
  }

  /** The loop's serial for the next record is the serial number of its position among the appended ones. */
  lemma SerialOfNext<T>(prev: Tally<T>, from: nat, numbering: Numbering)
    requires |prev.items| == from + prev.success
    ensures Serial(prev, numbering) == NatToString(SerialNumber(from, prev.success, numbering))
  {
  }

  /**
   * The loop appends exactly the records built from the valid rows, in row order, each
   * with its row index and the serial number of its place.
   */
  lemma {:induction false} FoldAppends<T>(existing: seq<T>, rows: seq<Row>, valid: Row -> bool,
                                           build: (Row, nat, string) -> T, numbering: Numbering)
    ensures Fold(existing, rows, valid, build, numbering).items
      == existing + Built(ValidRows(rows, valid), |existing|, build, numbering)
    decreases |rows|
  {
    if rows == [] {
      assert existing + [] == existing;
    } else {
      FoldAppends(existing, rows[..|rows| - 1], valid, build, numbering);
      AppendsStep(existing, rows, valid, build, numbering);
    }
  }

  lemma AppendsStep<T>(existing: seq<T>, rows: seq<Row>, valid: Row -> bool,
                       build: (Row, nat, string) -> T, numbering: Numbering)
    requires rows != []
    requires Fold(existing, rows[..|rows| - 1], valid, build, numbering).items
      == existing + Built(ValidRows(rows[..|rows| - 1], valid), |existing|, build, numbering)
    ensures Fold(existing, rows, valid, build, numbering).items
      == existing + Built(ValidRows(rows, valid), |existing|, build, numbering)
  {
    var i := |rows| - 1;
    var prev := Fold(existing, rows[..i], valid, build, numbering);
    var vs := ValidRows(rows[..i], valid);
    ValidRowsSnoc(rows, valid);
    FoldStep(existing, rows, valid, build, numbering);
    if valid(rows[i]) {
      var added := build(rows[i], i, Serial(prev, numbering));
      SerialOfNext(prev, |existing|, numbering);
      BuiltSnoc(vs, (i, rows[i]), |existing|, build, numbering);
      AppendAfter(existing, Built(vs, |existing|, build, numbering), prev.items, added);
    } else {
      assert vs + [] == vs;
    }
  }

  lemma AppendAfter<T>(existing: seq<T>, built: seq<T>, items: seq<T>, added: T)
    requires items == existing + built
    ensures existing + (built + [added]) == items + [added]
  {
  }

  /** The loop's error lines are exactly those naming the invalid rows, in row order. */
  lemma {:induction false} FoldErrorLines<T>(existing: seq<T>, rows: seq<Row>, valid: Row -> bool,
                                              build: (Row, nat, string) -> T, numbering: Numbering)
    ensures Fold(existing, rows, valid, build, numbering).errors == ErrorLines(InvalidRows(rows, valid))
    decreases |rows|
  {
    if rows != [] {
      var i := |rows| - 1;
      FoldErrorLines(existing, rows[..i], valid, build, numbering);
      InvalidRowsSnoc(rows, valid);
      if !valid(rows[i]) {
        ErrorLinesSnoc(InvalidRows(rows[..i], valid), (i, rows[i]));
      } else {
        assert InvalidRows(rows[..i], valid) + [] == InvalidRows(rows[..i], valid);
      }
    }
  }

  // ---------------------------------------------------------------------------
  // The import as a whole

  datatype ImportResults = ImportResults(success: nat, failed: nat, errors: seq<string>)

  datatype ImportOutcome = ImportOutcome(products: Products, results: ImportResults)

  const NoData: string := "No data found in the file."

  /** At most this many error lines are reported. */
  const MaxErrors: nat := 10

  function Report<T>(t: Tally<T>): (r: ImportResults)
    ensures r.success == t.success && r.failed == t.failed
    ensures r.errors == t.errors[..if |t.errors| <= MaxErrors then |t.errors| else MaxErrors]
  {
    ImportResults(t.success, t.failed, if |t.errors| <= MaxErrors then t.errors else t.errors[..MaxErrors])
  }

  /** The reported error lines are among the loop's, so each names a row. */
  lemma ReportNamesRows<T>(t: Tally<T>, rows: seq<Row>, valid: Row -> bool)
    requires NamesInvalidRows(t.errors, rows, valid)
    ensures forall e :: e in Report(t).errors ==> exists i :: 0 <= i < |rows| && e == RowError(i)
  {
    forall e | e in Report(t).errors
      ensures exists i :: 0 <= i < |rows| && e == RowError(i)
    {
      var j :| 0 <= j < |Report(t).errors| && Report(t).errors[j] == e;
      assert e == t.errors[j];
    }
  }

  function TileBuilder(ids: nat -> string, show: real -> string): (b: (Row, nat, string) -> TileProduct)
    ensures forall r, i, s :: b(r, i, s) == TileFromRow(r, ids(i), s, show)
  {
    (r: Row, i: nat, s: string) => TileFromRow(r, ids(i), s, show)
  }

  function AdhesiveBuilder(ids: nat -> string, show: real -> string): (b: (Row, nat, string) -> AdhesiveProduct)
    ensures forall r, i, s :: b(r, i, s) == AdhesiveFromRow(r, ids(i), s, show)
  {
    (r: Row, i: nat, s: string) => AdhesiveFromRow(r, ids(i), s, show)
  }

  function CpswBuilder(ids: nat -> string, show: real -> string): (b: (Row, nat, string) -> CpswProduct)
    ensures forall r, i, s :: b(r, i, s) == CpswFromRow(r, ids(i), s, show)
  {
    (r: Row, i: nat, s: string) => CpswFromRow(r, ids(i), s, show)
  }

  /**
   * Imports `rows` into category `tab`. `ids(i)` is the fresh id drawn for row `i`.
   * The catalog is replaced only when at least one row was imported.
   */
  function ImportWith(ps: Products, tab: Category, rows: seq<Row>, ids: nat -> string,
                      show: real -> string, numbering: Numbering): (r: ImportOutcome)
    ensures rows == [] ==> r == ImportOutcome(ps, ImportResults(0, 0, [NoData]))
    ensures rows != [] ==> r.results.success + r.results.failed == |rows|
    ensures rows != [] ==> |r.results.errors| == if r.results.failed <= MaxErrors then r.results.failed else MaxErrors
    ensures rows != [] ==> forall e :: e in r.results.errors ==> exists i :: 0 <= i < |rows| && e == RowError(i)
    ensures tab != Tiles ==> r.products.tiles == ps.tiles
    ensures tab != Adhesive ==> r.products.adhesive == ps.adhesive
    ensures tab != CpSw ==> r.products.cpsw == ps.cpsw
    ensures tab == Tiles ==> |r.products.tiles| == |ps.tiles| + r.results.success && r.products.tiles[..|ps.tiles|] == ps.tiles
    ensures tab == Adhesive ==> |r.products.adhesive| == |ps.adhesive| + r.results.success && r.products.adhesive[..|ps.adhesive|] == ps.adhesive
    ensures tab == CpSw ==> |r.products.cpsw| == |ps.cpsw| + r.results.success && r.products.cpsw[..|ps.cpsw|] == ps.cpsw
  {
    if rows == [] then ImportOutcome(ps, ImportResults(0, 0, [NoData]))
    else
      match tab
      case Tiles =>
        var t := Fold(ps.tiles, rows, TileRowValid, TileBuilder(ids, show), numbering);
        FoldErrors(ps.tiles, rows, TileRowValid, TileBuilder(ids, show), numbering);
        ReportNamesRows(t, rows, TileRowValid);
        ImportOutcome(if t.success > 0 then ps.(tiles := t.items) else ps, Report(t))
      case Adhesive =>
        var t := Fold(ps.adhesive, rows, AdhesiveRowValid, AdhesiveBuilder(ids, show), numbering);
        FoldErrors(ps.adhesive, rows, AdhesiveRowValid, AdhesiveBuilder(ids, show), numbering);
        ReportNamesRows(t, rows, AdhesiveRowValid);
        ImportOutcome(if t.success > 0 then ps.(adhesive := t.items) else ps, Report(t))
      case CpSw =>
        var t := Fold(ps.cpsw, rows, CpswRowValid, CpswBuilder(ids, show), numbering);
        FoldErrors(ps.cpsw, rows, CpswRowValid, CpswBuilder(ids, show), numbering);
        ReportNamesRows(t, rows, CpswRowValid);
        ImportOutcome(if t.success > 0 then ps.(cpsw := t.items) else ps, Report(t))
  }

  /** The row check of each category. */
  function ValidFor(tab: Category): Row -> bool {
    match tab
    case Tiles => TileRowValid
    case Adhesive => AdhesiveRowValid
    case CpSw => CpswRowValid
  }

  /** At most the first `MaxErrors` lines. */
  function Capped(lines: seq<string>): seq<string> {
    lines[..if |lines| <= MaxErrors then |lines| else MaxErrors]
  }

  /** The reported error lines are the first ten naming invalid rows, in row order. */
  lemma ImportReportsFirstErrors(ps: Products, tab: Category, rows: seq<Row>, ids: nat -> string,
                                 show: real -> string, numbering: Numbering)
    requires rows != []
    ensures ImportWith(ps, tab, rows, ids, show, numbering).results.errors
      == Capped(ErrorLines(InvalidRows(rows, ValidFor(tab))))
  {
    match tab
    case Tiles => FoldErrorLines(ps.tiles, rows, TileRowValid, TileBuilder(ids, show), numbering);
    case Adhesive => FoldErrorLines(ps.adhesive, rows, AdhesiveRowValid, AdhesiveBuilder(ids, show), numbering);
    case CpSw => FoldErrorLines(ps.cpsw, rows, CpswRowValid, CpswBuilder(ids, show), numbering);
  }

  /** When no record is built, the list is left as it was; otherwise it is replaced by the loop's. */
  lemma KeptOrReplaced<T>(existing: seq<T>, items: seq<T>, built: seq<T>, success: nat, result: seq<T>)
    requires items == existing + built && |items| == |existing| + success
    requires result == if success > 0 then items else existing
    ensures result == existing + built
  {
    if success == 0 {
      assert built == [];
      assert existing + [] == existing;
    }
  }

  /**
   * The imported category's list is the old list followed by the record built from
   * each valid row, in row order, with its row's id and the serial number of its place.
   */
  lemma ImportAppendsValidRows(ps: Products, rows: seq<Row>, ids: nat -> string, show: real -> string, numbering: Numbering)
    ensures ImportWith(ps, Tiles, rows, ids, show, numbering).products.tiles
      == ps.tiles + Built(ValidRows(rows, TileRowValid), |ps.tiles|, TileBuilder(ids, show), numbering)
    ensures ImportWith(ps, Adhesive, rows, ids, show, numbering).products.adhesive
      == ps.adhesive + Built(ValidRows(rows, AdhesiveRowValid), |ps.adhesive|, AdhesiveBuilder(ids, show), numbering)
    ensures ImportWith(ps, CpSw, rows, ids, show, numbering).products.cpsw
      == ps.cpsw + Built(ValidRows(rows, CpswRowValid), |ps.cpsw|, CpswBuilder(ids, show), numbering)
  {
    var tiles := Fold(ps.tiles, rows, TileRowValid, TileBuilder(ids, show), numbering);
    FoldAppends(ps.tiles, rows, TileRowValid, TileBuilder(ids, show), numbering);
    KeptOrReplaced(ps.tiles, tiles.items, Built(ValidRows(rows, TileRowValid), |ps.tiles|, TileBuilder(ids, show), numbering),
      tiles.success, ImportWith(ps, Tiles, rows, ids, show, numbering).products.tiles);
    var adhesive := Fold(ps.adhesive, rows, AdhesiveRowValid, AdhesiveBuilder(ids, show), numbering);
    FoldAppends(ps.adhesive, rows, AdhesiveRowValid, AdhesiveBuilder(ids, show), numbering);
    KeptOrReplaced(ps.adhesive, adhesive.items,
      Built(ValidRows(rows, AdhesiveRowValid), |ps.adhesive|, AdhesiveBuilder(ids, show), numbering),
      adhesive.success, ImportWith(ps, Adhesive, rows, ids, show, numbering).products.adhesive);
    var cpsw := Fold(ps.cpsw, rows, CpswRowValid, CpswBuilder(ids, show), numbering);
    FoldAppends(ps.cpsw, rows, CpswRowValid, CpswBuilder(ids, show), numbering);
    KeptOrReplaced(ps.cpsw, cpsw.items, Built(ValidRows(rows, CpswRowValid), |ps.cpsw|, CpswBuilder(ids, show), numbering),
      cpsw.success, ImportWith(ps, CpSw, rows, ids, show, numbering).products.cpsw);
  }

  /** The import with serial numbers as the page computes them. */
  function ImportAsWritten(ps: Products, tab: Category, rows: seq<Row>, ids: nat -> string, show: real -> string): (r: ImportOutcome)
    ensures r.results.success + r.results.failed == |rows|
  {
    ImportWith(ps, tab, rows, ids, show, AsWritten)
  }

  /** The import with consecutive serial numbers, continuing the list. */
  function Import(ps: Products, tab: Category, rows: seq<Row>, ids: nat -> string, show: real -> string): (r: ImportOutcome)
    ensures r.results.success + r.results.failed == |rows|
  {
    ImportWith(ps, tab, rows, ids, show, Consecutive)
  }

  /**
   * Every tile the import appends has consistent totals, and with consecutive numbering
   * its serial number is its 1-based position, as after adding it by hand.
   */
  lemma ImportedTiles(ps: Products, rows: seq<Row>, ids: nat -> string, show: real -> string)
    ensures var r := Import(ps, Tiles, rows, ids, show).products.tiles;
      forall j :: |ps.tiles| <= j < |r| ==> TileTotalsConsistent(r[j]) && r[j].sno == Some(NatToString(j + 1))
  {
    if rows != [] {
      var build := TileBuilder(ids, show);
      var sno := (p: TileProduct) => p.sno;
      var t := Fold(ps.tiles, rows, TileRowValid, build, Consecutive);
      FoldKeeps(ps.tiles, rows, TileRowValid, build, Consecutive, TileTotalsConsistent);
      FoldConsecutive(ps.tiles, rows, TileRowValid, build, sno);
      var r := Import(ps, Tiles, rows, ids, show).products.tiles;
      assert r == if t.success > 0 then t.items else ps.tiles;
      forall j | |ps.tiles| <= j < |r|
        ensures TileTotalsConsistent(r[j]) && r[j].sno == Some(NatToString(j + 1))
      {
        assert r[j] == t.items[j] && sno(t.items[j]) == t.items[j].sno;
      }
    }
  }

  /** Every adhesive record the import appends has `totalAmount == dPrice * noOfBags` and its position as serial. */
  lemma ImportedAdhesive(ps: Products, rows: seq<Row>, ids: nat -> string, show: real -> string)
    ensures var r := Import(ps, Adhesive, rows, ids, show).products.adhesive;
      forall j :: |ps.adhesive| <= j < |r| ==>
        r[j].totalAmount == BagTotal(r[j].dPrice, r[j].noOfBags) && r[j].sno == Some(NatToString(j + 1))
  {
    if rows != [] {
      var build := AdhesiveBuilder(ids, show);
      var sno := (p: AdhesiveProduct) => p.sno;
      var inv := (p: AdhesiveProduct) => p.totalAmount == BagTotal(p.dPrice, p.noOfBags);
      var t := Fold(ps.adhesive, rows, AdhesiveRowValid, build, Consecutive);
      FoldKeeps(ps.adhesive, rows, AdhesiveRowValid, build, Consecutive, inv);
      FoldConsecutive(ps.adhesive, rows, AdhesiveRowValid, build, sno);
      var r := Import(ps, Adhesive, rows, ids, show).products.adhesive;
      assert r == if t.success > 0 then t.items else ps.adhesive;
      forall j | |ps.adhesive| <= j < |r|
        ensures r[j].totalAmount == BagTotal(r[j].dPrice, r[j].noOfBags) && r[j].sno == Some(NatToString(j + 1))
      {
        assert r[j] == t.items[j] && sno(t.items[j]) == t.items[j].sno && inv(t.items[j]);
      }
    }
  }

  /** Every CP & SW record the import appends has `totalAmount == dPrice * nos` and its position as serial. */
  lemma ImportedCpsw(ps: Products, rows: seq<Row>, ids: nat -> string, show: real -> string)
    ensures var r := Import(ps, CpSw, rows, ids, show).products.cpsw;
      forall j :: |ps.cpsw| <= j < |r| ==>
        r[j].totalAmount == BagTotal(r[j].dPrice, r[j].nos) && r[j].sno == Some(NatToString(j + 1))
  {
    if rows != [] {
      var build := CpswBuilder(ids, show);
      var sno := (p: CpswProduct) => p.sno;
      var inv := (p: CpswProduct) => p.totalAmount == BagTotal(p.dPrice, p.nos);
      var t := Fold(ps.cpsw, rows, CpswRowValid, build, Consecutive);
      FoldKeeps(ps.cpsw, rows, CpswRowValid, build, Consecutive, inv);
      FoldConsecutive(ps.cpsw, rows, CpswRowValid, build, sno);
      var r := Import(ps, CpSw, rows, ids, show).products.cpsw;
      assert r == if t.success > 0 then t.items else ps.cpsw;
      forall j | |ps.cpsw| <= j < |r|
        ensures r[j].totalAmount == BagTotal(r[j].dPrice, r[j].nos) && r[j].sno == Some(NatToString(j + 1))
      {
        assert r[j] == t.items[j] && sno(t.items[j]) == t.items[j].sno && inv(t.items[j]);
      }
    }
  }

  /**
   * As written, importing two valid tile rows into an empty tile list numbers them
   * 1 and 3: the list already holds the first record when the second serial is
   * computed, and the success count adds it again.
   */
  lemma ImportAsWrittenSkipsSerials(ps: Products, row: Row, ids: nat -> string, show: real -> string)
    requires ps.tiles == [] && TileRowValid(row)
    ensures var r := ImportAsWritten(ps, Tiles, [row, row], ids, show).products.tiles;
      |r| == 2 && r[0].sno == Some("1") && r[1].sno == Some("3")
  {
    var rows := [row, row];
    var build := TileBuilder(ids, show);
    var sno := (p: TileProduct) => p.sno;
    var t := Fold(ps.tiles, rows, TileRowValid, build, AsWritten);
    FoldAsWritten(ps.tiles, rows, TileRowValid, build, sno);
    FoldSuccess(ps.tiles, rows, TileRowValid, build, AsWritten);
    FilterAll(rows, TileRowValid);
    assert t.success == 2;
    var r := ImportAsWritten(ps, Tiles, rows, ids, show).products.tiles;
    assert r == t.items;
    assert sno(t.items[0]) == Some(NatToString(1));
    assert sno(t.items[1]) == Some(NatToString(3));
    assert NatToString(1) == "1" && NatToString(3) == "3";
  }
}
