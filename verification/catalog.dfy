/**
 * The product catalog page: the three product records, the form edit handlers
 * that keep the derived fields in step with the raw ones, search filtering,
 * the suggestion lists, and adding, updating and deleting records.
 */
module Catalog {
  import opened Wrappers
  import opened Text
  import opened Numbers
  import opened Lists

  /** A stored value that is a number until a form writes the raw input text into it. */
  datatype Scalar = Num(n: real) | Str(s: string)

  datatype TileProduct = TileProduct(
    id: string,
    sno: Option<string>,
    brand: string,
    areaOfApplication: string,
    shadeName: string,
    image: string,
    dimensions: string,
    surface: string,
    mrp: real,
    discount: real,          // percent
    discountedPrice: real,
    areaRequired: real,      // sq ft
    noOfBoxes: int,
    totalAmount: real,
    pricePerSqFt: real,
    areaInOneBox: real)      // sq ft covered by one box

  datatype AdhesiveProduct = AdhesiveProduct(
    id: string,
    sno: Option<string>,
    brand: string,
    category: string,
    mrp: Scalar,
    dPrice: real,
    noOfBags: int,
    totalAmount: real)

  datatype CpswProduct = CpswProduct(
    id: string,
    sno: Option<string>,
    brand: string,
    productCode: string,
    description: string,
    image: string,
    mrp: Scalar,
    dPrice: real,
    nos: int,
    totalAmount: real)

  datatype Category = Tiles | Adhesive | CpSw

  /** The whole catalog, one list per category. */
  datatype Products = Products(tiles: seq<TileProduct>, adhesive: seq<AdhesiveProduct>, cpsw: seq<CpswProduct>)

  // ---------------------------------------------------------------------------
  // Form edits

  /** `parseFloat(String(value)) || 0`. */
  function ParsedReal(value: string): real {
    OrZero(ParseFloat(value))
  }

  /** `parseInt(String(value)) || 0`. */
  function ParsedInt(value: string): int {
    OrZeroInt(ParseInt(value))
  }

  /** The derived money fields of a tile agree with its price, area and discount. */
  predicate TileTotalsConsistent(p: TileProduct) {
    && p.totalAmount == Amount(p.mrp, p.areaRequired)
    && p.discountedPrice == DiscountedTotal(p.totalAmount, p.discount)
  }

  /** Box count after an edit of field `name`, given the updated areas. */
  function EditedBoxes(previous: int, name: string, value: string, areaRequired: real, areaInOneBox: real): int {
    if name == "noOfBoxes" then ParsedInt(value)
    else if (name == "areaRequired" || name == "areaInOneBox") && areaInOneBox > 0.0 then
      Ceil(areaRequired / areaInOneBox)
    else previous
  }

  /** The text fields of a tile form after field `name` receives `value`; nothing else changes. */
  function EditTileText(form: TileProduct, name: string, value: string): (r: TileProduct)
    ensures r.brand == (if name == "brand" then value else form.brand)
    ensures r.areaOfApplication == (if name == "areaOfApplication" then value else form.areaOfApplication)
    ensures r.shadeName == (if name == "shadeName" then value else form.shadeName)
    ensures r.image == (if name == "image" then value else form.image)
    ensures r.dimensions == (if name == "dimensions" then value else form.dimensions)
    ensures r.surface == (if name == "surface" then value else form.surface)
    ensures r.(brand := form.brand, areaOfApplication := form.areaOfApplication, shadeName := form.shadeName,
               image := form.image, dimensions := form.dimensions, surface := form.surface) == form
  {
    form.(
      brand := if name == "brand" then value else form.brand,
      areaOfApplication := if name == "areaOfApplication" then value else form.areaOfApplication,
      shadeName := if name == "shadeName" then value else form.shadeName,
      image := if name == "image" then value else form.image,
      dimensions := if name == "dimensions" then value else form.dimensions,
      surface := if name == "surface" then value else form.surface)
  }

  /**
   * The tile form's change handler: field `name` receives the text `value`; the numeric
   * fields are re-parsed and every derived field is recomputed from them.
   */
  function EditTile(form: TileProduct, name: string, value: string): (r: TileProduct)
    ensures TileTotalsConsistent(r)
    ensures name != "mrp" && name != "areaRequired" ==> r.totalAmount == Amount(form.mrp, form.areaRequired)
    ensures r.mrp == (if name == "mrp" then ParsedReal(value) else form.mrp)
    ensures r.discount == (if name == "discount" then ParsedReal(value) else form.discount)
    ensures r.areaRequired == (if name == "areaRequired" then ParsedReal(value) else form.areaRequired)
    ensures r.areaInOneBox == (if name == "areaInOneBox" then ParsedReal(value) else form.areaInOneBox)
    ensures name == "pricePerSqFt" ==> r.pricePerSqFt == ParsedReal(value)
    ensures name != "pricePerSqFt" && form.pricePerSqFt != 0.0 ==> r.pricePerSqFt == form.pricePerSqFt
    ensures name != "pricePerSqFt" && form.pricePerSqFt == 0.0 ==> r.pricePerSqFt == r.mrp
    ensures name == "noOfBoxes" ==> r.noOfBoxes == ParsedInt(value)
    ensures name != "noOfBoxes" && (name == "areaRequired" || name == "areaInOneBox") && r.areaInOneBox > 0.0 ==>
      r.noOfBoxes == Ceil(r.areaRequired / r.areaInOneBox)
    ensures name != "noOfBoxes" && !((name == "areaRequired" || name == "areaInOneBox") && r.areaInOneBox > 0.0) ==>
      r.noOfBoxes == form.noOfBoxes
    ensures r.brand == (if name == "brand" then value else form.brand)
    ensures r.areaOfApplication == (if name == "areaOfApplication" then value else form.areaOfApplication)
    ensures r.shadeName == (if name == "shadeName" then value else form.shadeName)
    ensures r.image == (if name == "image" then value else form.image)
    ensures r.dimensions == (if name == "dimensions" then value else form.dimensions)
    ensures r.surface == (if name == "surface" then value else form.surface)
    ensures r.id == form.id && r.sno == form.sno
  {
    var mrp := if name == "mrp" then ParsedReal(value) else form.mrp;
    var areaRequired := if name == "areaRequired" then ParsedReal(value) else form.areaRequired;
    var areaInOneBox := if name == "areaInOneBox" then ParsedReal(value) else form.areaInOneBox;
    var edited := EditTileText(form, name, value).(
      mrp := mrp,
      discount := if name == "discount" then ParsedReal(value) else form.discount,
      areaRequired := areaRequired,
      areaInOneBox := areaInOneBox,
      pricePerSqFt :=
        if name == "pricePerSqFt" then ParsedReal(value)
        else if form.pricePerSqFt != 0.0 then form.pricePerSqFt
        else mrp,
      noOfBoxes := EditedBoxes(form.noOfBoxes, name, value, areaRequired, areaInOneBox));
    Recalculate(edited)
  }

  /** The tile with its total and discounted price recomputed; every other field is kept. */
  function Recalculate(p: TileProduct): (r: TileProduct)
    ensures TileTotalsConsistent(r)
    ensures r.(totalAmount := p.totalAmount, discountedPrice := p.discountedPrice) == p
  {
    var total := Amount(p.mrp, p.areaRequired);
    p.(totalAmount := total, discountedPrice := DiscountedTotal(total, p.discount))
  }

  /** `ceil(area / perBox)` boxes cover the area, and one box fewer would not. */
  lemma CeilBoxesBounds(area: real, perBox: real)
    requires perBox > 0.0
    ensures perBox * (Ceil(area / perBox) - 1) as real < area <= perBox * Ceil(area / perBox) as real
  {
    var q := area / perBox;
    var c := Ceil(q);
    assert area == perBox * q;
    assert q <= c as real;
    assert perBox * q <= perBox * c as real;
    assert (c - 1) as real < q;
    assert perBox * (c - 1) as real < perBox * q;
  }

  /** With a discount between 0 and 100 percent and a non-negative total, the discounted price lies between 0 and the total. */
  lemma DiscountedWithinTotal(p: TileProduct)
    requires TileTotalsConsistent(p)
    requires p.mrp >= 0.0 && p.areaRequired >= 0.0 && 0.0 <= p.discount <= 100.0
    ensures 0.0 <= p.discountedPrice <= p.totalAmount
    ensures p.discountedPrice == p.mrp * p.areaRequired * (1.0 - p.discount / 100.0)
  {
    var t, f := p.totalAmount, p.discount / 100.0;
    assert t == p.mrp * p.areaRequired;
    NonNegativeProduct(p.mrp, p.areaRequired);
    assert 0.0 <= f <= 1.0;
    assert t * p.discount / 100.0 == t * f;
    ScaleWithin(t, f);
    assert p.discountedPrice == t - t * f == t * (1.0 - f);
  }

  /** A product of non-negative reals is non-negative. */
  lemma NonNegativeProduct(a: real, b: real)
    requires a >= 0.0 && b >= 0.0
    ensures a * b >= 0.0
  {
  }

  /** Scaling a non-negative amount by a fraction in [0, 1] keeps it between 0 and the amount. */
  lemma ScaleWithin(t: real, f: real)
    requires t >= 0.0 && 0.0 <= f <= 1.0
    ensures 0.0 <= t * f <= t
  {
    assert t * f <= t * 1.0;
  }

  /** The text "100" parses as 100. */
  lemma ParsedHundred()
    ensures ParsedReal("100") == 100.0
  {
    assert NatToString(100) == "100";
    ParseFloatOfRendered(100);
  }

  /** 100 sq ft at 30.72 sq ft per box needs 4 boxes. */
  lemma BoxesForHundred()
    ensures Ceil(100.0 / 30.72) == 4
  {
    var q := 100.0 / 30.72;
    assert 3.0 < q <= 4.0;
  }

  /** The sample tile: MRP 100, 10% off, 30.72 sq ft per box; entering an area of 100 sq ft. */
  lemma SampleTileEdit(form: TileProduct)
    requires form.mrp == 100.0 && form.discount == 10.0 && form.areaInOneBox == 30.72
    ensures EditTile(form, "areaRequired", "100").totalAmount == 10000.0
    ensures EditTile(form, "areaRequired", "100").discountedPrice == 9000.0
    ensures EditTile(form, "areaRequired", "100").noOfBoxes == 4
  {
    ParsedHundred();
    BoxesForHundred();
    var r := EditTile(form, "areaRequired", "100");
    assert r.mrp == 100.0 && r.areaRequired == 100.0 && r.discount == 10.0 && r.areaInOneBox == 30.72;
    assert r.discountedPrice == DiscountedTotal(10000.0, 10.0) == 9000.0;
  }

  /** `totalAmount` of a bag- or piece-priced product: discounted unit price times count. */
  function BagTotal(dPrice: real, count: int): real {
    Amount(dPrice, count as real)
  }

  /**
   * The adhesive form's change handler. Only edits of the unit price or the bag count
   * recompute the total; an edit of the MRP stores the raw input text.
   */
  function EditAdhesive(form: AdhesiveProduct, name: string, value: string): (r: AdhesiveProduct)
    ensures (name == "dPrice" || name == "noOfBags") ==> r.totalAmount == BagTotal(r.dPrice, r.noOfBags)
    ensures r.dPrice == (if name == "dPrice" then ParsedReal(value) else form.dPrice)
    ensures r.noOfBags == (if name == "noOfBags" then ParsedInt(value) else form.noOfBags)
    ensures name != "dPrice" && name != "noOfBags" ==> r.totalAmount == form.totalAmount
    ensures r.mrp == (if name == "mrp" then Str(value) else form.mrp)
    ensures r.brand == (if name == "brand" then value else form.brand)
    ensures r.category == (if name == "category" then value else form.category)
    ensures r.id == form.id && r.sno == form.sno
  {
    var raw := form.(
      brand := if name == "brand" then value else form.brand,
      category := if name == "category" then value else form.category,
      mrp := if name == "mrp" then Str(value) else form.mrp);
    if name == "dPrice" || name == "noOfBags" then
      var dPrice := if name == "dPrice" then ParsedReal(value) else form.dPrice;
      var noOfBags := if name == "noOfBags" then ParsedInt(value) else form.noOfBags;
      raw.(dPrice := dPrice, noOfBags := noOfBags, totalAmount := BagTotal(dPrice, noOfBags))
    else raw
  }

  /** The CP & SW form's change handler, the same rule over the piece count `nos`. */
  function EditCpsw(form: CpswProduct, name: string, value: string): (r: CpswProduct)
    ensures (name == "dPrice" || name == "nos") ==> r.totalAmount == BagTotal(r.dPrice, r.nos)
    ensures r.dPrice == (if name == "dPrice" then ParsedReal(value) else form.dPrice)
    ensures r.nos == (if name == "nos" then ParsedInt(value) else form.nos)
    ensures name != "dPrice" && name != "nos" ==> r.totalAmount == form.totalAmount
    ensures r.mrp == (if name == "mrp" then Str(value) else form.mrp)
    ensures r.brand == (if name == "brand" then value else form.brand)
    ensures r.productCode == (if name == "productCode" then value else form.productCode)
    ensures r.description == (if name == "description" then value else form.description)
    ensures r.image == (if name == "image" then value else form.image)
    ensures r.id == form.id && r.sno == form.sno
  {
    var raw := form.(
      brand := if name == "brand" then value else form.brand,
      productCode := if name == "productCode" then value else form.productCode,
      description := if name == "description" then value else form.description,
      image := if name == "image" then value else form.image,
      mrp := if name == "mrp" then Str(value) else form.mrp);
    if name == "dPrice" || name == "nos" then
      var dPrice := if name == "dPrice" then ParsedReal(value) else form.dPrice;
      var nos := if name == "nos" then ParsedInt(value) else form.nos;
      raw.(dPrice := dPrice, nos := nos, totalAmount := BagTotal(dPrice, nos))
    else raw
  }

  /** Every adhesive edit keeps `totalAmount == dPrice * noOfBags` once it holds. */
  lemma AdhesiveEditKeepsTotal(form: AdhesiveProduct, name: string, value: string)
    requires form.totalAmount == BagTotal(form.dPrice, form.noOfBags)
    ensures var r := EditAdhesive(form, name, value); r.totalAmount == BagTotal(r.dPrice, r.noOfBags)
  {
  }

  /** Every CP & SW edit keeps `totalAmount == dPrice * nos` once it holds. */
  lemma CpswEditKeepsTotal(form: CpswProduct, name: string, value: string)
    requires form.totalAmount == BagTotal(form.dPrice, form.nos)
    ensures var r := EditCpsw(form, name, value); r.totalAmount == BagTotal(r.dPrice, r.nos)
  {
  }

  // ---------------------------------------------------------------------------
  // Search

  /** Case-insensitive `includes`. */
  predicate Mentions(field: string, term: string) {
    Contains(Lower(field), Lower(term))
  }

  predicate TileMatches(p: TileProduct, term: string) {
    Mentions(p.brand, term) || Mentions(p.shadeName, term)
  }

  predicate AdhesiveMatches(p: AdhesiveProduct, term: string) {
    Mentions(p.brand, term) || Mentions(p.category, term)
  }

  predicate CpswMatches(p: CpswProduct, term: string) {
    Mentions(p.brand, term) || Mentions(p.productCode, term) || Mentions(p.description, term)
  }

  /** The list shown for one category. */
  datatype Listing = TileList(tiles: seq<TileProduct>) | AdhesiveList(adhesive: seq<AdhesiveProduct>) | CpswList(cpsw: seq<CpswProduct>)

  /**
   * The search box: an empty term lists the whole category; otherwise exactly the
   * records one of whose searched fields contains the term, ignoring case, in catalog order,
   * each as often as it occurs in the catalog.
   */
  function FilterProducts(ps: Products, category: Category, term: string): (r: Listing)
    ensures category == Tiles <==> r.TileList?
    ensures category == Adhesive <==> r.AdhesiveList?
    ensures term == "" ==> r == (match category
      case Tiles => TileList(ps.tiles)
      case Adhesive => AdhesiveList(ps.adhesive)
      case CpSw => CpswList(ps.cpsw))
    ensures r.TileList? ==> Sublist(r.tiles, ps.tiles) && forall p :: p in r.tiles <==> p in ps.tiles && TileMatches(p, term)
    ensures r.AdhesiveList? ==> Sublist(r.adhesive, ps.adhesive) && forall p :: p in r.adhesive <==> p in ps.adhesive && AdhesiveMatches(p, term)
    ensures r.CpswList? ==> Sublist(r.cpsw, ps.cpsw) && forall p :: p in r.cpsw <==> p in ps.cpsw && CpswMatches(p, term)
    ensures r.TileList? ==> forall p {:trigger multiset(r.tiles)[p]} :: multiset(r.tiles)[p] == if TileMatches(p, term) then multiset(ps.tiles)[p] else 0
    ensures r.AdhesiveList? ==> forall p {:trigger multiset(r.adhesive)[p]} :: multiset(r.adhesive)[p] == if AdhesiveMatches(p, term) then multiset(ps.adhesive)[p] else 0
    ensures r.CpswList? ==> forall p {:trigger multiset(r.cpsw)[p]} :: multiset(r.cpsw)[p] == if CpswMatches(p, term) then multiset(ps.cpsw)[p] else 0
  {
    if term == "" then
      EmptyTermMatchesAll(ps, term);
      match category
      case Tiles => TileList(ps.tiles)
      case Adhesive => AdhesiveList(ps.adhesive)
      case CpSw => CpswList(ps.cpsw)
    else
      match category
      case Tiles => TileList(Filter(ps.tiles, (p: TileProduct) => TileMatches(p, term)))
      case Adhesive => AdhesiveList(Filter(ps.adhesive, (p: AdhesiveProduct) => AdhesiveMatches(p, term)))
      case CpSw => CpswList(Filter(ps.cpsw, (p: CpswProduct) => CpswMatches(p, term)))
  }

  /** The empty term occurs in every field, so listing everything is what filtering would give. */
  lemma EmptyTermMatchesAll(ps: Products, term: string)
    requires term == ""
    ensures forall p: TileProduct :: TileMatches(p, term)
    ensures forall p: AdhesiveProduct :: AdhesiveMatches(p, term)
    ensures forall p: CpswProduct :: CpswMatches(p, term)
    ensures Sublist(ps.tiles, ps.tiles) && Sublist(ps.adhesive, ps.adhesive) && Sublist(ps.cpsw, ps.cpsw)
  {
    assert Lower(term) == "";
    FilterAll(ps.tiles, (p: TileProduct) => TileMatches(p, term));
    FilterAll(ps.adhesive, (p: AdhesiveProduct) => AdhesiveMatches(p, term));
    FilterAll(ps.cpsw, (p: CpswProduct) => CpswMatches(p, term));
  }

  // ---------------------------------------------------------------------------
  // Suggestion lists

  /** The brand column of the tile list, one entry per record. */
  function Brands(tiles: seq<TileProduct>): seq<string> {
    seq(|tiles|, i requires 0 <= i < |tiles| => tiles[i].brand)
  }

  /** The shade column of the given brand's tiles, in list order. */
  function ShadesOf(tiles: seq<TileProduct>, brand: string): seq<string> {
    var ofBrand := Filter(tiles, (p: TileProduct) => p.brand == brand);
    seq(|ofBrand|, i requires 0 <= i < |ofBrand| => ofBrand[i].shadeName)
  }

  /** Distinct tile brands, in order of first appearance. */
  function UniqueBrands(tiles: seq<TileProduct>): (r: seq<string>)
    ensures NoDuplicates(r)
    ensures forall b :: b in r <==> exists p :: p in tiles && p.brand == b
    ensures Sublist(r, Brands(tiles)) && FirstOccurrenceOrder(r, Brands(tiles))
  {
    var brands := Brands(tiles);
    assert forall b :: b in brands <==> exists p :: p in tiles && p.brand == b by {
      forall b ensures b in brands <==> exists p :: p in tiles && p.brand == b {
        if exists p :: p in tiles && p.brand == b {
          var p :| p in tiles && p.brand == b;
          var i :| 0 <= i < |tiles| && tiles[i] == p;
          assert brands[i] == b;
        }
      }
    }
    Distinct(brands)
  }

  /** Distinct shades of one brand's tiles, in order of first appearance. */
  function UniqueShades(tiles: seq<TileProduct>, brand: string): (r: seq<string>)
    ensures NoDuplicates(r)
    ensures forall s :: s in r <==> exists p :: p in tiles && p.brand == brand && p.shadeName == s
    ensures Sublist(r, ShadesOf(tiles, brand)) && FirstOccurrenceOrder(r, ShadesOf(tiles, brand))
  {
    var ofBrand := Filter(tiles, (p: TileProduct) => p.brand == brand);
    var shades := ShadesOf(tiles, brand);
    assert forall s :: s in shades <==> exists p :: p in tiles && p.brand == brand && p.shadeName == s by {
      forall s ensures s in shades <==> exists p :: p in tiles && p.brand == brand && p.shadeName == s {
        if exists p :: p in tiles && p.brand == brand && p.shadeName == s {
          var p :| p in tiles && p.brand == brand && p.shadeName == s;
          assert p in ofBrand;
          var i :| 0 <= i < |ofBrand| && ofBrand[i] == p;
          assert shades[i] == s;
        }
        if s in shades {
          var i :| 0 <= i < |shades| && shades[i] == s;
          assert ofBrand[i] in ofBrand;
        }
      }
    }
    Distinct(shades)
  }

  /** The brand suggestions after saving a new record: the brand is appended when it is new. */
  function AddOption(options: seq<string>, brand: string): (r: seq<string>)
    ensures brand in r
    ensures forall b :: b in r <==> b in options || b == brand
    ensures NoDuplicates(options) ==> NoDuplicates(r)
    ensures options <= r && |r| <= |options| + 1
  {
    if brand in options then options else options + [brand]
  }

  // ---------------------------------------------------------------------------
  // Saving and deleting

  datatype DialogMode = Add | Edit

  datatype SaveOutcome = SaveOutcome(products: Products, message: string)

  /** The serial number given to a record appended to a list of `count` records. */
  function NextSno(count: nat): (s: string)
    ensures ParseInt(s) == Some(count + 1)
  {
    ParseIntOfRendered(count + 1);
    NatToString(count + 1)
  }

  /**
   * The dialog's save button. Adding appends the form under a fresh id and the serial
   * number `length + 1`; updating puts the form in place of every record whose id is
   * the selected one. Only the active category's list changes.
   */
  function SaveProduct(ps: Products, tab: Category, mode: DialogMode,
                       tile: TileProduct, adhesive: AdhesiveProduct, cpsw: CpswProduct,
                       newId: string, selected: Option<string>): (r: SaveOutcome)
    ensures tab != Tiles ==> r.products.tiles == ps.tiles
    ensures tab != Adhesive ==> r.products.adhesive == ps.adhesive
    ensures tab != CpSw ==> r.products.cpsw == ps.cpsw
    ensures tab == Tiles && mode == Add ==>
      && |r.products.tiles| == |ps.tiles| + 1
      && r.products.tiles[..|ps.tiles|] == ps.tiles
      && r.products.tiles[|ps.tiles|] == tile.(id := newId, sno := Some(NextSno(|ps.tiles|)))
    ensures tab == Adhesive && mode == Add ==>
      && |r.products.adhesive| == |ps.adhesive| + 1
      && r.products.adhesive[..|ps.adhesive|] == ps.adhesive
      && r.products.adhesive[|ps.adhesive|] == adhesive.(id := newId, sno := Some(NextSno(|ps.adhesive|)))
    ensures tab == CpSw && mode == Add ==>
      && |r.products.cpsw| == |ps.cpsw| + 1
      && r.products.cpsw[..|ps.cpsw|] == ps.cpsw
      && r.products.cpsw[|ps.cpsw|] == cpsw.(id := newId, sno := Some(NextSno(|ps.cpsw|)))
    ensures tab == Tiles && mode == Edit ==>
      && |r.products.tiles| == |ps.tiles|
      && forall i :: 0 <= i < |ps.tiles| ==>
           r.products.tiles[i] == if Some(ps.tiles[i].id) == selected then tile else ps.tiles[i]
    ensures tab == Adhesive && mode == Edit ==>
      && |r.products.adhesive| == |ps.adhesive|
      && forall i :: 0 <= i < |ps.adhesive| ==>
           r.products.adhesive[i] == if Some(ps.adhesive[i].id) == selected then adhesive else ps.adhesive[i]
    ensures tab == CpSw && mode == Edit ==>
      && |r.products.cpsw| == |ps.cpsw|
      && forall i :: 0 <= i < |ps.cpsw| ==>
           r.products.cpsw[i] == if Some(ps.cpsw[i].id) == selected then cpsw else ps.cpsw[i]
  {
    match (tab, mode)
    case (Tiles, Add) =>
      var added := tile.(id := newId, sno := Some(NextSno(|ps.tiles|)));
      SaveOutcome(ps.(tiles := ps.tiles + [added]), "Tile product added successfully")
    case (Tiles, Edit) =>
      SaveOutcome(ps.(tiles := ReplaceWhere(ps.tiles, (p: TileProduct) => Some(p.id) == selected, tile)), "Tile product updated successfully")
    case (Adhesive, Add) =>
      var added := adhesive.(id := newId, sno := Some(NextSno(|ps.adhesive|)));
      SaveOutcome(ps.(adhesive := ps.adhesive + [added]), "Adhesive product added successfully")
    case (Adhesive, Edit) =>
      SaveOutcome(ps.(adhesive := ReplaceWhere(ps.adhesive, (p: AdhesiveProduct) => Some(p.id) == selected, adhesive)), "Adhesive product updated successfully")
    case (CpSw, Add) =>
      var added := cpsw.(id := newId, sno := Some(NextSno(|ps.cpsw|)));
      SaveOutcome(ps.(cpsw := ps.cpsw + [added]), "CP & SW product added successfully")
    case (CpSw, Edit) =>
      SaveOutcome(ps.(cpsw := ReplaceWhere(ps.cpsw, (p: CpswProduct) => Some(p.id) == selected, cpsw)), "CP & SW product updated successfully")
  }

  /**
   * The delete button: the active category loses exactly the records with the given id,
   * the others keep their order and their number of copies, and the other categories are untouched.
   */
  function DeleteProduct(ps: Products, tab: Category, productId: string): (r: SaveOutcome)
    ensures tab != Tiles ==> r.products.tiles == ps.tiles
    ensures tab != Adhesive ==> r.products.adhesive == ps.adhesive
    ensures tab != CpSw ==> r.products.cpsw == ps.cpsw
    ensures tab == Tiles ==>
      && Sublist(r.products.tiles, ps.tiles)
      && forall p :: p in r.products.tiles <==> p in ps.tiles && p.id != productId
    ensures tab == Adhesive ==>
      && Sublist(r.products.adhesive, ps.adhesive)
      && forall p :: p in r.products.adhesive <==> p in ps.adhesive && p.id != productId
    ensures tab == CpSw ==>
      && Sublist(r.products.cpsw, ps.cpsw)
      && forall p :: p in r.products.cpsw <==> p in ps.cpsw && p.id != productId
    ensures tab == Tiles ==> forall p {:trigger multiset(r.products.tiles)[p]} :: multiset(r.products.tiles)[p] == if p.id != productId then multiset(ps.tiles)[p] else 0
    ensures tab == Adhesive ==> forall p {:trigger multiset(r.products.adhesive)[p]} :: multiset(r.products.adhesive)[p] == if p.id != productId then multiset(ps.adhesive)[p] else 0
    ensures tab == CpSw ==> forall p {:trigger multiset(r.products.cpsw)[p]} :: multiset(r.products.cpsw)[p] == if p.id != productId then multiset(ps.cpsw)[p] else 0
  {
    match tab
    case Tiles =>
      SaveOutcome(ps.(tiles := Filter(ps.tiles, (p: TileProduct) => p.id != productId)), "Tile product deleted successfully")
    case Adhesive =>
      SaveOutcome(ps.(adhesive := Filter(ps.adhesive, (p: AdhesiveProduct) => p.id != productId)), "Adhesive product deleted successfully")
    case CpSw =>
      SaveOutcome(ps.(cpsw := Filter(ps.cpsw, (p: CpswProduct) => p.id != productId)), "CP & SW product deleted successfully")
  }

  /** Deleting a tile that was just added under a fresh id restores the catalog. */
  lemma AddThenDeleteTile(ps: Products, tile: TileProduct, adhesive: AdhesiveProduct, cpsw: CpswProduct, newId: string)
    requires forall p :: p in ps.tiles ==> p.id != newId
    ensures DeleteProduct(SaveProduct(ps, Tiles, Add, tile, adhesive, cpsw, newId, None).products, Tiles, newId).products == ps
  {
    var added := tile.(id := newId, sno := Some(NextSno(|ps.tiles|)));
    var keep := (p: TileProduct) => p.id != newId;
    FilterAppend(ps.tiles, [added], keep);
    FilterAll(ps.tiles, keep);
    assert Filter([added], keep) == [];
  }

  /** Updating with no record selected, or an id absent from the list, changes nothing. */
  lemma EditUnknownIdChangesNothing(ps: Products, tile: TileProduct, adhesive: AdhesiveProduct, cpsw: CpswProduct, newId: string, selected: Option<string>)
    requires forall p :: p in ps.tiles ==> Some(p.id) != selected
    ensures SaveProduct(ps, Tiles, Edit, tile, adhesive, cpsw, newId, selected).products == ps
  {
    var r := SaveProduct(ps, Tiles, Edit, tile, adhesive, cpsw, newId, selected).products.tiles;
    assert forall i :: 0 <= i < |ps.tiles| ==> r[i] == ps.tiles[i] by {
      forall i | 0 <= i < |ps.tiles| ensures r[i] == ps.tiles[i] {
        assert ps.tiles[i] in ps.tiles;
      }
    }
    assert r == ps.tiles;
  }
}
