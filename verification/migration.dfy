/**
 * The pure record mapping of the data-migration endpoint: request and
 * configuration checks, the catalog-to-row mapping, quotation and item rows,
 * settings flattening and the version-4 UUID layout. The database statements
 * themselves are not modelled; each function yields the rows that would be
 * bound to them, in the order they would be executed.
 */
module Migration {
  import opened Wrappers
  import opened Text
  import Catalog

  // ---------------------------------------------------------------------------
  // Decoded request values

  /** A value as `json_decode($body, true)` returns it; an object keeps its key order. */
  datatype Json =
    | JNull
    | JBool(b: bool)
    | JNum(x: real)
    | JStr(s: string)
    | JArr(items: seq<Json>)
    | JObj(fields: seq<(string, Json)>)

  /** The value stored under `key` (the first entry, as a decoded object has no duplicates). */
  function Find(fields: seq<(string, Json)>, key: string): (r: Option<Json>)
    ensures r.Some? <==> exists i :: 0 <= i < |fields| && fields[i].0 == key
    ensures r.Some? ==> (key, r.value) in fields
  {
    if |fields| == 0 then None
    else if fields[0].0 == key then Some(fields[0].1)
    else Find(fields[1..], key)
  }

  /** `$v[$key]` when present: only an associative array has named entries. */
  function Get(v: Json, key: string): Option<Json> {
    if v.JObj? then Find(v.fields, key) else None
  }

  /** `isset($v[$key])`: the entry exists and is not null. */
  predicate Isset(v: Json, key: string) {
    Get(v, key).Some? && Get(v, key).value != JNull
  }

  /** `$v[$key]`, which reads as null when the entry is absent. */
  function At(v: Json, key: string): Json {
    Get(v, key).GetOr(JNull)
  }

  /** `$v[$key] ?? $default`. */
  function Coalesce(v: Json, key: string, default: Json): (r: Json)
    ensures Isset(v, key) ==> r == At(v, key) && r != JNull
    ensures !Isset(v, key) ==> r == default
  {
    if Isset(v, key) then At(v, key) else default
  }

  /** `is_array($v)`: a decoded list or object. */
  predicate IsArray(v: Json) {
    v.JArr? || v.JObj?
  }

  /** The values a `foreach` visits, in order. */
  function Elements(v: Json): (r: seq<Json>)
    ensures !IsArray(v) ==> r == []
    ensures v.JObj? ==> |r| == |v.fields| && forall i :: 0 <= i < |r| ==> r[i] == v.fields[i].1
  {
    match v
    case JArr(items) => items
    case JObj(fields) => seq(|fields|, (i: int) requires 0 <= i < |fields| => fields[i].1)
    case _ => []
  }

  /** `$v[$key]` is set and is an array: the guard around each category loop. */
  function SetList(v: Json, key: string): (r: seq<Json>)
    ensures !Isset(v, key) ==> r == []
  {
    if Isset(v, key) && IsArray(At(v, key)) then Elements(At(v, key)) else []
  }

  // ---------------------------------------------------------------------------
  // Request and configuration checks

  const InvalidMethod := "Invalid request method. Only POST requests are allowed."
  const MissingParameters := "Missing required parameters."
  const MissingConfiguration := "Missing required database configuration parameters."
  const Completed := "Data migration completed successfully!"
  const DefaultPrefix := JStr("quotation_")
  const DefaultPort := JNum(3306.0)

  /** The arguments handed to the database connection. */
  datatype Connection = Connection(host: Json, username: Json, password: Json, database: Json, port: Json)

  /** How the endpoint answers before any data is touched. */
  datatype Outcome =
    | Preflight                                  // status 200, empty body
    | Rejected(message: string)                  // `success: false` with a message
    | Accepted(connection: Connection, prefix: Json, data: Json)

  /** The checks that run on the request method `verb` and the decoded body, in order. */
  function CheckRequest(verb: string, body: Json): (r: Outcome)
    ensures r.Preflight? <==> verb == "OPTIONS"
    ensures r == Rejected(InvalidMethod) <==> verb != "OPTIONS" && verb != "POST"
    ensures r == Rejected(MissingParameters) <==>
      verb == "POST" && !(Isset(body, "dbConfig") && Isset(body, "data"))
    ensures r == Rejected(MissingConfiguration) <==>
      verb == "POST" && Isset(body, "dbConfig") && Isset(body, "data") &&
      var config := At(body, "dbConfig");
      !(Isset(config, "host") && Isset(config, "database") && Isset(config, "username"))
    ensures r.Accepted? ==>
      var config := At(body, "dbConfig");
      && verb == "POST"
      && Isset(config, "host") && Isset(config, "database") && Isset(config, "username")
      && r.data == At(body, "data") && r.data != JNull
      && r.connection.host == At(config, "host")
      && r.connection.username == At(config, "username")
      && r.connection.database == At(config, "database")
      && r.prefix == (if Isset(config, "prefix") then At(config, "prefix") else DefaultPrefix)
      && r.connection.port == (if Isset(config, "port") then At(config, "port") else DefaultPort)
  {
    if verb == "OPTIONS" then Preflight
    else if verb != "POST" then Rejected(InvalidMethod)
    else if !Isset(body, "dbConfig") || !Isset(body, "data") then Rejected(MissingParameters)
    else
      var config := At(body, "dbConfig");
      var prefix := if Isset(config, "prefix") then At(config, "prefix") else DefaultPrefix;
      if !Isset(config, "host") || !Isset(config, "database") || !Isset(config, "username") then
        Rejected(MissingConfiguration)
      else
        var port := if Isset(config, "port") then At(config, "port") else DefaultPort;
        Accepted(Connection(At(config, "host"), At(config, "username"), At(config, "password"),
                            At(config, "database"), port),
                 prefix, At(body, "data"))
  }

  // ---------------------------------------------------------------------------
  // Product rows

  /** One row of the products table, column by column. */
  datatype ProductRow = ProductRow(
    id: Json,
    productType: string,
    brand: Json,
    areaOfApplication: Json,
    shadeName: Json,
    image: Json,
    dimensions: Json,
    surface: Json,
    category: Json,
    productCode: Json,
    description: Json,
    mrp: Json,
    discount: Json,
    discountedPrice: Json,
    pricePerSqFt: Json,
    areaInOneBox: Json)

  const Empty := JStr("")
  const Zero := JNum(0.0)

  /** The row for a tile: no category, code or description. */
  function TileRow(p: Json): (r: ProductRow)
    ensures r.productType == "tiles"
    ensures r.category == Empty && r.productCode == Empty && r.description == Empty
  {
    ProductRow(At(p, "id"), "tiles", At(p, "brand"),
      Coalesce(p, "areaOfApplication", Empty), Coalesce(p, "shadeName", Empty),
      Coalesce(p, "image", Empty), Coalesce(p, "dimensions", Empty), Coalesce(p, "surface", Empty),
      Empty, Empty, Empty,
      At(p, "mrp"), Coalesce(p, "discount", Zero), Coalesce(p, "discountedPrice", Zero),
      Coalesce(p, "pricePerSqFt", Zero), Coalesce(p, "areaInOneBox", Zero))
  }

  /** The row for an adhesive: only brand, category and the two prices carry data. */
  function AdhesiveRow(p: Json): (r: ProductRow)
    ensures r.productType == "adhesive"
    ensures r.discount == Zero && r.pricePerSqFt == Zero && r.areaInOneBox == Zero
    ensures r.discountedPrice == Coalesce(p, "dPrice", Zero)
  {
    ProductRow(At(p, "id"), "adhesive", At(p, "brand"),
      Empty, Empty, Empty, Empty, Empty,
      Coalesce(p, "category", Empty), Empty, Empty,
      At(p, "mrp"), Zero, Coalesce(p, "dPrice", Zero), Zero, Zero)
  }

  /** The row for a CP & SW item: image, code and description besides the prices. */
  function CpswRow(p: Json): (r: ProductRow)
    ensures r.productType == "cp-sw"
    ensures r.discount == Zero && r.pricePerSqFt == Zero && r.areaInOneBox == Zero
    ensures r.discountedPrice == Coalesce(p, "dPrice", Zero)
    ensures r.category == Empty
  {
    ProductRow(At(p, "id"), "cp-sw", At(p, "brand"),
      Empty, Empty, Coalesce(p, "image", Empty), Empty, Empty,
      Empty, Coalesce(p, "productCode", Empty), Coalesce(p, "description", Empty),
      At(p, "mrp"), Zero, Coalesce(p, "dPrice", Zero), Zero, Zero)
  }

  function TileRows(ps: seq<Json>): (r: seq<ProductRow>)
    ensures |r| == |ps| && forall i :: 0 <= i < |ps| ==> r[i] == TileRow(ps[i])
  {
    seq(|ps|, (i: int) requires 0 <= i < |ps| => TileRow(ps[i]))
  }

  function AdhesiveRows(ps: seq<Json>): (r: seq<ProductRow>)
    ensures |r| == |ps| && forall i :: 0 <= i < |ps| ==> r[i] == AdhesiveRow(ps[i])
  {
    seq(|ps|, (i: int) requires 0 <= i < |ps| => AdhesiveRow(ps[i]))
  }

  function CpswRows(ps: seq<Json>): (r: seq<ProductRow>)
    ensures |r| == |ps| && forall i :: 0 <= i < |ps| ==> r[i] == CpswRow(ps[i])
  {
    seq(|ps|, (i: int) requires 0 <= i < |ps| => CpswRow(ps[i]))
  }

  /** The rows for the three category lists: the tiles, then the adhesives, then the CP & SW items. */
  function CategoryRows(tiles: seq<Json>, adhesive: seq<Json>, cpsw: seq<Json>): (r: seq<ProductRow>)
    ensures |r| == |tiles| + |adhesive| + |cpsw|
    ensures forall i :: 0 <= i < |tiles| ==> r[i] == TileRow(tiles[i])
    ensures forall i :: 0 <= i < |adhesive| ==> r[|tiles| + i] == AdhesiveRow(adhesive[i])
    ensures forall i :: 0 <= i < |cpsw| ==> r[|tiles| + |adhesive| + i] == CpswRow(cpsw[i])
  {
    var t := TileRows(tiles);
    var a := AdhesiveRows(adhesive);
    var c := CpswRows(cpsw);
    assert forall i :: 0 <= i < |t| ==> (t + a + c)[i] == t[i];
    assert forall i :: 0 <= i < |a| ==> (t + a + c)[|t| + i] == a[i];
    assert forall i :: 0 <= i < |c| ==> (t + a + c)[|t| + |a| + i] == c[i];
    t + a + c
  }

  /** Every row `migrateProducts` inserts: a category contributes only when it is a set array. */
  function ProductRows(products: Json): (r: seq<ProductRow>)
    ensures |r| == |SetList(products, "tiles")| + |SetList(products, "adhesive")| + |SetList(products, "cp-sw")|
  {
    CategoryRows(SetList(products, "tiles"), SetList(products, "adhesive"), SetList(products, "cp-sw"))
  }

  /** Every row's type names the list it came from, and the lists keep their order. */
  lemma RowTypesFollowLists(tiles: seq<Json>, adhesive: seq<Json>, cpsw: seq<Json>)
    ensures
      var r := CategoryRows(tiles, adhesive, cpsw);
      && (forall i :: 0 <= i < |tiles| ==> r[i].productType == "tiles")
      && (forall i :: |tiles| <= i < |tiles| + |adhesive| ==> r[i].productType == "adhesive")
      && (forall i :: |tiles| + |adhesive| <= i < |r| ==> r[i].productType == "cp-sw")
  {
    var r := CategoryRows(tiles, adhesive, cpsw);
    forall i | |tiles| <= i < |tiles| + |adhesive| ensures r[i].productType == "adhesive" {
      assert r[|tiles| + (i - |tiles|)] == AdhesiveRow(adhesive[i - |tiles|]);
    }
    forall i | |tiles| + |adhesive| <= i < |r| ensures r[i].productType == "cp-sw" {
      var k := i - |tiles| - |adhesive|;
      assert r[|tiles| + |adhesive| + k] == CpswRow(cpsw[k]);
    }
  }

  // ---------------------------------------------------------------------------
  // The catalog as the browser stores it

  function ScalarJson(v: Catalog.Scalar): Json {
    match v
    case Num(n) => JNum(n)
    case Str(s) => JStr(s)
  }

  /** An optional serial number: `JSON.stringify` drops an undefined one. */
  function SnoField(sno: Option<string>): seq<(string, Json)> {
    match sno
    case Some(s) => [("sno", JStr(s))]
    case None => []
  }

  /** A stored record: its id, its serial number when it has one, then `keys` with their `values`. */
  function Record(id: string, sno: Option<string>, keys: seq<string>, values: seq<Json>): Json
    requires |keys| == |values|
  {
    JObj([("id", JStr(id))] + SnoField(sno) + seq(|keys|, (i: int) requires 0 <= i < |keys| => (keys[i], values[i])))
  }

  /** Keys a record may carry after its id and serial number. */
  predicate RecordKeys(keys: seq<string>) {
    && (forall i, j :: 0 <= j < i < |keys| ==> keys[j] != keys[i])
    && (forall i :: 0 <= i < |keys| ==> keys[i] != "id" && keys[i] != "sno")
  }

  /** The entry at `i` is found when no earlier entry has its key. */
  lemma {:induction false} FindFirst(fields: seq<(string, Json)>, i: nat)
    requires i < |fields|
    requires forall j :: 0 <= j < i ==> fields[j].0 != fields[i].0
    ensures Find(fields, fields[i].0) == Some(fields[i].1)
  {
    if i > 0 {
      FindFirst(fields[1..], i - 1);
    }
  }

  /** A lookup past the id and the optional serial number of a stored record. */
  lemma FindAfterSno(head: (string, Json), sno: Option<string>, rest: seq<(string, Json)>, key: string)
    requires head.0 != key && key != "sno"
    ensures Find([head] + SnoField(sno) + rest, key) == Find(rest, key)
  {
    var fields := [head] + SnoField(sno) + rest;
    assert fields[1..] == SnoField(sno) + rest;
    if sno.Some? {
      assert fields[1..][1..] == rest;
    }
  }

  /** What `isset` and a read see in a stored record. */
  lemma RecordLookups(id: string, sno: Option<string>, keys: seq<string>, values: seq<Json>)
    requires |keys| == |values| && RecordKeys(keys)
    requires forall i :: 0 <= i < |values| ==> values[i] != JNull
    ensures At(Record(id, sno, keys, values), "id") == JStr(id)
    ensures forall i :: 0 <= i < |keys| ==>
      Isset(Record(id, sno, keys, values), keys[i]) && At(Record(id, sno, keys, values), keys[i]) == values[i]
    ensures forall key :: key !in keys && key != "id" && key != "sno" ==> !Isset(Record(id, sno, keys, values), key)
  {
    var rest := seq(|keys|, (i: int) requires 0 <= i < |keys| => (keys[i], values[i]));
    var head := ("id", JStr(id));
    assert Record(id, sno, keys, values).fields == [head] + SnoField(sno) + rest;
    forall i | 0 <= i < |keys|
      ensures Isset(Record(id, sno, keys, values), keys[i]) && At(Record(id, sno, keys, values), keys[i]) == values[i]
    {
      FindAfterSno(head, sno, rest, keys[i]);
      FindFirst(rest, i);
    }
    forall key | key !in keys && key != "id" && key != "sno"
      ensures !Isset(Record(id, sno, keys, values), key)
    {
      FindAfterSno(head, sno, rest, key);
      assert forall i :: 0 <= i < |rest| ==> rest[i].0 != key;
    }
  }

  const TileKeys: seq<string> := [
    "brand", "areaOfApplication", "shadeName", "image", "dimensions", "surface", "mrp",
    "discount", "discountedPrice", "pricePerSqFt", "areaInOneBox", "areaRequired", "noOfBoxes",
    "totalAmount"]

  function TileValues(t: Catalog.TileProduct): (r: seq<Json>)
    ensures |r| == |TileKeys| && forall i :: 0 <= i < |r| ==> r[i] != JNull
  {
    [JStr(t.brand), JStr(t.areaOfApplication), JStr(t.shadeName), JStr(t.image), JStr(t.dimensions),
     JStr(t.surface), JNum(t.mrp), JNum(t.discount), JNum(t.discountedPrice), JNum(t.pricePerSqFt),
     JNum(t.areaInOneBox), JNum(t.areaRequired), JNum(t.noOfBoxes as real), JNum(t.totalAmount)]
  }

  /** A stored tile record. */
  function TileJson(t: Catalog.TileProduct): Json {
    Record(t.id, t.sno, TileKeys, TileValues(t))
  }

  const AdhesiveKeys: seq<string> := ["brand", "category", "mrp", "dPrice", "noOfBags", "totalAmount"]

  function AdhesiveValues(a: Catalog.AdhesiveProduct): (r: seq<Json>)
    ensures |r| == |AdhesiveKeys| && forall i :: 0 <= i < |r| ==> r[i] != JNull
  {
    [JStr(a.brand), JStr(a.category), ScalarJson(a.mrp), JNum(a.dPrice), JNum(a.noOfBags as real),
     JNum(a.totalAmount)]
  }

  /** A stored adhesive record. */
  function AdhesiveJson(a: Catalog.AdhesiveProduct): Json {
    Record(a.id, a.sno, AdhesiveKeys, AdhesiveValues(a))
  }

  const CpswKeys: seq<string> := ["brand", "productCode", "description", "image", "mrp", "dPrice", "nos", "totalAmount"]

  function CpswValues(c: Catalog.CpswProduct): (r: seq<Json>)
    ensures |r| == |CpswKeys| && forall i :: 0 <= i < |r| ==> r[i] != JNull
  {
    [JStr(c.brand), JStr(c.productCode), JStr(c.description), JStr(c.image), ScalarJson(c.mrp),
     JNum(c.dPrice), JNum(c.nos as real), JNum(c.totalAmount)]
  }

  /** A stored CP & SW record. */
  function CpswJson(c: Catalog.CpswProduct): Json {
    Record(c.id, c.sno, CpswKeys, CpswValues(c))
  }

  /** The tile keys are proper record keys, with neither a category nor a product code. */
  lemma TileKeysProper()
    ensures RecordKeys(TileKeys)
    ensures "category" !in TileKeys && "productCode" !in TileKeys
  {
  }

  /** The adhesive keys are proper record keys, with a category. */
  lemma AdhesiveKeysProper()
    ensures RecordKeys(AdhesiveKeys) && "category" in AdhesiveKeys
  {
    assert AdhesiveKeys[1] == "category";
  }

  /** The CP & SW keys are proper record keys, with a product code but no category. */
  lemma CpswKeysProper()
    ensures RecordKeys(CpswKeys)
    ensures "category" !in CpswKeys && "productCode" in CpswKeys
  {
    assert CpswKeys[1] == "productCode";
  }

  /** The three key lists are proper record keys, and only the adhesive has a category. */
  lemma CatalogKeys()
    ensures RecordKeys(TileKeys) && RecordKeys(AdhesiveKeys) && RecordKeys(CpswKeys)
    ensures "category" !in TileKeys && "productCode" !in TileKeys
    ensures "category" in AdhesiveKeys
    ensures "category" !in CpswKeys && "productCode" in CpswKeys
  {
    TileKeysProper();
    AdhesiveKeysProper();
    CpswKeysProper();
  }

  /** The stored catalog object, one list per category. */
  function CatalogJson(ps: Catalog.Products): Json {
    CatalogObject(
      seq(|ps.tiles|, (i: int) requires 0 <= i < |ps.tiles| => TileJson(ps.tiles[i])),
      seq(|ps.adhesive|, (i: int) requires 0 <= i < |ps.adhesive| => AdhesiveJson(ps.adhesive[i])),
      seq(|ps.cpsw|, (i: int) requires 0 <= i < |ps.cpsw| => CpswJson(ps.cpsw[i])))
  }

  /** A catalog object holding the three given lists. */
  function CatalogObject(tiles: seq<Json>, adhesive: seq<Json>, cpsw: seq<Json>): Json {
    JObj([("tiles", JArr(tiles)), ("adhesive", JArr(adhesive)), ("cp-sw", JArr(cpsw))])
  }

  /** The row of any record that reads like the stored tile `t`. */
  lemma TileRowFrom(p: Json, t: Catalog.TileProduct)
    requires At(p, "id") == JStr(t.id)
    requires forall i :: 0 <= i < |TileKeys| ==> Isset(p, TileKeys[i]) && At(p, TileKeys[i]) == TileValues(t)[i]
    ensures TileRow(p) ==
      ProductRow(JStr(t.id), "tiles", JStr(t.brand), JStr(t.areaOfApplication), JStr(t.shadeName),
        JStr(t.image), JStr(t.dimensions), JStr(t.surface), Empty, Empty, Empty,
        JNum(t.mrp), JNum(t.discount), JNum(t.discountedPrice), JNum(t.pricePerSqFt), JNum(t.areaInOneBox))
  {
    var v := TileValues(t);
    assert Isset(p, TileKeys[0]) && At(p, TileKeys[0]) == v[0];
    assert Isset(p, TileKeys[1]) && At(p, TileKeys[1]) == v[1];
    assert Isset(p, TileKeys[2]) && At(p, TileKeys[2]) == v[2];
    assert Isset(p, TileKeys[3]) && At(p, TileKeys[3]) == v[3];
    assert Isset(p, TileKeys[4]) && At(p, TileKeys[4]) == v[4];
    assert Isset(p, TileKeys[5]) && At(p, TileKeys[5]) == v[5];
    assert Isset(p, TileKeys[6]) && At(p, TileKeys[6]) == v[6];
    assert Isset(p, TileKeys[7]) && At(p, TileKeys[7]) == v[7];
    assert Isset(p, TileKeys[8]) && At(p, TileKeys[8]) == v[8];
    assert Isset(p, TileKeys[9]) && At(p, TileKeys[9]) == v[9];
    assert Isset(p, TileKeys[10]) && At(p, TileKeys[10]) == v[10];
  }

  /** A migrated tile row carries the stored tile's values unchanged. */
  lemma TileRowOfCatalog(t: Catalog.TileProduct)
    ensures TileRow(TileJson(t)) ==
      ProductRow(JStr(t.id), "tiles", JStr(t.brand), JStr(t.areaOfApplication), JStr(t.shadeName),
        JStr(t.image), JStr(t.dimensions), JStr(t.surface), Empty, Empty, Empty,
        JNum(t.mrp), JNum(t.discount), JNum(t.discountedPrice), JNum(t.pricePerSqFt), JNum(t.areaInOneBox))
  {
    CatalogKeys();
    RecordLookups(t.id, t.sno, TileKeys, TileValues(t));
    TileRowFrom(TileJson(t), t);
  }

  /** The row of any record that reads like the stored adhesive `a`. */
  lemma AdhesiveRowFrom(p: Json, a: Catalog.AdhesiveProduct)
    requires At(p, "id") == JStr(a.id)
    requires forall i :: 0 <= i < |AdhesiveKeys| ==> Isset(p, AdhesiveKeys[i]) && At(p, AdhesiveKeys[i]) == AdhesiveValues(a)[i]
    ensures AdhesiveRow(p) ==
      ProductRow(JStr(a.id), "adhesive", JStr(a.brand), Empty, Empty, Empty, Empty, Empty,
        JStr(a.category), Empty, Empty, ScalarJson(a.mrp), Zero, JNum(a.dPrice), Zero, Zero)
  {
    var v := AdhesiveValues(a);
    assert Isset(p, AdhesiveKeys[0]) && At(p, AdhesiveKeys[0]) == v[0];
    assert Isset(p, AdhesiveKeys[1]) && At(p, AdhesiveKeys[1]) == v[1];
    assert Isset(p, AdhesiveKeys[2]) && At(p, AdhesiveKeys[2]) == v[2];
    assert Isset(p, AdhesiveKeys[3]) && At(p, AdhesiveKeys[3]) == v[3];
  }

  /** A migrated adhesive row carries the stored record's brand, category and prices. */
  lemma AdhesiveRowOfCatalog(a: Catalog.AdhesiveProduct)
    ensures AdhesiveRow(AdhesiveJson(a)) ==
      ProductRow(JStr(a.id), "adhesive", JStr(a.brand), Empty, Empty, Empty, Empty, Empty,
        JStr(a.category), Empty, Empty, ScalarJson(a.mrp), Zero, JNum(a.dPrice), Zero, Zero)
  {
    CatalogKeys();
    RecordLookups(a.id, a.sno, AdhesiveKeys, AdhesiveValues(a));
    AdhesiveRowFrom(AdhesiveJson(a), a);
  }

  /** The row of any record that reads like the stored CP & SW item `c`. */
  lemma CpswRowFrom(p: Json, c: Catalog.CpswProduct)
    requires At(p, "id") == JStr(c.id)
    requires forall i :: 0 <= i < |CpswKeys| ==> Isset(p, CpswKeys[i]) && At(p, CpswKeys[i]) == CpswValues(c)[i]
    ensures CpswRow(p) ==
      ProductRow(JStr(c.id), "cp-sw", JStr(c.brand), Empty, Empty, JStr(c.image), Empty, Empty,
        Empty, JStr(c.productCode), JStr(c.description), ScalarJson(c.mrp), Zero, JNum(c.dPrice), Zero, Zero)
  {
    var v := CpswValues(c);
    assert Isset(p, CpswKeys[0]) && At(p, CpswKeys[0]) == v[0];
    assert Isset(p, CpswKeys[1]) && At(p, CpswKeys[1]) == v[1];
    assert Isset(p, CpswKeys[2]) && At(p, CpswKeys[2]) == v[2];
    assert Isset(p, CpswKeys[3]) && At(p, CpswKeys[3]) == v[3];
    assert Isset(p, CpswKeys[4]) && At(p, CpswKeys[4]) == v[4];
    assert Isset(p, CpswKeys[5]) && At(p, CpswKeys[5]) == v[5];
  }

  /** A migrated CP & SW row carries the stored record's code, description, image and prices. */
  lemma CpswRowOfCatalog(c: Catalog.CpswProduct)
    ensures CpswRow(CpswJson(c)) ==
      ProductRow(JStr(c.id), "cp-sw", JStr(c.brand), Empty, Empty, JStr(c.image), Empty, Empty,
        Empty, JStr(c.productCode), JStr(c.description), ScalarJson(c.mrp), Zero, JNum(c.dPrice), Zero, Zero)
  {
    CatalogKeys();
    RecordLookups(c.id, c.sno, CpswKeys, CpswValues(c));
    CpswRowFrom(CpswJson(c), c);
  }

  /** The category loops over a catalog object visit its three lists. */
  lemma CatalogObjectLists(tiles: seq<Json>, adhesive: seq<Json>, cpsw: seq<Json>)
    ensures SetList(CatalogObject(tiles, adhesive, cpsw), "tiles") == tiles
    ensures SetList(CatalogObject(tiles, adhesive, cpsw), "adhesive") == adhesive
    ensures SetList(CatalogObject(tiles, adhesive, cpsw), "cp-sw") == cpsw
  {
    var fields := CatalogObject(tiles, adhesive, cpsw).fields;
    CatalogEntry(fields, 0);
    CatalogEntry(fields, 1);
    CatalogEntry(fields, 2);
  }

  /** Entry `k` of a catalog object is found under its own key. */
  lemma CatalogEntry(fields: seq<(string, Json)>, k: nat)
    requires |fields| == 3 && k < 3
    requires fields[0].0 == "tiles" && fields[1].0 == "adhesive" && fields[2].0 == "cp-sw"
    ensures Find(fields, fields[k].0) == Some(fields[k].1)
  {
    assert "tiles" != "adhesive" && "tiles" != "cp-sw" && "adhesive" != "cp-sw" by {
      assert "tiles"[0] != "adhesive"[0] && "tiles"[0] != "cp-sw"[0] && "adhesive"[0] != "cp-sw"[0];
    }
    FindFirst(fields, k);
  }

  /** The stored catalog's three lists are what the category loops visit. */
  lemma CatalogLists(ps: Catalog.Products)
    ensures |SetList(CatalogJson(ps), "tiles")| == |ps.tiles|
    ensures |SetList(CatalogJson(ps), "adhesive")| == |ps.adhesive|
    ensures |SetList(CatalogJson(ps), "cp-sw")| == |ps.cpsw|
  {
    CatalogObjectLists(
      seq(|ps.tiles|, (i: int) requires 0 <= i < |ps.tiles| => TileJson(ps.tiles[i])),
      seq(|ps.adhesive|, (i: int) requires 0 <= i < |ps.adhesive| => AdhesiveJson(ps.adhesive[i])),
      seq(|ps.cpsw|, (i: int) requires 0 <= i < |ps.cpsw| => CpswJson(ps.cpsw[i])));
  }

  /** The stored catalog migrates to one row per record. */
  lemma CatalogRowCount(ps: Catalog.Products)
    ensures |ProductRows(CatalogJson(ps))| == |ps.tiles| + |ps.adhesive| + |ps.cpsw|
  {
    CatalogLists(ps);
  }

  // ---------------------------------------------------------------------------
  // Quotation items

  /** One row of the quotation items table. */
  datatype ItemRow = ItemRow(
    id: string,
    quotationId: Json,
    productId: Json,
    productType: string,
    productDetails: string,
    quantity: Json,
    unitPrice: Json,
    discount: Json,
    totalPrice: Json)

  /** The product type of a quoted item: a category marks an adhesive, a code a CP & SW item. */
  function ItemType(product: Json): (r: string)
    ensures r == "adhesive" <==> Isset(product, "category")
    ensures r == "cp-sw" <==> !Isset(product, "category") && Isset(product, "productCode")
    ensures r == "tiles" <==> !Isset(product, "category") && !Isset(product, "productCode")
  {
    if Isset(product, "category") then "adhesive"
    else if Isset(product, "productCode") then "cp-sw"
    else "tiles"
  }

  /** The quantity column: the count that belongs to the item's type, 0 when absent. */
  function ItemQuantity(product: Json): (r: Json)
    ensures ItemType(product) == "tiles" ==> r == Coalesce(product, "areaRequired", Zero)
    ensures ItemType(product) == "adhesive" ==> r == Coalesce(product, "noOfBags", Zero)
    ensures ItemType(product) == "cp-sw" ==> r == Coalesce(product, "nos", Zero)
    ensures r != JNull
  {
    var kind := ItemType(product);
    if kind == "tiles" then Coalesce(product, "areaRequired", Zero)
    else if kind == "adhesive" then Coalesce(product, "noOfBags", Zero)
    else Coalesce(product, "nos", Zero)
  }

  /**
   * The row for one quoted product. `itemId` is the freshly generated UUID and
   * `encode` stands for `json_encode`.
   */
  function ItemRowOf(product: Json, itemId: string, quotationId: Json, encode: Json -> string): (r: ItemRow)
    ensures r.id == itemId && r.quotationId == quotationId
    ensures r.productId == Coalesce(product, "id", JNull)
    ensures r.productType == ItemType(product) && r.quantity == ItemQuantity(product)
    ensures r.unitPrice == Coalesce(product, "mrp", Zero)
    ensures r.discount == Coalesce(product, "discount", Zero)
    ensures r.totalPrice == Coalesce(product, "totalAmount", Zero)
    ensures r.productDetails == encode(product)
  {
    ItemRow(itemId, quotationId, Coalesce(product, "id", JNull), ItemType(product), encode(product),
      ItemQuantity(product), Coalesce(product, "mrp", Zero), Coalesce(product, "discount", Zero),
      Coalesce(product, "totalAmount", Zero))
  }

  /** A stored tile quoted as is is classed as a tile, with its area as quantity. */
  lemma ItemTypeOfTile(t: Catalog.TileProduct)
    ensures ItemType(TileJson(t)) == "tiles" && ItemQuantity(TileJson(t)) == JNum(t.areaRequired)
  {
    TileKeysProper();
    RecordLookups(t.id, t.sno, TileKeys, TileValues(t));
    assert TileKeys[11] == "areaRequired";
  }

  /** A stored adhesive quoted as is is classed as an adhesive, with its bag count as quantity. */
  lemma ItemTypeOfAdhesive(a: Catalog.AdhesiveProduct)
    ensures ItemType(AdhesiveJson(a)) == "adhesive" && ItemQuantity(AdhesiveJson(a)) == JNum(a.noOfBags as real)
  {
    AdhesiveKeysProper();
    RecordLookups(a.id, a.sno, AdhesiveKeys, AdhesiveValues(a));
    assert AdhesiveKeys[1] == "category" && AdhesiveKeys[4] == "noOfBags";
  }

  /** A stored CP & SW record quoted as is is classed as CP & SW, with its count as quantity. */
  lemma ItemTypeOfCpsw(c: Catalog.CpswProduct)
    ensures ItemType(CpswJson(c)) == "cp-sw" && ItemQuantity(CpswJson(c)) == JNum(c.nos as real)
  {
    CpswKeysProper();
    RecordLookups(c.id, c.sno, CpswKeys, CpswValues(c));
    assert CpswKeys[1] == "productCode" && CpswKeys[6] == "nos";
  }

  /** A stored catalog record quoted as is is classed by the list it came from, with that list's count. */
  lemma ItemTypeOfCatalog(t: Catalog.TileProduct, a: Catalog.AdhesiveProduct, c: Catalog.CpswProduct)
    ensures ItemType(TileJson(t)) == "tiles" && ItemQuantity(TileJson(t)) == JNum(t.areaRequired)
    ensures ItemType(AdhesiveJson(a)) == "adhesive" && ItemQuantity(AdhesiveJson(a)) == JNum(a.noOfBags as real)
    ensures ItemType(CpswJson(c)) == "cp-sw" && ItemQuantity(CpswJson(c)) == JNum(c.nos as real)
  {
    ItemTypeOfTile(t);
    ItemTypeOfAdhesive(a);
    ItemTypeOfCpsw(c);
  }

  // ---------------------------------------------------------------------------
  // Quotations

  /** One row of the quotations table. */
  datatype QuotationRow = QuotationRow(
    id: Json,
    quotationNumber: Json,
    customerId: Json,
    customerName: Json,
    customerEmail: Json,
    customerPhone: Json,
    customerAddress: Json,
    date: Json,
    validUntil: Json,
    totalAmount: Json,
    discount: Json,
    tax: Json,
    grandTotal: Json,
    notes: Json,
    terms: Json,
    status: Json,
    createdBy: Json)

  const Draft := JStr("draft")

  /**
   * The row for one stored quotation. `freshId` is the UUID generated when the
   * quotation has no id, and `formatDate` stands for `date('Y-m-d', strtotime(...))`.
   */
  function QuotationRowOf(q: Json, freshId: string, formatDate: Json -> Json): (r: QuotationRow)
    ensures r.id == (if Isset(q, "id") then At(q, "id") else JStr(freshId)) && r.id != JNull
    ensures r.date == (if Isset(q, "date") then formatDate(At(q, "date")) else JNull)
    ensures r.validUntil == (if Isset(q, "validUntil") then formatDate(At(q, "validUntil")) else JNull)
    ensures r.status == Coalesce(q, "status", Draft)
    ensures r.customerName == Coalesce(q, "customerName", Empty)
    ensures r.grandTotal == Coalesce(q, "grandTotal", Zero)
  {
    QuotationRow(
      if Isset(q, "id") then At(q, "id") else JStr(freshId),
      Coalesce(q, "quotationNumber", Empty),
      Coalesce(q, "customerId", JNull),
      Coalesce(q, "customerName", Empty),
      Coalesce(q, "customerEmail", Empty),
      Coalesce(q, "customerPhone", Empty),
      Coalesce(q, "customerAddress", Empty),
      if Isset(q, "date") then formatDate(At(q, "date")) else JNull,
      if Isset(q, "validUntil") then formatDate(At(q, "validUntil")) else JNull,
      Coalesce(q, "totalAmount", Zero),
      Coalesce(q, "discount", Zero),
      Coalesce(q, "tax", Zero),
      Coalesce(q, "grandTotal", Zero),
      Coalesce(q, "notes", Empty),
      Coalesce(q, "terms", Empty),
      Coalesce(q, "status", Draft),
      Coalesce(q, "createdBy", JNull))
  }

  /** The UUIDs drawn while one quotation is migrated. */
  datatype Draw = Draw(quotationId: string, itemIds: seq<string>)

  /** A quotation row together with the rows of its items. */
  datatype MigratedQuotation = MigratedQuotation(row: QuotationRow, items: seq<ItemRow>)

  /** One quotation and its items; an item list that is not an array yields no items. */
  function MigrateQuotation(q: Json, draw: Draw, formatDate: Json -> Json, encode: Json -> string): (m: MigratedQuotation)
    requires |draw.itemIds| == |SetList(q, "products")|
    ensures m.row == QuotationRowOf(q, draw.quotationId, formatDate)
    ensures |m.items| == |SetList(q, "products")|
    ensures forall j :: 0 <= j < |m.items| ==>
      m.items[j] == ItemRowOf(SetList(q, "products")[j], draw.itemIds[j], m.row.id, encode)
  {
    var row := QuotationRowOf(q, draw.quotationId, formatDate);
    var products := SetList(q, "products");
    MigratedQuotation(row,
      seq(|products|, (j: int) requires 0 <= j < |products| => ItemRowOf(products[j], draw.itemIds[j], row.id, encode)))
  }

  /** The draws fit the quotations: one per quotation, one item id per quoted product. */
  predicate DrawsFit(quotations: Json, draws: seq<Draw>) {
    var qs := Elements(quotations);
    && |draws| == |qs|
    && forall i :: 0 <= i < |qs| ==> |draws[i].itemIds| == |SetList(qs[i], "products")|
  }

  /** Every quotation `migrateQuotations` visits, in order; anything but a non-empty array yields none. */
  function MigrateQuotations(quotations: Json, draws: seq<Draw>, formatDate: Json -> Json, encode: Json -> string)
    : (r: seq<MigratedQuotation>)
    requires DrawsFit(quotations, draws)
    ensures |r| == |Elements(quotations)|
    ensures forall i :: 0 <= i < |r| ==> r[i] == MigrateQuotation(Elements(quotations)[i], draws[i], formatDate, encode)
  {
    var qs := Elements(quotations);
    seq(|qs|, (i: int) requires 0 <= i < |qs| => MigrateQuotation(qs[i], draws[i], formatDate, encode))
  }

  /** Every item row points at the quotation row it was migrated with, and a stored id is kept. */
  lemma ItemsFollowTheirQuotation(quotations: Json, draws: seq<Draw>, formatDate: Json -> Json, encode: Json -> string)
    requires DrawsFit(quotations, draws)
    ensures var r := MigrateQuotations(quotations, draws, formatDate, encode);
      forall i, j :: 0 <= i < |r| && 0 <= j < |r[i].items| ==>
        r[i].items[j].quotationId == r[i].row.id && r[i].items[j].id == draws[i].itemIds[j]
    ensures var r := MigrateQuotations(quotations, draws, formatDate, encode);
      forall i :: 0 <= i < |r| && Isset(Elements(quotations)[i], "id") ==>
        r[i].row.id == At(Elements(quotations)[i], "id")
  {
  }

  // ---------------------------------------------------------------------------
  // Binding by reference

  /**
   * An argument of `bind_param` as the script writes it. `bind_param` takes its
   * values by reference: a variable or an array element can be passed, the value
   * of an expression such as `$x ?? ''` cannot. An assignment such as
   * `$category = ''` is counted as its variable.
   */
  datatype Arg = Ref(value: Json) | Val(value: Json)

  /** The values the arguments carry, in order. */
  function Values(args: seq<Arg>): (r: seq<Json>)
    ensures |r| == |args| && forall k :: 0 <= k < |args| ==> r[k] == args[k].value
  {
    seq(|args|, (k: int) requires 0 <= k < |args| => args[k].value)
  }

  /**
   * What the engine raises when an expression's value reaches a by-reference
   * parameter. It is an `Error`, which the endpoint's `catch (Exception $e)` does
   * not catch, so the request ends without its JSON reply and without a commit.
   */
  const NotByReference := "mysqli_stmt::bind_param(): argument could not be passed by reference"

  /** `bind_param` as the engine runs it: it stops at the first argument that is not a variable. */
  function BindAsWritten(args: seq<Arg>): (r: Result<seq<Json>>)
    ensures r.Ok? <==> forall k :: 0 <= k < |args| ==> args[k].Ref?
    ensures r.Ok? ==> r.value == Values(args)
    ensures r.Err? ==> r.message == NotByReference
  {
    if args == [] then Ok([])
    else if args[0].Val? then Err(NotByReference)
    else
      var rest := BindAsWritten(args[1..]);
      BindTail(args, rest.Ok?);
      if rest.Ok? then Ok([args[0].value] + rest.value) else rest
  }

  /** The arguments after the first are all variables exactly when the tail's are. */
  lemma BindTail(args: seq<Arg>, tailRefs: bool)
    requires |args| > 0 && args[0].Ref?
    requires tailRefs <==> forall k :: 0 <= k < |args| - 1 ==> args[1..][k].Ref?
    ensures tailRefs <==> forall k :: 0 <= k < |args| ==> args[k].Ref?
    ensures Values(args) == [args[0].value] + Values(args[1..])
  {
    if !tailRefs {
      var k :| 0 <= k < |args| - 1 && !args[1..][k].Ref?;
      assert !args[k + 1].Ref?;
    }
    var v, w := Values(args), [args[0].value] + Values(args[1..]);
    forall k | 0 <= k < |v| ensures v[k] == w[k] {
      if k > 0 {
        assert args[1..][k - 1] == args[k];
      }
    }
  }

  /** A bind stops when any argument is an expression's value. */
  lemma BindStopsAt(args: seq<Arg>, k: nat)
    requires k < |args| && args[k].Val?
    ensures BindAsWritten(args) == Err(NotByReference)
  {
  }

  /** The evidently intended call: each expression is first assigned to a local variable, which is then bound. */
  function Hoisted(args: seq<Arg>): (r: seq<Arg>)
    ensures |r| == |args| && forall k :: 0 <= k < |args| ==> r[k] == Ref(args[k].value)
  {
    seq(|args|, (k: int) requires 0 <= k < |args| => Ref(args[k].value))
  }

  /** Once hoisted, every argument list binds, and it binds the values written. */
  lemma HoistedBinds(args: seq<Arg>)
    ensures BindAsWritten(Hoisted(args)) == Ok(Values(args))
  {
    assert Values(Hoisted(args)) == Values(args);
  }

  /** The arguments as written: each column's value, passed either as a variable or as an expression's value. */
  function Args(values: seq<Json>, variable: seq<bool>): (a: seq<Arg>)
    requires |values| == |variable|
    ensures |a| == |values|
    ensures forall k :: 0 <= k < |a| ==> a[k] == if variable[k] then Ref(values[k]) else Val(values[k])
  {
    seq(|values|, (k: int) requires 0 <= k < |values| => if variable[k] then Ref(values[k]) else Val(values[k]))
  }

  /** Written as an expression's value, an argument stops the bind. */
  lemma ArgsStopAt(values: seq<Json>, variable: seq<bool>, k: nat)
    requires |values| == |variable| && k < |variable| && !variable[k]
    ensures BindAsWritten(Args(values, variable)) == Err(NotByReference)
  {
    BindStopsAt(Args(values, variable), k);
  }

  /** Hoisted, an argument list binds the columns' values. */
  lemma ArgsHoisted(values: seq<Json>, variable: seq<bool>)
    requires |values| == |variable|
    ensures BindAsWritten(Hoisted(Args(values, variable))) == Ok(values)
  {
    HoistedBinds(Args(values, variable));
    assert Values(Args(values, variable)) == values;
  }

  /** A product row's columns in the order of the insert statement. */
  function ProductValues(r: ProductRow): (v: seq<Json>)
    ensures |v| == 16
  {
    [r.id, JStr(r.productType), r.brand, r.areaOfApplication, r.shadeName, r.image, r.dimensions, r.surface,
     r.category, r.productCode, r.description, r.mrp, r.discount, r.discountedPrice, r.pricePerSqFt, r.areaInOneBox]
  }

  /**
   * Which of the sixteen product columns each insert passes as a variable. The
   * tile insert writes `??` for the texts after the brand and for the four
   * numbers after the price; the adhesive insert for the category and `dPrice`;
   * the CP & SW insert for image, code, description and `dPrice`.
   */
  const TileVariables: seq<bool> :=
    [true, true, true, false, false, false, false, false, true, true, true, true, false, false, false, false]
  const AdhesiveVariables: seq<bool> :=
    [true, true, true, true, true, true, true, true, false, true, true, true, true, false, true, true]
  const CpswVariables: seq<bool> :=
    [true, true, true, true, true, false, true, true, true, false, false, true, true, false, true, true]

  /** As written, the insert of every tile, adhesive and CP & SW row stops at its first `??` argument. */
  lemma ProductBindsAsWritten(r: ProductRow)
    ensures BindAsWritten(Args(ProductValues(r), TileVariables)) == Err(NotByReference)
    ensures BindAsWritten(Args(ProductValues(r), AdhesiveVariables)) == Err(NotByReference)
    ensures BindAsWritten(Args(ProductValues(r), CpswVariables)) == Err(NotByReference)
  {
    ArgsStopAt(ProductValues(r), TileVariables, Unbound(TileVariables));
    ArgsStopAt(ProductValues(r), AdhesiveVariables, Unbound(AdhesiveVariables));
    ArgsStopAt(ProductValues(r), CpswVariables, Unbound(CpswVariables));
  }

  /** The first column an insert passes as an expression's value. */
  function Unbound(variable: seq<bool>): (k: nat)
    requires false in variable
    ensures k < |variable| && !variable[k]
  {
    if !variable[0] then 0 else 1 + Unbound(variable[1..])
  }

  /** Hoisted, each insert binds exactly the columns of its row, in the statement's order. */
  lemma ProductBindsHoisted(r: ProductRow)
    ensures BindAsWritten(Hoisted(Args(ProductValues(r), TileVariables))) == Ok(ProductValues(r))
    ensures BindAsWritten(Hoisted(Args(ProductValues(r), AdhesiveVariables))) == Ok(ProductValues(r))
    ensures BindAsWritten(Hoisted(Args(ProductValues(r), CpswVariables))) == Ok(ProductValues(r))
  {
    ArgsHoisted(ProductValues(r), TileVariables);
    ArgsHoisted(ProductValues(r), AdhesiveVariables);
    ArgsHoisted(ProductValues(r), CpswVariables);
  }

  /** A quotation row's columns in the order of the insert statement. */
  function QuotationValues(r: QuotationRow): (v: seq<Json>)
    ensures |v| == 17
  {
    [r.id, r.quotationNumber, r.customerId, r.customerName, r.customerEmail, r.customerPhone, r.customerAddress,
     r.date, r.validUntil, r.totalAmount, r.discount, r.tax, r.grandTotal, r.notes, r.terms, r.status, r.createdBy]
  }

  /** The quotation insert passes the id and the two formatted dates as variables and every other column through `??`. */
  const QuotationVariables: seq<bool> :=
    [true, false, false, false, false, false, false, true, true, false, false, false, false, false, false, false, false]

  /** An item row's columns in the order of the insert statement. */
  function ItemValues(r: ItemRow): (v: seq<Json>)
    ensures |v| == 9
  {
    [JStr(r.id), r.quotationId, r.productId, JStr(r.productType), JStr(r.productDetails),
     r.quantity, r.unitPrice, r.discount, r.totalPrice]
  }

  /** The item insert passes every column as a variable but the product id, written `$product['id'] ?? null`. */
  const ItemVariables: seq<bool> := [true, true, false, true, true, true, true, true, true]

  /** As written, the insert of every quotation and of every quoted item stops at a `??` argument. */
  lemma QuotationBindsAsWritten(q: QuotationRow, item: ItemRow)
    ensures BindAsWritten(Args(QuotationValues(q), QuotationVariables)) == Err(NotByReference)
    ensures BindAsWritten(Args(ItemValues(item), ItemVariables)) == Err(NotByReference)
  {
    ArgsStopAt(QuotationValues(q), QuotationVariables, 1);
    ArgsStopAt(ItemValues(item), ItemVariables, 2);
  }

  /** Hoisted, the quotation and item inserts bind exactly the columns of their rows. */
  lemma QuotationBindsHoisted(q: QuotationRow, item: ItemRow)
    ensures BindAsWritten(Hoisted(Args(QuotationValues(q), QuotationVariables))) == Ok(QuotationValues(q))
    ensures BindAsWritten(Hoisted(Args(ItemValues(item), ItemVariables))) == Ok(ItemValues(item))
  {
    ArgsHoisted(QuotationValues(q), QuotationVariables);
    ArgsHoisted(ItemValues(item), ItemVariables);
  }

  // ---------------------------------------------------------------------------
  // Settings

  /** A PHP array key: a list position or an object key. */
  datatype Key = Index(n: nat) | Name(s: string)

  /** One row of the settings table. */
  datatype SettingRow = SettingRow(key: Key, value: Json)

  /** The keys a `foreach ($settings as $key => $value)` visits, in order. */
  function KeysOf(v: Json): (r: seq<Key>)
    ensures |r| == |Elements(v)|
  {
    match v
    case JArr(items) => seq(|items|, (i: int) requires 0 <= i => Index(i))
    case JObj(fields) => seq(|fields|, (i: int) requires 0 <= i < |fields| => Name(fields[i].0))
    case _ => []
  }

  /** The stored value: arrays and objects are serialised by `encode`, scalars are kept. */
  function SettingValue(value: Json, encode: Json -> string): (r: Json)
    ensures IsArray(value) ==> r == JStr(encode(value))
    ensures !IsArray(value) ==> r == value
  {
    if IsArray(value) then JStr(encode(value)) else value
  }

  /** The rows `migrateSettings` writes, one per top-level key in order. */
  function SettingRows(settings: Json, encode: Json -> string): (r: seq<SettingRow>)
    ensures |r| == |Elements(settings)|
    ensures forall i :: 0 <= i < |r| ==> r[i].key == KeysOf(settings)[i]
    ensures forall i :: 0 <= i < |r| ==> r[i].value == SettingValue(Elements(settings)[i], encode)
  {
    var keys := KeysOf(settings);
    var values := Elements(settings);
    seq(|values|, (i: int) requires 0 <= i < |values| => SettingRow(keys[i], SettingValue(values[i], encode)))
  }

  /** A decoded object never repeats a key. */
  predicate DistinctNames(v: Json) {
    v.JObj? ==> forall i, j :: 0 <= i < j < |v.fields| ==> v.fields[i].0 != v.fields[j].0
  }

  /** No two rows share a key, so each top-level key gets exactly one row. */
  lemma SettingKeysDistinct(settings: Json, encode: Json -> string)
    requires DistinctNames(settings)
    ensures var r := SettingRows(settings, encode);
      forall i, j :: 0 <= i < j < |r| ==> r[i].key != r[j].key
  {
    var r := SettingRows(settings, encode);
    forall i, j | 0 <= i < j < |r| ensures r[i].key != r[j].key {
      if settings.JObj? {
        assert r[i].key == Name(settings.fields[i].0);
      }
    }
  }

  /** A scalar setting is stored as it is, an object as its serialisation. */
  lemma SampleSettings(encode: Json -> string)
    ensures
      var settings := JObj([("currency", JStr("INR")), ("company", JObj([("name", JStr("PTM"))]))]);
      SettingRows(settings, encode) ==
        [SettingRow(Name("currency"), JStr("INR")),
         SettingRow(Name("company"), JStr(encode(JObj([("name", JStr("PTM"))]))))]
  {
  }

  // ---------------------------------------------------------------------------
  // Version-4 UUIDs

  /** PHP's `|` on non-negative integers, one binary digit at a time. */
  function BitOr(a: nat, b: nat): nat
    decreases a + b
  {
    if a == 0 then b
    else if b == 0 then a
    else 2 * BitOr(a / 2, b / 2) + (if a % 2 == 1 || b % 2 == 1 then 1 else 0)
  }

  function Pow2(k: nat): (r: nat)
    ensures r >= 1
  {
    if k == 0 then 1 else 2 * Pow2(k - 1)
  }

  /** Setting a bit above every bit of `a` adds it. */
  lemma {:induction false} BitOrHighBit(a: nat, k: nat)
    requires a < Pow2(k)
    ensures BitOr(a, Pow2(k)) == a + Pow2(k)
  {
    if k > 0 && a > 0 {
      BitOrHighBit(a / 2, k - 1);
    }
  }

  /** The version and variant masks of section 4.4 of RFC 4122. */
  lemma UuidMasks(r3: nat, r4: nat)
    requires r3 <= 0x0fff && r4 <= 0x3fff
    ensures BitOr(r3, 0x4000) == r3 + 0x4000
    ensures BitOr(r4, 0x8000) == r4 + 0x8000
  {
    assert Pow2(14) == 0x4000;
    assert Pow2(15) == 0x8000;
    BitOrHighBit(r3, 14);
    BitOrHighBit(r4, 15);
  }

  /** Eight four-digit groups laid out 8-4-4-4-12 with dashes. */
  function Layout(g0: string, g1: string, g2: string, g3: string, g4: string, g5: string, g6: string, g7: string)
    : string
  {
    g0 + (g1 + ("-" + (g2 + ("-" + (g3 + ("-" + (g4 + ("-" + (g5 + (g6 + g7))))))))))
  }

  /** A four-digit group at position `k`, followed by `rest`. */
  lemma GroupAt(s: string, k: nat, g: string, rest: string)
    requires |g| == 4 && k <= |s| && s[k..] == g + rest
    ensures k + 4 <= |s| && s[k..k + 4] == g && s[k + 4..] == rest
  {
    assert s[k..k + 4] == s[k..][..4];
    assert s[k + 4..] == s[k..][4..];
  }

  /** A dash at position `k`, followed by `rest`. */
  lemma DashAt(s: string, k: nat, rest: string)
    requires k <= |s| && s[k..] == "-" + rest
    ensures k < |s| && s[k] == '-' && s[k + 1..] == rest
  {
    assert s[k] == s[k..][0];
    assert s[k + 1..] == s[k..][1..];
  }

  /** Where each group and dash of the layout sits. */
  lemma LayoutSlices(g0: string, g1: string, g2: string, g3: string, g4: string, g5: string, g6: string, g7: string)
    requires |g0| == 4 && |g1| == 4 && |g2| == 4 && |g3| == 4 && |g4| == 4 && |g5| == 4 && |g6| == 4 && |g7| == 4
    ensures var s := Layout(g0, g1, g2, g3, g4, g5, g6, g7);
      && |s| == 36
      && s[0..4] == g0 && s[4..8] == g1 && s[8] == '-' && s[9..13] == g2 && s[13] == '-'
      && s[14..18] == g3 && s[18] == '-' && s[19..23] == g4 && s[23] == '-'
      && s[24..28] == g5 && s[28..32] == g6 && s[32..36] == g7
  {
    var t6 := g6 + g7;
    var t5 := g5 + t6;
    var d4 := "-" + t5;
    var t4 := g4 + d4;
    var d3 := "-" + t4;
    var t3 := g3 + d3;
    var d2 := "-" + t3;
    var t2 := g2 + d2;
    var d1 := "-" + t2;
    var t1 := g1 + d1;
    var s := g0 + t1;
    assert s[0..] == g0 + t1;
    GroupAt(s, 0, g0, t1);
    GroupAt(s, 4, g1, d1);
    DashAt(s, 8, t2);
    GroupAt(s, 9, g2, d2);
    DashAt(s, 13, t3);
    GroupAt(s, 14, g3, d3);
    DashAt(s, 18, t4);
    GroupAt(s, 19, g4, d4);
    DashAt(s, 23, t5);
    GroupAt(s, 24, g5, t6);
    GroupAt(s, 28, g6, g7);
    assert s[32..] == g7;
  }

  /** The random inputs of `generateUuid`, each in the range it is drawn from. */
  predicate UuidDraws(r: seq<nat>) {
    && |r| == 8
    && r[0] <= 0xffff && r[1] <= 0xffff && r[2] <= 0xffff
    && r[3] <= 0x0fff && r[4] <= 0x3fff
    && r[5] <= 0xffff && r[6] <= 0xffff && r[7] <= 0xffff
  }

  /** `generateUuid` for given draws. */
  function Uuid(r: seq<nat>): (s: string)
    requires UuidDraws(r)
    ensures |s| == 36
  {
    UuidMasks(r[3], r[4]);
    var s := Layout(Hex4(r[0]), Hex4(r[1]), Hex4(r[2]), Hex4(BitOr(r[3], 0x4000)), Hex4(BitOr(r[4], 0x8000)),
                    Hex4(r[5]), Hex4(r[6]), Hex4(r[7]));
    LayoutSlices(Hex4(r[0]), Hex4(r[1]), Hex4(r[2]), Hex4(BitOr(r[3], 0x4000)), Hex4(BitOr(r[4], 0x8000)),
                 Hex4(r[5]), Hex4(r[6]), Hex4(r[7]));
    s
  }

  /** Four lower-case hex digits starting at `k`. */
  predicate HexGroup(s: string, k: nat) {
    k + 4 <= |s| && forall i :: k <= i < k + 4 ==> IsLowerHex(s[i])
  }

  /** The 8-4-4-4-12 shape: dashes at 8, 13, 18 and 23, lower-case hex elsewhere. */
  predicate UuidShape(s: string) {
    && |s| == 36
    && s[8] == '-' && s[13] == '-' && s[18] == '-' && s[23] == '-'
    && HexGroup(s, 0) && HexGroup(s, 4) && HexGroup(s, 9) && HexGroup(s, 14)
    && HexGroup(s, 19) && HexGroup(s, 24) && HexGroup(s, 28) && HexGroup(s, 32)
  }

  /** The value of the four hex digits starting at `k`. */
  function GroupValue(s: string, k: nat): (v: nat)
    requires HexGroup(s, k)
    ensures v < 0x10000
  {
    Hex4Value(s[k..k + 4])
  }

  /** The draws read back from a well-shaped UUID, with the version and variant bits taken off. */
  function ParseUuid(s: string): (r: Option<seq<nat>>)
    ensures r.Some? ==> UuidDraws(r.value)
  {
    if !UuidShape(s) then None
    else
      var version := GroupValue(s, 14);
      var variant := GroupValue(s, 19);
      if !(0x4000 <= version <= 0x4fff && 0x8000 <= variant <= 0xbfff) then None
      else Some([GroupValue(s, 0), GroupValue(s, 4), GroupValue(s, 9), version - 0x4000, variant - 0x8000,
                 GroupValue(s, 24), GroupValue(s, 28), GroupValue(s, 32)])
  }

  /** The leading hex digit of a four-digit group carries its top four bits. */
  lemma LeadingDigit(g: string)
    requires |g| == 4 && forall i :: 0 <= i < 4 ==> IsLowerHex(g[i])
    ensures HexValue(g[0]) == Hex4Value(g) / 0x1000
  {
  }

  /** A generated UUID has the version-4 layout of section 4.4 of RFC 4122: version digit 4, variant bits 10. */
  lemma UuidLayout(r: seq<nat>)
    requires UuidDraws(r)
    ensures var s := Uuid(r);
      && UuidShape(s)
      && s[14] == '4'
      && s[19] in "89ab"
  {
    var s := Uuid(r);
    UuidMasks(r[3], r[4]);
    var g3 := Hex4(BitOr(r[3], 0x4000));
    var g4 := Hex4(BitOr(r[4], 0x8000));
    LayoutSlices(Hex4(r[0]), Hex4(r[1]), Hex4(r[2]), g3, g4, Hex4(r[5]), Hex4(r[6]), Hex4(r[7]));
    Hex4RoundTrip(r[3] + 0x4000);
    Hex4RoundTrip(r[4] + 0x8000);
    LeadingDigit(g3);
    LeadingDigit(g4);
    assert s[14] == g3[0];
    assert s[19] == g4[0];
  }

  /** Each group of a generated UUID reads back as its draw, the version and variant bits included. */
  lemma UuidGroups(r: seq<nat>)
    requires UuidDraws(r)
    ensures UuidShape(Uuid(r))
    ensures var s := Uuid(r);
      && GroupValue(s, 0) == r[0] && GroupValue(s, 4) == r[1] && GroupValue(s, 9) == r[2]
      && GroupValue(s, 14) == r[3] + 0x4000 && GroupValue(s, 19) == r[4] + 0x8000
      && GroupValue(s, 24) == r[5] && GroupValue(s, 28) == r[6] && GroupValue(s, 32) == r[7]
  {
    UuidLayout(r);
    UuidMasks(r[3], r[4]);
    LayoutSlices(Hex4(r[0]), Hex4(r[1]), Hex4(r[2]), Hex4(r[3] + 0x4000), Hex4(r[4] + 0x8000),
                 Hex4(r[5]), Hex4(r[6]), Hex4(r[7]));
    Hex4RoundTrip(r[0]);
    Hex4RoundTrip(r[1]);
    Hex4RoundTrip(r[2]);
    Hex4RoundTrip(r[3] + 0x4000);
    Hex4RoundTrip(r[4] + 0x8000);
    Hex4RoundTrip(r[5]);
    Hex4RoundTrip(r[6]);
    Hex4RoundTrip(r[7]);
  }

  /** Any well-shaped string whose groups hold the draws, with the two marks set, parses back to them. */
  lemma ParseShaped(s: string, r: seq<nat>)
    requires UuidDraws(r) && UuidShape(s)
    requires GroupValue(s, 0) == r[0] && GroupValue(s, 4) == r[1] && GroupValue(s, 9) == r[2]
    requires GroupValue(s, 14) == r[3] + 0x4000 && GroupValue(s, 19) == r[4] + 0x8000
    requires GroupValue(s, 24) == r[5] && GroupValue(s, 28) == r[6] && GroupValue(s, 32) == r[7]
    ensures ParseUuid(s) == Some(r)
  {
    assert [r[0], r[1], r[2], r[3], r[4], r[5], r[6], r[7]] == r;
  }

  /** Parsing a generated UUID gives back the draws. */
  lemma UuidRoundTrip(r: seq<nat>)
    requires UuidDraws(r)
    ensures ParseUuid(Uuid(r)) == Some(r)
  {
    UuidGroups(r);
    ParseShaped(Uuid(r), r);
  }
}
