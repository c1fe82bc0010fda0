# OneQuotation core, modelled in Dafny

OneQuotation is a React/PHP app for tile and sanitary-ware shops. Staff keep a product catalog in three categories: tiles, adhesive, and CP & SW fittings. They build quotations from it, print them through PDF templates, and can migrate the browser-stored data into MySQL through a PHP endpoint. This project models the deterministic core of that app and proves properties about it.

- **Catalog** (`catalog.dfy`, module `Catalog`): the product-management page.
  - The three form change handlers, with their derived fields: total, discounted price, box count and price per square foot.
  - Search filtering, brand and shade suggestion lists, and add, edit and delete of records.
- **Importer** (`importer.dfy`): the bulk import of already-parsed spreadsheet rows.
  - Row validation, record building and dimension normalisation.
  - Serial numbering, the success and failure counts, and the cap on reported errors.
- **Quotation** (`quotation.dfy`): the quotation page.
  - Subtotal, tax and grand total, including the template's own total computation.
  - The quotation number format, and the checks and prepend logic of saving.
- **Words** (`words.dfy`): amounts in words.
  - The template's recursive Indian-grouping reading (thousand, lakh, crore).
  - The page's `convertNumberToWords` as written, and a corrected reading.
- **Migration** (`migration.dfy`): the pure parts of `migrate-data.php`.
  - Request and configuration checks.
  - The product-to-row mapping, and quotation and item rows, including item type, quantity and price selection.
  - Settings flattening, and the version-4 UUID layout. The UUID follows section 4.4 of RFC 4122, with the variant bits of section 4.1.1 and the version of section 4.1.3.
- **Templates** (`templates.dfy`): the text the PDF templates print.
  - Row numbers, product names, the `N/A` fallbacks and row amounts.
  - Terms renumbering, the default terms and the five-line cap.
  - The tax label, and the address comma rejoin.
- **Support modules**:
  - `Text`: whitespace and digit classes, lower-casing, `includes`, `split`/`join`, number rendering, `padStart`, `%04x`.
  - `Numbers`: `Math.ceil`, `parseFloat`, `parseInt`, `|| 0`.
  - `Lists`: `filter`, `map` with replacement, `Array.from(new Set(...))`.
  - `Wrappers`: `Option`, `Result`.

Money, areas and percentages are exact `real`s, not IEEE doubles. `parseFloat(x) || 0` is a parse that returns an `Option<real>`, with failure mapped to 0. JavaScript falsiness of `undefined`, `""` and `0` is written out where the source tests it. PHP values decoded from the request body are a `Json` datatype; `isset` means "present and not null".

Anything random or clock-based is an input:
- the ids from `uuidv4()`;
- the `Date` parts and `Math.random` of the quotation number;
- the `mt_rand` draws of `generateUuid`.

The following calls are parameters of the functions that use them: PHP's `json_encode`, the `date(strtotime(...))` formatting, and number-to-text rendering of fractional numbers.

## Model

| member | source | states |
|---|---|---|
| Numbers.Ceil | src/pages/ProductManagement.tsx:464 | `Math.ceil`: the result is the least integer not below x |
| Numbers.ParseFloat | src/pages/ProductManagement.tsx:443-447 | `parseFloat` fails (NaN) exactly when neither a digit nor a '.' followed by a digit follows the optional whitespace and sign |
| Numbers.ParseInt | src/pages/ProductManagement.tsx:459 | `parseInt` fails exactly when no digit follows the optional whitespace and sign |
| Numbers.OrZero | src/pages/ProductManagement.tsx:443 | `x \|\| 0`: a parsed number is kept, NaN becomes 0 |
| Numbers.ParseIntOfRendered | src/pages/ProductManagement.tsx:542 | a rendered whole number parses back to itself with `parseInt` |
| Numbers.ParseFloatOfRendered | src/pages/ProductManagement.tsx:443 | a rendered whole number parses back to itself with `parseFloat` |
| Numbers.ParseIntReads | src/pages/ProductManagement.tsx:459 | `parseInt` of whitespace, a sign, digits (leading zeros allowed) and any text not starting with a digit is the digits' value, negated after "-" |
| Numbers.ParseFloatWhole | src/pages/ProductManagement.tsx:443-447 | `parseFloat` of whitespace, a sign, digits and text that starts no `.`-fraction is the digits' value, signed |
| Numbers.ParseFloatFraction | src/pages/ProductManagement.tsx:443-447 | `parseFloat` of whitespace, a sign, digits, `.`, fraction digits and trailing text is the whole part plus the fraction over its power of ten, signed |
| Text.Lower | src/pages/ProductManagement.tsx:237 | `toLowerCase` keeps the length and lower-cases each character |
| Text.ContainsIffOccurs | src/pages/ProductManagement.tsx:237 | `includes` holds exactly when the term occurs at some position |
| Text.SplitJoinIsReplace | src/components/templates/Template3.jsx:77-78 | splitting on a character and joining with a separator replaces each occurrence of the character by the separator |
| Text.SplitJoinRoundTrip | src/components/templates/Template3.jsx:77-78 | splitting on a character and joining with that character gives the text back |
| Text.JoinSplitRoundTrip | src/components/templates/Template3.jsx:199 | joining separator-free lines with the separator and splitting again gives the lines back |
| Text.NatToStringRoundTrip | src/pages/QuotationGeneration.jsx:143-146 | the decimal rendering of a number reads back as that number |
| Text.PadStart | src/pages/QuotationGeneration.jsx:144-146 | `padStart` reaches the width with the pad character in front and keeps the text as a suffix |
| Text.PaddedRoundTrip | src/pages/QuotationGeneration.jsx:144-146 | a zero-padded rendering has exactly the width in digits and reads back as the number |
| Text.Hex4 | public/api/migrate-data.php:624 | `%04x` gives four lower-case hexadecimal digits |
| Text.Hex4RoundTrip | public/api/migrate-data.php:624 | four `%04x` digits read back as the number |
| Lists.Filter | src/pages/ProductManagement.tsx:233 | `filter` keeps exactly the passing elements, each as many times as it occurs in the input, as an order-preserving sublist |
| Lists.FilterAppend | src/pages/ProductManagement.tsx:615 | filtering distributes over concatenation |
| Lists.ReplaceWhere | src/pages/ProductManagement.tsx:553-555 | the mapped list keeps its length; each selected element becomes the new value and the others stay in place |
| Lists.FirstIndex | src/pages/ProductManagement.tsx:347 | the first index of x holds x and no earlier index does |
| Lists.Distinct | src/pages/ProductManagement.tsx:347 | `Array.from(new Set(xs))` has no duplicates, the same elements as xs, is a sublist of xs, and lists the elements in the order of their first occurrence in xs |
| Lists.DistinctOfDistinct | src/pages/ProductManagement.tsx:347 | a duplicate-free list is its own set of distinct values |
| Catalog.EditTile | src/pages/ProductManagement.tsx:438-484 | the edited field gets the input (numbers parsed, NaN as 0); total is mrp × area and the discounted price is the total less the discount percentage; price per sq ft is the parsed input if edited, else the old value, else mrp; box count is the parsed input, or ceil(area/per-box) after an area edit with a positive per-box area, or unchanged; id and serial are kept |
| Catalog.Recalculate | src/pages/ProductManagement.tsx:450-454 | recomputing the totals makes them consistent with price, area and discount, and changes no other field |
| Catalog.EditTileText | src/pages/ProductManagement.tsx:440 | a text edit changes only the named field |
| Catalog.CeilBoxesBounds | src/pages/ProductManagement.tsx:460-465 | ceil(area/per-box) boxes cover the area, and one box fewer would not |
| Catalog.DiscountedWithinTotal | src/pages/ProductManagement.tsx:450-454 | with a discount in [0,100] the discounted price lies between 0 and the total and equals mrp × area × (1 − discount/100) |
| Catalog.SampleTileEdit | src/pages/ProductManagement.tsx:903 | mrp 100, 10% off, 30.72 sq ft per box, area 100: total 10000, discounted 9000, 4 boxes |
| Catalog.EditAdhesive | src/pages/ProductManagement.tsx:486-498 | only a dPrice or noOfBags edit recomputes total = dPrice × noOfBags; an mrp edit stores the raw text; other edits change only their field and keep the total |
| Catalog.EditCpsw | src/pages/ProductManagement.tsx:501-513 | only a dPrice or nos edit recomputes total = dPrice × nos; other edits change only their field and keep the total |
| Catalog.AdhesiveEditKeepsTotal | src/pages/ProductManagement.tsx:490-495 | every adhesive edit preserves total = dPrice × noOfBags |
| Catalog.CpswEditKeepsTotal | src/pages/ProductManagement.tsx:505-510 | every CP & SW edit preserves total = dPrice × nos |
| Catalog.TileMatches | src/pages/ProductManagement.tsx:234-239 | a tile matches when its brand or shade name contains the term, ignoring case |
| Catalog.AdhesiveMatches | src/pages/ProductManagement.tsx:240-245 | an adhesive record matches when its brand or category contains the term, ignoring case |
| Catalog.CpswMatches | src/pages/ProductManagement.tsx:246-252 | a CP & SW record matches when its brand, product code or description contains the term, ignoring case |
| Catalog.FilterProducts | src/pages/ProductManagement.tsx:229-257 | an empty term lists the whole category; otherwise the result is an order-preserving sublist of exactly the records one of whose searched fields contains the term, ignoring case, each with its number of copies in the catalog |
| Catalog.EmptyTermMatchesAll | src/pages/ProductManagement.tsx:230-231 | the empty term matches every record, so the unfiltered list is what filtering would give |
| Catalog.UniqueBrands | src/pages/ProductManagement.tsx:345-348 | the brand list has no duplicates, holds exactly the brands of the tiles, and is a sublist of the brand column in order of first appearance |
| Catalog.UniqueShades | src/pages/ProductManagement.tsx:351-360 | the shade list has no duplicates, holds exactly the shades of that brand's tiles, and is a sublist of their shade column in order of first appearance |
| Catalog.AddOption | src/pages/ProductManagement.tsx:548-550 | the new brand is appended only when absent, so the options stay duplicate-free and grow by at most one |
| Catalog.NextSno | src/pages/ProductManagement.tsx:542 | the serial number of an appended record reads back as length + 1 |
| Catalog.SaveProduct | src/pages/ProductManagement.tsx:533-598 | adding appends the form with a fresh id and serial length + 1; updating replaces exactly the records with the selected id, keeping length and order; other categories are untouched |
| Catalog.DeleteProduct | src/pages/ProductManagement.tsx:613-626 | the active list loses exactly the records with the id, the rest keep their order and their number of copies, other categories are untouched |
| Catalog.AddThenDeleteTile | src/pages/ProductManagement.tsx:533-626 | deleting a tile just added under a fresh id restores the catalog |
| Catalog.EditUnknownIdChangesNothing | src/pages/ProductManagement.tsx:552-555 | updating when no record has the selected id changes nothing |
| Importer.CellReal | src/pages/ProductManagement.tsx:746-749 | `parseFloat(row[key]) \|\| 0`: an absent cell gives 0 and a number cell its value |
| Importer.CellInt | src/pages/ProductManagement.tsx:750 | `parseInt(row[key]) \|\| 0`: an absent cell gives 0 and a non-negative number cell is truncated |
| Importer.NormalizeDimensions | src/pages/ProductManagement.tsx:769-771 | every run of whitespace around a `*` becomes `" * "`, scanning left to right; its properties are the four Normalize lemmas below |
| Importer.NormalizeSpacesStars | src/pages/ProductManagement.tsx:769-771 | after normalising, every `*` has exactly one space on each side |
| Importer.NormalizeKeepsText | src/pages/ProductManagement.tsx:769-771 | normalising only moves whitespace: the other characters are kept, in order |
| Importer.NormalizeIdempotent | src/pages/ProductManagement.tsx:769-771 | normalising twice is the same as normalising once |
| Importer.NormalizeSize | src/pages/ProductManagement.tsx:769-771 | two plain parts around a `*` with any surrounding whitespace come out joined by `" * "` |
| Importer.NormalizeSamples | src/pages/ProductManagement.tsx:767-771 | "100*200" and "100 * 200" both become "100 * 200" |
| Importer.TileRowValid | src/pages/ProductManagement.tsx:740 | a tile row is valid when brand, area of application, shade name, dimensions and surface are all truthy |
| Importer.AdhesiveRowValid | src/pages/ProductManagement.tsx:804 | an adhesive row is valid when brand and category are truthy |
| Importer.CpswRowValid | src/pages/ProductManagement.tsx:838 | a CP & SW row is valid when brand, product code and description are truthy |
| Importer.RowError | src/pages/ProductManagement.tsx:742 | the error line "Row i: Missing required fields", with i counted from 1 |
| Importer.PricePerSqFt | src/pages/ProductManagement.tsx:788 | with a positive area, price per sq ft × area is the discounted price; otherwise it is 0 |
| Importer.TileFromRow | src/pages/ProductManagement.tsx:745-790 | an imported tile has consistent totals; boxes are ceil(area/per-box) with a positive per-box area, else the parsed count; its dimensions are normalised |
| Importer.AdhesiveFromRow | src/pages/ProductManagement.tsx:810-826 | an imported adhesive record stores mrp as a number and total = dPrice × noOfBags |
| Importer.CpswFromRow | src/pages/ProductManagement.tsx:844-862 | an imported CP & SW record stores total = dPrice × nos |
| Importer.TileBuilder | src/pages/ProductManagement.tsx:745-790 | builds row i's tile with the i-th fresh id |
| Importer.AdhesiveBuilder | src/pages/ProductManagement.tsx:810-826 | builds row i's adhesive record with the i-th fresh id |
| Importer.CpswBuilder | src/pages/ProductManagement.tsx:844-862 | builds row i's CP & SW record with the i-th fresh id |
| Importer.Fold | src/pages/ProductManagement.tsx:737-797 | success + failed = rows; the list grows by success and keeps its prefix; there is one error line per failed row (the lines and records themselves: FoldErrorLines, FoldAppends) |
| Importer.FoldSuccess | src/pages/ProductManagement.tsx:737-797 | the success count is the number of rows that pass the required-field check |
| Importer.FoldErrors | src/pages/ProductManagement.tsx:740-743 | every error line is "Row i: Missing required fields" for an invalid row i, counted from 1 |
| Importer.FoldConsecutive | src/pages/ProductManagement.tsx:775 | with consecutive numbering every appended record's serial is its 1-based position |
| Importer.FoldAsWritten | src/pages/ProductManagement.tsx:775 | as written, the k-th appended record gets serial existing + 2k + 1 |
| Importer.FoldAppends | src/pages/ProductManagement.tsx:737-797 | the loop's list is the existing list followed by the record built from each valid row, in row order, with that row's index and the serial of its place |
| Importer.FoldErrorLines | src/pages/ProductManagement.tsx:740-743 | the loop's error lines are exactly "Row i: Missing required fields" for the invalid rows, in increasing i |
| Importer.Report | src/pages/ProductManagement.tsx:879-882 | the counts are passed on and only the first 10 error lines are reported |
| Importer.ImportWith | src/pages/ProductManagement.tsx:720-885 | no rows gives the single error "No data found in the file."; otherwise success + failed = rows, at most 10 errors each naming a row, only the active category grows, and it keeps its records as a prefix |
| Importer.ImportReportsFirstErrors | src/pages/ProductManagement.tsx:740-743 | the reported errors are the lines of the first ten invalid rows, in row order |
| Importer.ImportAppendsValidRows | src/pages/ProductManagement.tsx:720-885 | the imported category's list is the old list followed by the records of the valid rows, in row order |
| Importer.ImportAsWritten | src/pages/ProductManagement.tsx:720-885 | the import with the page's own serial numbers keeps success + failed = rows |
| Importer.Import | src/pages/ProductManagement.tsx:720-885 | the import with consecutive serial numbers keeps success + failed = rows |
| Importer.ImportedTiles | src/pages/ProductManagement.tsx:737-797 | every imported tile has consistent totals and, numbered consecutively, its 1-based position as serial |
| Importer.ImportedAdhesive | src/pages/ProductManagement.tsx:801-831 | every imported adhesive record has total = dPrice × noOfBags and its position as serial |
| Importer.ImportedCpsw | src/pages/ProductManagement.tsx:835-867 | every imported CP & SW record has total = dPrice × nos and its position as serial |
| Importer.ImportAsWrittenSkipsSerials | src/pages/ProductManagement.tsx:775 | as written, two valid rows imported into an empty tile list get serials 1 and 3 |
| Quotation.LineWithinGross | src/pages/QuotationGeneration.jsx:155-158 | a line with discount in [0,100] and non-negative price and quantity adds between 0 and price × quantity |
| Quotation.LineAmount | src/pages/QuotationGeneration.jsx:155-158 | a line adds its gross amount times (1 − discount/100) |
| Quotation.DisplayedRowIsLine | src/pages/QuotationGeneration.jsx:597-598 | the displayed row total (unit price discounted, then × quantity) equals the line's subtotal contribution |
| Quotation.Subtotal | src/pages/QuotationGeneration.jsx:154-160 | with valid lines the left fold lies between 0 and the undiscounted total |
| Quotation.SubtotalAppend | src/pages/QuotationGeneration.jsx:154-160 | the subtotal of a concatenation is the sum of the subtotals |
| Quotation.SubtotalIsSumOfLines | src/pages/QuotationGeneration.jsx:154-160 | the left fold from 0 equals the sum of the line amounts taken from the front |
| Quotation.TaxAmount | src/pages/QuotationGeneration.jsx:163-166 | tax × 100 = subtotal × rate |
| Quotation.ComputeTotals | src/pages/QuotationGeneration.jsx:154-173 | tax × 100 = subtotal × rate; grand total = subtotal + tax; with a non-negative rate and subtotal the grand total is at least the subtotal |
| Quotation.TotalsOrdered | src/pages/QuotationGeneration.jsx:163-173 | with valid lines and a non-negative rate, 0 ≤ subtotal ≤ grand total and tax ≥ 0 |
| Quotation.SampleTotals | src/pages/QuotationGeneration.jsx:154-173 | two undiscounted lines at 18% give the expected subtotal, tax and total |
| Quotation.TemplateTotals | src/components/templates/QuotationTemplate.jsx:148-153 | the template's subtotal is its own fold; its tax is the rate's percentage of it and its total adds the tax |
| Quotation.TemplateTotalsAgree | src/components/templates/QuotationTemplate.jsx:148-153 | the template's `price × quantity × (1 − discount/100)` totals equal the page's subtotal, tax and grand total |
| Quotation.LastTwo | src/pages/QuotationGeneration.jsx:143 | `substr(-2)` is the last two characters, or the whole of a shorter string |
| Quotation.YearDigits | src/pages/QuotationGeneration.jsx:143 | the year's last two characters are digits reading back as year mod 100 |
| Quotation.QuotationNumber | src/pages/QuotationGeneration.jsx:141-148 | the number starts "PTM-" and, from year 10 on, is 14 characters long |
| Quotation.QuotationNumberRoundTrip | src/pages/QuotationGeneration.jsx:141-148 | a generated number reads back as year mod 100, month, day and the random part |
| Quotation.CheckQuotation | src/pages/QuotationGeneration.jsx:210-221 | it passes exactly when the customer name is non-empty and a salesperson is selected; the customer check comes first |
| Quotation.SaveQuotation | src/pages/QuotationGeneration.jsx:210-262 | it fails exactly when a check fails, with that check's message; on success the new quotation is in front and the stored ones keep their order |
| Quotation.SaveEffect | src/pages/QuotationGeneration.jsx:210-262 | the save fails exactly when the customer name is empty or no salesperson is selected, and then the stored list is unchanged; a passed check stores exactly one more quotation, with the new id, in front of the old list |
| Quotation.SaveTwiceNewestFirst | src/pages/QuotationGeneration.jsx:255-262 | two passing saves store the later quotation first, then the earlier one, then the old list |
| Words.TwoDigitWords | src/pages/QuotationGeneration.jsx:278-281 | below 100 the words are empty exactly for 0; from 100 on the tens lookup reads "undefined" |
| Words.NumToWords | src/components/templates/QuotationTemplate.jsx:133-140 | the words are empty exactly for 0 |
| Words.NumberToWords | src/components/templates/QuotationTemplate.jsx:142 | 0 gives "Zero Rupees Only"; otherwise the grouped reading followed by " Rupees Only" |
| Words.TwoDigitWellSpaced | src/components/templates/QuotationTemplate.jsx:134-135 | the words for 1 to 99 are well spaced |
| Words.HundredsShape | src/components/templates/QuotationTemplate.jsx:136 | hundreds read as ones[n/100] + " Hundred", with the remainder's words only when it is nonzero |
| Words.ThousandsShape | src/components/templates/QuotationTemplate.jsx:137 | below 10^5 the reading is the thousands, " Thousand", and the nonzero remainder |
| Words.LakhsShape | src/components/templates/QuotationTemplate.jsx:138 | below 10^7 the reading is the lakhs, " Lakh", and the nonzero remainder |
| Words.CroresShape | src/components/templates/QuotationTemplate.jsx:139 | from 10^7 on the reading recurses on the crores, adds " Crore", and the nonzero remainder |
| Words.NumToWordsWellSpaced | src/components/templates/QuotationTemplate.jsx:133-140 | the words of a positive number are non-empty, with no space at either end and never two in a row |
| Words.Grouped | src/components/templates/QuotationTemplate.jsx:133-140 | the reference reading by digit groups: crores (read the same way), two-digit lakhs and thousands, hundreds, the last two digits, each group named and left out when zero |
| Words.NumToWordsIsGrouped | src/components/templates/QuotationTemplate.jsx:133-140 | the recursive reading equals the digit-group reading (crores, two-digit lakhs, two-digit thousands, hundreds, last two digits) |
| Words.SampleLakh | src/components/templates/QuotationTemplate.jsx:138 | 100000 reads "One Lakh" |
| Words.SampleThousands | src/components/templates/QuotationTemplate.jsx:137 | 2360 reads "Two Thousand Three Hundred Sixty" |
| Words.Round | src/pages/QuotationGeneration.jsx:288 | `Math.round` lies within half of x, halves rounded up |
| Words.PaiseOf | src/pages/QuotationGeneration.jsx:288 | the page's paise figure is at most 100 |
| Words.InWords | src/pages/QuotationGeneration.jsx:291-324 | "INR ", the rupees' grouped reading and " Rupees" when there are any, " And " + the paise's reading + " Paise" when there are any, and " Only." |
| Words.PageReading | src/pages/QuotationGeneration.jsx:291-324 | below 100 rupees the page's own text equals that reading |
| Words.ConvertNumberToWords | src/pages/QuotationGeneration.jsx:274-325 | 0 gives "Zero Rupees Only"; any other amount of 100 rupees or more throws on the `const` reassignment; a negative amount below that does not throw; between 0 and 100 rupees the text is "INR " + rupees in words + " Rupees" (when nonzero) + " And " + paise in words + " Paise" (when nonzero) + " Only.", and an overflowing paise figure reads "undefined Paise" |
| Words.ConvertFailsFromHundred | src/pages/QuotationGeneration.jsx:287-299 | every amount from 100 on fails |
| Words.ConvertPaiseOverflow | src/pages/QuotationGeneration.jsx:288-321 | 1.999 gives 100 paise and the text "INR One Rupees And undefined Paise Only." |
| Words.AmountInWords | src/pages/QuotationGeneration.jsx:283-324 | intended reading: 0 gives "Zero Rupees Only"; any other amount is rounded to whole paise and read as "INR " + rupees + " Rupees" + " And " + paise + " Paise" + " Only.", each part present when nonzero, in the digit-group reading; from one rupee on the words are well spaced |
| Words.RupeesAndPaise | src/pages/QuotationGeneration.jsx:288-324 | whole rupees and paise below 100 read through the template's recursion give exactly the digit-group reading, well spaced from one rupee on |
| Words.AmountInWordsAgrees | src/pages/QuotationGeneration.jsx:283-324 | wherever the page neither fails nor overflows the paise, it gives the intended reading |
| Words.AmountInWordsRoundsUp | src/pages/QuotationGeneration.jsx:288 | the intended reading of 1.999 is "INR Two Rupees Only." |
| Words.AmountInWordsHundreds | src/pages/QuotationGeneration.jsx:294-309 | the intended reading of 150 is "INR One Hundred Fifty Rupees Only." |
| Migration.Find | public/api/migrate-data.php:33 | a key lookup succeeds exactly when the key is present, with a value stored under it |
| Migration.Coalesce | public/api/migrate-data.php:44 | `??` and `isset ? : default`: a set value is kept, otherwise the default |
| Migration.SetList | public/api/migrate-data.php:271 | the list guard gives nothing unless the key is set |
| Migration.CheckRequest | public/api/migrate-data.php:14-63 | OPTIONS is a preflight; any other method but POST is rejected; missing dbConfig or data, then missing host, database or username, are rejected with their messages; otherwise the connection uses the configuration, the prefix defaults to "quotation_" and the port to 3306 |
| Migration.TileRow | public/api/migrate-data.php:271-296 | a tile row has type "tiles" and empty category, product code and description |
| Migration.AdhesiveRow | public/api/migrate-data.php:300-325 | an adhesive row has type "adhesive", zero discount, price per sq ft and area per box, and dPrice as discounted price |
| Migration.CpswRow | public/api/migrate-data.php:329-354 | a CP & SW row has type "cp-sw", empty category, the same zeros, and dPrice as discounted price |
| Migration.CategoryRows | public/api/migrate-data.php:271-354 | the rows are the tiles', then the adhesive', then the CP & SW records', one per record |
| Migration.ProductRows | public/api/migrate-data.php:271-354 | one row per record of the three set lists |
| Migration.RowTypesFollowLists | public/api/migrate-data.php:271-354 | each row's product type names the list its record came from |
| Migration.RecordLookups | public/api/migrate-data.php:273-291 | a stored record answers each of its keys with its value, and no other key is set |
| Migration.CatalogKeys | public/api/migrate-data.php:537-542 | stored tile records carry neither category nor productCode; adhesive records carry category; CP & SW records carry productCode but not category |
| Migration.TileRowOfCatalog | public/api/migrate-data.php:272-296 | the row of a stored tile carries its id, brand, area of application, shade, image, dimensions, surface, mrp, discount, discounted price, price per sq ft and area per box, with empty category, code and description |
| Migration.AdhesiveRowOfCatalog | public/api/migrate-data.php:301-325 | the row of a stored adhesive record carries its id, brand, category, mrp and dPrice as discounted price, with the tile-only columns empty or zero |
| Migration.CpswRowOfCatalog | public/api/migrate-data.php:330-354 | the row of a stored CP & SW record carries its id, brand, image, product code, description, mrp and dPrice as discounted price, with the tile-only columns empty or zero |
| Migration.CatalogRowCount | public/api/migrate-data.php:271-354 | a stored catalog gives one row per product |
| Migration.ItemType | public/api/migrate-data.php:537-542 | "adhesive" exactly when category is set; "cp-sw" exactly when productCode is set and category is not; "tiles" otherwise |
| Migration.ItemQuantity | public/api/migrate-data.php:548-555 | the quantity is areaRequired, noOfBags or nos by item type, each defaulting to 0 |
| Migration.ItemRowOf | public/api/migrate-data.php:545-573 | an item row carries the product id or null, the type, the quantity, mrp, discount and totalAmount (each defaulting to 0), and the encoded product |
| Migration.ItemTypeOfCatalog | public/api/migrate-data.php:537-555 | a stored catalog record is classed by the list it came from, with that list's quantity field |
| Migration.QuotationRowOf | public/api/migrate-data.php:497-524 | the id is the stored one if set, else a fresh one; dates are formatted when set, else null; status defaults to "draft" |
| Migration.MigrateQuotation | public/api/migrate-data.php:495-575 | a quotation gives its row and one item row per product, each carrying the quotation's id |
| Migration.MigrateQuotations | public/api/migrate-data.php:495-578 | one migrated quotation per element of the input, in order |
| Migration.BindAsWritten | public/api/migrate-data.php:273-291 | `bind_param` binds exactly when every argument is a variable, then binds their values in order; otherwise it raises the by-reference Error |
| Migration.HoistedBinds | public/api/migrate-data.php:273-291 | once every argument is a variable, the bind succeeds with the values written |
| Migration.ProductBindsAsWritten | public/api/migrate-data.php:271-354 | as written, the tile, adhesive and CP & SW inserts each raise the by-reference Error, whatever the row |
| Migration.ProductBindsHoisted | public/api/migrate-data.php:271-354 | with the `??` values first assigned to variables, each product insert binds exactly its row's sixteen columns |
| Migration.QuotationBindsAsWritten | public/api/migrate-data.php:505-573 | as written, the quotation insert and the item insert each raise the by-reference Error |
| Migration.QuotationBindsHoisted | public/api/migrate-data.php:505-573 | with the `??` values first assigned to variables, the quotation and item inserts bind exactly their rows' columns |
| Migration.SettingValue | public/api/migrate-data.php:606-608 | an array or object value is stored encoded; a scalar passes through unchanged |
| Migration.SettingRows | public/api/migrate-data.php:604-615 | exactly one row per top-level key, carrying that key and its value |
| Migration.SettingKeysDistinct | public/api/migrate-data.php:604-615 | settings with distinct names give rows with distinct keys |
| Migration.BitOrHighBit | public/api/migrate-data.php:627-628 | or-ing a bit above a number adds it |
| Migration.UuidMasks | public/api/migrate-data.php:627-628 | `\| 0x4000` on a draw ≤ 0x0fff and `\| 0x8000` on a draw ≤ 0x3fff add the mask |
| Migration.Uuid | public/api/migrate-data.php:623-631 | the identifier is 36 characters long |
| Migration.UuidLayout | public/api/migrate-data.php:623-631 | the text is 8-4-4-4-12 lower-case hex with version digit '4' and a variant digit among 8, 9, a, b |
| Migration.UuidRoundTrip | public/api/migrate-data.php:623-631 | reading a generated identifier back recovers the eight draws |
| Templates.RowAmount | src/components/templates/Template3.jsx:120-122 | a template row's amount is the quotation page's line amount |
| Templates.ProductName | src/components/templates/Template3.jsx:137-140 | brand first, code last; " - " sits between when both are present; an empty code leaves the brand and an empty brand leaves the code |
| Templates.OrNotAvailable | src/components/templates/Template3.jsx:146 | `x \|\| 'N/A'`: the fallback appears exactly when the text is empty |
| Templates.ShadeCell | src/components/templates/Template3.jsx:146-147 | the shade, or N/A when it is empty |
| Templates.AreaCell | src/components/templates/Template3.jsx:152-153 | an area in square feet exactly when it is nonzero, else N/A |
| Templates.BoxesCell | src/components/templates/Template3.jsx:156-157 | the box count, else the quantity, and N/A exactly when both are 0 |
| Templates.Rows | src/components/templates/Template3.jsx:119-157 | one row per product, in order, numbered index + 1, with each cell's rule |
| Templates.RowsAddUpToSubtotal | src/components/templates/Template3.jsx:118-122 | the amount column adds up to the quotation subtotal |
| Templates.StripNumber | src/components/templates/Template3.jsx:201 | a line starting with digits and a dot is those digits, the dot, a run of whitespace and the result, which starts with no whitespace; any other line comes back unchanged |
| Templates.Renumber | src/components/templates/Template3.jsx:198-202 | one printed line per line of the terms, the i-th numbered i + 1 and carrying the i-th line without its old number |
| Templates.RenumberCounts | src/components/templates/Template3.jsx:198-202 | the printed terms are numbered 1 to n, in order |
| Templates.RenumberIdempotent | src/components/templates/Template3.jsx:198-202 | renumbering printed terms whose lines do not start with whitespace gives them back |
| Templates.DefaultTermsNumbered | src/components/templates/Template5.jsx:237-243 | the default terms are five lines numbered 1 to 5 |
| Templates.PrintedTerms | src/components/templates/Template5.jsx:237-251 | empty terms print the defaults; otherwise the first min(n, 5) lines, in order; never more than five |
| Templates.TaxLabel | src/components/templates/Template5.jsx:216-217 | "IGST " + the rate's digits + ".0%" |
| Templates.TaxLabelRate | src/components/templates/Template5.jsx:216-217 | the label reads back as the rate, or 18 for a missing or zero rate |
| Templates.AddressText | src/components/templates/Template5.jsx:113-121 | an empty address gives N/A; otherwise every comma is followed by a space |
| Templates.LabelLine | src/components/templates/Template5.jsx:72 | the caption, then the value; N/A exactly when the value is empty or is N/A itself (the preparer line here, the phone lines at 117 and 120 alike) |

## Left out

- Rendering: React state, MUI dialogs, routing, `localStorage`, snackbars and every jsPDF drawing call. The model returns the values these would display or store.
- Spreadsheet reading and writing (`handleFileImport`, `handleDownloadTemplate`): the import starts from already-parsed rows.
- Numbers.ParseFloat: exponents and `Infinity` are not modelled.
- Numbers.ParseInt: the `0x` prefix is not modelled.
- Text.Lower: lower-cases ASCII letters only, not the full Unicode case mapping of `toLowerCase`.
- Floating point: money, areas and percentages are exact rationals. IEEE rounding, `toFixed`, and a `Math.ceil` that over-counts from rounding noise are not modelled.
- Importer.CellInt: a number cell is read as its truncation. The page's `parseInt` reads the number's string rendering, which differs for numbers rendered in exponent form: 5e-7 reads 5 there and 1e21 reads 1.
- Importer.TileFromRow: a number in a text column is rendered by a function parameter, because JavaScript's rendering of fractional numbers is not modelled. The `catch` branch ("Invalid data format") is not modelled, because the row code has no operation that throws on a parsed row.
- Words.NumberToWords: covers whole amounts only. The template passes a possibly fractional total and indexes its tables with it (QuotationTemplate.jsx:292).
- Words.AmountInWords: covers non-negative amounts only, like the page's own use on totals. A paise-only amount prints "INR  And … Paise Only." with two spaces, in the page too.
- Quotation.Subtotal: a product stored without a price, quantity or discount is read as 0 for that field. The page multiplies whatever `localStorage` holds, so such a product gives NaN there, and so do the totals.
- Quotation.QuotationNumber: the date parts and the random draw are inputs within range; `Date` itself is not modelled.
- Migration: database work is not modelled. This covers mysqli connections, `createTables`, transactions, `migrateCustomers`, `migrateStaff`, `generateSqlFile` and the `catch`/rollback messages.
- Migration: the pure parts are modelled on decoded request bodies.
  - JSON objects have distinct keys.
  - PHP's conversion of numeric-string keys and `bind_param`'s type coercion are not modelled.
  - `json_encode` and `date(strtotime(...))` are parameters.
- Migration: the row functions describe the rows the script evidently means to insert. As written, the inserts raise an Error before any row is bound (see Findings). The customer insert (migrate-data.php:385-394) has the same defect and is not modelled.
- Migration.BindAsWritten: the Error's text is abbreviated; PHP's message also names the argument's position.
- Migration.MigrateQuotations: the fresh ids drawn per quotation and per item are inputs (`Draw`).
- Migration.Uuid: the `mt_rand` draws are inputs in range.
- Templates.TaxLabel: whole-number rates only, because JavaScript's rendering of fractional rates is not modelled.
- Templates: the duplicate templates (Template1, Template2, Template4, SimpleTemplate, SimplifiedTemplate) are not modelled; they repeat the row-amount and product-name rules modelled from Template3 and Template5.

## Findings

| source | as written | input that shows it | evidently intended | confidence | as-written member | corrected member |
|---|---|---|---|---|---|---|
| src/pages/ProductManagement.tsx:775 | serial = `newProducts.tiles.length + successCount + 1`, where `newProducts.tiles` is the same array the loop pushes into | two valid tile rows into an empty list get serials "1" and "3" | consecutive serials continuing the list: "1", "2" | not executed | Importer.ImportAsWrittenSkipsSerials | Importer.Import |
| src/pages/QuotationGeneration.jsx:287 | `const rupees` is reassigned by `rupees %= …` | any amount of 100 rupees or more, e.g. 150, throws a TypeError | the Indian-grouped reading of the rupees | not executed | Words.ConvertFailsFromHundred | Words.AmountInWordsHundreds |
| src/pages/QuotationGeneration.jsx:288 | paise = `Math.round((amount - rupees) * 100)` can reach 100, past the tens table | 1.999 prints "INR One Rupees And undefined Paise Only." | round to whole paise first: "INR Two Rupees Only." | not executed | Words.ConvertPaiseOverflow | Words.AmountInWordsRoundsUp |
| public/api/migrate-data.php:273-291 | `bind_param` takes its values by reference but is passed `$product['areaOfApplication'] ?? ''` and other `??` expressions; the same holds for the quotation insert (505-524) and the item insert (562-573) | any tile, adhesive or CP & SW record raises "could not be passed by reference", an `Error` that the `catch (Exception $e)` at line 100 does not catch | assign each value to a variable first, then bind the variables | not executed | Migration.ProductBindsAsWritten | Migration.ProductBindsHoisted |
