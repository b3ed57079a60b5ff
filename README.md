# Bulk variations: a verified model of the reconciliation engine

The plugin lets a shop manager paste a table of variations (one header
line, then one line per variation with a Price column, an optional SKU
column and one column per attribute) and import it into a WooCommerce
product. This project models the engine behind that, in Dafny:

- **Parsing** (`Parser::parse_input`): trimming, delimiter detection from
  the first line, line-by-line tokenising, header normalisation, the Price
  column check, combining each non-blank row with the headers into a
  `Variation_Data` object numbered from 2, and the unique terms per
  attribute.
- **Matching** (`Parser::match_existing_variations`): the normalised,
  order-dependent key of a row, the map from key to the product's existing
  variations (later ones win), the classification of every row as new,
  update or unchanged (prices within 0.01 are equal), and a display row,
  put in front, for every existing variation no row matched.
- **Validation** (`Validator`): price, SKU ownership and attribute checks
  that append errors to the row objects, and the attribute and term
  lookups ignoring case.
- **Import** (`Importer`): conversion to a variable product, the attribute
  and term setup with its term merge, create-or-update of one variation per
  error-free row with the attribute search, the refusal of a SKU that
  another product already has, the aborts, the success rule,
  and the preview counts of `analyze_variations`.

WooCommerce itself is one abstract state, `Shop.Catalog` (products and
variations by id, attribute taxonomies and their terms in listing order,
term assignments, and the next free id). `Shop.Store` is a class holding
that state in fields that the import writes in place. The
`Variation_Data` rows are objects of class `Variations.VariationData`
whose methods change their fields. Each method with a loop is proved
against a pure function of the old state. The properties the engine
promises are then lemmas about those functions.

WordPress helpers that the engine calls but whose behaviour lies outside
the engine are parameters: `sanitize_text_field`, `sanitize_title`,
`wc_attribute_taxonomy_name`, the float-to-string cast of a price
(`Platform.Platform`), `get_term_by('slug', …)` (`Matcher.TermNames`), and
whether `wc_create_attribute` and `wp_insert_term` succeed
(`AttributeSetup.Backend`).

Modules, by file:

| file | module |
|---|---|
| `wrappers.dfy` | `Option` |
| `seqs.dfy` | first occurrences (`array_unique`), sequence steps |
| `dicts.dfy` | PHP ordered arrays with string keys |
| `text.dfy` | `strtolower`, `trim`, `\s+` collapsing, `explode`, `floatval` |
| `csv.dfy` | `str_getcsv` |
| `platform.dfy` | the platform parameters |
| `variation_data.dfy` | `Variation_Data` |
| `headers.dfy` | the header and row helpers of `Parser` |
| `matcher.dfy` | `match_existing_variations` and its helpers |
| `terms.dfy` | `get_unique_attribute_terms` |
| `parser.dfy` | `parse_input` |
| `catalog.dfy` | the WooCommerce state |
| `validator.dfy` | `Validator` |
| `importer.dfy` | conversion, term merge, `find_variation_by_attributes` |
| `importer_setup.dfy` | `setup_product_attributes` |
| `importer_run.dfy` | `create_or_update_variation`, `import_variations` |
| `importer_analyze.dfy` | `analyze_variations` |

Row numbers follow `parse_input` (src/Core/Parser.php:64-80): the counter
starts at 2 and goes up by one after every row that is not skipped as
blank, so a blank row does not use up a number.

## Model

| member | source | states |
|---|---|---|
| Variations.PriceCharsKeeps | src/Models/Variation_Data.php:85-89 | filtering the price keeps exactly the digits and dots, in order; a string of only those is kept whole; filtering is idempotent |
| Variations.SanitizePriceValue | src/Models/Variation_Data.php:85-89 | a sanitised price is never negative and is the decimal value of the leading number of the filtered string |
| Variations.ConstructSplitsRow | src/Models/Variation_Data.php:56-77 | the constructor takes `sku` and `price` out of the row data when present, the price being the sanitised decimal value of its cell and never negative, makes every other key an attribute in input order with its sanitised value, and starts with no errors |
| Variations.VariationData.constructor | src/Models/Variation_Data.php:56-77 | the new object holds what the constructor's split gives, has no errors and has no match yet |
| Variations.VariationData.SetMatch | src/Core/Parser.php:306-332 | sets the status, existing id and old price that the matcher fills in, and nothing else |
| Variations.VariationData.AddError | src/Models/Variation_Data.php:105-107 | appends exactly one message, after which `has_errors` holds; every other field is unchanged |
| Variations.States | src/Models/Variation_Data.php:114-122 | one state per row object, in order |
| Headers.DelimiterFromFirstLine | src/Core/Parser.php:100-107 | the delimiter is tab exactly when the first line holds strictly more tabs than commas, comma otherwise |
| Headers.DelimiterIgnoresRest | src/Core/Parser.php:100-107 | nothing after the first newline changes the delimiter |
| Headers.ParseCsvBound | src/Core/Parser.php:116-131 | there are never more rows than lines, and each row has at least one field |
| Headers.CsvRowsSkipBlank | src/Core/Parser.php:116-131 | a line that is empty once trimmed (`''` or `'0'`) gives no row; every other line gives its fields; there are no rows exactly when every line is empty |
| Headers.NormalizedHeaders | src/Core/Parser.php:139-153 | normalising keeps the number and order of the headers and changes each only by trimming and letter case |
| Text.TitleFromFacts | src/Core/Parser.php:151 | title casing keeps the length, lower-cases a character that follows a letter and upper-cases one that follows a character that is neither a letter nor case-ignorable |
| Text.TitleCaseWords | src/Core/Parser.php:151 | a title-cased header starts with an upper-case letter, each later word starts upper-case and the rest of each word is lower-case |
| Headers.HasPriceColumn | src/Core/Parser.php:161-168 | true exactly when some header is `price` ignoring case |
| Headers.PriceColumnOfRaw | src/Core/Parser.php:52-61 | the normalised headers have a Price column exactly when some trimmed raw header is `price` in any case |
| Headers.PadOrTruncate | src/Core/Parser.php:184-190 | the row gets exactly as many cells as there are headers, missing cells being empty |
| Headers.CombineHeaders | src/Core/Parser.php:178-210 | the combined row's keys are the headers' keys (`price`, `sku` or the header), each once, in first-seen order; the last header with a given key stores its own trimmed cell |
| Headers.CellValues | src/Core/Parser.php:193-207 | each stored value is the trimmed cell of the padded row |
| Headers.PriceAlwaysPresent | src/Core/Parser.php:193-207 | with a Price column, every combined row has a `price` entry |
| Headers.GetAttributeNames | src/Core/Parser.php:218-229 | the attribute names are exactly the headers other than Price and Sku, and never more than the headers |
| Headers.AttributeNamesSnoc | src/Core/Parser.php:221-226 | the names keep the headers' order: a header read last is listed last when it is an attribute |
| Headers.AttributeNamesCount | src/Core/Parser.php:221-226 | an attribute header is listed as often as it occurs among the headers, so repeats are kept, and no other header is listed |
| Headers.AttributeNamesAreOwnKeys | src/Core/Parser.php:218-229 | the attribute names are exactly the headers whose values are stored under their own name |
| Csv.FieldsOfQuoted | src/Core/Parser.php:127 | round trip: fields written with RFC 4180 quoting and joined by the delimiter read back as the same fields |
| Csv.QuotedEscape | src/Core/Parser.php:127 | inside quotes the escaped text reads back as the field, and reading goes on after the closing quote |
| Csv.UnquotedPlain | src/Core/Parser.php:127 | unquoted text without quotes continues the current field up to the first delimiter |
| Csv.PlainSplit | src/Core/Parser.php:127 | a line without any double quote is tokenised exactly as `explode` on the delimiter splits it |
| Csv.BlanksBeforeQuote | src/Core/Parser.php:126 | blanks (not the delimiter) in front of an opening quote are all skipped |
| Csv.UnquotedToDelimiter | src/Core/Parser.php:126 | unquoted text without the delimiter ends at the next delimiter, and the rest of the line is read as fields of its own |
| Csv.QuotedFieldAfterBlanks | src/Core/Parser.php:126 | a quoted field with blanks in front of it reads back as the field itself, and reading goes on after the delimiter |
| Csv.BlankBeforeQuoteExample | src/Core/Parser.php:126 | `Twin Room, "1, 2", 100` gives three fields, the middle one `1, 2` |
| Matcher.MatchValueIgnoresCase | src/Core/Parser.php:374 | upper-casing or title-casing a value does not change its match value |
| Matcher.MatchValueIgnoresEdges | src/Core/Parser.php:374 | whitespace that `trim` strips, at either end, does not change the match value |
| Matcher.MatchValueIgnoresRuns | src/Core/Parser.php:374 | replacing one run of blanks by another does not change the match value |
| Matcher.AttributeKeySplits | src/Core/Parser.php:368-379 | when no value contains the bar character, the key splits back into one part per attribute name |
| Matcher.AttributeKeyMatches | src/Core/Parser.php:368-379 | when no value contains the bar character, two rows have the same key exactly when their match values agree name by name |
| Matcher.DisplayAttributesShape | src/Core/Parser.php:388-406 | the display form has exactly the attribute names as keys, each holding the term name behind the taxonomy slug, the raw value, or `''` |
| Matcher.DisplayAttributesIdempotent | src/Core/Parser.php:388-406 | when no taxonomy name is itself an attribute name, normalising twice gives the same result as normalising once |
| Matcher.NamesNotReserved | src/Core/Parser.php:218-229 | attribute names are never `price` or `sku` |
| Matcher.Loaded | src/Core/Parser.php:286-303 | only children that could be loaded are read, in order |
| Matcher.ExistingMapLaterWins | src/Core/Parser.php:286-303 | the map's keys are the keys of the loaded children, and when two share a key the later one wins |
| Matcher.BuildExistingMap | src/Core/Parser.php:286-303 | the first loop builds exactly that map |
| Matcher.ClassifiedAgainstChildren | src/Core/Parser.php:306-332 | a row is new exactly when no loaded child has its key; otherwise it takes the id and price of the last child with that key, and it is unchanged exactly when the prices differ by less than 0.01; the row data is kept |
| Matcher.ClassifyAgainstEntries | src/Core/Parser.php:306-332 | the same classification, for any map with those keys and entries |
| Matcher.ClassifyFacts | src/Core/Parser.php:310-331 | a row found in the map takes the entry's id and old price; a row not found is new |
| Matcher.MatchOne | src/Core/Parser.php:308-331 | one row is classified in place, and its matched id is returned |
| Matcher.ClassifyRows | src/Core/Parser.php:306-332 | every row object is classified in place, and the ids matched are collected in row order |
| Matcher.ClassifyAt | src/Core/Parser.php:306-332 | row `j` is classified and no other row changes |
| Matcher.StatesClassified | src/Core/Parser.php:306-332 | rows that each hold their own classification hold the classification of the whole list |
| Matcher.UnmatchedEntriesFacts | src/Core/Parser.php:335-356 | display rows are made for exactly the entries whose id no row matched |
| Matcher.KeptEntriesSnoc | src/Core/Parser.php:336-355 | filtering one more entry keeps it, at the end, exactly when no row matched its id |
| Matcher.UnmatchedEntriesOrder | src/Core/Parser.php:335-356 | the display rows are the unmatched entries in reverse map order, one per entry, so the entry read last is in front |
| Matcher.MatchSpecLength | src/Core/Parser.php:263-359 | the result has one row per input row plus one per existing entry no row matched; without a matchable product the rows come back as they are |
| Matcher.UnmatchedDataAppends | src/Core/Parser.php:338-352 | since no attribute is `price` or `sku`, `array_merge` only appends the display attributes |
| Matcher.UnmatchedRowConstructed | src/Core/Parser.php:338-352 | the display row is what the constructor builds from the merged array with row number 0 |
| Matcher.UnmatchedRowShape | src/Core/Parser.php:338-352 | the display row has one sanitised attribute per attribute name, in order |
| Matcher.PutAllFresh | src/Core/Parser.php:339 | `array_merge` of a map whose keys are all new appends it |
| Matcher.PutAllHas | src/Core/Parser.php:339 | `array_merge` keeps the keys of both maps |
| Matcher.UnmatchedObjects | src/Core/Parser.php:335-356 | a fresh display row object for every unmatched entry, each put in front of the others |
| Matcher.UnmatchedStep | src/Core/Parser.php:336-355 | one pass of the third loop keeps the list of display rows exact |
| Matcher.NewUnmatched | src/Core/Parser.php:338-352 | the display row of one unmatched entry: row number 0, unchanged, with the entry's id and price |
| Matcher.MatchExistingVariations | src/Core/Parser.php:263-359 | the input rows are classified in place and kept as the tail of the result, behind fresh display rows for the unmatched variations; no object appears twice |
| Terms.ValuesForHas | src/Core/Parser.php:237-253 | a value is given to an attribute exactly when that pair occurs in some row |
| Terms.PairsHas | src/Core/Parser.php:240-250 | a pair is read exactly when some row has it |
| Terms.AddTermKeys | src/Core/Parser.php:242-249 | one step adds the attribute at the end when it is new, and keeps the keys otherwise |
| Terms.AddTermLookup | src/Core/Parser.php:242-249 | one step changes only the attribute's own list, which gains the value unless it already holds it |
| Terms.TermIndexKeys | src/Core/Parser.php:237-253 | the index lists each attribute once, in first-seen order |
| Terms.TermIndexValues | src/Core/Parser.php:237-253 | each attribute holds exactly its distinct values in first-seen order; an attribute never seen has no entry |
| Terms.UniqueTermsFacts | src/Core/Parser.php:237-253 | each attribute's list has no repetition and lists a value exactly when some row gives it to that attribute |
| Terms.UniqueTerms | src/Core/Parser.php:237-253 | the nested loops compute the index of all pairs, row by row |
| Terms.AddRowTerms | src/Core/Parser.php:241-250 | the inner loop adds the pairs of one row |
| Terms.AddPair | src/Core/Parser.php:242-249 | one pass of the inner loop reads one more pair |
| Terms.AddTermStep | src/Core/Parser.php:242-249 | the body of the inner loop is one index step |
| Parsing.ParseSpec | src/Core/Parser.php:24-92 | a parse succeeds exactly when it reports no errors; a failed parse has no rows and exactly one error |
| Parsing.KeptRowsFacts | src/Core/Parser.php:66-70 | the kept rows are the rows that are not blank, in order, and none is blank |
| Parsing.NumberedRows | src/Core/Parser.php:64-81 | every row object holds its row number (2 for the first kept row, one more for each next), a price, no errors and no match |
| Parsing.NumberedAt | src/Core/Parser.php:64-81 | the `j`-th object is built from the `j`-th kept row and numbered `2 + j` |
| Parsing.EmptyInputFails | src/Core/Parser.php:33-38 | input that is empty once trimmed fails with one error and no rows or headers |
| Parsing.MissingPriceFails | src/Core/Parser.php:52-61 | headers without a Price column fail with one error, and the normalised headers are still returned |
| Parsing.ParsedRows | src/Core/Parser.php:64-91 | without a product, a successful parse gives one row object per non-blank data row, numbered from 2 |
| Parsing.ParseInput | src/Core/Parser.php:24-92 | the objects returned, the errors and the headers are those `ParseSpec` describes; the objects are fresh and distinct |
| Parsing.ParseRows | src/Core/Parser.php:64-86 | the data rows become row objects, matched against the product when its id is positive |
| Parsing.BuildRows | src/Core/Parser.php:64-81 | the row loop builds the numbered objects of the kept rows |
| Parsing.ParseRow | src/Core/Parser.php:67-80 | one pass: a blank row is skipped, any other becomes the next object |
| Parsing.AppendRow | src/Core/Parser.php:73-80 | a kept row becomes a fresh object at the end of the list |
| Parsing.NewRow | src/Core/Parser.php:77 | the fresh object is the constructor's result for that row |
| Shop.TermByName | src/Core/Validator.php:159 | the first term with exactly that name, and none exactly when no term has it |
| Shop.AddVariationFresh | src/Core/Importer.php:549-598 | a new variation gets an id no product had; only its parent changes, gaining it among its variations |
| Shop.Store.CreateAttribute | src/Core/Importer.php:492-513 | the store registers a new taxonomy and returns its id |
| Shop.Store.InsertTerm | src/Core/Importer.php:532-538 | the store adds a new term and returns its id |
| Shop.Store.CreateVariation | src/Core/Importer.php:549-598 | the store saves a new variation under its parent and returns its id |
| Validation.PriceCheck | src/Core/Validator.php:56-69 | after a validation pass, a row whose price is missing, zero or negative has exactly one more invalid-price error, naming it, as the first error appended; any other row gains none |
| Validation.RowPriceErrors | src/Core/Validator.php:24-69 | of the errors one pass appends to a row, exactly one reports the price when it is missing, zero or negative, and it comes first; otherwise none does |
| Validation.SkuCheck | src/Core/Validator.php:78-95 | an empty SKU is never looked up; a SKU nobody owns, or owned by the product itself, passes; otherwise exactly one error naming the SKU |
| Validation.SkuNotCheckedWithinInput | src/Core/Validator.php:34 | two rows with the same SKU that no product owns both pass |
| Validation.FirstEmptyAttributeIsFirst | src/Core/Validator.php:103-131 | the empty attribute reported is the first one in order, and none is reported exactly when every value is non-empty |
| Validation.AttributeCheck | src/Core/Validator.php:103-131 | no attributes gives exactly one error; otherwise at most one error, naming the first attribute whose trimmed value is empty (`'0'` included) |
| Validation.CheckOnlyAppends | src/Core/Validator.php:24-48 | the checks only append errors: a row keeps its fields and earlier errors and gains at most three, all naming its row; it is unchanged exactly when no check fails |
| Validation.ValidExactlyWhenUnchanged | src/Core/Validator.php:24-48 | a pass is valid exactly when it leaves every row as it was |
| Validation.RevalidationRepeats | src/Core/Validator.php:24-48 | a second pass appends the same errors again, so validation is not idempotent |
| Validation.ValidatePrice | src/Core/Validator.php:56-69 | the price check on the object, returning whether it passed |
| Validation.ValidateSku | src/Core/Validator.php:78-95 | the SKU check on the object, returning whether it passed |
| Validation.ValidateAttributes | src/Core/Validator.php:103-131 | the attribute check on the object, returning whether it passed |
| Validation.ValidateRow | src/Core/Validator.php:27-42 | the three checks of one row, in order, passing exactly when none appends an error |
| Validation.ValidateVariations | src/Core/Validator.php:24-48 | every row goes through the checks once; the result is valid exactly when none failed |
| Validation.ValidateAt | src/Core/Validator.php:27-42 | the checks of row `i` touch no other row |
| Validation.ValidateStep | src/Core/Validator.php:27-42 | one turn of the loop keeps the loop's invariant |
| Validation.AttributeIdByLabelIsFirst | src/Core/Validator.php:139-149 | the first taxonomy whose label matches ignoring case, and none exactly when no label matches |
| Validation.TermIdIgnoringCaseIsFirst | src/Core/Validator.php:163-177 | the first term whose name matches ignoring case, and none exactly when none does |
| Validation.ExistingTermIdPrefersExact | src/Core/Validator.php:158-180 | a term with exactly the name wins; failing that, a term matching ignoring case; nothing exactly when no name matches ignoring case |
| Validation.GetExistingAttributeId | src/Core/Validator.php:139-149 | the label search over the registered taxonomies |
| Validation.GetExistingTermId | src/Core/Validator.php:158-180 | the term lookup over the taxonomy's terms |
| Importing.ConversionCases | src/Core/Importer.php:160-229 | a variable product is left alone, the simple, grouped and external types are converted, and every other type is refused; a converted product is variable, so converting again does nothing, and no other product changes |
| Importing.MergeTermIdsFacts | src/Core/Importer.php:436-449 | the merged term ids hold every existing and every new id and nothing else, each once, with the existing terms kept in front |
| Importing.MatchIsMapEquality | src/Core/Importer.php:707-718 | the size-and-inclusion test is equality of the two lowercased arrays as maps, so it is symmetric |
| Importing.FirstMatchIsFirst | src/Core/Importer.php:685-721 | the search finds the first listed variation that loads and matches, and finds nothing exactly when none does |
| Importing.FindVariationNeedsVariable | src/Core/Importer.php:676-681 | a product that is missing or not variable has no variation to find; a found id is among the product's variations |
| Importing.NormalizeAttributes | src/Core/Importer.php:696-704 | the lowercasing loop gives the lowercased array |
| Importing.SameAttributes | src/Core/Importer.php:707-718 | true exactly when the two arrays have the same size and every searched pair is present |
| Importing.FindVariationByAttributes | src/Core/Importer.php:676-723 | the method finds what the search function describes |
| AttributeSetup.TaxonomyFor | src/Core/Importer.php:395-402 | the taxonomy is never empty, and is `wc_attribute_taxonomy_name` of the slug whenever that is not empty |
| AttributeSetup.SetupKeepsValid | src/Core/Importer.php:366-472 | setup keeps ids positive, below the next id, and handed out in order |
| AttributeSetup.FoundIdsArePositive | src/Core/Importer.php:481-487 | every id a lookup finds is positive, so it is truthy exactly when found |
| AttributeSetup.AttributeStepAgain | src/Core/Importer.php:481-514 | getting or creating an attribute fails only when the label is unknown and creation fails; asking again finds the same id and creates nothing |
| AttributeSetup.TermStepAgain | src/Core/Importer.php:523-539 | getting or creating a term fails only when no name matches and insertion fails; asking again finds the same id and inserts nothing |
| AttributeSetup.SetupAllMapping | src/Core/Importer.php:377-460 | the mapping has one entry per product attribute, each an attribute of the index mapped to its taxonomy, with its product attribute at the same position |
| AttributeSetup.SetupAllOrder | src/Core/Importer.php:377-460 | the mapping lists its attributes in the order of the index |
| AttributeSetup.SetupAttributeMaps | src/Core/Importer.php:385-390 | one pass maps its attribute exactly when a taxonomy label matches or creation succeeds, and maps no other attribute |
| AttributeSetup.SetupAllLastMapping | src/Core/Importer.php:385-459 | the last pass adds the last attribute, with its product attribute, exactly when it is found or created, and leaves mapping and attributes alone otherwise |
| AttributeSetup.SetupAllLastSelects | src/Core/Importer.php:385-390 | the last attribute of the index is mapped exactly when it is found or created at its turn |
| AttributeSetup.SetupAllLastKeeps | src/Core/Importer.php:385-459 | the last pass leaves every other attribute mapped or not as it was |
| AttributeSetup.SetupAllKeepsMapped | src/Core/Importer.php:377-460 | whether an attribute is mapped is settled at its turn; later passes do not change it |
| AttributeSetup.SetupAllSelects | src/Core/Importer.php:385-390 | an attribute of the index is mapped exactly when, at its turn, a taxonomy label matches or creation succeeds; an attribute neither found nor created is skipped |
| AttributeSetup.SetupAllMapsEveryAttribute | src/Core/Importer.php:385-390 | when every attribute can be created, every attribute of the index is mapped, in order |
| AttributeSetup.SetupAllKeepsObjectTerms | src/Core/Importer.php:436-449 | setup never takes a term away from any product |
| AttributeSetup.SetupAllOnlyAdds | src/Core/Importer.php:366-472 | setup never removes or changes a taxonomy or a term; it only appends them |
| AttributeSetup.SetupReplacesAttributeList | src/Core/Importer.php:452-467 | afterwards the product's attribute list is exactly one entry per mapped attribute; no other product changes |
| AttributeSetup.GetOrCreateAttribute | src/Core/Importer.php:481-514 | the store does what the attribute step describes |
| AttributeSetup.GetOrCreateTerm | src/Core/Importer.php:523-539 | the store does what the term step describes |
| AttributeSetup.ResolveTermIds | src/Core/Importer.php:424-433 | the term loop on the store does what the term loop function describes |
| AttributeSetup.SetupAttributeOf | src/Core/Importer.php:377-461 | one pass of the attribute loop on the store |
| AttributeSetup.SetupLoop | src/Core/Importer.php:377-461 | the attribute loop on the store |
| AttributeSetup.SetupProductAttributes | src/Core/Importer.php:366-472 | the whole setup on the store, returning the mapping |
| ImportRun.SearchAttributesHas | src/Core/Importer.php:610-621 | the search array has a taxonomy exactly when some attribute of the row resolves to one of its terms |
| ImportRun.SearchAttributesLast | src/Core/Importer.php:610-621 | a taxonomy holds the slug of the term named by the last attribute resolving to it |
| ImportRun.SearchAttributesReadsTerms | src/Core/Importer.php:610-621 | the search array depends on the catalog only through its terms |
| ImportRun.CreateOrUpdate | src/Core/Importer.php:608-667 | the product is still there after the write; what the write changes is stated by `CreateOrUpdateWrites` |
| ImportRun.CreateOrUpdateFrame | src/Core/Importer.php:608-667 | the action reported is the row's classification, and a SKU is refused only for a row that would write; the write never removes a product and touches no taxonomy, term or term assignment |
| ImportRun.CreateOrUpdateIds | src/Core/Importer.php:636-666 | an id returned is never 0; a created variation takes the next id, only a creation uses one, and the product keeps its type |
| ImportRun.CreateOrUpdateWrites | src/Core/Importer.php:624-666 | an unchanged price writes nothing; an update sets only the found variation's regular price, and its SKU when the row gives one; a creation adds a variation with the row's price, SKU and resolved attributes; a SKU another product has stops the write, exactly when the row gives such a SKU |
| ImportRun.CreatedSkuIsTaken | src/Core/Importer.php:549-560 | after a row creates a variation with a SKU, a second row with the same SKU that would create a variation is refused and writes nothing |
| ImportRun.ImportRowsMessages | src/Core/Importer.php:300-349 | the validation reports are exactly the rows with errors, each once and in order; every other message is a refused SKU |
| ImportRun.ImportRowsAccounts | src/Core/Importer.php:300-349 | in addition, every row is either reported or listed once as created, updated or unchanged; created ids are new and in order |
| ImportRun.ImportRowAccounts | src/Core/Importer.php:302-348 | one pass: a row with errors adds its report, a clean row whose SKU is refused adds one message, any other row is listed once |
| ImportRun.ImportRowsWithoutSkus | src/Core/Importer.php:300-349 | when no row gives a SKU, the only messages are the validation reports |
| ImportRun.FlaggedRowsWriteNothing | src/Core/Importer.php:305-314 | rows with errors leave the catalog alone |
| ImportRun.ImportStopsEarly | src/Core/Importer.php:251-291 | a missing product, or one that cannot be converted, stops the import before anything is written; an attribute setup that maps nothing stops it with the one setup error, leaving the product variable with an empty attribute list and every other product as it was, so no variation is written |
| ImportRun.ImportMakesVariable | src/Core/Importer.php:261-280 | an import that goes ahead leaves the product variable, and reports a conversion exactly when it was not variable before |
| ImportRun.ImportRowsKeepsKind | src/Core/Importer.php:300-349 | the row loop never changes the product's type |
| ImportRun.ImportRowsKeepsTerms | src/Core/Importer.php:300-349 | the row loop creates no taxonomy or term |
| ImportRun.ImportSucceedsWhen | src/Core/Importer.php:352 | an import succeeds exactly when the product exists and can be made variable, at least one attribute is set up, there is a row, no row has errors, and every row was listed, so no SKU was refused |
| ImportRun.ImportWithoutSkusSucceedsWhen | src/Core/Importer.php:352 | when no row gives a SKU, an import succeeds exactly when the product can be made variable, an attribute is set up, and there are rows, none with errors |
| ImportRun.FlaggedEmpty | src/Core/Importer.php:305-314 | no row is reported exactly when no row has errors |
| ImportRun.ReimportIsUnchanged | src/Core/Importer.php:624-643 | after a row is created or updated in a variable product, importing it again finds the same variation, changes nothing and reports it unchanged |
| ImportRun.BuildSearchAttributes | src/Core/Importer.php:610-621 | the loop builds the search array |
| ImportRun.CreateVariation | src/Core/Importer.php:549-598 | a new variation with the row's price, its SKU when given, and its attributes, under the next id |
| ImportRun.CreateOrUpdateVariation | src/Core/Importer.php:608-667 | the store does what `CreateOrUpdate` describes |
| ImportRun.ConvertToVariableProduct | src/Core/Importer.php:160-229 | the store's product type changes exactly when the product is converted |
| ImportRun.ImportRowsOf | src/Core/Importer.php:300-349 | the row loop on the store |
| ImportRun.ImportConverted | src/Core/Importer.php:282-356 | the attribute setup and the row loop on the store |
| ImportRun.ImportVariations | src/Core/Importer.php:237-357 | the whole import on the store |
| Preview.Tick | src/Core/Importer.php:116-149 | counting one more adds one to exactly the heading given |
| Preview.AttributeCountsTotal | src/Core/Importer.php:73-102 | every attribute of the index is counted once |
| Preview.VariationCountsTotal | src/Core/Importer.php:116-149 | every row without errors is counted once |
| Preview.AnalyzeTotals | src/Core/Importer.php:48-152 | every distinct attribute of the rows is counted once, and every error-free row once |
| Preview.PreviewMappingLookup | src/Core/Importer.php:105-113 | every attribute of the rows is mapped to its taxonomy, and nothing else is |
| Preview.SetupMappingIsPreviewMapping | src/Core/Importer.php:105-113 | when every attribute can be created, the preview's mapping is the one the import's setup returns |
| Preview.AllPresentCounts | src/Core/Importer.php:73-102 | attributes that all exist with all their terms are all counted unchanged |
| Preview.PreviewAfterImport | src/Core/Importer.php:73-102 | when everything can be created, a preview after an import that went ahead counts every attribute unchanged |
| Preview.FindNewTerm | src/Core/Importer.php:85-94 | the inner loop stops at the first name with no term |
| Preview.CountAttributes | src/Core/Importer.php:73-102 | the attribute loop gives the attribute counts |
| Preview.BuildPreviewMapping | src/Core/Importer.php:105-113 | the loop builds the preview's mapping |
| Preview.CountVariations | src/Core/Importer.php:116-149 | the row loop gives the variation counts |
| Preview.AnalyzeVariations | src/Core/Importer.php:48-152 | the analysis the function describes, without writing |

## Left out

- Output and logging (`error_log`, `print_r`), translated message text, and the admin screens, database log and plugin bootstrap (`Admin.php`, `Database.php`, `Log_Entry.php`, `mkz-bulk-variations.php`). Error messages are datatype values.
- Exceptions and `try`/`catch`, except the `set_sku` throw on a SKU another product has, which is modelled as the `SkuInUse` outcome and the `RowSkuInUse` message: other WordPress functions that can fail are either total in the model or controlled by the `Backend` parameters.
- `Shop.SkuTaken` models `wc_product_has_unique_sku` as "no other product in the catalog has this SKU": the post statuses it ignores (trash) and the filters that can override it are not modelled.
- Saves that fail (`save()` returning 0 in `create_variation`), and so the `error` action of `create_or_update_variation`: a variation save always succeeds in the model.
- The branch of `create_or_update_variation` where a found variation cannot be loaded: the search only returns ids of variations that exist.
- `convert_to_variable_product`: the failure of `wp_set_object_terms`, the fallback when the product cannot be reloaded, and cache clearing (Importer.php lines 190-217). A conversion is a change of the product type.
- `register_taxonomy` after an attribute is created: a created attribute's taxonomy can be used at once.
- The filters of `get_available_variations` (visibility, stock): a variable product's available variations are its children.
- Collation in `get_term_by('name', …)`, modelled as exact string equality.
- The PHP float-to-string cast and `floatval`'s exponents: the cast is the `priceText` parameter, and exponents are not read.
- Floating-point rounding: prices are `real`.
- Case mapping and title casing are ASCII only.
- `str_getcsv`: quoting follows RFC 4180 section 2, with blanks in front of an opening quote skipped and text after a closing quote kept, as PHP does. The backslash escape character inside quotes and PHP's stripping of a trailing carriage return or line feed from an unquoted last field are not modelled.
- `sanitize_text_field`, `sanitize_title` and `wc_attribute_taxonomy_name` are parameters, so the model proves nothing about what they return.
- WooCommerce and WordPress hooks that the writes fire.
- Matcher.PutAll, Matcher.UnmatchedData: PHP stores an integer-like header such as `2024` under an integer key, and `array_merge` renumbers integer keys from 0. In the display row of an unmatched existing variation, such an attribute is then no longer stored under its header. The model keeps every key a string, so its display rows always carry the attribute under the header's own name.
- AttributeSetup.TermStep, Shop.AddTerm: `wp_insert_term` makes the slug unique within its taxonomy: `wp_unique_term_slug` appends `-2`, `-3`, and so on. The model stores the sanitised name as the slug unchanged. Two new values whose names sanitise to the same slug (`A+B` and `AB`) therefore share a slug in the model. Because the variation search compares slugs, a later row with the second value finds the variation created for the first, and it is updated or left unchanged where WordPress would create a second variation.
- The id discipline (`Shop.Valid`: every id in use is positive and below `nextId`) is assumed of the catalog an import starts from; WordPress's auto-increment ids give it.
