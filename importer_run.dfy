/**
 * `import_variations` and `create_or_update_variation`: after conversion
 * and attribute setup, each row without validation errors either creates
 * a variation, updates the price (and SKU) of the variation with the same
 * attributes, or leaves it as it is when the price is already the same.
 * A SKU that another product already has makes `set_sku` throw before the
 * save, and the row is reported instead.
 */
module ImportRun {
  import opened Wrappers
  import opened Seqs
  import opened Dicts
  import opened Variations
  import opened Platform
  import opened Shop
  import opened Validation
  import opened Importing
  import opened AttributeSetup
  import Terms

  /** `(string) $price`: the empty string when there is no price. */
  function PriceString(p: Platform, price: Option<real>): string {
    match price
    case None => ""
    case Some(x) => p.priceText(x)
  }

  /**
   * The attributes array built for a row: each attribute that has a
   * taxonomy and a term of that name gives the term's slug, keyed by the
   * taxonomy; a later attribute on the same taxonomy overwrites.
   */
  function SearchAttributes(c: Catalog, attrs: seq<(string, string)>, mapping: Dict<string>): Dict<string>
    decreases |attrs|
  {
    if attrs == [] then []
    else
      var n := |attrs| - 1;
      var acc := SearchAttributes(c, attrs[..n], mapping);
      match Lookup(mapping, attrs[n].0)
      case None => acc
      case Some(taxonomy) =>
        match TermByName(TermsOf(c, taxonomy), attrs[n].1)
        case None => acc
        case Some(t) => Put(acc, taxonomy, t.slug)
  }

  /** A row attribute that resolves to a term of the taxonomy `k`. */
  predicate ResolvesTo(c: Catalog, a: (string, string), mapping: Dict<string>, k: string) {
    Lookup(mapping, a.0) == Some(k) && TermByName(TermsOf(c, k), a.1).Some?
  }

  /** One attribute more: it sets its taxonomy's slug when it resolves, and leaves every other entry alone. */
  lemma SearchAttributesStep(c: Catalog, attrs: seq<(string, string)>, mapping: Dict<string>, k: string)
    requires attrs != []
    ensures var n := |attrs| - 1;
      Lookup(SearchAttributes(c, attrs, mapping), k) ==
        if ResolvesTo(c, attrs[n], mapping, k) then Some(TermByName(TermsOf(c, k), attrs[n].1).value.slug)
        else Lookup(SearchAttributes(c, attrs[..n], mapping), k)
  {
    var n := |attrs| - 1;
    var acc := SearchAttributes(c, attrs[..n], mapping);
    var tax := Lookup(mapping, attrs[n].0);
    if tax.Some? && tax.value != k && TermByName(TermsOf(c, tax.value), attrs[n].1).Some? {
      PutOther(acc, tax.value, TermByName(TermsOf(c, tax.value), attrs[n].1).value.slug, k);
    }
  }

  /** An attribute that resolves to a term of a taxonomy puts that taxonomy in the search array. */
  lemma {:induction false} SearchAttributesFound(c: Catalog, attrs: seq<(string, string)>, mapping: Dict<string>, k: string, i: nat)
    requires i < |attrs| && ResolvesTo(c, attrs[i], mapping, k)
    ensures Lookup(SearchAttributes(c, attrs, mapping), k).Some?
    decreases |attrs|
  {
    var n := |attrs| - 1;
    SearchAttributesStep(c, attrs, mapping, k);
    if i < n && !ResolvesTo(c, attrs[n], mapping, k) {
      var front := attrs[..n];
      assert front[i] == attrs[i];
      SearchAttributesFound(c, front, mapping, k, i);
    }
  }

  /** Every taxonomy in the search array comes from an attribute that resolves to one of its terms. */
  lemma {:induction false} SearchAttributesOnly(c: Catalog, attrs: seq<(string, string)>, mapping: Dict<string>, k: string)
    requires HasKey(SearchAttributes(c, attrs, mapping), k)
    ensures exists i :: 0 <= i < |attrs| && ResolvesTo(c, attrs[i], mapping, k)
    decreases |attrs|
  {
    var n := |attrs| - 1;
    SearchAttributesStep(c, attrs, mapping, k);
    if !ResolvesTo(c, attrs[n], mapping, k) {
      var front := attrs[..n];
      SearchAttributesOnly(c, front, mapping, k);
      var i :| 0 <= i < n && ResolvesTo(c, front[i], mapping, k);
      assert front[i] == attrs[i];
    }
  }

  /** The search array has a taxonomy exactly when some attribute of the row resolves to a term of it. */
  lemma SearchAttributesHas(c: Catalog, attrs: seq<(string, string)>, mapping: Dict<string>, k: string)
    ensures HasKey(SearchAttributes(c, attrs, mapping), k) <==>
      exists i :: 0 <= i < |attrs| && ResolvesTo(c, attrs[i], mapping, k)
  {
    if HasKey(SearchAttributes(c, attrs, mapping), k) {
      SearchAttributesOnly(c, attrs, mapping, k);
    } else if exists i :: 0 <= i < |attrs| && ResolvesTo(c, attrs[i], mapping, k) {
      var i :| 0 <= i < |attrs| && ResolvesTo(c, attrs[i], mapping, k);
      SearchAttributesFound(c, attrs, mapping, k, i);
    }
  }

  /** The slug a taxonomy gets is that of the term named by the last attribute resolving to it. */
  lemma {:induction false} SearchAttributesLast(c: Catalog, attrs: seq<(string, string)>, mapping: Dict<string>, k: string, i: nat)
    requires i < |attrs| && ResolvesTo(c, attrs[i], mapping, k)
    requires forall j :: i < j < |attrs| ==> !ResolvesTo(c, attrs[j], mapping, k)
    ensures Lookup(SearchAttributes(c, attrs, mapping), k) == Some(TermByName(TermsOf(c, k), attrs[i].1).value.slug)
    decreases |attrs|
  {
    var n := |attrs| - 1;
    SearchAttributesStep(c, attrs, mapping, k);
    if i < n {
      var front := attrs[..n];
      assert front[i] == attrs[i];
      forall j | i < j < |front| ensures !ResolvesTo(c, front[j], mapping, k) {
        assert front[j] == attrs[j];
      }
      SearchAttributesLast(c, front, mapping, k, i);
    }
  }

  /** The search array depends on the catalog only through its terms. */
  lemma {:induction false} SearchAttributesReadsTerms(c: Catalog, c': Catalog, attrs: seq<(string, string)>, mapping: Dict<string>)
    requires c'.terms == c.terms
    ensures SearchAttributes(c', attrs, mapping) == SearchAttributes(c, attrs, mapping)
    decreases |attrs|
  {
    if attrs != [] {
      SearchAttributesReadsTerms(c, c', attrs[..|attrs| - 1], mapping);
      assert TermsOf(c', Lookup(mapping, attrs[|attrs| - 1].0).GetOr("")) == TermsOf(c, Lookup(mapping, attrs[|attrs| - 1].0).GetOr(""));
    }
  }

  /** Which of its three outcomes a row without errors has against the catalog. */
  function Classify(c: Catalog, productId: int, r: RowArray, mapping: Dict<string>, p: Platform): Status {
    var found := FindVariation(c, productId, SearchAttributes(c, r.attributes, mapping));
    if Truthy(found) then
      if c.products[found.value].regularPrice == PriceString(p, r.price) then Unchanged else Update
    else New
  }

  /**
   * What `create_or_update_variation` returns, the variation id and what
   * was done, or the SKU that made `set_sku` throw.
   */
  datatype Outcome =
    | Outcome(id: int, action: Status)
    | SkuInUse(sku: string)

  /** The SKU a row gives a variation: only a non-empty one is set. */
  function SkuToSet(r: RowArray): Option<string> {
    if HasSku(r.sku) then r.sku else None
  }

  /** `set_sku` throws on the variation `self` (0 before its first save) for the row's SKU. */
  predicate SkuRefused(c: Catalog, self: int, r: RowArray) {
    HasSku(r.sku) && SkuTaken(c, self, r.sku.value)
  }

  /**
   * `create_or_update_variation`: the variation with the row's attributes
   * keeps its price when the price strings agree, takes the new price (and
   * the SKU, when one is given) otherwise; without one, a new variation is
   * created with the row's price, SKU and attributes. A SKU some other
   * product has stops the write before the save.
   */
  function CreateOrUpdate(c: Catalog, productId: int, r: RowArray, mapping: Dict<string>, p: Platform): (res: (Catalog, Outcome))
    requires productId in c.products
    ensures productId in res.0.products
  {
    var search := SearchAttributes(c, r.attributes, mapping);
    var price := PriceString(p, r.price);
    var found := FindVariation(c, productId, search);
    if Truthy(found) then
      var id := found.value;
      if c.products[id].regularPrice == price then (c, Outcome(id, Unchanged))
      else if SkuRefused(c, id, r) then (c, SkuInUse(r.sku.value))
      else (UpdateVariation(c, id, price, SkuToSet(r)), Outcome(id, Update))
    else if SkuRefused(c, 0, r) then (c, SkuInUse(r.sku.value))
    else
      (AddVariation(c, productId, price, SkuToSet(r).GetOr(""), search), Outcome(c.nextId, New))
  }

  /**
   * The outcome is the row's classification, and a refused SKU only happens
   * to a row that would write; the write never removes a product, never
   * changes the product's type and touches no attribute taxonomy, term or
   * term assignment.
   */
  lemma CreateOrUpdateFrame(c: Catalog, productId: int, r: RowArray, mapping: Dict<string>, p: Platform)
    requires productId in c.products
    ensures var res := CreateOrUpdate(c, productId, r, mapping, p);
      && (res.1.Outcome? ==> res.1.action == Classify(c, productId, r, mapping, p))
      && (res.1.SkuInUse? ==> Classify(c, productId, r, mapping, p) != Unchanged)
      && c.products.Keys <= res.0.products.Keys
      && res.0.terms == c.terms && res.0.taxonomies == c.taxonomies && res.0.objectTerms == c.objectTerms
  {
  }

  /**
   * Over a catalog with the id discipline the write keeps it, and the id
   * returned is never 0: a created variation takes the next id, and only
   * a creation uses one up. The product itself keeps its type.
   */
  lemma CreateOrUpdateIds(c: Catalog, productId: int, r: RowArray, mapping: Dict<string>, p: Platform)
    requires Valid(c) && productId in c.products
    ensures var res := CreateOrUpdate(c, productId, r, mapping, p);
      && Valid(res.0)
      && (res.1.Outcome? ==> res.1.id != 0)
      && res.0.products[productId].kind == c.products[productId].kind
      && (Created(res.1) ==> res.1.id == c.nextId && res.0.nextId == c.nextId + 1)
      && (!Created(res.1) ==> res.0.nextId == c.nextId)
  {
  }

  predicate Created(o: Outcome) {
    o.Outcome? && o.action == New
  }

  /**
   * What the write does to the catalog: nothing when the price is the same
   * or the SKU is refused; the found variation's regular price, and its SKU
   * when the row gives one, when it is updated; a new variation with the
   * row's price, SKU and resolved attributes when none is found. The SKU is
   * refused exactly when the row gives one that a product other than the
   * variation written already has.
   */
  lemma CreateOrUpdateWrites(c: Catalog, productId: int, r: RowArray, mapping: Dict<string>, p: Platform)
    requires productId in c.products
    ensures var res := CreateOrUpdate(c, productId, r, mapping, p);
      var search := SearchAttributes(c, r.attributes, mapping);
      var found := FindVariation(c, productId, search);
      var price := PriceString(p, r.price);
      && (Classify(c, productId, r, mapping, p) == Unchanged ==> res == (c, Outcome(found.value, Unchanged)))
      && (Classify(c, productId, r, mapping, p) == Update ==>
            (res.1.SkuInUse? <==> HasSku(r.sku) && SkuTaken(c, found.value, r.sku.value)))
      && (Classify(c, productId, r, mapping, p) == New ==>
            (res.1.SkuInUse? <==> HasSku(r.sku) && SkuTaken(c, 0, r.sku.value)))
      && (res.1.SkuInUse? ==> res.0 == c && r.sku == Some(res.1.sku))
      && (res.1.Outcome? && res.1.action == Update ==>
            && res.1.id == found.value && res.1.id in c.products
            && res.0 == c.(products := c.products[res.1.id := c.products[res.1.id].(
                 regularPrice := price,
                 sku := if HasSku(r.sku) then r.sku.value else c.products[res.1.id].sku)]))
      && (Created(res.1) ==> res.0 == AddVariation(c, productId, price, SkuToSet(r).GetOr(""), search))
  {
  }

  /**
   * Once a row has created a variation with a SKU, another row with the
   * same SKU that would create a variation too is refused: the SKU is taken.
   */
  lemma CreatedSkuIsTaken(c: Catalog, productId: int, r: RowArray, r2: RowArray, mapping: Dict<string>, p: Platform)
    requires Valid(c) && productId in c.products
    requires HasSku(r.sku) && r2.sku == r.sku
    ensures var (c1, o) := CreateOrUpdate(c, productId, r, mapping, p);
      Created(o) && Classify(c1, productId, r2, mapping, p) == New ==>
        CreateOrUpdate(c1, productId, r2, mapping, p) == (c1, SkuInUse(r.sku.value))
  {
    var (c1, o) := CreateOrUpdate(c, productId, r, mapping, p);
    if Created(o) {
      AddVariationFresh(c, productId, PriceString(p, r.price), r.sku.value, SearchAttributes(c, r.attributes, mapping));
      assert c1.products[o.id].sku == r.sku.value && o.id != 0;
    }
  }

  /** An import error message, by its cause. */
  datatype ImportError =
    | ProductNotFound
    | CannotConvert(kind: string)
    | AttributeSetupFailed
    | RowHasErrors(row: int)
    | RowFailed(row: int)
    | RowSkuInUse(row: int, sku: string)

  /** The catalog and the result lists while the rows are processed. */
  datatype Tally = Tally(catalog: Catalog, createdIds: seq<int>, updatedIds: seq<int>, unchangedIds: seq<int>, errors: seq<ImportError>)

  /** One pass of the row loop. */
  function ImportRow(t: Tally, productId: int, r: RowArray, mapping: Dict<string>, p: Platform): (t': Tally)
    requires productId in t.catalog.products
    ensures productId in t'.catalog.products
  {
    if r.errors != [] then t.(errors := t.errors + [RowHasErrors(r.rowNumber)])
    else
      var res := CreateOrUpdate(t.catalog, productId, r, mapping, p);
      match res.1
      case SkuInUse(sku) => t.(catalog := res.0, errors := t.errors + [RowSkuInUse(r.rowNumber, sku)])
      case Outcome(id, action) =>
      if id == 0 then t.(catalog := res.0, errors := t.errors + [RowFailed(r.rowNumber)])
      else match action
        case New => t.(catalog := res.0, createdIds := t.createdIds + [id])
        case Update => t.(catalog := res.0, updatedIds := t.updatedIds + [id])
        case Unchanged => t.(catalog := res.0, unchangedIds := t.unchangedIds + [id])
  }

  /** The row loop of `import_variations`. */
  function ImportRows(c: Catalog, productId: int, rows: seq<RowArray>, mapping: Dict<string>, p: Platform): (t: Tally)
    requires productId in c.products
    ensures productId in t.catalog.products
    decreases |rows|
  {
    if rows == [] then Tally(c, [], [], [], [])
    else
      var n := |rows| - 1;
      ImportRow(ImportRows(c, productId, rows[..n], mapping, p), productId, rows[n], mapping, p)
  }

  /** The result array of `import_variations`. */
  datatype ImportResult = ImportResult(
    success: bool,
    createdIds: seq<int>,
    updatedIds: seq<int>,
    unchangedIds: seq<int>,
    errors: seq<ImportError>,
    converted: bool)

  /** Some variation was created, updated or found unchanged, and nothing went wrong. */
  predicate Succeeded(t: Tally) {
    (t.createdIds != [] || t.updatedIds != [] || t.unchangedIds != []) && t.errors == []
  }

  /** The attributes of each row, in order. */
  function RowAttributes(rows: seq<RowArray>): (r: seq<Dict<string>>)
    ensures |r| == |rows|
  {
    seq(|rows|, i requires 0 <= i < |rows| => rows[i].attributes)
  }

  /** `get_unique_attribute_terms` of the rows, all of them, with errors or not. */
  function RowIndex(rows: seq<RowArray>): Dict<seq<string>> {
    Terms.TermIndex(Terms.Pairs(RowAttributes(rows)))
  }

  /** A result that stopped before the rows with one error message. */
  function Stopped(e: ImportError, converted: bool): ImportResult {
    ImportResult(false, [], [], [], [e], converted)
  }

  /** `import_variations`: the catalog afterwards and the result. */
  function Import(c: Catalog, productId: int, rows: seq<RowArray>, p: Platform, b: Backend): (Catalog, ImportResult) {
    if productId !in c.products then (c, Stopped(ProductNotFound, false))
    else
      var kind := c.products[productId].kind;
      var conversion := ConversionFor(kind);
      if conversion == Refuse then (c, Stopped(CannotConvert(kind), false))
      else
        var converted := conversion == Convert;
        var c1 := if converted then SetVariable(c, productId) else c;
        ImportInto(c1, productId, rows, p, b, converted)
  }

  /** What `import_variations` does once the product is variable: the attributes, then the rows. */
  function ImportInto(c: Catalog, productId: int, rows: seq<RowArray>, p: Platform, b: Backend, converted: bool): (Catalog, ImportResult)
    requires productId in c.products
  {
    var s := Setup(c, productId, p, b, RowIndex(rows));
    if s.mapping == [] then (s.catalog, Stopped(AttributeSetupFailed, converted))
    else
      var t := ImportRows(s.catalog, productId, rows, s.mapping, p);
      (t.catalog, ImportResult(Succeeded(t), t.createdIds, t.updatedIds, t.unchangedIds, t.errors, converted))
  }

  /** The messages for the rows with validation errors, in order. */
  function Flagged(rows: seq<RowArray>): seq<ImportError>
    decreases |rows|
  {
    if rows == [] then []
    else
      var n := |rows| - 1;
      Flagged(rows[..n]) + if rows[n].errors != [] then [RowHasErrors(rows[n].rowNumber)] else []
  }

  /** The rows without validation errors, in order. */
  function CleanRows(rows: seq<RowArray>): (r: seq<RowArray>)
    ensures |r| + |Flagged(rows)| == |rows|
    decreases |rows|
  {
    if rows == [] then []
    else
      var n := |rows| - 1;
      CleanRows(rows[..n]) + if rows[n].errors == [] then [rows[n]] else []
  }

  /** The validation messages among the errors, in order. */
  function ValidationErrors(es: seq<ImportError>): seq<ImportError>
    decreases |es|
  {
    if es == [] then []
    else
      var n := |es| - 1;
      ValidationErrors(es[..n]) + if es[n].RowHasErrors? then [es[n]] else []
  }

  /** A message the row loop can give over a catalog with the id discipline. */
  predicate RowLoopError(e: ImportError) {
    e.RowHasErrors? || e.RowSkuInUse?
  }

  /**
   * The messages of the row loop: the rows with validation errors are
   * reported once each and in order; every other message is a row whose
   * SKU is taken.
   */
  lemma {:induction false} ImportRowsMessages(c: Catalog, productId: int, rows: seq<RowArray>, mapping: Dict<string>, p: Platform)
    requires Valid(c) && productId in c.products
    ensures var t := ImportRows(c, productId, rows, mapping, p);
      && Valid(t.catalog)
      && ValidationErrors(t.errors) == Flagged(rows)
      && (forall i :: 0 <= i < |t.errors| ==> RowLoopError(t.errors[i]))
    decreases |rows|
  {
    if rows != [] {
      var n := |rows| - 1;
      var t := ImportRows(c, productId, rows[..n], mapping, p);
      ImportRowsMessages(c, productId, rows[..n], mapping, p);
      ImportRowAccounts(t, productId, rows[n], mapping, p);
      var t' := ImportRows(c, productId, rows, mapping, p);
      assert t' == ImportRow(t, productId, rows[n], mapping, p);
      var o := CreateOrUpdate(t.catalog, productId, rows[n], mapping, p).1;
      var added := if rows[n].errors != [] then [RowHasErrors(rows[n].rowNumber)]
        else if o.SkuInUse? then [RowSkuInUse(rows[n].rowNumber, o.sku)] else [];
      assert t'.errors == t.errors + added;
      ValidationErrorsAppend(t.errors, added);
      assert forall i :: 0 <= i < |t'.errors| ==> RowLoopError(t'.errors[i]) by {
        forall i | 0 <= i < |t'.errors| ensures RowLoopError(t'.errors[i]) {
          if i >= |t.errors| {
            assert t'.errors[i] == added[i - |t.errors|];
          }
        }
      }
    }
  }

  /**
   * The row loop accounts for every row: each one is reported or listed once
   * as created, updated or unchanged, and the created ids are new and in order.
   */
  lemma {:induction false} ImportRowsAccounts(c: Catalog, productId: int, rows: seq<RowArray>, mapping: Dict<string>, p: Platform)
    requires Valid(c) && productId in c.products
    ensures var t := ImportRows(c, productId, rows, mapping, p);
      && Valid(t.catalog)
      && ValidationErrors(t.errors) == Flagged(rows)
      && (forall i :: 0 <= i < |t.errors| ==> RowLoopError(t.errors[i]))
      && |t.createdIds| + |t.updatedIds| + |t.unchangedIds| + |t.errors| == |rows|
      && t.catalog.nextId == c.nextId + |t.createdIds|
      && (forall i :: 0 <= i < |t.createdIds| ==> t.createdIds[i] == c.nextId + i)
    decreases |rows|
  {
    ImportRowsMessages(c, productId, rows, mapping, p);
    if rows != [] {
      var n := |rows| - 1;
      var t := ImportRows(c, productId, rows[..n], mapping, p);
      ImportRowsAccounts(c, productId, rows[..n], mapping, p);
      ImportRowAccounts(t, productId, rows[n], mapping, p);
      var t' := ImportRows(c, productId, rows, mapping, p);
      assert t' == ImportRow(t, productId, rows[n], mapping, p);
    }
  }

  /** When no row gives a SKU, the only messages of the row loop are the validation ones. */
  lemma {:induction false} ImportRowsWithoutSkus(c: Catalog, productId: int, rows: seq<RowArray>, mapping: Dict<string>, p: Platform)
    requires Valid(c) && productId in c.products
    requires forall i :: 0 <= i < |rows| ==> !HasSku(rows[i].sku)
    ensures ImportRows(c, productId, rows, mapping, p).errors == Flagged(rows)
    decreases |rows|
  {
    if rows != [] {
      var n := |rows| - 1;
      assert forall i :: 0 <= i < n ==> !HasSku(rows[..n][i].sku);
      ImportRowsWithoutSkus(c, productId, rows[..n], mapping, p);
      var t := ImportRows(c, productId, rows[..n], mapping, p);
      assert Valid(t.catalog) by {
        ImportRowsAccounts(c, productId, rows[..n], mapping, p);
      }
      ImportRowAccounts(t, productId, rows[n], mapping, p);
    }
  }

  /** The validation messages of a longer list are those of its parts. */
  lemma ValidationErrorsAppend(es: seq<ImportError>, added: seq<ImportError>)
    requires |added| <= 1
    ensures ValidationErrors(es + added) == ValidationErrors(es) + ValidationErrors(added)
  {
    if added != [] {
      assert (es + added)[..|es|] == es;
      assert added[..0] == [];
    } else {
      assert es + added == es;
    }
  }

  /** One pass of the row loop, accounted for. */
  lemma ImportRowAccounts(t: Tally, productId: int, r: RowArray, mapping: Dict<string>, p: Platform)
    requires Valid(t.catalog) && productId in t.catalog.products
    ensures var t' := ImportRow(t, productId, r, mapping, p);
      var o := CreateOrUpdate(t.catalog, productId, r, mapping, p).1;
      && Valid(t'.catalog)
      && t'.errors == t.errors +
           (if r.errors != [] then [RowHasErrors(r.rowNumber)]
            else if o.SkuInUse? then [RowSkuInUse(r.rowNumber, o.sku)]
            else [])
      && |t'.createdIds| + |t'.updatedIds| + |t'.unchangedIds| ==
         |t.createdIds| + |t.updatedIds| + |t.unchangedIds| + (if r.errors == [] && o.Outcome? then 1 else 0)
      && (o.SkuInUse? ==> HasSku(r.sku))
      && (t'.createdIds == t.createdIds || t'.createdIds == t.createdIds + [t.catalog.nextId])
      && t'.catalog.nextId == t.catalog.nextId + (|t'.createdIds| - |t.createdIds|)
  {
    if r.errors == [] {
      CreateOrUpdateIds(t.catalog, productId, r, mapping, p);
    }
  }

  /** What a row does to the catalog does not depend on the result lists. */
  lemma ImportRowCatalog(t: Tally, t': Tally, productId: int, r: RowArray, mapping: Dict<string>, p: Platform)
    requires productId in t.catalog.products && t'.catalog == t.catalog
    ensures ImportRow(t, productId, r, mapping, p).catalog == ImportRow(t', productId, r, mapping, p).catalog
  {
  }

  /** Rows with validation errors leave the catalog alone: importing only the others gives the same catalog. */
  lemma {:induction false} FlaggedRowsWriteNothing(c: Catalog, productId: int, rows: seq<RowArray>, mapping: Dict<string>, p: Platform)
    requires productId in c.products
    ensures ImportRows(c, productId, rows, mapping, p).catalog == ImportRows(c, productId, CleanRows(rows), mapping, p).catalog
    decreases |rows|
  {
    if rows != [] {
      var n := |rows| - 1;
      FlaggedRowsWriteNothing(c, productId, rows[..n], mapping, p);
      var clean := CleanRows(rows[..n]);
      if rows[n].errors == [] {
        assert (clean + [rows[n]])[..|clean|] == clean;
        ImportRowCatalog(ImportRows(c, productId, rows[..n], mapping, p), ImportRows(c, productId, clean, mapping, p),
          productId, rows[n], mapping, p);
      } else {
        assert CleanRows(rows) == clean;
      }
    }
  }

  /**
   * A product that is missing or cannot be converted stops the import before
   * anything is written. An attribute setup that maps nothing stops it with
   * the one setup error: the product is left variable with an empty
   * attribute list, and no product, variation or not, is otherwise changed.
   */
  lemma ImportStopsEarly(c: Catalog, productId: int, rows: seq<RowArray>, p: Platform, b: Backend)
    ensures productId !in c.products ==> Import(c, productId, rows, p, b) == (c, Stopped(ProductNotFound, false))
    ensures productId in c.products && ConversionFor(c.products[productId].kind) == Refuse ==>
      Import(c, productId, rows, p, b) == (c, Stopped(CannotConvert(c.products[productId].kind), false))
    ensures productId in c.products && ConversionFor(c.products[productId].kind) != Refuse ==>
      var kind := c.products[productId].kind;
      var c1 := if kind == "variable" then c else SetVariable(c, productId);
      var s := Setup(c1, productId, p, b, RowIndex(rows));
      var r := Import(c, productId, rows, p, b);
      s.mapping == [] ==>
        && r == (s.catalog, Stopped(AttributeSetupFailed, kind != "variable"))
        && r.0.products[productId] == c.products[productId].(kind := "variable", productAttributes := [])
        && (forall id :: id in c.products && id != productId ==> r.0.products[id] == c.products[id])
  {
    if productId in c.products && ConversionFor(c.products[productId].kind) != Refuse {
      var kind := c.products[productId].kind;
      var c1 := if kind == "variable" then c else SetVariable(c, productId);
      SetupReplacesAttributeList(c1, productId, p, b, RowIndex(rows));
    }
  }

  /** Over a catalog with the id discipline, an import that goes ahead leaves the product variable. */
  lemma ImportMakesVariable(c: Catalog, productId: int, rows: seq<RowArray>, p: Platform, b: Backend)
    requires Valid(c) && productId in c.products && ConversionFor(c.products[productId].kind) != Refuse
    ensures var r := Import(c, productId, rows, p, b);
      r.1.converted == (c.products[productId].kind != "variable") &&
      r.0.products[productId].kind == "variable"
  {
    if productId in c.products && ConversionFor(c.products[productId].kind) != Refuse {
      var c1 := if ConversionFor(c.products[productId].kind) == Convert then SetVariable(c, productId) else c;
      var s := Setup(c1, productId, p, b, RowIndex(rows));
      SetupReplacesAttributeList(c1, productId, p, b, RowIndex(rows));
      SetupKeepsValid(c1, productId, p, b, RowIndex(rows));
      if s.mapping != [] {
        ImportRowsKeepsKind(s.catalog, productId, rows, s.mapping, p);
      }
    }
  }

  /** Rows never change the type of the product they are imported into. */
  lemma {:induction false} ImportRowsKeepsKind(c: Catalog, productId: int, rows: seq<RowArray>, mapping: Dict<string>, p: Platform)
    requires Valid(c) && productId in c.products
    ensures ImportRows(c, productId, rows, mapping, p).catalog.products[productId].kind == c.products[productId].kind
    decreases |rows|
  {
    if rows != [] {
      var n := |rows| - 1;
      ImportRowsKeepsKind(c, productId, rows[..n], mapping, p);
      var t := ImportRows(c, productId, rows[..n], mapping, p);
      assert Valid(t.catalog) by {
        ImportRowsAccounts(c, productId, rows[..n], mapping, p);
      }
      if rows[n].errors == [] {
        CreateOrUpdateIds(t.catalog, productId, rows[n], mapping, p);
      }
    }
  }

  /** The row loop creates no attribute taxonomy or term. */
  lemma {:induction false} ImportRowsKeepsTerms(c: Catalog, productId: int, rows: seq<RowArray>, mapping: Dict<string>, p: Platform)
    requires productId in c.products
    ensures var r := ImportRows(c, productId, rows, mapping, p).catalog;
      r.taxonomies == c.taxonomies && r.terms == c.terms
    decreases |rows|
  {
    if rows != [] {
      var n := |rows| - 1;
      ImportRowsKeepsTerms(c, productId, rows[..n], mapping, p);
      var t := ImportRows(c, productId, rows[..n], mapping, p);
      if rows[n].errors == [] {
        CreateOrUpdateFrame(t.catalog, productId, rows[n], mapping, p);
      }
    }
  }

  /**
   * Over a catalog with the id discipline, an import succeeds exactly when
   * the product exists and can be made variable, at least one attribute
   * could be set up, there is at least one row, no row has errors, and
   * every row was created, updated or found unchanged, that is no row's
   * SKU was refused.
   */
  lemma ImportSucceedsWhen(c: Catalog, productId: int, rows: seq<RowArray>, p: Platform, b: Backend)
    requires Valid(c)
    ensures var r := Import(c, productId, rows, p, b).1;
      r.success <==>
      && productId in c.products
      && ConversionFor(c.products[productId].kind) != Refuse
      && Setup(if c.products[productId].kind == "variable" then c else SetVariable(c, productId), productId, p, b, RowIndex(rows)).mapping != []
      && rows != []
      && (forall i :: 0 <= i < |rows| ==> rows[i].errors == [])
      && |r.createdIds| + |r.updatedIds| + |r.unchangedIds| == |rows|
  {
    if productId in c.products && ConversionFor(c.products[productId].kind) != Refuse {
      var c1 := if c.products[productId].kind == "variable" then c else SetVariable(c, productId);
      var s := Setup(c1, productId, p, b, RowIndex(rows));
      SetupKeepsValid(c1, productId, p, b, RowIndex(rows));
      if s.mapping != [] {
        ImportRowsAccounts(s.catalog, productId, rows, s.mapping, p);
        FlaggedEmpty(rows);
        var t := ImportRows(s.catalog, productId, rows, s.mapping, p);
        if t.errors == [] {
          assert Flagged(rows) == [];
        }
      }
    }
  }

  /**
   * When no row gives a SKU nothing can be refused, and an import succeeds
   * exactly when the product can be made variable, an attribute is set up,
   * and there are rows, none with errors.
   */
  lemma ImportWithoutSkusSucceedsWhen(c: Catalog, productId: int, rows: seq<RowArray>, p: Platform, b: Backend)
    requires Valid(c)
    requires forall i :: 0 <= i < |rows| ==> !HasSku(rows[i].sku)
    ensures Import(c, productId, rows, p, b).1.success <==>
      && productId in c.products
      && ConversionFor(c.products[productId].kind) != Refuse
      && Setup(if c.products[productId].kind == "variable" then c else SetVariable(c, productId), productId, p, b, RowIndex(rows)).mapping != []
      && rows != []
      && (forall i :: 0 <= i < |rows| ==> rows[i].errors == [])
  {
    if productId in c.products && ConversionFor(c.products[productId].kind) != Refuse {
      var c1 := if c.products[productId].kind == "variable" then c else SetVariable(c, productId);
      var s := Setup(c1, productId, p, b, RowIndex(rows));
      SetupKeepsValid(c1, productId, p, b, RowIndex(rows));
      if s.mapping != [] {
        ImportRowsAccounts(s.catalog, productId, rows, s.mapping, p);
        ImportRowsWithoutSkus(s.catalog, productId, rows, s.mapping, p);
        FlaggedEmpty(rows);
      }
    }
  }

  /** No row is reported exactly when no row has errors, and then every row is clean. */
  lemma {:induction false} FlaggedEmpty(rows: seq<RowArray>)
    ensures Flagged(rows) == [] <==> forall i :: 0 <= i < |rows| ==> rows[i].errors == []
    ensures Flagged(rows) == [] ==> CleanRows(rows) == rows
    decreases |rows|
  {
    if rows != [] {
      var n := |rows| - 1;
      var front := rows[..n];
      FlaggedEmpty(front);
      assert |Flagged(rows)| == |Flagged(front)| + (if rows[n].errors != [] then 1 else 0);
      if forall i :: 0 <= i < |rows| ==> rows[i].errors == [] {
        assert forall i :: 0 <= i < n ==> front[i].errors == [] by {
          forall i | 0 <= i < n ensures front[i].errors == [] {
            assert front[i] == rows[i];
          }
        }
        assert CleanRows(rows) == front + [rows[n]];
        assert front + [rows[n]] == rows;
      }
    }
  }

  // The search over the variations after a write.

  lemma {:induction false} FirstMatchAppend(c: Catalog, a: seq<int>, b: seq<int>, search: Dict<string>)
    ensures FirstMatch(c, a + b, search) == if FirstMatch(c, a, search).Some? then FirstMatch(c, a, search) else FirstMatch(c, b, search)
    decreases |a|
  {
    if a != [] {
      assert (a + b)[0] == a[0] && (a + b)[1..] == a[1..] + b;
      FirstMatchAppend(c, a[1..], b, search);
    } else {
      assert a + b == b;
    }
  }

  /** The search only looks at which ids exist and at their attributes. */
  lemma {:induction false} FirstMatchReadsAttributes(c: Catalog, c': Catalog, ids: seq<int>, search: Dict<string>)
    requires forall i :: 0 <= i < |ids| ==> (ids[i] in c.products <==> ids[i] in c'.products)
    requires forall i :: 0 <= i < |ids| && ids[i] in c.products ==> c'.products[ids[i]].attributes == c.products[ids[i]].attributes
    ensures FirstMatch(c', ids, search) == FirstMatch(c, ids, search)
    decreases |ids|
  {
    if ids != [] {
      assert forall i :: 0 <= i < |ids| - 1 ==> ids[1..][i] == ids[i + 1];
      FirstMatchReadsAttributes(c, c', ids[1..], search);
    }
  }

  /** Any attribute array matches itself. */
  lemma MatchReflexive(a: Dict<string>)
    ensures AttributesMatch(a, a)
  {
  }

  /**
   * After a row is imported into a variable product, the variation it
   * names is the one the search finds and carries the row's price, so
   * importing the same row again changes nothing and reports it unchanged.
   */
  lemma ReimportIsUnchanged(c: Catalog, productId: int, r: RowArray, mapping: Dict<string>, p: Platform)
    requires Valid(c) && productId in c.products && c.products[productId].kind == "variable"
    ensures var (c1, o) := CreateOrUpdate(c, productId, r, mapping, p);
      o.Outcome? ==>
      && FindVariation(c1, productId, SearchAttributes(c1, r.attributes, mapping)) == Some(o.id)
      && c1.products[o.id].regularPrice == PriceString(p, r.price)
      && CreateOrUpdate(c1, productId, r, mapping, p) == (c1, Outcome(o.id, Unchanged))
  {
    var search := SearchAttributes(c, r.attributes, mapping);
    var found := FindVariation(c, productId, search);
    var (c1, o) := CreateOrUpdate(c, productId, r, mapping, p);
    SearchAttributesReadsTerms(c, c1, r.attributes, mapping);
    var children := c.products[productId].children;
    if o.SkuInUse? {
    } else if Truthy(found) {
      FirstMatchReadsAttributes(c, c1, children, search);
    } else {
      assert found == None;
      var n := c.nextId;
      forall i | 0 <= i < |children| ensures children[i] in c.products <==> children[i] in c1.products {
        assert children[i] < n;
      }
      FirstMatchReadsAttributes(c, c1, children, search);
      FirstMatchAppend(c1, children, [n], search);
      MatchReflexive(search);
      assert c1.products[productId].children == children + [n];
    }
  }

  /** `import_variations` over rows read from the row objects. */
  function RowsOf(vs: seq<VariationData>): (r: seq<RowArray>)
    reads vs
    ensures |r| == |vs|
  {
    seq(|vs|, i requires 0 <= i < |vs| reads vs => vs[i].ToArray())
  }

  /** The row objects' attributes are the attributes of their rows. */
  lemma RowsOfAttributes(vs: seq<VariationData>)
    ensures Terms.AttributesOf(vs) == RowAttributes(RowsOf(vs))
  {
  }

  /** The loop over a row's attributes that builds the search array. */
  method BuildSearchAttributes(store: Store, attrs: seq<(string, string)>, mapping: Dict<string>) returns (search: Dict<string>)
    ensures search == SearchAttributes(store.Value(), attrs, mapping)
  {
    search := [];
    var i := 0;
    while i < |attrs|
      invariant 0 <= i <= |attrs|
      invariant search == SearchAttributes(store.Value(), attrs[..i], mapping)
    {
      TakeStep(attrs, i);
      var (name, value) := attrs[i];
      var taxonomy := Lookup(mapping, name);
      if taxonomy.Some? {
        var terms := if taxonomy.value in store.terms then store.terms[taxonomy.value] else [];
        var term := TermByName(terms, value);
        if term.Some? {
          search := Put(search, taxonomy.value, term.value.slug);
        }
      }
      i := i + 1;
    }
    TakeAll(attrs);
  }

  /** `create_variation`: a published variation with the row's price, SKU when given, and attributes. */
  method CreateVariation(store: Store, productId: int, r: RowArray, mapping: Dict<string>, p: Platform) returns (id: int)
    requires productId in store.products
    modifies store
    ensures id == old(store.nextId)
    ensures store.Value() == AddVariation(old(store.Value()), productId, PriceString(p, r.price), SkuToSet(r).GetOr(""),
      SearchAttributes(old(store.Value()), r.attributes, mapping))
  {
    var sku := "";
    if HasSku(r.sku) {
      sku := r.sku.value;
    }
    var attributes := BuildSearchAttributes(store, r.attributes, mapping);
    id := store.CreateVariation(productId, PriceString(p, r.price), sku, attributes);
  }

  /** `create_or_update_variation` on the store. */
  method CreateOrUpdateVariation(store: Store, productId: int, r: RowArray, mapping: Dict<string>, p: Platform) returns (o: Outcome)
    requires productId in store.products
    modifies store
    ensures (store.Value(), o) == CreateOrUpdate(old(store.Value()), productId, r, mapping, p)
  {
    var search := BuildSearchAttributes(store, r.attributes, mapping);
    var found := FindVariationByAttributes(store, productId, search);
    if Truthy(found) {
      var id := found.value;
      var price := PriceString(p, r.price);
      if store.products[id].regularPrice == price {
        return Outcome(id, Unchanged);
      }
      if SkuRefused(store.Value(), id, r) {
        return SkuInUse(r.sku.value);
      }
      store.SaveVariation(id, price, SkuToSet(r));
      return Outcome(id, Update);
    }
    if SkuRefused(store.Value(), 0, r) {
      return SkuInUse(r.sku.value);
    }
    var id := CreateVariation(store, productId, r, mapping, p);
    return Outcome(id, New);
  }

  /** `convert_to_variable_product` on the store: what it decided, with the type changed when it converts. */
  method ConvertToVariableProduct(store: Store, productId: int) returns (conversion: Conversion)
    requires productId in store.products
    modifies store
    ensures conversion == ConversionFor(old(store.products[productId].kind))
    ensures store.Value() == if conversion == Convert then SetVariable(old(store.Value()), productId) else old(store.Value())
  {
    conversion := ConversionFor(store.products[productId].kind);
    if conversion == Convert {
      store.MakeVariable(productId);
    }
  }

  /** The row loop of `import_variations` on the store. */
  method ImportRowsOf(store: Store, productId: int, vs: seq<VariationData>, mapping: Dict<string>, p: Platform) returns (t: Tally)
    requires productId in store.products
    modifies store
    ensures t == ImportRows(old(store.Value()), productId, RowsOf(vs), mapping, p)
    ensures store.Value() == t.catalog
  {
    ghost var c0 := store.Value();
    ghost var rows := RowsOf(vs);
    t := Tally(store.Value(), [], [], [], []);
    var i := 0;
    while i < |vs|
      invariant 0 <= i <= |vs|
      invariant RowsOf(vs) == rows
      invariant t == ImportRows(c0, productId, rows[..i], mapping, p) && store.Value() == t.catalog
    {
      TakeStep(rows, i);
      var r := vs[i].ToArray();
      if r.errors != [] {
        t := t.(errors := t.errors + [RowHasErrors(r.rowNumber)]);
      } else {
        var o := CreateOrUpdateVariation(store, productId, r, mapping, p);
        if o.SkuInUse? {
          t := t.(catalog := store.Value(), errors := t.errors + [RowSkuInUse(r.rowNumber, o.sku)]);
        } else if o.id == 0 {
          t := t.(catalog := store.Value(), errors := t.errors + [RowFailed(r.rowNumber)]);
        } else if o.action == New {
          t := t.(catalog := store.Value(), createdIds := t.createdIds + [o.id]);
        } else if o.action == Update {
          t := t.(catalog := store.Value(), updatedIds := t.updatedIds + [o.id]);
        } else {
          t := t.(catalog := store.Value(), unchangedIds := t.unchangedIds + [o.id]);
        }
      }
      i := i + 1;
    }
    TakeAll(rows);
  }

  /** The attribute setup and the row loop of `import_variations` on the store. */
  method ImportConverted(store: Store, productId: int, vs: seq<VariationData>, p: Platform, b: Backend, converted: bool) returns (result: ImportResult)
    requires productId in store.products
    modifies store
    ensures (store.Value(), result) == ImportInto(old(store.Value()), productId, RowsOf(vs), p, b, converted)
  {
    ghost var rows := RowsOf(vs);
    RowsOfAttributes(vs);
    var mapping := SetupProductAttributes(store, productId, vs, p, b);
    assert RowsOf(vs) == rows;
    if mapping == [] {
      return Stopped(AttributeSetupFailed, converted);
    }
    var t := ImportRowsOf(store, productId, vs, mapping, p);
    assert RowsOf(vs) == rows;
    return ImportResult(Succeeded(t), t.createdIds, t.updatedIds, t.unchangedIds, t.errors, converted);
  }

  /** `import_variations` on the store. */
  method ImportVariations(store: Store, productId: int, vs: seq<VariationData>, p: Platform, b: Backend) returns (result: ImportResult)
    modifies store
    ensures (store.Value(), result) == Import(old(store.Value()), productId, RowsOf(vs), p, b)
  {
    if productId !in store.products {
      return Stopped(ProductNotFound, false);
    }
    var conversion := ConvertToVariableProduct(store, productId);
    if conversion == Refuse {
      return Stopped(CannotConvert(store.products[productId].kind), false);
    }
    result := ImportConverted(store, productId, vs, p, b, conversion == Convert);
  }
}
