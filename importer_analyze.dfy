/**
 * `analyze_variations`: the preview shown before an import. Without
 * writing anything it counts the attributes that would be created, gain
 * terms or stay as they are, and the error-free rows that would create,
 * update or leave a variation unchanged.
 */
module Preview {
  import opened Wrappers
  import opened Seqs
  import opened Dicts
  import opened Text
  import opened Variations
  import opened Platform
  import opened Shop
  import opened Validation
  import opened Importing
  import opened AttributeSetup
  import opened ImportRun
  import Terms

  /** One `new` / `update` / `unchanged` block of the analysis. */
  datatype Counts = Counts(newCount: nat, updateCount: nat, unchangedCount: nat)

  /** The analysis: counts for the variations and for the attributes. */
  datatype Analysis = Analysis(variations: Counts, attributes: Counts)

  const NoCounts := Counts(0, 0, 0)

  function Total(k: Counts): nat {
    k.newCount + k.updateCount + k.unchangedCount
  }

  /** One more under the given heading. */
  function Tick(k: Counts, s: Status): (r: Counts)
    ensures Total(r) == Total(k) + 1
    ensures s == New ==> r.newCount == k.newCount + 1 && r.updateCount == k.updateCount && r.unchangedCount == k.unchangedCount
    ensures s == Update ==> r.newCount == k.newCount && r.updateCount == k.updateCount + 1 && r.unchangedCount == k.unchangedCount
    ensures s == Unchanged ==> r.newCount == k.newCount && r.updateCount == k.updateCount && r.unchangedCount == k.unchangedCount + 1
  {
    match s
    case New => k.(newCount := k.newCount + 1)
    case Update => k.(updateCount := k.updateCount + 1)
    case Unchanged => k.(unchangedCount := k.unchangedCount + 1)
  }

  // Attributes.

  /** Some of the names has no term id in the taxonomy yet. */
  predicate HasNewTerm(c: Catalog, taxonomy: string, names: seq<string>) {
    exists i :: 0 <= i < |names| && !Truthy(ExistingTermId(TermsOf(c, taxonomy), names[i]))
  }

  /**
   * An attribute no taxonomy is labelled with is new; an existing one is
   * updated when one of its terms is missing, and unchanged otherwise.
   */
  function AttributeStatus(c: Catalog, p: Platform, name: string, names: seq<string>): Status {
    if !Truthy(AttributeIdByLabel(c.taxonomies, name)) then New
    else if HasNewTerm(c, TaxonomyFor(p, name), names) then Update
    else Unchanged
  }

  /** The attribute counts over the attributes of the rows. */
  function AttributeCounts(c: Catalog, p: Platform, index: Dict<seq<string>>): Counts
    decreases |index|
  {
    if index == [] then NoCounts
    else
      var n := |index| - 1;
      Tick(AttributeCounts(c, p, index[..n]), AttributeStatus(c, p, index[n].0, index[n].1))
  }

  /** The attribute mapping of the preview: every attribute of the rows, to its taxonomy. */
  function PreviewMapping(p: Platform, index: Dict<seq<string>>): Dict<string>
    decreases |index|
  {
    if index == [] then []
    else
      var n := |index| - 1;
      Put(PreviewMapping(p, index[..n]), index[n].0, TaxonomyFor(p, index[n].0))
  }

  // Variations.

  /** The variation counts: each row without errors, classified against the unchanged catalog. */
  function VariationCounts(c: Catalog, productId: int, rows: seq<RowArray>, mapping: Dict<string>, p: Platform): Counts
    decreases |rows|
  {
    if rows == [] then NoCounts
    else
      var n := |rows| - 1;
      var acc := VariationCounts(c, productId, rows[..n], mapping, p);
      if rows[n].errors != [] then acc else Tick(acc, Classify(c, productId, rows[n], mapping, p))
  }

  /** `analyze_variations`: all zero when the product does not load. */
  function Analyze(c: Catalog, productId: int, rows: seq<RowArray>, p: Platform): Analysis {
    if productId !in c.products then Analysis(NoCounts, NoCounts)
    else
      var index := RowIndex(rows);
      Analysis(VariationCounts(c, productId, rows, PreviewMapping(p, index), p), AttributeCounts(c, p, index))
  }

  // What the counts add up to.

  lemma {:induction false} AttributeCountsTotal(c: Catalog, p: Platform, index: Dict<seq<string>>)
    ensures Total(AttributeCounts(c, p, index)) == |index|
    decreases |index|
  {
    if index != [] {
      AttributeCountsTotal(c, p, index[..|index| - 1]);
    }
  }

  lemma {:induction false} VariationCountsTotal(c: Catalog, productId: int, rows: seq<RowArray>, mapping: Dict<string>, p: Platform)
    ensures Total(VariationCounts(c, productId, rows, mapping, p)) == |CleanRows(rows)|
    decreases |rows|
  {
    if rows != [] {
      VariationCountsTotal(c, productId, rows[..|rows| - 1], mapping, p);
    }
  }

  /**
   * For a product that loads, every distinct attribute name of the rows is
   * counted once under the attributes, and every row without errors once
   * under the variations; rows with errors still contribute their
   * attributes.
   */
  lemma AnalyzeTotals(c: Catalog, productId: int, rows: seq<RowArray>, p: Platform)
    requires productId in c.products
    ensures Total(Analyze(c, productId, rows, p).attributes) == |Dedup(Keys(Terms.Pairs(RowAttributes(rows))))|
    ensures Total(Analyze(c, productId, rows, p).variations) == |CleanRows(rows)|
  {
    var index := RowIndex(rows);
    AttributeCountsTotal(c, p, index);
    Terms.TermIndexKeys(Terms.Pairs(RowAttributes(rows)));
    assert |Keys(index)| == |index|;
    VariationCountsTotal(c, productId, rows, PreviewMapping(p, index), p);
  }

  /** Every attribute of the rows is in the preview's mapping, with its taxonomy, and nothing else is. */
  lemma {:induction false} PreviewMappingLookup(p: Platform, index: Dict<seq<string>>, k: string)
    ensures Lookup(PreviewMapping(p, index), k) == if Lookup(index, k).Some? then Some(TaxonomyFor(p, k)) else None
    decreases |index|
  {
    if index != [] {
      var n := |index| - 1;
      var front := index[..n];
      PreviewMappingLookup(p, front, k);
      KeysFront(index);
      if index[n].0 != k {
        PutOther(PreviewMapping(p, front), index[n].0, TaxonomyFor(p, index[n].0), k);
        assert Lookup(index, k).Some? <==> Lookup(front, k).Some?;
      }
    }
  }

  /**
   * When every attribute can be created, the preview's mapping is the one
   * the import's attribute setup returns: same attributes, same taxonomies.
   */
  lemma SetupMappingIsPreviewMapping(c: Catalog, productId: int, p: Platform, b: Backend, index: Dict<seq<string>>, k: string)
    requires c.nextId >= 1 && productId in c.products
    requires forall name, slug :: b.attributeCreated(name, slug)
    ensures Lookup(Setup(c, productId, p, b, index).mapping, k) == Lookup(PreviewMapping(p, index), k)
  {
    var m := SetupAll(c, productId, p, b, index).mapping;
    SetupAllMapping(c, productId, p, b, index);
    SetupAllMapsEveryAttribute(c, productId, p, b, index);
    PreviewMappingLookup(p, index, k);
    assert HasKey(m, k) <==> HasKey(index, k);
  }

  // The preview after an import.

  /** Every creation the backend is asked for succeeds. */
  ghost predicate Creates(b: Backend) {
    && (forall name, slug :: b.attributeCreated(name, slug))
    && (forall name, taxonomy :: b.termInserted(name, taxonomy))
  }

  /** The preview finds the attribute and every one of its terms. */
  predicate Present(c: Catalog, p: Platform, name: string, names: seq<string>) {
    Truthy(AttributeIdByLabel(c.taxonomies, name)) && !HasNewTerm(c, TaxonomyFor(p, name), names)
  }

  lemma AttributeIdByLabelGrows(a: seq<AttributeTaxonomy>, b: seq<AttributeTaxonomy>, name: string)
    requires a <= b && AttributeIdByLabel(a, name).Some?
    ensures AttributeIdByLabel(b, name).Some?
  {
    AttributeIdByLabelIsFirst(a, name);
    AttributeIdByLabelIsFirst(b, name);
    var i :| 0 <= i < |a| && Lower(a[i].attributeLabel) == Lower(name);
    assert b[i] == a[i];
  }

  lemma ExistingTermIdGrows(a: seq<Term>, b: seq<Term>, name: string)
    requires a <= b && ExistingTermId(a, name).Some?
    ensures ExistingTermId(b, name).Some?
  {
    TermIdIgnoringCaseIsFirst(a, name);
    TermIdIgnoringCaseIsFirst(b, name);
    if TermByName(a, name).Some? {
      var i :| 0 <= i < |a| && a[i].name == name;
      assert b[i] == a[i];
    } else {
      var i :| 0 <= i < |a| && Lower(a[i].name) == Lower(name);
      assert b[i] == a[i];
    }
  }

  /** What the preview finds stays found while taxonomies and terms are only added. */
  lemma PresentGrows(c: Catalog, c': Catalog, p: Platform, name: string, names: seq<string>)
    requires Valid(c') && c.taxonomies <= c'.taxonomies
    requires forall t :: TermsOf(c, t) <= TermsOf(c', t)
    requires Present(c, p, name, names)
    ensures Present(c', p, name, names)
  {
    var tax := TaxonomyFor(p, name);
    AttributeIdByLabelGrows(c.taxonomies, c'.taxonomies, name);
    FoundIdsArePositive(c', tax, name);
    forall i | 0 <= i < |names| ensures Truthy(ExistingTermId(TermsOf(c', tax), names[i])) {
      assert Truthy(ExistingTermId(TermsOf(c, tax), names[i]));
      ExistingTermIdGrows(TermsOf(c, tax), TermsOf(c', tax), names[i]);
      FoundIdsArePositive(c', tax, names[i]);
    }
  }

  /** The preview reads only the taxonomies and the terms. */
  lemma PresentReadsTerms(c: Catalog, c': Catalog, p: Platform, name: string, names: seq<string>)
    requires c.taxonomies == c'.taxonomies && c.terms == c'.terms
    ensures Present(c, p, name, names) == Present(c', p, name, names)
  {
    assert TermsOf(c, TaxonomyFor(p, name)) == TermsOf(c', TaxonomyFor(p, name));
  }

  /** When insertion succeeds, a term can be found after `get_or_create_term`, and no term is lost. */
  lemma TermStepFinds(c: Catalog, b: Backend, p: Platform, taxonomy: string, name: string)
    requires Valid(c) && Creates(b)
    ensures var r := TermStep(c, b, p, taxonomy, name).0;
      TermsOf(c, taxonomy) <= TermsOf(r, taxonomy) && ExistingTermId(TermsOf(r, taxonomy), name).Some?
  {
    FoundIdsArePositive(c, taxonomy, name);
    if !Truthy(ExistingTermId(TermsOf(c, taxonomy), name)) {
      var t := Term(c.nextId, name, p.sanitizeTitle(name));
      assert TermsOf(TermStep(c, b, p, taxonomy, name).0, taxonomy) == TermsOf(c, taxonomy) + [t];
      TermByNameSnoc(TermsOf(c, taxonomy), t, name);
    }
  }

  /** When insertion succeeds, every term of the loop can be found afterwards. */
  lemma {:induction false} ResolveTermsFinds(c: Catalog, b: Backend, p: Platform, taxonomy: string, names: seq<string>)
    requires Valid(c) && Creates(b)
    ensures forall i :: 0 <= i < |names| ==> ExistingTermId(TermsOf(ResolveTerms(c, b, p, taxonomy, names).0, taxonomy), names[i]).Some?
    decreases |names|
  {
    if names != [] {
      var n := |names| - 1;
      var front := names[..n];
      ResolveTermsFinds(c, b, p, taxonomy, front);
      ResolveTermsKeepsValid(c, b, p, taxonomy, front);
      var prev := ResolveTerms(c, b, p, taxonomy, front).0;
      var next := ResolveTerms(c, b, p, taxonomy, names).0;
      assert next == TermStep(prev, b, p, taxonomy, names[n]).0;
      TermStepFinds(prev, b, p, taxonomy, names[n]);
      forall i | 0 <= i < n ensures ExistingTermId(TermsOf(next, taxonomy), names[i]).Some? {
        assert front[i] == names[i];
        ExistingTermIdGrows(TermsOf(prev, taxonomy), TermsOf(next, taxonomy), names[i]);
      }
    }
  }

  /** When every creation succeeds, one pass of the attribute loop leaves the attribute present. */
  lemma SetupAttributePresent(s: SetupState, productId: int, p: Platform, b: Backend, name: string, terms: seq<string>)
    requires Valid(s.catalog) && Creates(b)
    ensures Present(SetupAttribute(s, productId, p, b, name, terms).catalog, p, name, terms)
  {
    var c := s.catalog;
    var slug := p.sanitizeTitle(name);
    var attr := AttributeStep(c, b, name, slug);
    FoundIdsArePositive(c, "", name);
    if !Truthy(AttributeIdByLabel(c.taxonomies, name)) {
      AttributeIdByLabelSnoc(c.taxonomies, AttributeTaxonomy(c.nextId, slug, name), name);
    }
    assert AttributeIdByLabel(attr.0.taxonomies, name).Some? && Truthy(attr.1);
    var tax := TaxonomyFor(p, name);
    ResolveTermsFinds(attr.0, b, p, tax, terms);
    var resolved := ResolveTerms(attr.0, b, p, tax, terms).0;
    var r := SetupAttribute(s, productId, p, b, name, terms).catalog;
    assert r.taxonomies == attr.0.taxonomies && TermsOf(r, tax) == TermsOf(resolved, tax);
    SetupAttributeKeepsValid(s, productId, p, b, name, terms);
    FoundIdsArePositive(r, tax, name);
    forall i | 0 <= i < |terms| ensures Truthy(ExistingTermId(TermsOf(r, tax), terms[i])) {
      FoundIdsArePositive(r, tax, terms[i]);
    }
  }

  /** One pass of the attribute loop keeps every attribute present that was. */
  lemma SetupAttributeKeepsPresent(s: SetupState, productId: int, p: Platform, b: Backend, name: string, terms: seq<string>,
                                   name': string, names': seq<string>)
    requires Valid(s.catalog) && Present(s.catalog, p, name', names')
    ensures Present(SetupAttribute(s, productId, p, b, name, terms).catalog, p, name', names')
  {
    var r := SetupAttribute(s, productId, p, b, name, terms).catalog;
    SetupAttributeKeepsValid(s, productId, p, b, name, terms);
    forall t ensures TermsOf(s.catalog, t) <= TermsOf(r, t) {
      SetupAttributeOnlyAdds(s, productId, p, b, name, terms, t);
    }
    PresentGrows(s.catalog, r, p, name', names');
  }

  /** Every attribute of the index is present. */
  ghost predicate AllPresent(c: Catalog, p: Platform, index: Dict<seq<string>>) {
    forall i :: 0 <= i < |index| ==> Present(c, p, index[i].0, index[i].1)
  }

  lemma AllPresentSnoc(c: Catalog, p: Platform, index: Dict<seq<string>>)
    requires index != []
    ensures var n := |index| - 1;
      AllPresent(c, p, index) <==> AllPresent(c, p, index[..n]) && Present(c, p, index[n].0, index[n].1)
  {
    var n := |index| - 1;
    assert forall i :: 0 <= i < n ==> index[..n][i] == index[i];
  }

  /** One pass of the attribute loop keeps present the attributes that were. */
  lemma SetupAttributeKeepsAllPresent(s: SetupState, productId: int, p: Platform, b: Backend, name: string, terms: seq<string>,
                                      index: Dict<seq<string>>)
    requires Valid(s.catalog) && AllPresent(s.catalog, p, index)
    ensures AllPresent(SetupAttribute(s, productId, p, b, name, terms).catalog, p, index)
  {
    forall i | 0 <= i < |index| ensures Present(SetupAttribute(s, productId, p, b, name, terms).catalog, p, index[i].0, index[i].1) {
      SetupAttributeKeepsPresent(s, productId, p, b, name, terms, index[i].0, index[i].1);
    }
  }

  /** When every creation succeeds, the attribute loop leaves every attribute of the index present. */
  lemma {:induction false} SetupAllPresent(c: Catalog, productId: int, p: Platform, b: Backend, index: Dict<seq<string>>)
    requires Valid(c) && Creates(b)
    ensures AllPresent(SetupAll(c, productId, p, b, index).catalog, p, index)
    decreases |index|
  {
    if index != [] {
      var n := |index| - 1;
      var front := index[..n];
      SetupAllPresent(c, productId, p, b, front);
      SetupAllKeepsValid(c, productId, p, b, front);
      var s := SetupAll(c, productId, p, b, front);
      SetupAttributePresent(s, productId, p, b, index[n].0, index[n].1);
      SetupAttributeKeepsAllPresent(s, productId, p, b, index[n].0, index[n].1, front);
      AllPresentSnoc(SetupAll(c, productId, p, b, index).catalog, p, index);
    }
  }

  /** Attributes that are all present are all counted unchanged. */
  lemma {:induction false} AllPresentCounts(c: Catalog, p: Platform, index: Dict<seq<string>>)
    requires AllPresent(c, p, index)
    ensures AttributeCounts(c, p, index) == Counts(0, 0, |index|)
    decreases |index|
  {
    if index != [] {
      AllPresentSnoc(c, p, index);
      AllPresentCounts(c, p, index[..|index| - 1]);
    }
  }

  /**
   * When every attribute and term can be created, previewing the same rows
   * after an import that went ahead reports every attribute unchanged.
   */
  lemma PreviewAfterImport(c: Catalog, productId: int, rows: seq<RowArray>, p: Platform, b: Backend)
    requires Valid(c) && productId in c.products && ConversionFor(c.products[productId].kind) != Refuse
    requires Creates(b)
    ensures var after := Import(c, productId, rows, p, b).0;
      productId in after.products && Analyze(after, productId, rows, p).attributes == Counts(0, 0, |RowIndex(rows)|)
  {
    var c1 := if c.products[productId].kind == "variable" then c else SetVariable(c, productId);
    var index := RowIndex(rows);
    SetupAllPresent(c1, productId, p, b, index);
    var all := SetupAll(c1, productId, p, b, index).catalog;
    var s := Setup(c1, productId, p, b, index);
    var after := Import(c, productId, rows, p, b).0;
    if s.mapping != [] {
      ImportRowsKeepsTerms(s.catalog, productId, rows, s.mapping, p);
    }
    assert after.taxonomies == all.taxonomies && after.terms == all.terms;
    forall i | 0 <= i < |index| ensures Present(after, p, index[i].0, index[i].1) {
      PresentReadsTerms(all, after, p, index[i].0, index[i].1);
    }
    assert AllPresent(after, p, index);
    AllPresentCounts(after, p, index);
  }

  // The preview on the store.

  /** The inner loop: leaves at the first name with no term id. */
  method FindNewTerm(store: Store, taxonomy: string, names: seq<string>) returns (hasNew: bool)
    ensures hasNew == HasNewTerm(store.Value(), taxonomy, names)
  {
    var terms := if taxonomy in store.terms then store.terms[taxonomy] else [];
    hasNew := false;
    var i := 0;
    while i < |names|
      invariant 0 <= i <= |names|
      invariant forall j :: 0 <= j < i ==> Truthy(ExistingTermId(terms, names[j]))
    {
      var id := GetExistingTermId(terms, names[i]);
      if !Truthy(id) {
        hasNew := true;
        break;
      }
      i := i + 1;
    }
  }

  /** The loop over the attributes of the rows. */
  method CountAttributes(store: Store, p: Platform, index: Dict<seq<string>>) returns (k: Counts)
    ensures k == AttributeCounts(store.Value(), p, index)
  {
    k := NoCounts;
    var i := 0;
    while i < |index|
      invariant 0 <= i <= |index|
      invariant k == AttributeCounts(store.Value(), p, index[..i])
    {
      TakeStep(index, i);
      var (name, names) := index[i];
      var id := GetExistingAttributeId(store.taxonomies, name);
      if Truthy(id) {
        var hasNew := FindNewTerm(store, TaxonomyFor(p, name), names);
        k := Tick(k, if hasNew then Update else Unchanged);
      } else {
        k := Tick(k, New);
      }
      i := i + 1;
    }
    TakeAll(index);
  }

  /** The loop that builds the preview's attribute mapping. */
  method BuildPreviewMapping(p: Platform, index: Dict<seq<string>>) returns (mapping: Dict<string>)
    ensures mapping == PreviewMapping(p, index)
  {
    mapping := [];
    var i := 0;
    while i < |index|
      invariant 0 <= i <= |index|
      invariant mapping == PreviewMapping(p, index[..i])
    {
      TakeStep(index, i);
      mapping := Put(mapping, index[i].0, TaxonomyFor(p, index[i].0));
      i := i + 1;
    }
    TakeAll(index);
  }

  /** The loop over the rows, skipping those with errors. */
  method CountVariations(store: Store, productId: int, vs: seq<VariationData>, mapping: Dict<string>, p: Platform) returns (k: Counts)
    ensures k == VariationCounts(store.Value(), productId, RowsOf(vs), mapping, p)
  {
    ghost var rows := RowsOf(vs);
    k := NoCounts;
    var i := 0;
    while i < |vs|
      invariant 0 <= i <= |vs|
      invariant k == VariationCounts(store.Value(), productId, rows[..i], mapping, p)
    {
      TakeStep(rows, i);
      var r := vs[i].ToArray();
      if r.errors == [] {
        var search := BuildSearchAttributes(store, r.attributes, mapping);
        var found := FindVariationByAttributes(store, productId, search);
        if Truthy(found) {
          var current := store.products[found.value].regularPrice;
          k := Tick(k, if current == PriceString(p, r.price) then Unchanged else Update);
        } else {
          k := Tick(k, New);
        }
      }
      i := i + 1;
    }
    TakeAll(rows);
  }

  /** `analyze_variations` on the store; it writes nothing. */
  method AnalyzeVariations(store: Store, productId: int, vs: seq<VariationData>, p: Platform) returns (result: Analysis)
    ensures result == Analyze(store.Value(), productId, RowsOf(vs), p)
  {
    if productId !in store.products {
      return Analysis(NoCounts, NoCounts);
    }
    var index := Terms.UniqueTerms(vs);
    RowsOfAttributes(vs);
    var attributes := CountAttributes(store, p, index);
    var mapping := BuildPreviewMapping(p, index);
    var variations := CountVariations(store, productId, vs, mapping, p);
    return Analysis(variations, attributes);
  }
}
