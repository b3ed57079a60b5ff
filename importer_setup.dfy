/**
 * `setup_product_attributes` and its helpers: before any variation is
 * written, every attribute named by the rows gets a taxonomy (found by its
 * label, or created), every value a term (found by name, or inserted), the
 * product is assigned the terms on top of those it already had, and its
 * attribute list is replaced by one entry per attribute that could be set
 * up. The result maps each such attribute name to its taxonomy.
 */
module AttributeSetup {
  import opened Wrappers
  import opened Seqs
  import opened Dicts
  import opened Text
  import opened Variations
  import opened Platform
  import opened Shop
  import opened Validation
  import opened Importing
  import Terms

  /** The outcome of the WooCommerce writes that can fail, as given. */
  datatype Backend = Backend(
    /** `wc_create_attribute` with this name and slug returns an id, not an error. */
    attributeCreated: (string, string) -> bool,
    /** `wp_insert_term` of this name into this taxonomy returns a term, not an error. */
    termInserted: (string, string) -> bool)

  /** PHP truthiness of a looked-up id: found, and not 0. */
  predicate Truthy(id: Option<int>) {
    id.Some? && id.value != 0
  }

  /** The taxonomy of an attribute: `wc_attribute_taxonomy_name` of its slug, or `pa_` and the slug when that is empty. */
  function TaxonomyFor(p: Platform, name: string): (r: string)
    ensures !IsPhpEmpty(r)
    ensures !IsPhpEmpty(p.taxonomyName(p.sanitizeTitle(name))) ==> r == p.taxonomyName(p.sanitizeTitle(name))
  {
    var slug := p.sanitizeTitle(name);
    var t := p.taxonomyName(slug);
    if IsPhpEmpty(t) then "pa_" + slug else t
  }

  /** `get_or_create_attribute`: the catalog afterwards and the id, `None` when creation failed. */
  function AttributeStep(c: Catalog, b: Backend, name: string, slug: string): (r: (Catalog, Option<int>))
  {
    var found := AttributeIdByLabel(c.taxonomies, name);
    if Truthy(found) then (c, found)
    else if b.attributeCreated(name, slug) then (AddTaxonomy(c, slug, name), Some(c.nextId))
    else (c, None)
  }

  /** `get_or_create_term`: the catalog afterwards and the term id, `None` when insertion failed. */
  function TermStep(c: Catalog, b: Backend, p: Platform, taxonomy: string, name: string): (r: (Catalog, Option<int>))
  {
    var found := ExistingTermId(TermsOf(c, taxonomy), name);
    if Truthy(found) then (c, found)
    else if b.termInserted(name, taxonomy) then (Shop.AddTerm(c, taxonomy, name, p.sanitizeTitle(name)), Some(c.nextId))
    else (c, None)
  }

  /** The term loop: the catalog afterwards and the ids of the terms found or created, in order. */
  function ResolveTerms(c: Catalog, b: Backend, p: Platform, taxonomy: string, names: seq<string>): (r: (Catalog, seq<int>))
    ensures r.0.products == c.products && r.0.objectTerms == c.objectTerms && r.0.taxonomies == c.taxonomies
    ensures r.0.nextId >= c.nextId
    decreases |names|
  {
    if names == [] then (c, [])
    else
      var n := |names| - 1;
      var prev := ResolveTerms(c, b, p, taxonomy, names[..n]);
      var step := TermStep(prev.0, b, p, taxonomy, names[n]);
      (step.0, if Truthy(step.1) then prev.1 + [step.1.value] else prev.1)
  }

  /** What the attribute loop has built so far. */
  datatype SetupState = SetupState(catalog: Catalog, attributes: seq<ProductAttribute>, mapping: Dict<string>)

  /**
   * One pass of the attribute loop: skip the attribute when it can be
   * neither found nor created; otherwise resolve its terms, assign the
   * merged term list to the product and record the attribute.
   */
  function SetupAttribute(s: SetupState, productId: int, p: Platform, b: Backend, name: string, terms: seq<string>): (r: SetupState)
    ensures r.catalog.products == s.catalog.products
    ensures r.catalog.nextId >= s.catalog.nextId
  {
    var attr := AttributeStep(s.catalog, b, name, p.sanitizeTitle(name));
    if !Truthy(attr.1) then s.(catalog := attr.0)
    else
      var taxonomy := TaxonomyFor(p, name);
      var resolved := ResolveTerms(attr.0, b, p, taxonomy, terms);
      var all := MergeTermIds(ObjectTermsOf(resolved.0, productId, taxonomy), resolved.1);
      SetupState(
        SetObjectTerms(resolved.0, productId, taxonomy, all),
        s.attributes + [ProductAttribute(attr.1.value, taxonomy, all)],
        Put(s.mapping, name, taxonomy))
  }

  /** The attribute loop over the index of attribute names and their values. */
  function SetupAll(c: Catalog, productId: int, p: Platform, b: Backend, index: Dict<seq<string>>): (r: SetupState)
    ensures r.catalog.products == c.products
    ensures r.catalog.nextId >= c.nextId
    decreases |index|
  {
    if index == [] then SetupState(c, [], [])
    else
      var n := |index| - 1;
      SetupAttribute(SetupAll(c, productId, p, b, index[..n]), productId, p, b, index[n].0, index[n].1)
  }

  /** `setup_product_attributes`: the loop, then the product's attribute list replaced and saved. */
  function Setup(c: Catalog, productId: int, p: Platform, b: Backend, index: Dict<seq<string>>): (r: SetupState)
    requires productId in c.products
    ensures productId in r.catalog.products && r.catalog.products.Keys == c.products.Keys
  {
    var s := SetupAll(c, productId, p, b, index);
    s.(catalog := SetProductAttributes(s.catalog, productId, s.attributes))
  }

  /** The term loop keeps the id discipline. */
  lemma {:induction false} ResolveTermsKeepsValid(c: Catalog, b: Backend, p: Platform, taxonomy: string, names: seq<string>)
    requires Valid(c)
    ensures Valid(ResolveTerms(c, b, p, taxonomy, names).0)
    decreases |names|
  {
    if names != [] {
      ResolveTermsKeepsValid(c, b, p, taxonomy, names[..|names| - 1]);
    }
  }

  lemma SetupAttributeKeepsValid(s: SetupState, productId: int, p: Platform, b: Backend, name: string, terms: seq<string>)
    requires Valid(s.catalog)
    ensures Valid(SetupAttribute(s, productId, p, b, name, terms).catalog)
  {
    var attr := AttributeStep(s.catalog, b, name, p.sanitizeTitle(name));
    assert Valid(attr.0);
    if Truthy(attr.1) {
      var taxonomy := TaxonomyFor(p, name);
      ResolveTermsKeepsValid(attr.0, b, p, taxonomy, terms);
      var resolved := ResolveTerms(attr.0, b, p, taxonomy, terms);
      var all := MergeTermIds(ObjectTermsOf(resolved.0, productId, taxonomy), resolved.1);
      assert Valid(SetObjectTerms(resolved.0, productId, taxonomy, all));
    }
  }

  /** Setting up attributes keeps the id discipline. */
  lemma {:induction false} SetupAllKeepsValid(c: Catalog, productId: int, p: Platform, b: Backend, index: Dict<seq<string>>)
    requires Valid(c)
    ensures Valid(SetupAll(c, productId, p, b, index).catalog)
    decreases |index|
  {
    if index != [] {
      var n := |index| - 1;
      SetupAllKeepsValid(c, productId, p, b, index[..n]);
      SetupAttributeKeepsValid(SetupAll(c, productId, p, b, index[..n]), productId, p, b, index[n].0, index[n].1);
    }
  }

  lemma SetupKeepsValid(c: Catalog, productId: int, p: Platform, b: Backend, index: Dict<seq<string>>)
    requires Valid(c) && productId in c.products
    ensures Valid(Setup(c, productId, p, b, index).catalog)
  {
    SetupAllKeepsValid(c, productId, p, b, index);
  }

  // Searches over lists that grew by one entry at the end.

  lemma {:induction false} AttributeIdByLabelSnoc(taxonomies: seq<AttributeTaxonomy>, t: AttributeTaxonomy, name: string)
    ensures AttributeIdByLabel(taxonomies + [t], name) ==
      if AttributeIdByLabel(taxonomies, name).Some? then AttributeIdByLabel(taxonomies, name)
      else if Lower(t.attributeLabel) == Lower(name) then Some(t.id)
      else None
    decreases |taxonomies|
  {
    if taxonomies != [] {
      assert (taxonomies + [t])[1..] == taxonomies[1..] + [t];
      AttributeIdByLabelSnoc(taxonomies[1..], t, name);
    }
  }

  lemma {:induction false} TermByNameSnoc(terms: seq<Term>, t: Term, name: string)
    ensures TermByName(terms + [t], name) ==
      if TermByName(terms, name).Some? then TermByName(terms, name)
      else if t.name == name then Some(t)
      else None
    decreases |terms|
  {
    if terms != [] {
      assert (terms + [t])[1..] == terms[1..] + [t];
      TermByNameSnoc(terms[1..], t, name);
    }
  }

  /** Under the id discipline every id a lookup finds is positive, so truthy exactly when found. */
  lemma FoundIdsArePositive(c: Catalog, taxonomy: string, name: string)
    requires Valid(c)
    ensures AttributeIdByLabel(c.taxonomies, name).Some? ==> AttributeIdByLabel(c.taxonomies, name).value >= 1
    ensures ExistingTermId(TermsOf(c, taxonomy), name).Some? ==> ExistingTermId(TermsOf(c, taxonomy), name).value >= 1
  {
    AttributeIdByLabelIsFirst(c.taxonomies, name);
    var terms := TermsOf(c, taxonomy);
    assert forall i :: 0 <= i < |terms| ==> terms[i].id >= 1;
    TermIdIgnoringCaseIsFirst(terms, name);
  }

  /**
   * `get_or_create_attribute` fails only when the label is unknown and
   * creation fails; once it has an id, asking again finds the same id and
   * creates nothing.
   */
  lemma AttributeStepAgain(c: Catalog, b: Backend, name: string, slug: string)
    requires Valid(c)
    ensures AttributeStep(c, b, name, slug).1.None? <==>
      AttributeIdByLabel(c.taxonomies, name).None? && !b.attributeCreated(name, slug)
    ensures var r := AttributeStep(c, b, name, slug);
      r.1.Some? ==> AttributeStep(r.0, b, name, slug) == r
  {
    FoundIdsArePositive(c, "", name);
    var r := AttributeStep(c, b, name, slug);
    if AttributeIdByLabel(c.taxonomies, name).None? && b.attributeCreated(name, slug) {
      AttributeIdByLabelSnoc(c.taxonomies, AttributeTaxonomy(c.nextId, slug, name), name);
      assert r.0.taxonomies == c.taxonomies + [AttributeTaxonomy(c.nextId, slug, name)];
    }
  }

  /**
   * `get_or_create_term` fails only when no term has the name (exactly or
   * ignoring case) and insertion fails; once it has an id, asking again
   * finds the same id and inserts nothing.
   */
  lemma TermStepAgain(c: Catalog, b: Backend, p: Platform, taxonomy: string, name: string)
    requires Valid(c)
    ensures TermStep(c, b, p, taxonomy, name).1.None? <==>
      ExistingTermId(TermsOf(c, taxonomy), name).None? && !b.termInserted(name, taxonomy)
    ensures var r := TermStep(c, b, p, taxonomy, name);
      r.1.Some? ==> TermStep(r.0, b, p, taxonomy, name) == r
  {
    FoundIdsArePositive(c, taxonomy, name);
    var r := TermStep(c, b, p, taxonomy, name);
    if ExistingTermId(TermsOf(c, taxonomy), name).None? && b.termInserted(name, taxonomy) {
      var t := Term(c.nextId, name, p.sanitizeTitle(name));
      assert TermsOf(r.0, taxonomy) == TermsOf(c, taxonomy) + [t];
      TermByNameSnoc(TermsOf(c, taxonomy), t, name);
    }
  }

  /**
   * The mapping has one entry per attribute set up, in the order of the
   * index, each name mapped to its taxonomy, and each with its product
   * attribute at the same position.
   */
  lemma {:induction false} SetupAllMapping(c: Catalog, productId: int, p: Platform, b: Backend, index: Dict<seq<string>>)
    ensures var r := SetupAll(c, productId, p, b, index);
      && |r.attributes| == |r.mapping|
      && (forall k :: HasKey(r.mapping, k) ==> HasKey(index, k) && Lookup(r.mapping, k) == Some(TaxonomyFor(p, k)))
      && (forall i :: 0 <= i < |r.attributes| ==> r.attributes[i].taxonomy == r.mapping[i].1)
    decreases |index|
  {
    if index != [] {
      var n := |index| - 1;
      var front: Dict<seq<string>> := index[..n];
      var (name, terms) := index[n];
      SetupAllMapping(c, productId, p, b, front);
      var s := SetupAll(c, productId, p, b, front);
      KeysFront(index);
      SetupAllLastMapping(c, productId, p, b, index);
      var attr := AttributeStep(s.catalog, b, name, p.sanitizeTitle(name));
      if Truthy(attr.1) {
        var taxonomy := TaxonomyFor(p, name);
        assert !HasKey(front, name) by {
          forall i | 0 <= i < n ensures Keys(front)[i] != name {
            assert index[i].0 != index[n].0;
          }
        }
        PutNew(s.mapping, name, taxonomy);
        var m := Put(s.mapping, name, taxonomy);
        forall k | HasKey(m, k) ensures HasKey(index, k) && Lookup(m, k) == Some(TaxonomyFor(p, k)) {
          if k != name {
            PutOther(s.mapping, name, taxonomy, k);
          }
        }
        var a := SetupAll(c, productId, p, b, index).attributes;
        forall i | 0 <= i < |a| ensures a[i].taxonomy == m[i].1 {
          if i < |s.attributes| {
            assert a[i] == a[..|s.attributes|][i];
          }
        }
      }
    }
  }

  /** The mapping lists the attributes in the order of the index. */
  lemma {:induction false} SetupAllOrder(c: Catalog, productId: int, p: Platform, b: Backend, index: Dict<seq<string>>)
    ensures var m := SetupAll(c, productId, p, b, index).mapping;
      forall i, j :: 0 <= i < j < |m| ==>
        HasKey(index, m[i].0) && HasKey(index, m[j].0) && IndexOf(Keys(index), m[i].0) < IndexOf(Keys(index), m[j].0)
    decreases |index|
  {
    if index != [] {
      var n := |index| - 1;
      var front: Dict<seq<string>> := index[..n];
      var s := SetupAll(c, productId, p, b, front);
      var m := SetupAll(c, productId, p, b, index).mapping;
      var e := (index[n].0, TaxonomyFor(p, index[n].0));
      SetupAllOrder(c, productId, p, b, front);
      assert forall i :: 0 <= i < |s.mapping| ==>
        HasKey(index, s.mapping[i].0) && HasKey(front, s.mapping[i].0) && IndexOf(Keys(index), s.mapping[i].0) == IndexOf(Keys(front), s.mapping[i].0) < n
      by {
        SetupAllMapping(c, productId, p, b, front);
        forall i | 0 <= i < |s.mapping|
          ensures HasKey(front, s.mapping[i].0) && HasKey(index, s.mapping[i].0)
          ensures IndexOf(Keys(index), s.mapping[i].0) == IndexOf(Keys(front), s.mapping[i].0) < n
        {
          LookupAt(s.mapping, i);
          FrontKeyIndex(index, s.mapping[i].0);
        }
      }
      assert m == s.mapping || m == s.mapping + [e] by {
        SetupAllMapping(c, productId, p, b, front);
        LastKeyIsNew(index);
        SetupAllLastMapping(c, productId, p, b, index);
        if m != s.mapping {
          PutNew(s.mapping, e.0, e.1);
        }
      }
      OrderedAppend(index, front, s.mapping, m, e.1);
    }
  }

  /**
   * Appending the last attribute of the index to a mapping ordered like the
   * rest of the index keeps it ordered like the whole index.
   */
  lemma OrderedAppend(index: Dict<seq<string>>, front: Dict<seq<string>>, sm: Dict<string>, m: Dict<string>, v: string)
    requires index != [] && front == index[..|index| - 1]
    requires forall i :: 0 <= i < |sm| ==>
      HasKey(index, sm[i].0) && HasKey(front, sm[i].0) && IndexOf(Keys(index), sm[i].0) == IndexOf(Keys(front), sm[i].0) < |front|
    requires forall i, j :: 0 <= i < j < |sm| ==>
      HasKey(front, sm[i].0) && HasKey(front, sm[j].0) && IndexOf(Keys(front), sm[i].0) < IndexOf(Keys(front), sm[j].0)
    requires m == sm || m == sm + [(index[|index| - 1].0, v)]
    ensures forall i, j :: 0 <= i < j < |m| ==>
      HasKey(index, m[i].0) && HasKey(index, m[j].0) && IndexOf(Keys(index), m[i].0) < IndexOf(Keys(index), m[j].0)
  {
    LastKeyIndex(index);
    forall i, j | 0 <= i < j < |m|
      ensures HasKey(index, m[i].0) && HasKey(index, m[j].0) && IndexOf(Keys(index), m[i].0) < IndexOf(Keys(index), m[j].0)
    {
      assert m[i] == sm[i];
      if j < |sm| {
        assert m[j] == sm[j];
      }
    }
  }

  /**
   * One pass of the attribute loop maps a new attribute exactly when an
   * attribute taxonomy has its name as label or creating one succeeds, and
   * maps nothing else.
   */
  lemma SetupAttributeMaps(s: SetupState, productId: int, p: Platform, b: Backend, name: string, terms: seq<string>, k: string)
    requires s.catalog.nextId >= 1 && !HasKey(s.mapping, name)
    ensures var m := SetupAttribute(s, productId, p, b, name, terms).mapping;
      && (HasKey(m, name) <==> Truthy(AttributeIdByLabel(s.catalog.taxonomies, name)) || b.attributeCreated(name, p.sanitizeTitle(name)))
      && (k != name ==> (HasKey(m, k) <==> HasKey(s.mapping, k)))
  {
    var attr := AttributeStep(s.catalog, b, name, p.sanitizeTitle(name));
    if Truthy(attr.1) && k != name {
      PutOther(s.mapping, name, TaxonomyFor(p, name), k);
    }
  }

  /** The last attribute of the index is mapped exactly when it is found or created at its turn. */
  lemma SetupAllLastSelects(c: Catalog, productId: int, p: Platform, b: Backend, index: Dict<seq<string>>)
    requires c.nextId >= 1 && index != []
    ensures var n := |index| - 1;
      var before := SetupAll(c, productId, p, b, index[..n]).catalog;
      HasKey(SetupAll(c, productId, p, b, index).mapping, index[n].0) <==>
        Truthy(AttributeIdByLabel(before.taxonomies, index[n].0)) || b.attributeCreated(index[n].0, p.sanitizeTitle(index[n].0))
  {
    var n := |index| - 1;
    var front: Dict<seq<string>> := index[..n];
    var s := SetupAll(c, productId, p, b, front);
    assert !HasKey(s.mapping, index[n].0) by {
      SetupAllMapping(c, productId, p, b, front);
      LastKeyIsNew(index);
    }
    SetupAttributeMaps(s, productId, p, b, index[n].0, index[n].1, index[n].0);
  }

  /** The last pass of the attribute loop adds the last attribute to the mapping exactly when it is found or created. */
  lemma SetupAllLastMapping(c: Catalog, productId: int, p: Platform, b: Backend, index: Dict<seq<string>>)
    requires index != []
    ensures var n := |index| - 1;
      var s := SetupAll(c, productId, p, b, index[..n]);
      var name := index[n].0;
      var m := SetupAll(c, productId, p, b, index).mapping;
      var a := SetupAll(c, productId, p, b, index).attributes;
      && (Truthy(AttributeStep(s.catalog, b, name, p.sanitizeTitle(name)).1) ==>
            && m == Put(s.mapping, name, TaxonomyFor(p, name))
            && |a| == |s.attributes| + 1 && a[..|s.attributes|] == s.attributes && a[|s.attributes|].taxonomy == TaxonomyFor(p, name))
      && (!Truthy(AttributeStep(s.catalog, b, name, p.sanitizeTitle(name)).1) ==> m == s.mapping && a == s.attributes)
  {
  }

  /** The last pass of the attribute loop leaves every other attribute mapped or not as it was. */
  lemma SetupAllLastKeeps(c: Catalog, productId: int, p: Platform, b: Backend, index: Dict<seq<string>>, k: string)
    requires index != [] && k != index[|index| - 1].0
    ensures var n := |index| - 1;
      HasKey(SetupAll(c, productId, p, b, index).mapping, k) <==> HasKey(SetupAll(c, productId, p, b, index[..n]).mapping, k)
  {
    var n := |index| - 1;
    var s := SetupAll(c, productId, p, b, index[..n]);
    var name := index[n].0;
    if Truthy(AttributeStep(s.catalog, b, name, p.sanitizeTitle(name)).1) {
      PutOther(s.mapping, name, TaxonomyFor(p, name), k);
    }
  }

  /** Whether an attribute is mapped is settled at its turn: the later passes do not change it. */
  lemma {:induction false} SetupAllKeepsMapped(c: Catalog, productId: int, p: Platform, b: Backend, index: Dict<seq<string>>, j: nat, k: string)
    requires j <= |index| && HasKey(index[..j], k)
    ensures HasKey(SetupAll(c, productId, p, b, index).mapping, k) <==> HasKey(SetupAll(c, productId, p, b, index[..j]).mapping, k)
    decreases |index|
  {
    if j == |index| {
      assert index[..j] == index;
    } else {
      var n := |index| - 1;
      var front: Dict<seq<string>> := index[..n];
      assert k != index[n].0 by {
        var t := IndexOf(Keys(index[..j]), k);
        assert index[..j][t] == index[t];
      }
      SetupAllLastKeeps(c, productId, p, b, index, k);
      assert front[..j] == index[..j];
      SetupAllKeepsMapped(c, productId, p, b, front, j, k);
    }
  }

  /**
   * An attribute of the index is mapped exactly when, at its turn, some
   * attribute taxonomy already has its name as label or creating one
   * succeeds: an attribute that is neither found nor created is skipped.
   */
  lemma SetupAllSelects(c: Catalog, productId: int, p: Platform, b: Backend, index: Dict<seq<string>>, i: nat)
    requires c.nextId >= 1 && i < |index|
    ensures var before := SetupAll(c, productId, p, b, index[..i]).catalog;
      HasKey(SetupAll(c, productId, p, b, index).mapping, index[i].0) <==>
        Truthy(AttributeIdByLabel(before.taxonomies, index[i].0)) || b.attributeCreated(index[i].0, p.sanitizeTitle(index[i].0))
  {
    var upto: Dict<seq<string>> := index[..i + 1];
    assert upto[..i] == index[..i] && upto[i] == index[i];
    SetupAllLastSelects(c, productId, p, b, upto);
    assert Keys(upto)[i] == index[i].0;
    SetupAllKeepsMapped(c, productId, p, b, index, i + 1, index[i].0);
  }

  /** When every attribute can be created, every attribute of the index is mapped, in order. */
  lemma {:induction false} SetupAllMapsEveryAttribute(c: Catalog, productId: int, p: Platform, b: Backend, index: Dict<seq<string>>)
    requires c.nextId >= 1
    requires forall name, slug :: b.attributeCreated(name, slug)
    ensures Keys(SetupAll(c, productId, p, b, index).mapping) == Keys(index)
    decreases |index|
  {
    if index != [] {
      var n := |index| - 1;
      var front: Dict<seq<string>> := index[..n];
      var name := index[n].0;
      SetupAllMapsEveryAttribute(c, productId, p, b, front);
      var s := SetupAll(c, productId, p, b, front);
      var taxonomy := TaxonomyFor(p, name);
      assert SetupAll(c, productId, p, b, index).mapping == Put(s.mapping, name, taxonomy) by {
        assert b.attributeCreated(name, p.sanitizeTitle(name));
        SetupAllLastMapping(c, productId, p, b, index);
      }
      assert !HasKey(s.mapping, name) by {
        KeysFront(index);
        LastKeyIsNew(index);
      }
      assert Keys(Put(s.mapping, name, taxonomy)) == Keys(s.mapping) + [name];
      KeysFront(index);
    }
  }

  /** A term the product had for a taxonomy it still has after the term loop and the merge. */
  lemma SetupAttributeKeepsObjectTerms(s: SetupState, productId: int, p: Platform, b: Backend, name: string, terms: seq<string>, id: int, t: string, x: int)
    requires x in ObjectTermsOf(s.catalog, id, t)
    ensures x in ObjectTermsOf(SetupAttribute(s, productId, p, b, name, terms).catalog, id, t)
  {
    var attr := AttributeStep(s.catalog, b, name, p.sanitizeTitle(name));
    if Truthy(attr.1) {
      var taxonomy := TaxonomyFor(p, name);
      var resolved := ResolveTerms(attr.0, b, p, taxonomy, terms);
      assert ObjectTermsOf(resolved.0, id, t) == ObjectTermsOf(s.catalog, id, t);
      MergeTermIdsFacts(ObjectTermsOf(resolved.0, productId, taxonomy), resolved.1);
    }
  }

  /** Setting up attributes never takes a term away from any product. */
  lemma {:induction false} SetupAllKeepsObjectTerms(c: Catalog, productId: int, p: Platform, b: Backend, index: Dict<seq<string>>, id: int, t: string, x: int)
    requires x in ObjectTermsOf(c, id, t)
    ensures x in ObjectTermsOf(SetupAll(c, productId, p, b, index).catalog, id, t)
    decreases |index|
  {
    if index != [] {
      var n := |index| - 1;
      var front: Dict<seq<string>> := index[..n];
      SetupAllKeepsObjectTerms(c, productId, p, b, front, id, t, x);
      SetupAttributeKeepsObjectTerms(SetupAll(c, productId, p, b, front), productId, p, b, index[n].0, index[n].1, id, t, x);
    }
  }

  /** The term loop only appends terms. */
  lemma {:induction false} ResolveTermsOnlyAdds(c: Catalog, b: Backend, p: Platform, taxonomy: string, names: seq<string>, t: string)
    ensures TermsOf(c, t) <= TermsOf(ResolveTerms(c, b, p, taxonomy, names).0, t)
    decreases |names|
  {
    if names != [] {
      var n := |names| - 1;
      var prev := ResolveTerms(c, b, p, taxonomy, names[..n]).0;
      ResolveTermsOnlyAdds(c, b, p, taxonomy, names[..n], t);
      assert TermsOf(prev, t) <= TermsOf(TermStep(prev, b, p, taxonomy, names[n]).0, t) by {
        TermStepOnlyAdds(prev, b, p, taxonomy, names[n], t);
      }
    }
  }

  /** One pass of the term loop only appends a term. */
  lemma TermStepOnlyAdds(c: Catalog, b: Backend, p: Platform, taxonomy: string, name: string, t: string)
    ensures TermsOf(c, t) <= TermsOf(TermStep(c, b, p, taxonomy, name).0, t)
  {
  }

  /** One pass of the attribute loop only appends taxonomies and terms. */
  lemma SetupAttributeOnlyAdds(s: SetupState, productId: int, p: Platform, b: Backend, name: string, terms: seq<string>, t: string)
    ensures var r := SetupAttribute(s, productId, p, b, name, terms).catalog;
      s.catalog.taxonomies <= r.taxonomies && TermsOf(s.catalog, t) <= TermsOf(r, t)
  {
    var attr := AttributeStep(s.catalog, b, name, p.sanitizeTitle(name));
    if Truthy(attr.1) {
      ResolveTermsOnlyAdds(attr.0, b, p, TaxonomyFor(p, name), terms, t);
    }
  }

  /** Setting up attributes never removes or changes an attribute taxonomy or a term: it only appends. */
  lemma {:induction false} SetupAllOnlyAdds(c: Catalog, productId: int, p: Platform, b: Backend, index: Dict<seq<string>>, t: string)
    ensures var r := SetupAll(c, productId, p, b, index).catalog;
      c.taxonomies <= r.taxonomies && TermsOf(c, t) <= TermsOf(r, t)
    decreases |index|
  {
    if index != [] {
      var n := |index| - 1;
      var front: Dict<seq<string>> := index[..n];
      SetupAllOnlyAdds(c, productId, p, b, front, t);
      SetupAttributeOnlyAdds(SetupAll(c, productId, p, b, front), productId, p, b, index[n].0, index[n].1, t);
    }
  }

  /**
   * After setup the product's attribute list is exactly one entry per
   * mapped attribute, on that attribute's taxonomy; no other product
   * changes. So when nothing could be set up the list is emptied.
   */
  lemma SetupReplacesAttributeList(c: Catalog, productId: int, p: Platform, b: Backend, index: Dict<seq<string>>)
    requires productId in c.products
    ensures var r := Setup(c, productId, p, b, index);
      var pa := r.catalog.products[productId].productAttributes;
      && |pa| == |r.mapping|
      && (forall i :: 0 <= i < |pa| ==> pa[i].taxonomy == r.mapping[i].1)
      && r.catalog.products[productId] == c.products[productId].(productAttributes := pa)
      && (forall id :: id in c.products && id != productId ==> r.catalog.products[id] == c.products[id])
  {
    SetupAllMapping(c, productId, p, b, index);
  }

  /** `get_or_create_attribute` on the store. */
  method GetOrCreateAttribute(store: Store, b: Backend, name: string, slug: string) returns (id: Option<int>)
    modifies store
    ensures (store.Value(), id) == AttributeStep(old(store.Value()), b, name, slug)
  {
    id := GetExistingAttributeId(store.taxonomies, name);
    if Truthy(id) {
      return;
    }
    if !b.attributeCreated(name, slug) {
      return None;
    }
    var created := store.CreateAttribute(slug, name);
    id := Some(created);
  }

  /** `get_or_create_term` on the store. */
  method GetOrCreateTerm(store: Store, b: Backend, p: Platform, name: string, taxonomy: string) returns (id: Option<int>)
    modifies store
    ensures (store.Value(), id) == TermStep(old(store.Value()), b, p, taxonomy, name)
  {
    var terms := if taxonomy in store.terms then store.terms[taxonomy] else [];
    id := GetExistingTermId(terms, name);
    if Truthy(id) {
      return;
    }
    if !b.termInserted(name, taxonomy) {
      return None;
    }
    var created := store.InsertTerm(taxonomy, name, p.sanitizeTitle(name));
    id := Some(created);
  }

  /** The term loop of one attribute, on the store. */
  method ResolveTermIds(store: Store, b: Backend, p: Platform, taxonomy: string, names: seq<string>) returns (ids: seq<int>)
    modifies store
    ensures (store.Value(), ids) == ResolveTerms(old(store.Value()), b, p, taxonomy, names)
  {
    ghost var c0 := store.Value();
    ids := [];
    var j := 0;
    while j < |names|
      invariant 0 <= j <= |names|
      invariant ResolveTerms(c0, b, p, taxonomy, names[..j]) == (store.Value(), ids)
    {
      TakeStep(names, j);
      var id := GetOrCreateTerm(store, b, p, names[j], taxonomy);
      if Truthy(id) {
        ids := ids + [id.value];
      }
      j := j + 1;
    }
    TakeAll(names);
  }

  /** One pass of the attribute loop, on the store. */
  method SetupAttributeOf(store: Store, productId: int, p: Platform, b: Backend, name: string, terms: seq<string>,
                          attributes: seq<ProductAttribute>, mapping: Dict<string>)
    returns (attributes': seq<ProductAttribute>, mapping': Dict<string>)
    modifies store
    ensures SetupAttribute(SetupState(old(store.Value()), attributes, mapping), productId, p, b, name, terms) ==
      SetupState(store.Value(), attributes', mapping')
  {
    attributes', mapping' := attributes, mapping;
    var slug := p.sanitizeTitle(name);
    var attributeId := GetOrCreateAttribute(store, b, name, slug);
    if !Truthy(attributeId) {
      return;
    }
    var taxonomy := p.taxonomyName(slug);
    if IsPhpEmpty(taxonomy) {
      taxonomy := "pa_" + slug;
    }
    var added := ResolveTermIds(store, b, p, taxonomy, terms);
    var existing := if (productId, taxonomy) in store.objectTerms then store.objectTerms[(productId, taxonomy)] else [];
    var all := MergeTermIds(existing, added);
    store.AssignTerms(productId, taxonomy, all);
    attributes' := attributes + [ProductAttribute(attributeId.value, taxonomy, all)];
    mapping' := Put(mapping, name, taxonomy);
  }

  /** The attribute loop of `setup_product_attributes`, on the store. */
  method SetupLoop(store: Store, productId: int, p: Platform, b: Backend, index: Dict<seq<string>>)
    returns (attributes: seq<ProductAttribute>, mapping: Dict<string>)
    modifies store
    ensures SetupAll(old(store.Value()), productId, p, b, index) == SetupState(store.Value(), attributes, mapping)
  {
    ghost var c0 := store.Value();
    attributes, mapping := [], [];
    var i := 0;
    while i < |index|
      invariant 0 <= i <= |index|
      invariant SetupAll(c0, productId, p, b, index[..i]) == SetupState(store.Value(), attributes, mapping)
    {
      TakeStep(index, i);
      attributes, mapping := SetupAttributeOf(store, productId, p, b, index[i].0, index[i].1, attributes, mapping);
      i := i + 1;
    }
    TakeAll(index);
  }

  /**
   * `setup_product_attributes` on the store, returning the mapping from
   * attribute name to taxonomy.
   */
  method SetupProductAttributes(store: Store, productId: int, vs: seq<VariationData>, p: Platform, b: Backend) returns (mapping: Dict<string>)
    requires productId in store.products
    modifies store
    ensures var r := Setup(old(store.Value()), productId, p, b, Terms.TermIndex(Terms.Pairs(Terms.AttributesOf(vs))));
      store.Value() == r.catalog && mapping == r.mapping
  {
    var index := Terms.UniqueTerms(vs);
    ghost var attrs := Terms.AttributesOf(vs);
    var attributes;
    attributes, mapping := SetupLoop(store, productId, p, b, index);
    assert Terms.AttributesOf(vs) == attrs;
    store.AssignAttributes(productId, attributes);
    assert Terms.AttributesOf(vs) == attrs;
  }
}
