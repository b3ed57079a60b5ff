/**
 * `Importer`: what an import does to the catalog. It converts the product
 * to a variable product when its type allows, makes sure every attribute
 * and term exists and is assigned to the product, then creates, updates or
 * leaves unchanged one variation per error-free row. The preview
 * (`analyze_variations`) counts what an import would do without writing.
 */
module Importing {
  import opened Wrappers
  import opened Seqs
  import opened Dicts
  import opened Text
  import opened Variations
  import opened Platform
  import opened Terms
  import opened Shop
  import opened Validation

  /** What `convert_to_variable_product` does for a product type. */
  datatype Conversion = AlreadyVariable | Convert | Refuse

  function ConversionFor(kind: string): Conversion {
    if kind == "variable" then AlreadyVariable
    else if kind in ["simple", "grouped", "external"] then Convert
    else Refuse
  }

  /**
   * Only a variable product is left alone, only the three listed types are
   * converted, every other type is refused; a converted product is
   * variable afterwards, so converting again does nothing.
   */
  lemma ConversionCases(c: Catalog, id: int)
    requires id in c.products
    ensures ConversionFor(c.products[id].kind) == AlreadyVariable <==> c.products[id].kind == "variable"
    ensures ConversionFor(c.products[id].kind) == Convert <==> c.products[id].kind in {"simple", "grouped", "external"}
    ensures ConversionFor(c.products[id].kind) == Refuse <==> c.products[id].kind !in {"variable", "simple", "grouped", "external"}
    ensures ConversionFor(SetVariable(c, id).products[id].kind) == AlreadyVariable
    ensures var c' := SetVariable(c, id);
      c'.products[id] == c.products[id].(kind := "variable") &&
      forall other :: other in c.products && other != id ==> c'.products[other] == c.products[other]
  {
  }

  /** `array_unique(array_merge($existing, $new))`: first occurrences, in order. */
  function MergeTermIds(existing: seq<int>, added: seq<int>): seq<int> {
    Dedup(existing + added)
  }

  /**
   * The merged term ids hold every existing and every new id, nothing
   * else, each once; no existing term is dropped or moved, so when the
   * existing list has no repetition it is kept as the front of the result.
   */
  lemma MergeTermIdsFacts(existing: seq<int>, added: seq<int>)
    ensures NoDups(MergeTermIds(existing, added))
    ensures forall x :: x in MergeTermIds(existing, added) <==> x in existing || x in added
    ensures |Dedup(existing)| <= |MergeTermIds(existing, added)| && MergeTermIds(existing, added)[..|Dedup(existing)|] == Dedup(existing)
    ensures NoDups(existing) ==> |existing| <= |MergeTermIds(existing, added)| && MergeTermIds(existing, added)[..|existing|] == existing
  {
    DedupFacts(existing + added);
    DedupAppendPrefix(existing, added);
    if NoDups(existing) {
      DedupOfNoDups(existing);
    }
  }

  /** The array of lowercased keys and values `find_variation_by_attributes` builds. */
  function Lowered(d: seq<(string, string)>): Dict<string> {
    if d == [] then []
    else
      var n := |d| - 1;
      Put(Lowered(d[..n]), Lower(d[n].0), Lower(d[n].1))
  }

  /** Every key of `small` is in `big` with the same value. */
  predicate Covers(big: Dict<string>, small: Dict<string>) {
    forall k :: k in Keys(small) ==> Lookup(big, k) == Lookup(small, k)
  }

  /** The test of the search loop: same size after lowercasing, and every searched pair present. */
  predicate AttributesMatch(existing: Dict<string>, search: Dict<string>) {
    |Lowered(existing)| == |Lowered(search)| && Covers(Lowered(existing), Lowered(search))
  }

  /** The two arrays give every key the same value (or both lack it). */
  ghost predicate SamePairs(a: Dict<string>, b: Dict<string>) {
    forall k :: Lookup(a, k) == Lookup(b, k)
  }

  lemma MatchGivesSamePairs(existing: Dict<string>, search: Dict<string>)
    requires AttributesMatch(existing, search)
    ensures SamePairs(Lowered(existing), Lowered(search))
  {
    var a, b := Lowered(existing), Lowered(search);
    SameSizeSameKeys(b, a);
    forall k ensures Lookup(a, k) == Lookup(b, k) {
      if HasKey(a, k) {
        assert HasKey(b, k);
      }
    }
  }

  lemma SamePairsMatch(existing: Dict<string>, search: Dict<string>)
    requires SamePairs(Lowered(existing), Lowered(search))
    ensures AttributesMatch(existing, search)
  {
    var a, b := Lowered(existing), Lowered(search);
    forall k ensures HasKey(a, k) <==> HasKey(b, k) {
      assert Lookup(a, k) == Lookup(b, k);
    }
    SameKeysSameSize(a, b);
  }

  /**
   * The size-and-inclusion test is equality of the two lowercased arrays
   * as maps, so it is symmetric and ignores the order of the attributes.
   */
  lemma MatchIsMapEquality(existing: Dict<string>, search: Dict<string>)
    ensures AttributesMatch(existing, search) <==> SamePairs(Lowered(existing), Lowered(search))
    ensures AttributesMatch(existing, search) <==> AttributesMatch(search, existing)
  {
    if AttributesMatch(existing, search) {
      MatchGivesSamePairs(existing, search);
      SamePairsMatch(search, existing);
    } else if AttributesMatch(search, existing) {
      MatchGivesSamePairs(search, existing);
      SamePairsMatch(existing, search);
    } else if SamePairs(Lowered(existing), Lowered(search)) {
      SamePairsMatch(existing, search);
    }
  }

  /** The id of the first listed variation that loads and whose attributes match. */
  function FirstMatch(c: Catalog, ids: seq<int>, search: Dict<string>): (r: Option<int>)
    ensures r.Some? ==> r.value in ids && r.value in c.products
  {
    if ids == [] then None
    else if ids[0] in c.products && AttributesMatch(c.products[ids[0]].attributes, search) then Some(ids[0])
    else FirstMatch(c, ids[1..], search)
  }

  /** `find_variation_by_attributes`: nothing unless the product is variable. */
  function FindVariation(c: Catalog, productId: int, search: Dict<string>): (r: Option<int>)
    ensures r.Some? ==> r.value in c.products
  {
    if productId !in c.products || c.products[productId].kind != "variable" then None
    else FirstMatch(c, c.products[productId].children, search)
  }

  /**
   * The search finds the first of the listed variations that loads and
   * matches, and finds nothing exactly when none does.
   */
  lemma {:induction false} FirstMatchIsFirst(c: Catalog, ids: seq<int>, search: Dict<string>)
    ensures FirstMatch(c, ids, search).None? <==>
      forall i :: 0 <= i < |ids| ==> !(ids[i] in c.products && AttributesMatch(c.products[ids[i]].attributes, search))
    ensures FirstMatch(c, ids, search).Some? ==>
      exists i :: 0 <= i < |ids| && ids[i] == FirstMatch(c, ids, search).value &&
        AttributesMatch(c.products[ids[i]].attributes, search) &&
        forall j :: 0 <= j < i ==> !(ids[j] in c.products && AttributesMatch(c.products[ids[j]].attributes, search))
    decreases |ids|
  {
    if ids != [] {
      var rest := ids[1..];
      FirstMatchIsFirst(c, rest, search);
      if ids[0] in c.products && AttributesMatch(c.products[ids[0]].attributes, search) {
        assert 0 < |ids|;
      } else if FirstMatch(c, rest, search).Some? {
        var i :| 0 <= i < |rest| && rest[i] == FirstMatch(c, rest, search).value &&
          AttributesMatch(c.products[rest[i]].attributes, search) &&
          forall j :: 0 <= j < i ==> !(rest[j] in c.products && AttributesMatch(c.products[rest[j]].attributes, search));
        assert ids[i + 1] == rest[i];
        forall j | 0 <= j < i + 1 ensures !(ids[j] in c.products && AttributesMatch(c.products[ids[j]].attributes, search)) {
          if j > 0 {
            assert ids[j] == rest[j - 1];
          }
        }
      } else {
        forall i | 0 <= i < |ids| ensures !(ids[i] in c.products && AttributesMatch(c.products[ids[i]].attributes, search)) {
          if i > 0 {
            assert ids[i] == rest[i - 1];
          }
        }
      }
    }
  }

  /** A product that is missing or not variable has no variation to find. */
  lemma FindVariationNeedsVariable(c: Catalog, productId: int, search: Dict<string>)
    ensures (productId !in c.products || c.products[productId].kind != "variable") ==> FindVariation(c, productId, search) == None
    ensures FindVariation(c, productId, search).Some? ==> FindVariation(c, productId, search).value in c.products[productId].children
  {
  }

  lemma LoweredStep(d: seq<(string, string)>, i: nat)
    requires i < |d|
    ensures Lowered(d[..i + 1]) == Put(Lowered(d[..i]), Lower(d[i].0), Lower(d[i].1))
  {
    TakeStep(d, i);
  }

  /** The lowercasing loop of `find_variation_by_attributes`. */
  method NormalizeAttributes(d: Dict<string>) returns (r: Dict<string>)
    ensures r == Lowered(d)
  {
    r := [];
    var i := 0;
    while i < |d|
      invariant 0 <= i <= |d|
      invariant r == Lowered(d[..i])
    {
      LoweredStep(d, i);
      r := Put(r, Lower(d[i].0), Lower(d[i].1));
      i := i + 1;
    }
    TakeAll(d);
  }

  /** The comparison loop, leaving at the first searched pair that is missing or different. */
  method SameAttributes(existing: Dict<string>, search: Dict<string>) returns (b: bool)
    ensures b <==> |existing| == |search| && Covers(existing, search)
  {
    if |existing| != |search| {
      return false;
    }
    var j := 0;
    while j < |search|
      invariant 0 <= j <= |search|
      invariant forall i :: 0 <= i < j ==> Lookup(existing, search[i].0) == Some(search[i].1)
    {
      LookupAt(search, j);
      if Lookup(existing, search[j].0) != Some(search[j].1) {
        return false;
      }
      j := j + 1;
    }
    forall k | HasKey(search, k) ensures Lookup(existing, k) == Lookup(search, k) {
      var i := IndexOf(Keys(search), k);
      assert search[i].0 == k;
      LookupAt(search, i);
    }
    return true;
  }

  /** `find_variation_by_attributes` over the store. */
  method FindVariationByAttributes(store: Store, productId: int, search: Dict<string>) returns (r: Option<int>)
    ensures r == FindVariation(store.Value(), productId, search)
  {
    if productId !in store.products || store.products[productId].kind != "variable" {
      return None;
    }
    var ids := store.products[productId].children;
    var i := 0;
    while i < |ids|
      invariant 0 <= i <= |ids|
      invariant FirstMatch(store.Value(), ids, search) == FirstMatch(store.Value(), ids[i..], search)
    {
      DropStep(ids, i);
      if ids[i] in store.products {
        var found := store.products[ids[i]].attributes;
        var existing := NormalizeAttributes(found);
        var wanted := NormalizeAttributes(search);
        var same := SameAttributes(existing, wanted);
        if same {
          return Some(ids[i]);
        }
      }
      i := i + 1;
    }
    return None;
  }
}
