/**
 * `Validator`: the per-row checks run before an import (price, SKU owned by
 * another product, attributes present and non-empty), which only ever
 * append errors to the rows, and the two catalog lookups the importer
 * shares (an attribute taxonomy by label, a term by name).
 */
module Validation {
  import opened Wrappers
  import opened Seqs
  import opened Text
  import opened Variations
  import opened Shop

  /** `wc_get_product_id_by_sku`: the id of the product that owns a SKU, 0 when none does. */
  type SkuOwner = string -> int

  /** `empty($price) || $price <= 0`: missing, zero or negative. */
  predicate BadPrice(price: Option<real>) {
    price.None? || price.value <= 0.0
  }

  /** `! empty($sku)`: present and neither "" nor "0". */
  predicate HasSku(sku: Option<string>) {
    sku.Some? && !IsPhpEmpty(sku.value)
  }

  /** The SKU lookup names a product, and not the one being imported into. */
  predicate OwnedElsewhere(sku: string, productId: int, owner: SkuOwner) {
    owner(sku) != 0 && owner(sku) != productId
  }

  /** `empty(trim($value))`: blank, or "0" once trimmed. */
  predicate EmptyValue(v: string) {
    IsPhpEmpty(Trim(v))
  }

  /** The name of the first attribute, in order, whose value is empty. */
  function FirstEmptyAttribute(attrs: seq<(string, string)>): (r: Option<string>)
    ensures r.Some? ==> exists i :: 0 <= i < |attrs| && attrs[i].0 == r.value && EmptyValue(attrs[i].1)
  {
    if attrs == [] then None
    else if EmptyValue(attrs[0].1) then Some(attrs[0].0)
    else
      var r := FirstEmptyAttribute(attrs[1..]);
      if r.Some? then
        var i :| 0 <= i < |attrs[1..]| && attrs[1..][i].0 == r.value && EmptyValue(attrs[1..][i].1);
        assert attrs[i + 1] == attrs[1..][i];
        r
      else r
  }

  /** What `validate_price` appends. */
  function PriceErrors(r: RowArray): seq<RowError> {
    if BadPrice(r.price) then [InvalidPrice(r.rowNumber)] else []
  }

  /** What the guarded `validate_sku` call appends. */
  function SkuErrors(r: RowArray, productId: int, owner: SkuOwner): seq<RowError> {
    if HasSku(r.sku) && OwnedElsewhere(r.sku.value, productId, owner) then [SkuExists(r.rowNumber, r.sku.value)] else []
  }

  /** What `validate_attributes` appends. */
  function AttributeErrors(r: RowArray): seq<RowError> {
    if r.attributes == [] then [NoAttributes(r.rowNumber)]
    else
      match FirstEmptyAttribute(r.attributes)
      case None => []
      case Some(k) => [EmptyAttribute(r.rowNumber, k)]
  }

  /** Everything one pass appends to a row, in the order the checks run. */
  function RowErrors(r: RowArray, productId: int, owner: SkuOwner): seq<RowError> {
    PriceErrors(r) + SkuErrors(r, productId, owner) + AttributeErrors(r)
  }

  /** A row state with more errors appended and nothing else changed. */
  function WithErrors(s: RowState, es: seq<RowError>): RowState {
    s.(row := s.row.(errors := s.row.errors + es))
  }

  /** A row after its three checks. */
  function Checked(s: RowState, productId: int, owner: SkuOwner): RowState {
    WithErrors(s, RowErrors(s.row, productId, owner))
  }

  /** The rows after one pass of `validate_variations`. */
  function Validated(rows: seq<RowState>, productId: int, owner: SkuOwner): (r: seq<RowState>)
    ensures |r| == |rows|
  {
    seq(|rows|, i requires 0 <= i < |rows| => Checked(rows[i], productId, owner))
  }

  /** No check fails on any row. */
  predicate AllValid(rows: seq<RowState>, productId: int, owner: SkuOwner) {
    forall i :: 0 <= i < |rows| ==> RowErrors(rows[i].row, productId, owner) == []
  }

  /**
   * After a pass of `validate_variations`, a row whose price is missing,
   * zero or negative carries exactly one more invalid-price error naming
   * it, as the first error appended; any other row gains none. The SKU and
   * attribute checks never report a price.
   */
  lemma PriceCheck(rows: seq<RowState>, productId: int, owner: SkuOwner, i: int)
    requires 0 <= i < |rows|
    ensures var r := rows[i].row;
      var after := Validated(rows, productId, owner)[i].row;
      var bad := r.price.None? || r.price.value <= 0.0;
      && |after.errors| >= |r.errors|
      && multiset(after.errors)[InvalidPrice(r.rowNumber)] == multiset(r.errors)[InvalidPrice(r.rowNumber)] + (if bad then 1 else 0)
      && (forall e :: e in after.errors[|r.errors|..] && e.InvalidPrice? ==> bad && e == InvalidPrice(r.rowNumber))
      && (bad ==> |after.errors| > |r.errors| && after.errors[|r.errors|] == InvalidPrice(r.rowNumber))
  {
    var r := rows[i].row;
    var added := RowErrors(r, productId, owner);
    RowPriceErrors(r, productId, owner);
    var after := Validated(rows, productId, owner)[i].row;
    assert after.errors == r.errors + added;
    assert multiset(after.errors) == multiset(r.errors) + multiset(added);
    assert after.errors[|r.errors|..] == added;
  }

  /** The errors one pass appends to a row name an invalid price once exactly when the price is bad, and first. */
  lemma RowPriceErrors(r: RowArray, productId: int, owner: SkuOwner)
    ensures var added := RowErrors(r, productId, owner);
      var bad := r.price.None? || r.price.value <= 0.0;
      && multiset(added)[InvalidPrice(r.rowNumber)] == (if bad then 1 else 0)
      && (forall e :: e in added && e.InvalidPrice? ==> bad && e == InvalidPrice(r.rowNumber))
      && (bad ==> added != [] && added[0] == InvalidPrice(r.rowNumber))
  {
    var rest := SkuErrors(r, productId, owner) + AttributeErrors(r);
    assert forall e :: e in rest ==> !e.InvalidPrice?;
    assert multiset(rest)[InvalidPrice(r.rowNumber)] == 0;
    assert RowErrors(r, productId, owner) == PriceErrors(r) + rest;
  }

  /**
   * The SKU check: a missing or empty SKU is never looked up, whatever the
   * catalog holds; a SKU nobody owns, or owned by the target product,
   * passes; otherwise the row gets one error naming the SKU.
   */
  lemma SkuCheck(r: RowArray, productId: int, owner: SkuOwner)
    ensures !HasSku(r.sku) ==> forall o: SkuOwner :: SkuErrors(r, productId, o) == []
    ensures HasSku(r.sku) && owner(r.sku.value) in {0, productId} ==> SkuErrors(r, productId, owner) == []
    ensures SkuErrors(r, productId, owner) != [] <==>
      (r.sku.Some? && r.sku.value != "" && r.sku.value != "0" && owner(r.sku.value) != 0 && owner(r.sku.value) != productId)
    ensures SkuErrors(r, productId, owner) != [] ==> SkuErrors(r, productId, owner) == [SkuExists(r.rowNumber, r.sku.value)]
  {
  }

  /**
   * The SKU is checked against the catalog only: two rows carrying the same
   * SKU that no product owns both pass.
   */
  lemma SkuNotCheckedWithinInput(a: RowArray, b: RowArray, productId: int, owner: SkuOwner)
    requires a.sku == b.sku && HasSku(a.sku) && owner(a.sku.value) == 0
    ensures SkuErrors(a, productId, owner) == [] && SkuErrors(b, productId, owner) == []
  {
  }

  /**
   * The first empty attribute is the first in order: every attribute
   * before it has a value, and there is none exactly when every value is
   * non-empty.
   */
  lemma {:induction false} FirstEmptyAttributeIsFirst(attrs: seq<(string, string)>)
    ensures FirstEmptyAttribute(attrs).None? <==> forall i :: 0 <= i < |attrs| ==> !EmptyValue(attrs[i].1)
    ensures FirstEmptyAttribute(attrs).Some? ==>
      exists i :: 0 <= i < |attrs| && attrs[i].0 == FirstEmptyAttribute(attrs).value && EmptyValue(attrs[i].1) &&
        forall j :: 0 <= j < i ==> !EmptyValue(attrs[j].1)
    decreases |attrs|
  {
    if attrs != [] && !EmptyValue(attrs[0].1) {
      var rest := attrs[1..];
      FirstEmptyAttributeIsFirst(rest);
      if FirstEmptyAttribute(rest).Some? {
        var i :| 0 <= i < |rest| && rest[i].0 == FirstEmptyAttribute(rest).value && EmptyValue(rest[i].1) &&
          forall j :: 0 <= j < i ==> !EmptyValue(rest[j].1);
        assert attrs[i + 1] == rest[i];
        forall j | 0 <= j < i + 1 ensures !EmptyValue(attrs[j].1) {
          if j > 0 {
            assert attrs[j] == rest[j - 1];
          }
        }
      } else {
        forall i | 0 <= i < |attrs| ensures !EmptyValue(attrs[i].1) {
          if i > 0 {
            assert attrs[i] == rest[i - 1];
          }
        }
      }
    }
  }

  /**
   * The attribute check: no attributes gives exactly one error and no
   * value is looked at; otherwise at most one error, naming the first
   * attribute whose trimmed value is empty ("0" included).
   */
  lemma AttributeCheck(r: RowArray)
    ensures r.attributes == [] ==> AttributeErrors(r) == [NoAttributes(r.rowNumber)]
    ensures r.attributes != [] ==> |AttributeErrors(r)| <= 1
    ensures r.attributes != [] ==> (AttributeErrors(r) == [] <==> forall i :: 0 <= i < |r.attributes| ==> !EmptyValue(r.attributes[i].1))
    ensures forall k :: AttributeErrors(r) == [EmptyAttribute(r.rowNumber, k)] ==>
      exists i :: 0 <= i < |r.attributes| && r.attributes[i].0 == k && EmptyValue(r.attributes[i].1) &&
        forall j :: 0 <= j < i ==> !EmptyValue(r.attributes[j].1)
  {
    FirstEmptyAttributeIsFirst(r.attributes);
  }

  /**
   * The checks only append: a row keeps its fields and its earlier errors
   * and gains at most three, all naming its own row; it is left as it was
   * exactly when no check fails.
   */
  lemma CheckOnlyAppends(s: RowState, productId: int, owner: SkuOwner)
    ensures var c := Checked(s, productId, owner);
      && c.status == s.status && c.existingId == s.existingId && c.oldPrice == s.oldPrice
      && c.row.sku == s.row.sku && c.row.price == s.row.price
      && c.row.attributes == s.row.attributes && c.row.rowNumber == s.row.rowNumber
      && c.row.errors[..|s.row.errors|] == s.row.errors
      && |s.row.errors| <= |c.row.errors| <= |s.row.errors| + 3
      && (forall e :: e in c.row.errors[|s.row.errors|..] ==> e.row == s.row.rowNumber)
      && (c == s <==> RowErrors(s.row, productId, owner) == [])
  {
    var es := RowErrors(s.row, productId, owner);
    var c := Checked(s, productId, owner);
    AttributeCheck(s.row);
    assert c.row.errors == s.row.errors + es;
    assert c.row.errors[|s.row.errors|..] == es;
    if es == [] {
      assert s.row.errors + es == s.row.errors;
    }
    if c == s {
      assert |c.row.errors| == |s.row.errors| + |es|;
    }
  }

  /** A pass is valid exactly when it leaves every row as it was. */
  lemma ValidExactlyWhenUnchanged(rows: seq<RowState>, productId: int, owner: SkuOwner)
    ensures AllValid(rows, productId, owner) <==> Validated(rows, productId, owner) == rows
  {
    var out := Validated(rows, productId, owner);
    forall i | 0 <= i < |rows|
      ensures out[i] == rows[i] <==> RowErrors(rows[i].row, productId, owner) == []
    {
      CheckOnlyAppends(rows[i], productId, owner);
    }
    if out == rows {
      forall i | 0 <= i < |rows| ensures RowErrors(rows[i].row, productId, owner) == [] {
        assert out[i] == rows[i];
      }
    }
  }

  /**
   * The checks read only the SKU, the price and the attributes, so a second
   * pass appends the same errors again: validation is not idempotent.
   */
  lemma RevalidationRepeats(rows: seq<RowState>, productId: int, owner: SkuOwner, i: nat)
    requires i < |rows|
    ensures var once := Validated(rows, productId, owner);
      Validated(once, productId, owner)[i].row.errors ==
        rows[i].row.errors + RowErrors(rows[i].row, productId, owner) + RowErrors(rows[i].row, productId, owner)
  {
  }

  /** `validate_price`. */
  method ValidatePrice(v: VariationData) returns (ok: bool)
    modifies v
    ensures ok <==> !BadPrice(old(v.price))
    ensures v.State() == WithErrors(old(v.State()), PriceErrors(old(v.ToArray())))
  {
    if v.price.None? || v.price.value <= 0.0 {
      v.AddError(InvalidPrice(v.rowNumber));
      ok := false;
    } else {
      ok := true;
    }
  }

  /** `validate_sku`, which its caller runs only when the row has a SKU. */
  method ValidateSku(v: VariationData, productId: int, owner: SkuOwner) returns (ok: bool)
    requires v.sku.Some?
    modifies v
    ensures ok <==> !OwnedElsewhere(old(v.sku.value), productId, owner)
    ensures !ok ==> v.State() == WithErrors(old(v.State()), [SkuExists(old(v.rowNumber), old(v.sku.value))])
    ensures ok ==> v.State() == old(v.State())
  {
    var existing := owner(v.sku.value);
    if existing != 0 && existing != productId {
      v.AddError(SkuExists(v.rowNumber, v.sku.value));
      ok := false;
    } else {
      ok := true;
    }
  }

  /** `validate_attributes`. */
  method ValidateAttributes(v: VariationData) returns (ok: bool)
    modifies v
    ensures ok <==> AttributeErrors(old(v.ToArray())) == []
    ensures v.State() == WithErrors(old(v.State()), AttributeErrors(old(v.ToArray())))
  {
    if v.attributes == [] {
      v.AddError(NoAttributes(v.rowNumber));
      return false;
    }
    var attrs := v.attributes;
    var i := 0;
    while i < |attrs|
      invariant 0 <= i <= |attrs|
      invariant FirstEmptyAttribute(attrs) == FirstEmptyAttribute(attrs[i..])
      invariant unchanged(v)
    {
      FirstEmptyAttributeAt(attrs, i);
      if IsPhpEmpty(Trim(attrs[i].1)) {
        v.AddError(EmptyAttribute(v.rowNumber, attrs[i].0));
        return false;
      }
      i := i + 1;
    }
    assert attrs[i..] == [];
    ok := true;
  }

  /** The search from position `i` stops there or goes on from `i + 1`. */
  lemma FirstEmptyAttributeAt(attrs: seq<(string, string)>, i: nat)
    requires i < |attrs|
    ensures FirstEmptyAttribute(attrs[i..]) == if EmptyValue(attrs[i].1) then Some(attrs[i].0) else FirstEmptyAttribute(attrs[i + 1..])
  {
    DropStep(attrs, i);
  }

  /** The three checks of one row, in order. */
  method ValidateRow(v: VariationData, productId: int, owner: SkuOwner) returns (ok: bool)
    modifies v
    ensures ok <==> RowErrors(old(v.ToArray()), productId, owner) == []
    ensures v.State() == Checked(old(v.State()), productId, owner)
  {
    ghost var r := v.ToArray();
    ghost var s := v.State();
    ok := ValidatePrice(v);
    if v.sku.Some? && !IsPhpEmpty(v.sku.value) {
      var skuOk := ValidateSku(v, productId, owner);
      ok := ok && skuOk;
    }
    assert v.State() == WithErrors(s, PriceErrors(r) + SkuErrors(r, productId, owner));
    var attrsOk := ValidateAttributes(v);
    ok := ok && attrsOk;
    assert v.State() == WithErrors(s, RowErrors(r, productId, owner));
  }

  /**
   * `validate_variations`: every row goes through the checks once; the
   * result is valid exactly when none of them failed.
   */
  method ValidateVariations(vs: seq<VariationData>, productId: int, owner: SkuOwner) returns (valid: bool)
    requires Distinct(vs)
    modifies vs
    ensures valid <==> AllValid(old(States(vs)), productId, owner)
    ensures States(vs) == Validated(old(States(vs)), productId, owner)
  {
    ghost var before := States(vs);
    valid := true;
    var i := 0;
    while i < |vs|
      invariant 0 <= i <= |vs|
      invariant valid <==> AllValid(before[..i], productId, owner)
      invariant States(vs) == Validated(before, productId, owner)[..i] + before[i..]
    {
      valid := ValidateStep(vs, i, productId, owner, before, valid);
      i := i + 1;
    }
    SpliceDone(Validated(before, productId, owner), before);
  }

  lemma SpliceDone<T>(after: seq<T>, before: seq<T>)
    requires |after| == |before|
    ensures after[..|before|] + before[|before|..] == after
    ensures before[..|before|] == before
  {
  }

  /** One turn of the loop, with the loop's invariant before and after. */
  method ValidateStep(vs: seq<VariationData>, i: nat, productId: int, owner: SkuOwner, ghost before: seq<RowState>, valid: bool)
    returns (valid': bool)
    requires Distinct(vs) && i < |vs| == |before|
    requires valid <==> AllValid(before[..i], productId, owner)
    requires States(vs) == Validated(before, productId, owner)[..i] + before[i..]
    modifies vs[i]
    ensures valid' <==> AllValid(before[..i + 1], productId, owner)
    ensures States(vs) == Validated(before, productId, owner)[..i + 1] + before[i + 1..]
  {
    ghost var after := Validated(before, productId, owner);
    AllValidStep(before, i, productId, owner);
    SpliceStep(after, before, i);
    ghost var cur := States(vs);
    assert cur[i] == before[i];
    var ok := ValidateAt(vs, i, productId, owner);
    assert States(vs) == cur[i := after[i]];
    valid' := valid && ok;
  }

  /** The loop body: the checks of row `i`, which touch no other row. */
  method ValidateAt(vs: seq<VariationData>, i: nat, productId: int, owner: SkuOwner) returns (ok: bool)
    requires Distinct(vs) && i < |vs|
    modifies vs[i]
    ensures ok <==> RowErrors(old(vs[i].ToArray()), productId, owner) == []
    ensures States(vs) == old(States(vs))[i := Checked(old(vs[i].State()), productId, owner)]
  {
    ghost var before := States(vs);
    ok := ValidateRow(vs[i], productId, owner);
    forall k | 0 <= k < |vs| && k != i
      ensures vs[k].State() == before[k]
    {
      assert vs[k] != vs[i];
    }
  }

  /** Replacing the next old element by its new version moves the boundary by one. */
  lemma SpliceStep<T>(after: seq<T>, before: seq<T>, i: nat)
    requires |after| == |before| && i < |before|
    ensures (after[..i] + before[i..])[i := after[i]] == after[..i + 1] + before[i + 1..]
  {
  }

  lemma AllValidStep(rows: seq<RowState>, i: nat, productId: int, owner: SkuOwner)
    requires i < |rows|
    ensures AllValid(rows[..i + 1], productId, owner) <==>
      AllValid(rows[..i], productId, owner) && RowErrors(rows[i].row, productId, owner) == []
  {
    TakeStep(rows, i);
  }

  /** The id of the first taxonomy whose label equals the name, ignoring case. */
  function AttributeIdByLabel(taxonomies: seq<AttributeTaxonomy>, name: string): Option<int> {
    if taxonomies == [] then None
    else if Lower(taxonomies[0].attributeLabel) == Lower(name) then Some(taxonomies[0].id)
    else AttributeIdByLabel(taxonomies[1..], name)
  }

  /** The id of the first term whose name equals the name, ignoring case. */
  function TermIdIgnoringCase(terms: seq<Term>, name: string): Option<int> {
    if terms == [] then None
    else if Lower(terms[0].name) == Lower(name) then Some(terms[0].id)
    else TermIdIgnoringCase(terms[1..], name)
  }

  /** An exact-name hit first, then the first match ignoring case. */
  function ExistingTermId(terms: seq<Term>, name: string): Option<int> {
    match TermByName(terms, name)
    case Some(t) => Some(t.id)
    case None => TermIdIgnoringCase(terms, name)
  }

  /**
   * The label search finds the first taxonomy whose label matches ignoring
   * case, and finds nothing exactly when no label matches.
   */
  lemma {:induction false} AttributeIdByLabelIsFirst(taxonomies: seq<AttributeTaxonomy>, name: string)
    ensures AttributeIdByLabel(taxonomies, name).None? <==>
      forall i :: 0 <= i < |taxonomies| ==> Lower(taxonomies[i].attributeLabel) != Lower(name)
    ensures AttributeIdByLabel(taxonomies, name).Some? ==>
      exists i :: 0 <= i < |taxonomies| && Lower(taxonomies[i].attributeLabel) == Lower(name) &&
        AttributeIdByLabel(taxonomies, name).value == taxonomies[i].id &&
        forall j :: 0 <= j < i ==> Lower(taxonomies[j].attributeLabel) != Lower(name)
    decreases |taxonomies|
  {
    if taxonomies != [] {
      var rest := taxonomies[1..];
      AttributeIdByLabelIsFirst(rest, name);
      if Lower(taxonomies[0].attributeLabel) == Lower(name) {
        assert 0 < |taxonomies|;
      } else if AttributeIdByLabel(rest, name).Some? {
        var i :| 0 <= i < |rest| && Lower(rest[i].attributeLabel) == Lower(name) &&
          AttributeIdByLabel(rest, name).value == rest[i].id &&
          forall j :: 0 <= j < i ==> Lower(rest[j].attributeLabel) != Lower(name);
        assert taxonomies[i + 1] == rest[i];
        forall j | 0 <= j < i + 1 ensures Lower(taxonomies[j].attributeLabel) != Lower(name) {
          if j > 0 {
            assert taxonomies[j] == rest[j - 1];
          }
        }
      } else {
        forall i | 0 <= i < |taxonomies| ensures Lower(taxonomies[i].attributeLabel) != Lower(name) {
          if i > 0 {
            assert taxonomies[i] == rest[i - 1];
          }
        }
      }
    }
  }

  /**
   * The case-insensitive term search finds the first term whose name
   * matches ignoring case, and nothing exactly when none does.
   */
  lemma {:induction false} TermIdIgnoringCaseIsFirst(terms: seq<Term>, name: string)
    ensures TermIdIgnoringCase(terms, name).None? <==>
      forall i :: 0 <= i < |terms| ==> Lower(terms[i].name) != Lower(name)
    ensures TermIdIgnoringCase(terms, name).Some? ==>
      exists i :: 0 <= i < |terms| && Lower(terms[i].name) == Lower(name) &&
        TermIdIgnoringCase(terms, name).value == terms[i].id &&
        forall j :: 0 <= j < i ==> Lower(terms[j].name) != Lower(name)
    decreases |terms|
  {
    if terms != [] {
      var rest := terms[1..];
      TermIdIgnoringCaseIsFirst(rest, name);
      if Lower(terms[0].name) == Lower(name) {
        assert 0 < |terms|;
      } else if TermIdIgnoringCase(rest, name).Some? {
        var i :| 0 <= i < |rest| && Lower(rest[i].name) == Lower(name) &&
          TermIdIgnoringCase(rest, name).value == rest[i].id &&
          forall j :: 0 <= j < i ==> Lower(rest[j].name) != Lower(name);
        assert terms[i + 1] == rest[i];
        forall j | 0 <= j < i + 1 ensures Lower(terms[j].name) != Lower(name) {
          if j > 0 {
            assert terms[j] == rest[j - 1];
          }
        }
      } else {
        forall i | 0 <= i < |terms| ensures Lower(terms[i].name) != Lower(name) {
          if i > 0 {
            assert terms[i] == rest[i - 1];
          }
        }
      }
    }
  }

  /**
   * The term lookup: a term with exactly the name wins; failing that any
   * term matching ignoring case; nothing exactly when no name matches
   * even ignoring case.
   */
  lemma ExistingTermIdPrefersExact(terms: seq<Term>, name: string)
    ensures (exists i :: 0 <= i < |terms| && terms[i].name == name) ==>
      ExistingTermId(terms, name) == Some(TermByName(terms, name).value.id)
    ensures ExistingTermId(terms, name).None? <==> forall i :: 0 <= i < |terms| ==> Lower(terms[i].name) != Lower(name)
  {
    TermIdIgnoringCaseIsFirst(terms, name);
    if TermByName(terms, name).Some? {
      var t := TermByName(terms, name).value;
      var i :| 0 <= i < |terms| && terms[i] == t;
      assert Lower(terms[i].name) == Lower(name);
    }
  }

  /** `get_existing_attribute_id`, over the registered taxonomies. */
  method GetExistingAttributeId(taxonomies: seq<AttributeTaxonomy>, name: string) returns (r: Option<int>)
    ensures r == AttributeIdByLabel(taxonomies, name)
  {
    var i := 0;
    while i < |taxonomies|
      invariant 0 <= i <= |taxonomies|
      invariant AttributeIdByLabel(taxonomies, name) == AttributeIdByLabel(taxonomies[i..], name)
    {
      DropStep(taxonomies, i);
      if Lower(taxonomies[i].attributeLabel) == Lower(name) {
        return Some(taxonomies[i].id);
      }
      i := i + 1;
    }
    return None;
  }

  /** `get_existing_term_id`, over the terms of the taxonomy. */
  method GetExistingTermId(terms: seq<Term>, name: string) returns (r: Option<int>)
    ensures r == ExistingTermId(terms, name)
  {
    var exact := TermByName(terms, name);
    if exact.Some? {
      return Some(exact.value.id);
    }
    var i := 0;
    while i < |terms|
      invariant 0 <= i <= |terms|
      invariant TermIdIgnoringCase(terms, name) == TermIdIgnoringCase(terms[i..], name)
    {
      DropStep(terms, i);
      if Lower(terms[i].name) == Lower(name) {
        return Some(terms[i].id);
      }
      i := i + 1;
    }
    return None;
  }
}
