/**
 * One variation row (`Variation_Data`): the SKU, the regular price, the
 * ordered attribute map, the input row number and the validation errors,
 * plus the reconciliation fields the matcher sets on it.
 */
module Variations {
  import opened Wrappers
  import opened Seqs
  import opened Dicts
  import opened Text

  /** What a row will do to the catalog. */
  datatype Status = New | Update | Unchanged

  /** Validation messages, each carrying the row number it reports. */
  datatype RowError =
    | InvalidPrice(row: int)
    | SkuExists(row: int, sku: string)
    | NoAttributes(row: int)
    | EmptyAttribute(row: int, attribute: string)

  /** `to_array()`. */
  datatype RowArray = RowArray(
    sku: Option<string>,
    price: Option<real>,
    attributes: Dict<string>,
    rowNumber: int,
    errors: seq<RowError>)

  /** Everything a row object holds after matching. */
  datatype RowState = RowState(
    row: RowArray,
    status: Option<Status>,
    existingId: Option<int>,
    oldPrice: Option<real>)

  predicate IsPriceChar(c: char) {
    IsDigit(c) || c == '.'
  }

  /** `preg_replace('/[^0-9.]/', '', $s)`. */
  function PriceChars(s: string): (r: string)
    ensures |r| <= |s|
  {
    if s == [] then []
    else if IsPriceChar(s[0]) then [s[0]] + PriceChars(s[1..])
    else PriceChars(s[1..])
  }

  /** `sanitize_price`: `floatval` of the digits and dots of the input. */
  function SanitizePrice(s: string): real {
    FloatVal(PriceChars(s))
  }

  /** The characters kept are exactly the digits and dots, in order. */
  lemma {:induction false} PriceCharsKeeps(s: string)
    ensures forall i :: 0 <= i < |PriceChars(s)| ==> IsPriceChar(PriceChars(s)[i])
    ensures PriceChars(s) == s <==> forall i :: 0 <= i < |s| ==> IsPriceChar(s[i])
    ensures PriceChars(PriceChars(s)) == PriceChars(s)
  {
    if s != [] {
      PriceCharsKeeps(s[1..]);
      if !IsPriceChar(s[0]) {
        assert |PriceChars(s)| < |s|;
      }
    }
  }

  /**
   * A sanitised price is never negative and is the decimal value of the
   * leading `digits[.digits]` of what is left after the filtering.
   */
  lemma SanitizePriceValue(s: string)
    ensures SanitizePrice(s) >= 0.0
    ensures SanitizePrice(s) == DecimalValue(PriceChars(s))
  {
    var p := PriceChars(s);
    PriceCharsKeeps(s);
    assert p != [] ==> !IsNumberSpace(p[0]) && p[0] != '-' && p[0] != '+';
  }

  /** What the constructor builds from a header→value map. */
  function Construct(data: Dict<string>, rowNumber: int, clean: string -> string): RowArray {
    RowArray(
      if HasKey(data, "sku") then Some(clean(Get(data, "sku"))) else None,
      if HasKey(data, "price") then Some(SanitizePrice(Get(data, "price"))) else None,
      MapValues(AttributeEntries(data), clean),
      rowNumber,
      [])
  }

  /** The map left after `unset($data['sku'])` and `unset($data['price'])`. */
  function AttributeEntries(data: Dict<string>): Dict<string> {
    Remove(Remove(data, "sku"), "price")
  }

  /**
   * The constructor splits the map: `sku` and `price` are taken out when
   * present (and are absent otherwise), the price is the sanitised decimal
   * value of its cell and never negative, every other key becomes an attribute
   * in input order with its sanitised value, and the error list is empty.
   */
  lemma ConstructSplitsRow(data: Dict<string>, rowNumber: int, clean: string -> string)
    ensures var r := Construct(data, rowNumber, clean);
      && (r.sku.Some? <==> HasKey(data, "sku"))
      && (r.sku.Some? ==> r.sku.value == clean(Get(data, "sku")))
      && (r.price.Some? <==> HasKey(data, "price"))
      && (r.price.Some? ==> r.price.value == SanitizePrice(Get(data, "price")) && r.price.value >= 0.0)
      && Keys(r.attributes) == Without(Without(Keys(data), "sku"), "price")
      && !HasKey(r.attributes, "sku") && !HasKey(r.attributes, "price")
      && (forall k :: HasKey(r.attributes, k) ==> HasKey(data, k) && Get(r.attributes, k) == clean(Get(data, k)))
      && r.rowNumber == rowNumber
      && r.errors == []
  {
    var r := Construct(data, rowNumber, clean);
    if HasKey(data, "price") {
      SanitizePriceValue(Get(data, "price"));
    }
    var noSku := Remove(data, "sku");
    var rest := AttributeEntries(data);
    forall k | HasKey(r.attributes, k)
      ensures HasKey(data, k) && Get(r.attributes, k) == clean(Get(data, k))
    {
      assert k != "sku" && k != "price";
      RemoveLookup(data, "sku", k);
      RemoveLookup(noSku, "price", k);
      MapValuesLookup(rest, clean, k);
    }
  }

  /** One more step of the constructor's attribute loop. */
  lemma MapValuesStep(rest: Dict<string>, i: nat, clean: string -> string)
    requires i < |rest|
    ensures Put(MapValues(rest[..i], clean), rest[i].0, clean(rest[i].1)) == MapValues(rest[..i + 1], clean)
  {
    var p: Dict<string> := rest[..i];
    var k := rest[i].0;
    forall j | 0 <= j < i ensures Keys(p)[j] != k {
      assert Keys(p)[j] == rest[j].0;
    }
    assert !HasKey(MapValues(p, clean), k);
    assert rest[..i + 1] == p + [rest[i]];
  }

  class VariationData {
    var sku: Option<string>
    var price: Option<real>
    var attributes: Dict<string>
    var rowNumber: int
    var errors: seq<RowError>
    /** Set by the matcher. */
    var status: Option<Status>
    var existingId: Option<int>
    var oldPrice: Option<real>

    /** `to_array()`. */
    function ToArray(): RowArray
      reads this
    {
      RowArray(sku, price, attributes, rowNumber, errors)
    }

    function State(): RowState
      reads this
    {
      RowState(ToArray(), status, existingId, oldPrice)
    }

    /** `has_errors()`: some error was added. */
    predicate HasErrors()
      reads this
    {
      errors != []
    }

    /** `__construct($data, $row_number)`. */
    constructor (data: Dict<string>, rowNumber: int, clean: string -> string)
      ensures ToArray() == Construct(data, rowNumber, clean)
      ensures !HasErrors()
      ensures status == None && existingId == None && oldPrice == None
    {
      var rest := AttributeEntries(data);
      var attrs: Dict<string> := [];
      var i := 0;
      while i < |rest|
        invariant 0 <= i <= |rest|
        invariant attrs == MapValues(rest[..i], clean)
      {
        MapValuesStep(rest, i, clean);
        attrs := Put(attrs, rest[i].0, clean(rest[i].1));
        i := i + 1;
      }
      TakeAll(rest);
      this.rowNumber := rowNumber;
      this.errors := [];
      this.sku := if HasKey(data, "sku") then Some(clean(Get(data, "sku"))) else None;
      this.price := if HasKey(data, "price") then Some(SanitizePrice(Get(data, "price"))) else None;
      this.attributes := attrs;
      this.status := None;
      this.existingId := None;
      this.oldPrice := None;
    }

    /** Sets the fields the matcher fills in: the status, the existing id and the old price. */
    method SetMatch(s: Status, id: Option<int>, oldPrice: Option<real>)
      modifies this
      ensures State() == RowState(old(ToArray()), Some(s), id, oldPrice)
    {
      this.status := Some(s);
      this.existingId := id;
      this.oldPrice := oldPrice;
    }

    /** `add_error($error)`: appends one message and changes nothing else. */
    method AddError(e: RowError)
      modifies this
      ensures errors == old(errors) + [e]
      ensures HasErrors()
      ensures sku == old(sku) && price == old(price) && attributes == old(attributes)
      ensures rowNumber == old(rowNumber)
      ensures status == old(status) && existingId == old(existingId) && oldPrice == old(oldPrice)
    {
      errors := errors + [e];
    }
  }

  /** The states of a list of row objects, in order. */
  function States(vs: seq<VariationData>): (r: seq<RowState>)
    reads vs
    ensures |r| == |vs|
  {
    seq(|vs|, i requires 0 <= i < |vs| reads vs => vs[i].State())
  }

  /** No object appears twice in the list. */
  predicate Distinct(vs: seq<VariationData>) {
    forall i, j :: 0 <= i < j < |vs| ==> vs[i] != vs[j]
  }

  /** The states of two lists put together. */
  lemma StatesAppend(a: seq<VariationData>, b: seq<VariationData>)
    ensures States(a + b) == States(a) + States(b)
  {
  }

  lemma DistinctCons(v: VariationData, vs: seq<VariationData>)
    requires v !in vs && Distinct(vs)
    ensures Distinct([v] + vs)
  {
  }

  lemma DistinctAppend(a: seq<VariationData>, b: seq<VariationData>)
    requires Distinct(a) && Distinct(b)
    requires forall o :: o in a ==> o !in b
    ensures Distinct(a + b)
  {
    forall i, j | 0 <= i < j < |a + b| ensures (a + b)[i] != (a + b)[j] {
      if j < |a| {
      } else if i >= |a| {
        assert (a + b)[i] == b[i - |a|] && (a + b)[j] == b[j - |a|];
      } else {
        assert (a + b)[i] in a && (a + b)[j] in b;
      }
    }
  }
}
