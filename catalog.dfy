/**
 * The WooCommerce catalog the importer reads and writes, as one abstract
 * state: products and variations by id, the registered attribute
 * taxonomies in registration order, the terms of every taxonomy in the
 * order `get_terms` lists them, and the term ids assigned to each product.
 * `Catalog` is the state as a value; `Store` holds it in fields that the
 * importer's writes change in place.
 */
module Shop {
  import opened Wrappers
  import opened Dicts

  /** An entry of `wc_get_attribute_taxonomies()`. */
  datatype AttributeTaxonomy = AttributeTaxonomy(id: int, slug: string, attributeLabel: string)

  /** A term of an attribute taxonomy. */
  datatype Term = Term(id: int, name: string, slug: string)

  /** A `WC_Product_Attribute` of a product: its id, taxonomy and term ids. */
  datatype ProductAttribute = ProductAttribute(id: int, taxonomy: string, options: seq<int>)

  /**
   * A product or a variation: its type (`get_type()`), parent, regular
   * price and SKU as stored strings, a variation's attributes (taxonomy →
   * term slug), a variable product's available variations, and a
   * product's attribute list.
   */
  datatype Product = Product(
    kind: string,
    parentId: int,
    regularPrice: string,
    sku: string,
    attributes: Dict<string>,
    children: seq<int>,
    productAttributes: seq<ProductAttribute>)

  datatype Catalog = Catalog(
    products: map<int, Product>,
    taxonomies: seq<AttributeTaxonomy>,
    terms: map<string, seq<Term>>,
    objectTerms: map<(int, string), seq<int>>,
    nextId: int)

  /**
   * Ids are handed out from `nextId` upwards, so every id in use, of a
   * product, in a list of variations, of an attribute or of a term, is
   * below it, and none is 0.
   */
  predicate Valid(c: Catalog) {
    && c.nextId >= 1
    && (forall id :: id in c.products ==> 1 <= id < c.nextId)
    && (forall id, i :: id in c.products && 0 <= i < |c.products[id].children| ==> c.products[id].children[i] < c.nextId)
    && (forall i :: 0 <= i < |c.taxonomies| ==> 1 <= c.taxonomies[i].id < c.nextId)
    && (forall t, i :: t in c.terms && 0 <= i < |c.terms[t]| ==> 1 <= c.terms[t][i].id < c.nextId)
  }

  /** `get_terms(['taxonomy' => $taxonomy])`: nothing for an unknown taxonomy. */
  function TermsOf(c: Catalog, taxonomy: string): seq<Term> {
    if taxonomy in c.terms then c.terms[taxonomy] else []
  }

  /** `wp_get_object_terms($id, $taxonomy, ['fields' => 'ids'])`. */
  function ObjectTermsOf(c: Catalog, id: int, taxonomy: string): seq<int> {
    if (id, taxonomy) in c.objectTerms then c.objectTerms[(id, taxonomy)] else []
  }

  /** `get_term_by('name', $name, $taxonomy)`: the first term with exactly that name. */
  function TermByName(terms: seq<Term>, name: string): (r: Option<Term>)
    ensures r.Some? ==> r.value in terms && r.value.name == name
    ensures r.None? <==> forall i :: 0 <= i < |terms| ==> terms[i].name != name
  {
    if terms == [] then None
    else if terms[0].name == name then Some(terms[0])
    else TermByName(terms[1..], name)
  }

  /** `wc_create_attribute`: a new taxonomy with the next id, registered last. */
  function AddTaxonomy(c: Catalog, slug: string, name: string): (r: Catalog)
    ensures Valid(c) ==> Valid(r)
  {
    c.(taxonomies := c.taxonomies + [AttributeTaxonomy(c.nextId, slug, name)], nextId := c.nextId + 1)
  }

  /** `wp_insert_term`: a new term with the next id, listed last in its taxonomy. */
  function AddTerm(c: Catalog, taxonomy: string, name: string, slug: string): (r: Catalog)
    ensures Valid(c) ==> Valid(r)
  {
    c.(terms := c.terms[taxonomy := TermsOf(c, taxonomy) + [Term(c.nextId, name, slug)]], nextId := c.nextId + 1)
  }

  /** `wp_set_object_terms($id, $ids, $taxonomy)`. */
  function SetObjectTerms(c: Catalog, id: int, taxonomy: string, ids: seq<int>): (r: Catalog)
    ensures Valid(c) ==> Valid(r)
  {
    c.(objectTerms := c.objectTerms[(id, taxonomy) := ids])
  }

  /** `set_attributes` then `save()` on a product. */
  function SetProductAttributes(c: Catalog, id: int, attrs: seq<ProductAttribute>): (r: Catalog)
    requires id in c.products
    ensures Valid(c) ==> Valid(r)
  {
    c.(products := c.products[id := c.products[id].(productAttributes := attrs)])
  }

  /**
   * `wc_product_has_unique_sku($self, $sku)` is false: some other product or
   * variation already has the SKU. A product not saved yet asks with id 0.
   */
  predicate SkuTaken(c: Catalog, self: int, sku: string) {
    exists id :: id in c.products && id != self && c.products[id].sku == sku
  }

  /** The product type term set to `variable`. */
  function SetVariable(c: Catalog, id: int): (r: Catalog)
    requires id in c.products
    ensures Valid(c) ==> Valid(r)
  {
    c.(products := c.products[id := c.products[id].(kind := "variable")])
  }

  /** `set_regular_price`, then `set_sku` when a SKU is given, then `save()` on a variation. */
  function UpdateVariation(c: Catalog, id: int, price: string, sku: Option<string>): (r: Catalog)
    requires id in c.products
    ensures Valid(c) ==> Valid(r)
  {
    var v := c.products[id];
    c.(products := c.products[id := v.(regularPrice := price, sku := sku.GetOr(v.sku))])
  }

  /**
   * A new published variation saved under the next id; it becomes one of
   * its parent's available variations.
   */
  function AddVariation(c: Catalog, parentId: int, price: string, sku: string, attributes: Dict<string>): (r: Catalog)
    requires parentId in c.products
    ensures Valid(c) ==> Valid(r)
  {
    var parent := c.products[parentId];
    var v := Product("variation", parentId, price, sku, attributes, [], []);
    c.(products := c.products[parentId := parent.(children := parent.children + [c.nextId])][c.nextId := v],
       nextId := c.nextId + 1)
  }

  /** A new variation gets an id no product had, and no other product changes but its parent. */
  lemma AddVariationFresh(c: Catalog, parentId: int, price: string, sku: string, attributes: Dict<string>)
    requires Valid(c) && parentId in c.products
    ensures c.nextId !in c.products && c.nextId != 0
    ensures var c' := AddVariation(c, parentId, price, sku, attributes);
      && c'.products.Keys == c.products.Keys + {c.nextId}
      && c'.products[c.nextId] == Product("variation", parentId, price, sku, attributes, [], [])
      && c'.products[parentId].children == c.products[parentId].children + [c.nextId]
      && (forall id :: id in c.products && id != parentId ==> c'.products[id] == c.products[id])
  {
  }

  /** The catalog as objects: the fields the WooCommerce calls change. */
  class Store {
    var products: map<int, Product>
    var taxonomies: seq<AttributeTaxonomy>
    var terms: map<string, seq<Term>>
    var objectTerms: map<(int, string), seq<int>>
    var nextId: int

    function Value(): Catalog
      reads this
    {
      Catalog(products, taxonomies, terms, objectTerms, nextId)
    }

    constructor (c: Catalog)
      ensures Value() == c
    {
      products := c.products;
      taxonomies := c.taxonomies;
      terms := c.terms;
      objectTerms := c.objectTerms;
      nextId := c.nextId;
    }

    /** `wc_create_attribute`, returning the new attribute id. */
    method CreateAttribute(slug: string, name: string) returns (id: int)
      modifies this
      ensures id == old(nextId)
      ensures Value() == AddTaxonomy(old(Value()), slug, name)
    {
      id := nextId;
      taxonomies := taxonomies + [AttributeTaxonomy(id, slug, name)];
      nextId := nextId + 1;
    }

    /** `wp_insert_term`, returning the new term id. */
    method InsertTerm(taxonomy: string, name: string, slug: string) returns (id: int)
      modifies this
      ensures id == old(nextId)
      ensures Value() == AddTerm(old(Value()), taxonomy, name, slug)
    {
      id := nextId;
      var list := if taxonomy in terms then terms[taxonomy] else [];
      terms := terms[taxonomy := list + [Term(id, name, slug)]];
      nextId := nextId + 1;
    }

    method AssignTerms(id: int, taxonomy: string, ids: seq<int>)
      modifies this
      ensures Value() == SetObjectTerms(old(Value()), id, taxonomy, ids)
    {
      objectTerms := objectTerms[(id, taxonomy) := ids];
    }

    method AssignAttributes(id: int, attrs: seq<ProductAttribute>)
      requires id in products
      modifies this
      ensures Value() == SetProductAttributes(old(Value()), id, attrs)
    {
      products := products[id := products[id].(productAttributes := attrs)];
    }

    method MakeVariable(id: int)
      requires id in products
      modifies this
      ensures Value() == SetVariable(old(Value()), id)
    {
      products := products[id := products[id].(kind := "variable")];
    }

    method SaveVariation(id: int, price: string, sku: Option<string>)
      requires id in products
      modifies this
      ensures Value() == UpdateVariation(old(Value()), id, price, sku)
    {
      var v := products[id];
      products := products[id := v.(regularPrice := price, sku := sku.GetOr(v.sku))];
    }

    /** A new variation under `parentId`, returning its id. */
    method CreateVariation(parentId: int, price: string, sku: string, attributes: Dict<string>) returns (id: int)
      requires parentId in products
      modifies this
      ensures id == old(nextId)
      ensures Value() == AddVariation(old(Value()), parentId, price, sku, attributes)
    {
      id := nextId;
      var parent := products[parentId];
      products := products[parentId := parent.(children := parent.children + [id])][id := Product("variation", parentId, price, sku, attributes, [], [])];
      nextId := nextId + 1;
    }
  }
}
