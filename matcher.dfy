/**
 * `Parser::match_existing_variations` and its helpers: the normalised,
 * order-dependent match key, the display form of an existing variation's
 * attributes, the map from key to existing variation, and the
 * classification of each input row as new, update or unchanged.
 */
module Matcher {
  import opened Wrappers
  import opened Seqs
  import opened Dicts
  import opened Text
  import opened Headers
  import opened Variations
  import opened Platform

  /** The separator between the parts of a match key. */
  const Bar: char := '|'

  /** The two prices are treated as equal when they differ by less than this. */
  const Epsilon: real := 0.01

  /** `preg_replace('/\s+/', ' ', trim(strtolower($value)))`. */
  function MatchValue(v: string): string {
    Collapse(Trim(Lower(v)))
  }

  lemma LowerUpper(v: string)
    ensures Lower(Upper(v)) == Lower(v)
  {
    forall i | 0 <= i < |v| ensures LowerChar(UpperChar(v[i])) == LowerChar(v[i]) {
    }
  }

  lemma LowerBlank(w: string)
    requires AllTrim(w)
    ensures Lower(w) == w
  {
  }

  /** The match value ignores case: upper-casing or title-casing a value does not change it. */
  lemma MatchValueIgnoresCase(v: string)
    ensures MatchValue(Upper(v)) == MatchValue(v)
    ensures MatchValue(TitleCase(v)) == MatchValue(v)
  {
    LowerUpper(v);
    LowerOfTitle(v, false);
  }

  /** Whitespace at either end (of the kinds `trim` strips) does not change the match value. */
  lemma MatchValueIgnoresEdges(p: string, v: string, q: string)
    requires AllTrim(p) && AllTrim(q)
    ensures MatchValue(p + v + q) == MatchValue(v)
  {
    LowerAppend(p + v, q);
    LowerAppend(p, v);
    LowerBlank(p);
    LowerBlank(q);
    TrimPadded(p, Lower(v), q);
  }

  /**
   * Replacing one non-empty run of blanks (space, tab, newline, carriage
   * return, vertical tab) by another does not change the match value.
   */
  lemma MatchValueIgnoresRuns(x: string, w1: string, w2: string, y: string)
    requires w1 != [] && w2 != [] && AllBlank(w1) && AllBlank(w2)
    ensures MatchValue(x + w1 + y) == MatchValue(x + w2 + y)
  {
    var lx, ly := Lower(x), Lower(y);
    LowerAppend(x + w1, y);
    LowerAppend(x, w1);
    LowerAppend(x + w2, y);
    LowerAppend(x, w2);
    assert AllTrim(w1) && AllTrim(w2) && AllSpace(w1) && AllSpace(w2);
    LowerBlank(w1);
    LowerBlank(w2);
    TrimAroundRun(lx, w1, ly);
    TrimAroundRun(lx, w2, ly);
    if !AllTrim(lx) && !AllTrim(ly) {
      CollapseRun(TrimLeft(lx), w1, w2, TrimRight(ly));
    }
  }

  /** The parts of the key: one per attribute name, in order, `''` for a missing value. */
  function KeyParts(attrs: Dict<string>, names: seq<string>): (parts: seq<string>)
    ensures |parts| == |names|
  {
    seq(|names|, i requires 0 <= i < |names| => MatchValue(GetOr(attrs, names[i], "")))
  }

  /** `build_simple_attribute_key`. */
  function BuildAttributeKey(attrs: Dict<string>, names: seq<string>): string {
    Join(KeyParts(attrs, names), Bar)
  }

  predicate BarFree(parts: seq<string>) {
    forall i :: 0 <= i < |parts| ==> Bar !in parts[i]
  }

  /** When no value contains `|`, the key splits back into one part per attribute name. */
  lemma AttributeKeySplits(attrs: Dict<string>, names: seq<string>)
    requires |names| >= 1 && BarFree(KeyParts(attrs, names))
    ensures Split(BuildAttributeKey(attrs, names), Bar) == KeyParts(attrs, names)
  {
    SplitJoin(KeyParts(attrs, names), Bar);
  }

  /**
   * When no value contains `|`, two rows get the same key exactly when their
   * match values agree name by name.
   */
  lemma AttributeKeyMatches(a1: Dict<string>, a2: Dict<string>, names: seq<string>)
    requires |names| >= 1
    requires BarFree(KeyParts(a1, names)) && BarFree(KeyParts(a2, names))
    ensures BuildAttributeKey(a1, names) == BuildAttributeKey(a2, names) <==>
      forall i :: 0 <= i < |names| ==> MatchValue(GetOr(a1, names[i], "")) == MatchValue(GetOr(a2, names[i], ""))
  {
    var k1, k2 := KeyParts(a1, names), KeyParts(a2, names);
    AttributeKeySplits(a1, names);
    AttributeKeySplits(a2, names);
    if BuildAttributeKey(a1, names) == BuildAttributeKey(a2, names) {
      assert k1 == k2;
      forall i | 0 <= i < |names|
        ensures MatchValue(GetOr(a1, names[i], "")) == MatchValue(GetOr(a2, names[i], ""))
      {
        assert k1[i] == k2[i];
      }
    }
    if forall i :: 0 <= i < |names| ==> MatchValue(GetOr(a1, names[i], "")) == MatchValue(GetOr(a2, names[i], "")) {
      assert k1 == k2;
    }
  }

  /** Resolves a term slug in a taxonomy to the term's name (`get_term_by('slug', ...)`). */
  type TermNames = (string, string) -> Option<string>

  /** The display value of one attribute of an existing variation. */
  function DisplayValue(attrs: Dict<string>, name: string, p: Platform, termName: TermNames): string {
    var taxonomy := p.taxonomyName(p.sanitizeTitle(name));
    if HasKey(attrs, taxonomy) then termName(taxonomy, Get(attrs, taxonomy)).GetOr(Get(attrs, taxonomy))
    else if HasKey(attrs, name) then Get(attrs, name)
    else ""
  }

  /** `normalize_attributes_for_display`. */
  function DisplayAttributes(attrs: Dict<string>, names: seq<string>, p: Platform, termName: TermNames): Dict<string> {
    Assign(names, seq(|names|, i requires 0 <= i < |names| => DisplayValue(attrs, names[i], p, termName)))
  }

  /**
   * The display form has exactly the attribute names as keys, in order, and
   * each holds the term name behind the taxonomy slug, the raw value stored
   * under the plain name, or `''`.
   */
  lemma DisplayAttributesShape(attrs: Dict<string>, names: seq<string>, p: Platform, termName: TermNames)
    ensures Keys(DisplayAttributes(attrs, names, p, termName)) == Dedup(names)
    ensures forall i :: 0 <= i < |names| ==>
      Lookup(DisplayAttributes(attrs, names, p, termName), names[i]) == Some(DisplayValue(attrs, names[i], p, termName))
  {
    var values := seq(|names|, i requires 0 <= i < |names| => DisplayValue(attrs, names[i], p, termName));
    AssignKeys(names, values);
    assert ValuesAgree(names, values);
    forall i | 0 <= i < |names|
      ensures Lookup(Assign(names, values), names[i]) == Some(values[i])
    {
      AssignConsistent(names, values, i);
    }
  }

  /** An existing variation as the catalog reports it. */
  datatype ExistingVariation = ExistingVariation(id: int, regularPrice: string, sku: string, attributes: Dict<string>)

  /** The product being matched against: its type and its children (`None` when a child cannot be loaded). */
  datatype ProductSnapshot = ProductSnapshot(productType: string, children: seq<Option<ExistingVariation>>)

  /** An entry of `$existing_map`. */
  datatype Existing = Existing(id: int, price: string, sku: string, attributes: Dict<string>)

  /** The children that could be loaded, in order. */
  function Loaded(children: seq<Option<ExistingVariation>>): (ls: seq<ExistingVariation>)
    ensures |ls| <= |children|
    ensures forall i :: 0 <= i < |ls| ==> Some(ls[i]) in children
  {
    if children == [] then []
    else
      var front := Loaded(children[..|children| - 1]);
      assert forall x :: x in children[..|children| - 1] ==> x in children;
      match children[|children| - 1]
      case None => front
      case Some(v) => front + [v]
  }

  function EntryFor(v: ExistingVariation, names: seq<string>, p: Platform, termName: TermNames): Existing {
    Existing(v.id, v.regularPrice, v.sku, DisplayAttributes(v.attributes, names, p, termName))
  }

  function EntryKey(v: ExistingVariation, names: seq<string>, p: Platform, termName: TermNames): string {
    BuildAttributeKey(EntryFor(v, names, p, termName).attributes, names)
  }

  function EntryKeys(ls: seq<ExistingVariation>, names: seq<string>, p: Platform, termName: TermNames): (ks: seq<string>)
    ensures |ks| == |ls|
  {
    seq(|ls|, i requires 0 <= i < |ls| => EntryKey(ls[i], names, p, termName))
  }

  function Entries(ls: seq<ExistingVariation>, names: seq<string>, p: Platform, termName: TermNames): (es: seq<Existing>)
    ensures |es| == |ls|
  {
    seq(|ls|, i requires 0 <= i < |ls| => EntryFor(ls[i], names, p, termName))
  }

  /** `$existing_map`: each loaded child stored under its key, in turn. */
  function ExistingMap(children: seq<Option<ExistingVariation>>, names: seq<string>, p: Platform, termName: TermNames): Dict<Existing> {
    var ls := Loaded(children);
    Assign(EntryKeys(ls, names, p, termName), Entries(ls, names, p, termName))
  }

  /**
   * The map's keys are the keys of the loaded children, and when two
   * children share a key the later one wins.
   */
  lemma ExistingMapLaterWins(children: seq<Option<ExistingVariation>>, names: seq<string>, p: Platform, termName: TermNames)
    ensures var ls := Loaded(children);
      var ks := EntryKeys(ls, names, p, termName);
      && (forall k :: HasKey(ExistingMap(children, names, p, termName), k) <==> k in ks)
      && forall i :: 0 <= i < |ls| && LastOf(ks, i) ==>
        Lookup(ExistingMap(children, names, p, termName), ks[i]) == Some(EntryFor(ls[i], names, p, termName))
  {
    var ls := Loaded(children);
    var ks := EntryKeys(ls, names, p, termName);
    var es := Entries(ls, names, p, termName);
    forall k ensures HasKey(Assign(ks, es), k) <==> k in ks {
      AssignOnly(ks, es, k);
    }
    forall i | 0 <= i < |ls| && LastOf(ks, i)
      ensures Lookup(Assign(ks, es), ks[i]) == Some(es[i])
    {
      AssignValueAt(ks, es, i);
    }
  }

  function Abs(x: real): real {
    if x < 0.0 then -x else x
  }

  /** The reconciliation of one input row against the existing map. */
  function Classify(r: RowState, m: Dict<Existing>, names: seq<string>): RowState {
    var key := BuildAttributeKey(r.row.attributes, names);
    match Lookup(m, key)
    case Some(e) =>
      var oldPrice := FloatVal(e.price);
      var newPrice := r.row.price.GetOr(0.0);
      RowState(r.row, Some(if Abs(oldPrice - newPrice) < Epsilon then Unchanged else Update), Some(e.id), Some(oldPrice))
    case None =>
      RowState(r.row, Some(New), r.existingId, r.oldPrice)
  }

  /** The id of the existing entry a row matches, if any. */
  function MatchedId(r: RowState, m: Dict<Existing>, names: seq<string>): Option<int> {
    match Lookup(m, BuildAttributeKey(r.row.attributes, names))
    case Some(e) => Some(e.id)
    case None => None
  }

  /** `$matched_ids`: the ids of the existing entries the rows matched, in row order. */
  function MatchedIds(rows: seq<RowState>, m: Dict<Existing>, names: seq<string>): seq<int> {
    if rows == [] then []
    else
      var n := |rows| - 1;
      var front := MatchedIds(rows[..n], m, names);
      match MatchedId(rows[n], m, names)
      case Some(id) => front + [id]
      case None => front
  }

  /**
   * The row shown for an existing variation no input row matched: its SKU
   * and price sanitised, its display attributes sanitised, row number 0, no
   * errors, unchanged, with the variation's id and `floatval` of its price.
   * `UnmatchedRowConstructed` shows this is what the constructor makes of
   * `UnmatchedData`.
   */
  function UnmatchedRow(e: Existing, names: seq<string>, p: Platform, termName: TermNames): RowState {
    var attrs := DisplayAttributes(e.attributes, names, p, termName);
    var row := RowArray(Some(p.sanitizeText(e.sku)), Some(SanitizePrice(e.price)), MapValues(attrs, p.sanitizeText), 0, []);
    RowState(row, Some(Unchanged), Some(e.id), Some(FloatVal(e.price)))
  }

  /** `array_merge($a, $b)` for string keys: the entries of `b` stored into `a` in turn. */
  function PutAll(a: Dict<string>, b: Dict<string>): Dict<string>
    decreases |b|
  {
    if b == [] then a
    else
      var n := |b| - 1;
      Put(PutAll(a, b[..n]), b[n].0, b[n].1)
  }

  /** The unmatched entries in the order their rows end up: each one goes in front of those before it. */
  function UnmatchedEntries(entries: seq<(string, Existing)>, matched: seq<int>): (us: seq<Existing>)
    ensures |us| <= |entries|
  {
    if entries == [] then []
    else
      var n := |entries| - 1;
      var front := UnmatchedEntries(entries[..n], matched);
      if entries[n].1.id in matched then front else [entries[n].1] + front
  }

  /** The display rows of a list of entries, in the same order. */
  function RowsOf(us: seq<Existing>, names: seq<string>, p: Platform, termName: TermNames): (rs: seq<RowState>)
    ensures |rs| == |us|
  {
    if us == [] then [] else [UnmatchedRow(us[0], names, p, termName)] + RowsOf(us[1..], names, p, termName)
  }

  /** The rows prepended for the unmatched entries. */
  function UnmatchedRows(entries: seq<(string, Existing)>, matched: seq<int>, names: seq<string>, p: Platform, termName: TermNames): seq<RowState> {
    RowsOf(UnmatchedEntries(entries, matched), names, p, termName)
  }

  /** Matching applies only to an existing product of type `variable` with children. */
  predicate Matchable(product: Option<ProductSnapshot>) {
    product.Some? && product.value.productType == "variable" && product.value.children != []
  }

  /** The rows after `match_existing_variations`. */
  function MatchSpec(rows: seq<RowState>, product: Option<ProductSnapshot>, headers: seq<string>, p: Platform, termName: TermNames): seq<RowState> {
    if !Matchable(product) then rows
    else
      var names := GetAttributeNames(headers);
      var m := ExistingMap(product.value.children, names, p, termName);
      var matched := MatchedIds(rows, m, names);
      UnmatchedRows(m, matched, names, p, termName) + ClassifyAll(rows, m, names)
  }

  /** Every input row, classified. */
  function ClassifyAll(rows: seq<RowState>, m: Dict<Existing>, names: seq<string>): (r: seq<RowState>)
    ensures |r| == |rows|
  {
    seq(|rows|, i requires 0 <= i < |rows| => Classify(rows[i], m, names))
  }

  /** A key not set by the second map keeps its value from the first. */
  lemma {:induction false} PutAllOther(a: Dict<string>, b: Dict<string>, k: string)
    requires !HasKey(b, k)
    ensures Lookup(PutAll(a, b), k) == Lookup(a, k)
    decreases |b|
  {
    if b != [] {
      var n := |b| - 1;
      HasKeyFront(b, k);
      PutAllOther(a, b[..n], k);
      PutOther(PutAll(a, b[..n]), b[n].0, b[n].1, k);
    }
  }

  /** Attribute names are never the reserved keys `price` and `sku`. */
  lemma NamesNotReserved(headers: seq<string>)
    ensures "price" !in GetAttributeNames(headers) && "sku" !in GetAttributeNames(headers)
  {
    AttributeNamesAreOwnKeys(headers);
  }

  /**
   * When no attribute's taxonomy name is itself one of the attribute names,
   * normalising an already normalised map changes nothing, so the second
   * normalisation of an unmatched variation is harmless.
   */
  lemma DisplayAttributesIdempotent(attrs: Dict<string>, names: seq<string>, p: Platform, termName: TermNames)
    requires forall i :: 0 <= i < |names| ==> p.taxonomyName(p.sanitizeTitle(names[i])) !in names
    ensures DisplayAttributes(DisplayAttributes(attrs, names, p, termName), names, p, termName) == DisplayAttributes(attrs, names, p, termName)
  {
    var d1 := DisplayAttributes(attrs, names, p, termName);
    var vs1 := seq(|names|, i requires 0 <= i < |names| => DisplayValue(attrs, names[i], p, termName));
    var vs2 := seq(|names|, i requires 0 <= i < |names| => DisplayValue(d1, names[i], p, termName));
    assert ValuesAgree(names, vs1);
    forall i | 0 <= i < |names| ensures vs2[i] == vs1[i] {
      AssignOnly(names, vs1, p.taxonomyName(p.sanitizeTitle(names[i])));
      AssignOnly(names, vs1, names[i]);
      AssignConsistent(names, vs1, i);
    }
    assert vs2 == vs1;
  }

  lemma LoadedStep(children: seq<Option<ExistingVariation>>, i: nat)
    requires i < |children|
    ensures children[i].None? ==> Loaded(children[..i + 1]) == Loaded(children[..i])
    ensures children[i].Some? ==> Loaded(children[..i + 1]) == Loaded(children[..i]) + [children[i].value]
  {
    TakeStep(children, i);
  }

  lemma EntriesSnoc(ls: seq<ExistingVariation>, v: ExistingVariation, names: seq<string>, p: Platform, termName: TermNames)
    ensures EntryKeys(ls + [v], names, p, termName) == EntryKeys(ls, names, p, termName) + [EntryKey(v, names, p, termName)]
    ensures Entries(ls + [v], names, p, termName) == Entries(ls, names, p, termName) + [EntryFor(v, names, p, termName)]
  {
    var s := ls + [v];
    var ks := EntryKeys(s, names, p, termName);
    var ks' := EntryKeys(ls, names, p, termName) + [EntryKey(v, names, p, termName)];
    forall i | 0 <= i < |s| ensures ks[i] == ks'[i] {
      if i < |ls| { assert s[i] == ls[i]; }
    }
    var es := Entries(s, names, p, termName);
    var es' := Entries(ls, names, p, termName) + [EntryFor(v, names, p, termName)];
    forall i | 0 <= i < |s| ensures es[i] == es'[i] {
      if i < |ls| { assert s[i] == ls[i]; }
    }
  }

  /** One more child read into the map. */
  lemma ExistingMapStep(children: seq<Option<ExistingVariation>>, i: nat, names: seq<string>, p: Platform, termName: TermNames)
    requires i < |children|
    ensures children[i].None? ==> ExistingMap(children[..i + 1], names, p, termName) == ExistingMap(children[..i], names, p, termName)
    ensures children[i].Some? ==> (ExistingMap(children[..i + 1], names, p, termName) ==
      Put(ExistingMap(children[..i], names, p, termName), EntryKey(children[i].value, names, p, termName), EntryFor(children[i].value, names, p, termName)))
  {
    LoadedStep(children, i);
    if children[i].Some? {
      var ls := Loaded(children[..i]);
      var v := children[i].value;
      EntriesSnoc(ls, v, names, p, termName);
      AssignSnoc(EntryKeys(ls, names, p, termName), Entries(ls, names, p, termName), EntryKey(v, names, p, termName), EntryFor(v, names, p, termName));
    }
  }

  /**
   * The entries given a display row are exactly those whose id no row
   * matched; `UnmatchedEntriesOrder` gives their number and order.
   */
  lemma {:induction false} UnmatchedEntriesFacts(entries: seq<(string, Existing)>, matched: seq<int>)
    ensures var us := UnmatchedEntries(entries, matched);
      && (forall i :: 0 <= i < |us| ==> us[i].id !in matched && exists k :: 0 <= k < |entries| && entries[k].1 == us[i])
      && forall k :: 0 <= k < |entries| && entries[k].1.id !in matched ==> entries[k].1 in us
    decreases |entries|
  {
    if entries != [] {
      var n := |entries| - 1;
      var front := entries[..n];
      UnmatchedEntriesFacts(front, matched);
      var fs := UnmatchedEntries(front, matched);
      var us := UnmatchedEntries(entries, matched);
      forall i | 0 <= i < |us| ensures us[i].id !in matched && exists k :: 0 <= k < |entries| && entries[k].1 == us[i] {
        if entries[n].1.id in matched || i > 0 {
          var i' := if entries[n].1.id in matched then i else i - 1;
          assert us[i] == fs[i'];
          var k :| 0 <= k < |front| && front[k].1 == fs[i'];
          assert entries[k] == front[k];
        } else {
          assert us[i] == entries[n].1;
        }
      }
      forall k | 0 <= k < |entries| && entries[k].1.id !in matched ensures entries[k].1 in us {
        if k < n {
          assert entries[k] == front[k];
          assert front[k].1 in fs;
        }
      }
    }
  }

  /** The entries whose id no row matched, in map order: the filter of the third loop, read front to back. */
  function KeptEntries(entries: seq<(string, Existing)>, matched: seq<int>): seq<Existing>
  {
    if entries == [] then []
    else (if entries[0].1.id in matched then [] else [entries[0].1]) + KeptEntries(entries[1..], matched)
  }

  /** Filtering one more entry at the end keeps it at the end exactly when it is unmatched. */
  lemma {:induction false} KeptEntriesSnoc(entries: seq<(string, Existing)>, matched: seq<int>)
    requires entries != []
    ensures var n := |entries| - 1;
      KeptEntries(entries, matched) ==
        KeptEntries(entries[..n], matched) + (if entries[n].1.id in matched then [] else [entries[n].1])
    decreases |entries|
  {
    var n := |entries| - 1;
    if n > 0 {
      var tail := entries[1..];
      assert tail[..n - 1] == entries[..n][1..];
      KeptEntriesSnoc(tail, matched);
      assert tail[n - 1] == entries[n];
    }
  }

  /**
   * `array_unshift` in the third loop: one display row per entry whose id
   * no row matched, each entry once, in reverse map order, so the entry
   * read last is in front.
   */
  lemma {:induction false} UnmatchedEntriesOrder(entries: seq<(string, Existing)>, matched: seq<int>)
    ensures UnmatchedEntries(entries, matched) == Reverse(KeptEntries(entries, matched))
    ensures |UnmatchedEntries(entries, matched)| == |KeptEntries(entries, matched)|
    decreases |entries|
  {
    if entries != [] {
      var n := |entries| - 1;
      UnmatchedEntriesOrder(entries[..n], matched);
      KeptEntriesSnoc(entries, matched);
      var k := KeptEntries(entries[..n], matched);
      if entries[n].1.id in matched {
        assert k + [] == k;
      } else {
        ReverseSnoc(k, entries[n].1);
      }
    }
  }

  /**
   * The matcher's result has one row per input row plus one display row
   * per entry of the existing map that no row matched.
   */
  lemma MatchSpecLength(rows: seq<RowState>, product: Option<ProductSnapshot>, headers: seq<string>, p: Platform, termName: TermNames)
    ensures !Matchable(product) ==> MatchSpec(rows, product, headers, p, termName) == rows
    ensures Matchable(product) ==>
      var names := GetAttributeNames(headers);
      var m := ExistingMap(product.value.children, names, p, termName);
      |MatchSpec(rows, product, headers, p, termName)| == |rows| + |KeptEntries(m, MatchedIds(rows, m, names))|
  {
    if Matchable(product) {
      var names := GetAttributeNames(headers);
      var m := ExistingMap(product.value.children, names, p, termName);
      UnmatchedEntriesOrder(m, MatchedIds(rows, m, names));
    }
  }

  /**
   * The display row of an unmatched entry is what the constructor builds
   * from `array_merge(['price' => …, 'sku' => …], $display_attributes)`
   * with row number 0: since no attribute is called `price` or `sku`, the
   * merge only appends the attributes, and the constructor takes the two
   * reserved keys back out.
   */
  lemma UnmatchedRowConstructed(e: Existing, names: seq<string>, p: Platform, termName: TermNames)
    requires "price" !in names && "sku" !in names
    ensures Construct(UnmatchedData(e, names, p, termName), 0, p.sanitizeText) == UnmatchedRow(e, names, p, termName).row
  {
    var d := DisplayAttributes(e.attributes, names, p, termName);
    UnmatchedDataAppends(e, names, p, termName);
    StripReserved(e.price, e.sku, d);
  }

  /** No attribute is called `price` or `sku`, so the merge appends the display attributes. */
  lemma UnmatchedDataAppends(e: Existing, names: seq<string>, p: Platform, termName: TermNames)
    requires "price" !in names && "sku" !in names
    ensures var d := DisplayAttributes(e.attributes, names, p, termName);
      && !HasKey(d, "price") && !HasKey(d, "sku")
      && UnmatchedData(e, names, p, termName) == [("price", e.price), ("sku", e.sku)] + d
  {
    var d := DisplayAttributes(e.attributes, names, p, termName);
    var base: Dict<string> := [("price", e.price), ("sku", e.sku)];
    DisplayAttributesShape(e.attributes, names, p, termName);
    DedupHas(names, "price");
    DedupHas(names, "sku");
    forall k | HasKey(d, k) ensures !HasKey(base, k) {
      DedupHas(names, k);
      assert Keys(base) == ["price", "sku"];
    }
    PutAllFresh(base, d);
  }

  /**
   * Putting `price` and `sku` in front of a map that has neither and taking
   * them out again gives the map back; both read as given in between.
   */
  lemma StripReserved(x: string, y: string, d: Dict<string>)
    requires !HasKey(d, "price") && !HasKey(d, "sku")
    ensures DistinctKeys([("price", x), ("sku", y)] + d)
    ensures var data: Dict<string> := [("price", x), ("sku", y)] + d;
      && Lookup(data, "price") == Some(x) && Lookup(data, "sku") == Some(y)
      && Remove(Remove(data, "sku"), "price") == d
  {
    var tail := [("sku", y)] + d;
    ConsDistinct(("sku", y), d);
    assert Keys(tail) == ["sku"] + Keys(d);
    ConsDistinct(("price", x), tail);
    var data: Dict<string> := [("price", x)] + tail;
    assert data == [("price", x), ("sku", y)] + d;
    LookupAt(data, 0);
    LookupAt(data, 1);
    RemoveAbsent(d, "sku");
    RemoveAbsent(d, "price");
    assert data[1..] == tail && tail[1..] == d;
    assert Remove(data, "sku") == [("price", x)] + d;
    assert ([("price", x)] + d)[1..] == d;
  }

  /**
   * The display row of an unmatched entry has one attribute per attribute
   * name, in order, each the sanitised display value.
   */
  lemma UnmatchedRowShape(e: Existing, names: seq<string>, p: Platform, termName: TermNames)
    ensures var attrs := UnmatchedRow(e, names, p, termName).row.attributes;
      && Keys(attrs) == Dedup(names)
      && forall i :: 0 <= i < |names| ==>
        Lookup(attrs, names[i]) == Some(p.sanitizeText(DisplayValue(e.attributes, names[i], p, termName)))
  {
    var d := DisplayAttributes(e.attributes, names, p, termName);
    DisplayAttributesShape(e.attributes, names, p, termName);
    forall i | 0 <= i < |names|
      ensures Lookup(MapValues(d, p.sanitizeText), names[i]) == Some(p.sanitizeText(DisplayValue(e.attributes, names[i], p, termName)))
    {
      MapValuesLookup(d, p.sanitizeText, names[i]);
    }
  }

  /** `array_merge` of a map whose keys are all new appends it. */
  lemma {:induction false} PutAllFresh(a: Dict<string>, b: Dict<string>)
    requires forall k :: HasKey(b, k) ==> !HasKey(a, k)
    ensures PutAll(a, b) == a + b
    decreases |b|
  {
    if b != [] {
      var n := |b| - 1;
      var k := b[n].0;
      FreshStep(a, b);
      PutAllFresh(a, b[..n]);
      PutNew(a + b[..n], k, b[n].1);
      AppendFront(a, b);
    }
  }

  /** The last key of `b` is in neither `a` nor the rest of `b`; the rest of `b` has only keys new to `a`. */
  lemma FreshStep(a: Dict<string>, b: Dict<string>)
    requires b != []
    requires forall k :: HasKey(b, k) ==> !HasKey(a, k)
    ensures forall k :: HasKey(b[..|b| - 1], k) ==> !HasKey(a, k)
    ensures DistinctKeys(a + b[..|b| - 1])
    ensures !HasKey(a + b[..|b| - 1], b[|b| - 1].0)
  {
    var n := |b| - 1;
    var k := b[n].0;
    var c := a + b[..n];
    assert Keys(b[..n]) == Keys(b)[..n];
    assert Keys(b)[n] == k;
    assert !HasKey(a, k);
    forall j | 0 <= j < n ensures Keys(b[..n])[j] != k {
      assert Keys(b)[j] == b[j].0;
    }
    assert Keys(c) == Keys(a) + Keys(b[..n]);
    assert k !in Keys(c);
    forall i, j | 0 <= i < j < |c| ensures c[i].0 != c[j].0 {
      if j < |a| {
        assert c[i] == a[i] && c[j] == a[j];
      } else if i >= |a| {
        assert c[i] == b[i - |a|] && c[j] == b[j - |a|];
      } else {
        assert c[i].0 == Keys(a)[i];
        assert c[j].0 == Keys(b)[j - |a|];
        assert HasKey(b, c[j].0);
      }
    }
  }

  /** `array_merge` keeps the keys of both maps. */
  lemma {:induction false} PutAllHas(a: Dict<string>, b: Dict<string>, k: string)
    ensures HasKey(PutAll(a, b), k) <==> HasKey(a, k) || HasKey(b, k)
    decreases |b|
  {
    if b != [] {
      var n := |b| - 1;
      PutAllHas(a, b[..n], k);
      HasKeyFront(b, k);
      if HasKey(PutAll(a, b[..n]), k) {
        PutKeepsKey(PutAll(a, b[..n]), b[n].0, b[n].1, k);
      }
    }
  }

  /**
   * A row is classified as new exactly when no loaded child has its key;
   * otherwise it carries the id and the price of the last child with that
   * key, and it is unchanged exactly when the prices differ by less than
   * 0.01 (a missing price counting as 0). The row data itself is kept.
   */
  lemma ClassifiedAgainstChildren(r: RowState, children: seq<Option<ExistingVariation>>, names: seq<string>, p: Platform, termName: TermNames)
    ensures var s := Classify(r, ExistingMap(children, names, p, termName), names);
      var ls := Loaded(children);
      var ks := EntryKeys(ls, names, p, termName);
      var key := BuildAttributeKey(r.row.attributes, names);
      && s.row == r.row
      && s.status.Some?
      && (s.status == Some(New) <==> key !in ks)
      && (forall i :: 0 <= i < |ks| && ks[i] == key && LastOf(ks, i) ==>
            s.existingId == Some(ls[i].id) && s.oldPrice == Some(FloatVal(ls[i].regularPrice)))
      && (key in ks ==> (s.status == Some(Unchanged) <==> Abs(s.oldPrice.value - r.row.price.GetOr(0.0)) < Epsilon))
  {
    ExistingMapLaterWins(children, names, p, termName);
    var ls := Loaded(children);
    ClassifyAgainstEntries(r, ExistingMap(children, names, p, termName), ls, EntryKeys(ls, names, p, termName), names, p, termName);
  }

  /** `ClassifiedAgainstChildren` for any map built from the entries `ls` under the keys `ks`. */
  lemma ClassifyAgainstEntries(r: RowState, m: Dict<Existing>, ls: seq<ExistingVariation>, ks: seq<string>, names: seq<string>, p: Platform, termName: TermNames)
    requires |ks| == |ls|
    requires forall k :: HasKey(m, k) <==> k in ks
    requires forall i :: 0 <= i < |ls| && LastOf(ks, i) ==> Lookup(m, ks[i]) == Some(EntryFor(ls[i], names, p, termName))
    ensures var s := Classify(r, m, names);
      var key := BuildAttributeKey(r.row.attributes, names);
      && s.row == r.row
      && s.status.Some?
      && (s.status == Some(New) <==> key !in ks)
      && (forall i :: 0 <= i < |ks| && ks[i] == key && LastOf(ks, i) ==>
            s.existingId == Some(ls[i].id) && s.oldPrice == Some(FloatVal(ls[i].regularPrice)))
      && (key in ks ==> (s.status == Some(Unchanged) <==> Abs(s.oldPrice.value - r.row.price.GetOr(0.0)) < Epsilon))
  {
    ClassifyFacts(r, m, names);
    var key := BuildAttributeKey(r.row.attributes, names);
    assert HasKey(m, key) <==> key in ks;
  }

  /** A row found in the map takes the entry's id and price; one not found is new. */
  lemma ClassifyFacts(r: RowState, m: Dict<Existing>, names: seq<string>)
    ensures var s := Classify(r, m, names);
      var key := BuildAttributeKey(r.row.attributes, names);
      && s.row == r.row
      && s.status.Some?
      && (s.status == Some(New) <==> !HasKey(m, key))
      && (HasKey(m, key) ==> s.existingId == Some(Get(m, key).id) && s.oldPrice == Some(FloatVal(Get(m, key).price)))
      && (HasKey(m, key) ==> (s.status == Some(Unchanged) <==> Abs(s.oldPrice.value - r.row.price.GetOr(0.0)) < Epsilon))
  {
  }

  /** The data the display row of an unmatched variation is built from. */
  function UnmatchedData(e: Existing, names: seq<string>, p: Platform, termName: TermNames): Dict<string> {
    PutAll([("price", e.price), ("sku", e.sku)], DisplayAttributes(e.attributes, names, p, termName))
  }

  /** The first loop of `match_existing_variations`: `$existing_map`. */
  method BuildExistingMap(children: seq<Option<ExistingVariation>>, names: seq<string>, p: Platform, termName: TermNames)
    returns (m: Dict<Existing>)
    ensures m == ExistingMap(children, names, p, termName)
  {
    m := [];
    var i := 0;
    while i < |children|
      invariant 0 <= i <= |children|
      invariant m == ExistingMap(children[..i], names, p, termName)
    {
      ExistingMapStep(children, i, names, p, termName);
      if children[i].Some? {
        var v := children[i].value;
        var attrs := DisplayAttributes(v.attributes, names, p, termName);
        m := Put(m, BuildAttributeKey(attrs, names), Existing(v.id, v.regularPrice, v.sku, attrs));
      }
      i := i + 1;
    }
    TakeAll(children);
  }

  /**
   * The second loop: every row gets its status (and, when it matches, the
   * existing id and old price); the ids matched are collected in row order.
   */
  method ClassifyRows(rows: seq<VariationData>, m: Dict<Existing>, names: seq<string>) returns (matched: seq<int>)
    requires Distinct(rows)
    modifies rows
    ensures matched == MatchedIds(old(States(rows)), m, names)
    ensures States(rows) == ClassifyAll(old(States(rows)), m, names)
  {
    ghost var before := States(rows);
    matched := [];
    var j := 0;
    while j < |rows|
      invariant 0 <= j <= |rows|
      invariant matched == MatchedIds(before[..j], m, names)
      invariant forall k :: 0 <= k < j ==> rows[k].State() == Classify(before[k], m, names)
      invariant forall k :: j <= k < |rows| ==> rows[k].State() == before[k]
    {
      MatchedIdsStep(before, j, m, names);
      var id := ClassifyAt(rows, j, m, names, before);
      if id.Some? {
        matched := matched + [id.value];
      }
      j := j + 1;
    }
    TakeAll(before);
    StatesClassified(rows, before, m, names);
  }

  /** The loop body for row `j`: it is classified, the other rows are left as they were. */
  method ClassifyAt(rows: seq<VariationData>, j: nat, m: Dict<Existing>, names: seq<string>, ghost before: seq<RowState>) returns (id: Option<int>)
    requires Distinct(rows) && j < |rows| && |before| == |rows|
    requires forall k :: 0 <= k < j ==> rows[k].State() == Classify(before[k], m, names)
    requires forall k :: j <= k < |rows| ==> rows[k].State() == before[k]
    modifies rows[j]
    ensures id == MatchedId(before[j], m, names)
    ensures forall k :: 0 <= k < j + 1 ==> rows[k].State() == Classify(before[k], m, names)
    ensures forall k :: j + 1 <= k < |rows| ==> rows[k].State() == before[k]
  {
    id := MatchOne(rows[j], m, names);
    forall k | 0 <= k < |rows| && k != j ensures rows[k].State() == old(rows[k].State()) {
      assert rows[k] != rows[j];
    }
  }

  /** Rows that each hold the classification of their old state hold `ClassifyAll` of the old states. */
  lemma StatesClassified(rows: seq<VariationData>, before: seq<RowState>, m: Dict<Existing>, names: seq<string>)
    requires |before| == |rows|
    requires forall k :: 0 <= k < |rows| ==> rows[k].State() == Classify(before[k], m, names)
    ensures States(rows) == ClassifyAll(before, m, names)
  {
  }

  lemma MatchedIdsStep(rows: seq<RowState>, j: nat, m: Dict<Existing>, names: seq<string>)
    requires j < |rows|
    ensures MatchedId(rows[j], m, names).None? ==> MatchedIds(rows[..j + 1], m, names) == MatchedIds(rows[..j], m, names)
    ensures MatchedId(rows[j], m, names).Some? ==>
      MatchedIds(rows[..j + 1], m, names) == MatchedIds(rows[..j], m, names) + [MatchedId(rows[j], m, names).value]
  {
    TakeStep(rows, j);
  }

  /** The body of the second loop for one row. */
  method MatchOne(r: VariationData, m: Dict<Existing>, names: seq<string>) returns (id: Option<int>)
    modifies r
    ensures r.State() == Classify(old(r.State()), m, names)
    ensures id == MatchedId(old(r.State()), m, names)
  {
    var key := BuildAttributeKey(r.attributes, names);
    var found := Lookup(m, key);
    if found.Some? {
      var e := found.value;
      var oldPrice := FloatVal(e.price);
      var newPrice := r.price.GetOr(0.0);
      r.SetMatch(if Abs(oldPrice - newPrice) < Epsilon then Unchanged else Update, Some(e.id), Some(oldPrice));
      id := Some(e.id);
    } else {
      r.SetMatch(New, r.existingId, r.oldPrice);
      id := None;
    }
  }

  /** The third loop: a new display row for every unmatched entry, each put in front of the others. */
  method UnmatchedObjects(m: Dict<Existing>, matched: seq<int>, names: seq<string>, p: Platform, termName: TermNames)
    returns (added: seq<VariationData>)
    requires "price" !in names && "sku" !in names
    ensures States(added) == UnmatchedRows(m, matched, names, p, termName)
    ensures forall o :: o in added ==> fresh(o)
    ensures Distinct(added)
  {
    added := [];
    var k := 0;
    while k < |m|
      invariant 0 <= k <= |m|
      invariant States(added) == UnmatchedRows(m[..k], matched, names, p, termName)
      invariant forall o :: o in added ==> fresh(o)
      invariant Distinct(added)
    {
      added := UnmatchedStep(m, k, matched, names, p, termName, added);
      k := k + 1;
    }
    TakeAll(m);
  }

  /** One iteration of the third loop. */
  method UnmatchedStep(m: Dict<Existing>, k: nat, matched: seq<int>, names: seq<string>, p: Platform, termName: TermNames, added: seq<VariationData>)
    returns (added': seq<VariationData>)
    requires "price" !in names && "sku" !in names
    requires k < |m|
    requires States(added) == UnmatchedRows(m[..k], matched, names, p, termName)
    requires Distinct(added)
    ensures States(added') == UnmatchedRows(m[..k + 1], matched, names, p, termName)
    ensures forall o :: o in added' ==> o in added || fresh(o)
    ensures Distinct(added')
  {
    UnmatchedEntriesStep(m, k, matched);
    ghost var us := UnmatchedEntries(m[..k], matched);
    var e := m[k].1;
    if e.id !in matched {
      var v := NewUnmatched(e, names, p, termName);
      DistinctCons(v, added);
      StatesAppend([v], added);
      ConsTail(e, us);
      added' := [v] + added;
    } else {
      added' := added;
    }
  }

  lemma UnmatchedEntriesStep(entries: seq<(string, Existing)>, k: nat, matched: seq<int>)
    requires k < |entries|
    ensures entries[k].1.id in matched ==> UnmatchedEntries(entries[..k + 1], matched) == UnmatchedEntries(entries[..k], matched)
    ensures entries[k].1.id !in matched ==> UnmatchedEntries(entries[..k + 1], matched) == [entries[k].1] + UnmatchedEntries(entries[..k], matched)
  {
    TakeStep(entries, k);
  }

  /** The display row of one unmatched entry: row number 0, unchanged, with the entry's id and price. */
  method NewUnmatched(e: Existing, names: seq<string>, p: Platform, termName: TermNames) returns (v: VariationData)
    requires "price" !in names && "sku" !in names
    ensures fresh(v)
    ensures v.State() == UnmatchedRow(e, names, p, termName)
  {
    v := new VariationData(UnmatchedData(e, names, p, termName), 0, p.sanitizeText);
    v.SetMatch(Unchanged, Some(e.id), Some(FloatVal(e.price)));
    UnmatchedRowConstructed(e, names, p, termName);
  }

  /**
   * `match_existing_variations`: classifies every input row against the
   * product's existing variations and puts a display row for every existing
   * variation no input row matched in front of them.
   */
  method MatchExistingVariations(rows: seq<VariationData>, product: Option<ProductSnapshot>, headers: seq<string>, p: Platform, termName: TermNames)
    returns (out: seq<VariationData>)
    requires Distinct(rows)
    modifies rows
    ensures States(out) == MatchSpec(old(States(rows)), product, headers, p, termName)
    ensures |out| >= |rows| && out[|out| - |rows|..] == rows
    ensures forall i :: 0 <= i < |out| - |rows| ==> fresh(out[i])
    ensures Distinct(out)
  {
    ghost var before := States(rows);
    if !Matchable(product) {
      return rows;
    }
    var names := GetAttributeNames(headers);
    NamesNotReserved(headers);
    var m := BuildExistingMap(product.value.children, names, p, termName);
    var matched := ClassifyRows(rows, m, names);
    var added := UnmatchedObjects(m, matched, names, p, termName);
    out := added + rows;
    forall i | 0 <= i < |added|
      ensures fresh(out[i])
    {
      assert out[i] == added[i] && added[i] in added;
    }
    assert out[|out| - |rows|..] == rows;
    StatesAppend(added, rows);
    assert forall o :: o in added ==> o !in rows;
    DistinctAppend(added, rows);
  }
}
