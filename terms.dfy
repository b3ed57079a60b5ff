/**
 * `get_unique_attribute_terms`: for every attribute name, the distinct
 * values the rows give it, in the order they are first seen.
 */
module Terms {
  import opened Wrappers
  import opened Seqs
  import opened Dicts
  import opened Variations

  /** Every (attribute, value) pair of the rows, row by row and in attribute order. */
  function Pairs(attrs: seq<Dict<string>>): seq<(string, string)> {
    if attrs == [] then []
    else
      var n := |attrs| - 1;
      Pairs(attrs[..n]) + attrs[n]
  }

  /** The values given to attribute `k`, in order, repetitions included. */
  function ValuesFor(ps: seq<(string, string)>, k: string): seq<string> {
    if ps == [] then []
    else
      var n := |ps| - 1;
      ValuesFor(ps[..n], k) + if ps[n].0 == k then [ps[n].1] else []
  }

  /**
   * One step of the inner loop: make sure the attribute has a list, then
   * append the value unless `in_array` finds it there already.
   */
  function AddTerm(index: Dict<seq<string>>, name: string, value: string): Dict<seq<string>> {
    var index1 := if HasKey(index, name) then index else Put(index, name, []);
    var terms := Get(index1, name);
    if value in terms then index1 else Put(index1, name, terms + [value])
  }

  /** `$unique_terms` after reading the given pairs in turn. */
  function TermIndex(ps: seq<(string, string)>): Dict<seq<string>> {
    if ps == [] then []
    else
      var n := |ps| - 1;
      AddTerm(TermIndex(ps[..n]), ps[n].0, ps[n].1)
  }

  /** The attributes of each row object, in order. */
  function AttributesOf(vs: seq<VariationData>): (r: seq<Dict<string>>)
    reads vs
    ensures |r| == |vs|
  {
    seq(|vs|, i requires 0 <= i < |vs| reads vs => vs[i].attributes)
  }

  /** An attribute never seen has no values. */
  lemma {:induction false} ValuesForAbsent(ps: seq<(string, string)>, k: string)
    requires !HasKey(ps, k)
    ensures ValuesFor(ps, k) == []
    decreases |ps|
  {
    if ps != [] {
      var n := |ps| - 1;
      KeysFront(ps);
      ValuesForAbsent(ps[..n], k);
    }
  }

  /** A value is among those given to `k` exactly when the pair `(k, v)` occurs. */
  lemma {:induction false} ValuesForHas(ps: seq<(string, string)>, k: string, v: string)
    ensures v in ValuesFor(ps, k) <==> (k, v) in ps
    decreases |ps|
  {
    if ps != [] {
      var n := |ps| - 1;
      ValuesForHas(ps[..n], k, v);
      assert ps == ps[..n] + [ps[n]];
    }
  }

  /** A pair occurs in `Pairs(attrs)` exactly when some row has it. */
  lemma {:induction false} PairsHas(attrs: seq<Dict<string>>, x: (string, string))
    ensures x in Pairs(attrs) <==> exists i :: 0 <= i < |attrs| && x in attrs[i]
    decreases |attrs|
  {
    if attrs != [] {
      var n := |attrs| - 1;
      PairsHas(attrs[..n], x);
      if x in attrs[n] {
        assert 0 <= n < |attrs| && x in attrs[n];
      }
      if exists i :: 0 <= i < |attrs| && x in attrs[i] {
        var i :| 0 <= i < |attrs| && x in attrs[i];
        if i < n {
          assert x in attrs[..n][i];
        }
      }
    }
  }

  /** A step adds the attribute at the end when it is new and keeps the keys otherwise. */
  lemma AddTermKeys(index: Dict<seq<string>>, name: string, value: string)
    ensures Keys(AddTerm(index, name, value)) == if HasKey(index, name) then Keys(index) else Keys(index) + [name]
  {
  }

  /** A step changes only the attribute's own list, which gains the value unless it holds it already. */
  lemma AddTermLookup(index: Dict<seq<string>>, name: string, value: string, k: string)
    ensures k == name ==> (Lookup(AddTerm(index, name, value), k) ==
      Some(var terms := GetOr(index, name, []); if value in terms then terms else terms + [value]))
    ensures k != name ==> Lookup(AddTerm(index, name, value), k) == Lookup(index, k)
  {
    var index1 := if HasKey(index, name) then index else Put(index, name, []);
    var terms := Get(index1, name);
    if k != name {
      if !HasKey(index, name) {
        PutOther(index, name, [], k);
      }
      PutOther(index1, name, terms + [value], k);
    }
  }

  /** The index lists each attribute once, in the order the attributes first appear. */
  lemma {:induction false} TermIndexKeys(ps: seq<(string, string)>)
    ensures Keys(TermIndex(ps)) == Dedup(Keys(ps))
    decreases |ps|
  {
    if ps != [] {
      var n := |ps| - 1;
      var front := ps[..n];
      var k := ps[n].0;
      TermIndexKeys(front);
      KeysFront(ps);
      AddTermKeys(TermIndex(front), k, ps[n].1);
      DedupSnoc(Keys(front), k);
      DedupHas(Keys(front), k);
    }
  }

  /**
   * For every attribute seen, the index holds exactly the distinct values it
   * was given, in first-seen order; an attribute never seen has no entry.
   */
  lemma {:induction false} TermIndexValues(ps: seq<(string, string)>, k: string)
    ensures HasKey(ps, k) ==> Lookup(TermIndex(ps), k) == Some(Dedup(ValuesFor(ps, k)))
    ensures !HasKey(ps, k) ==> Lookup(TermIndex(ps), k) == None
    decreases |ps|
  {
    if ps != [] {
      var n := |ps| - 1;
      var front := ps[..n];
      var (name, value) := ps[n];
      var prev := TermIndex(front);
      TermIndexValues(front, k);
      KeysFront(ps);
      AddTermLookup(prev, name, value, k);
      if name == k {
        var seen := ValuesFor(front, k);
        if !HasKey(front, k) {
          ValuesForAbsent(front, k);
        }
        assert GetOr(prev, k, []) == Dedup(seen);
        assert ValuesFor(ps, k) == seen + [value];
        DedupSnoc(seen, value);
        DedupHas(seen, value);
      } else {
        assert ValuesFor(ps, k) == ValuesFor(front, k);
      }
    }
  }

  /** Reading one more pair is one more step of the index. */
  lemma TermIndexSnoc(ps: seq<(string, string)>, x: (string, string))
    ensures TermIndex(ps + [x]) == AddTerm(TermIndex(ps), x.0, x.1)
  {
    assert (ps + [x])[..|ps|] == ps;
  }

  lemma PairsSnoc(attrs: seq<Dict<string>>, i: nat)
    requires i < |attrs|
    ensures Pairs(attrs[..i + 1]) == Pairs(attrs[..i]) + attrs[i]
  {
    TakeStep(attrs, i);
  }

  /**
   * The two nested `foreach` loops over the rows and their attributes:
   * the result is the index of all the pairs, row by row.
   */
  method UniqueTerms(vs: seq<VariationData>) returns (index: Dict<seq<string>>)
    ensures index == TermIndex(Pairs(AttributesOf(vs)))
  {
    ghost var attrs := AttributesOf(vs);
    index := [];
    var i := 0;
    while i < |vs|
      invariant 0 <= i <= |vs|
      invariant index == TermIndex(Pairs(attrs[..i]))
    {
      PairsSnoc(attrs, i);
      index := AddRowTerms(index, Pairs(attrs[..i]), vs[i].attributes);
      i := i + 1;
    }
    TakeAll(attrs);
  }

  /** The inner loop, over the attributes of one row. */
  method AddRowTerms(index: Dict<seq<string>>, ghost done: seq<(string, string)>, a: seq<(string, string)>) returns (r: Dict<seq<string>>)
    requires index == TermIndex(done)
    ensures r == TermIndex(done + a)
  {
    r := index;
    AppendTakeNone(done, a);
    var j := 0;
    while j < |a|
      invariant 0 <= j <= |a|
      invariant r == TermIndex(done + a[..j])
    {
      AppendTakeStep(done, a, j);
      r := AddPair(r, done + a[..j], a[j]);
      j := j + 1;
    }
    AppendTakeAll(done, a);
  }

  /** One pass of the inner loop, stated on the pairs read so far. */
  method AddPair(index: Dict<seq<string>>, ghost seen: seq<(string, string)>, x: (string, string)) returns (r: Dict<seq<string>>)
    requires index == TermIndex(seen)
    ensures r == TermIndex(seen + [x])
  {
    TermIndexSnoc(seen, x);
    r := AddTermStep(index, x.0, x.1);
  }

  /** The body of the inner loop. */
  method AddTermStep(index: Dict<seq<string>>, name: string, value: string) returns (r: Dict<seq<string>>)
    ensures r == AddTerm(index, name, value)
  {
    r := index;
    if !HasKey(r, name) {
      r := Put(r, name, []);
    }
    var terms := Get(r, name);
    if value !in terms {
      r := Put(r, name, terms + [value]);
    }
  }

  /**
   * What the caller relies on: the attributes of the index are the distinct
   * attribute names seen, each attribute's list has no repetition, and a
   * value is listed exactly when some row gives it to that attribute.
   */
  lemma UniqueTermsFacts(ps: seq<(string, string)>, k: string)
    requires HasKey(ps, k)
    ensures HasKey(TermIndex(ps), k)
    ensures NoDups(Get(TermIndex(ps), k))
    ensures forall v :: v in Get(TermIndex(ps), k) <==> (k, v) in ps
  {
    TermIndexValues(ps, k);
    DedupFacts(ValuesFor(ps, k));
    forall v
      ensures v in Get(TermIndex(ps), k) <==> (k, v) in ps
    {
      ValuesForHas(ps, k, v);
    }
  }
}
