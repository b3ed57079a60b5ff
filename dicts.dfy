/**
 * PHP associative arrays with string keys: an ordered list of entries whose
 * keys are pairwise distinct. `Put` is `$a[$k] = $v` (a new key is appended,
 * an existing key keeps its position and takes the new value), `Remove` is
 * `unset($a[$k])` and `Lookup` is `isset($a[$k]) ? $a[$k] : null`.
 */
module Dicts {
  import opened Wrappers
  import opened Seqs

  predicate DistinctKeys<V>(a: seq<(string, V)>) {
    forall i, j :: 0 <= i < j < |a| ==> a[i].0 != a[j].0
  }

  /** A PHP associative array: its entries in order, each key once. */
  type Dict<V> = a: seq<(string, V)> | DistinctKeys(a) witness []

  /** `array_keys($a)`, in order. */
  function Keys<V>(a: seq<(string, V)>): seq<string> {
    seq(|a|, i requires 0 <= i < |a| => a[i].0)
  }

  /** The keys of all but the last entry, then the last key. */
  lemma KeysFront<V>(a: seq<(string, V)>)
    requires a != []
    ensures Keys(a) == Keys(a[..|a| - 1]) + [a[|a| - 1].0]
  {
  }

  /** A key is in an array when it is in all but the last entry or is the last key. */
  lemma HasKeyFront<V>(a: seq<(string, V)>, k: string)
    requires a != []
    ensures HasKey(a, k) <==> HasKey(a[..|a| - 1], k) || a[|a| - 1].0 == k
  {
    KeysFront(a);
  }

  /** The last key of an array is not among the keys before it. */
  lemma LastKeyIsNew<V>(a: Dict<V>)
    requires a != []
    ensures !HasKey(a[..|a| - 1], a[|a| - 1].0)
  {
    var n := |a| - 1;
    forall i | 0 <= i < n ensures Keys(a[..n])[i] != a[n].0 {
      assert a[..n][i] == a[i];
    }
  }

  /** A key of all but the last entry keeps its position in the whole array. */
  lemma FrontKeyIndex<V>(a: Dict<V>, k: string)
    requires a != [] && HasKey(a[..|a| - 1], k)
    ensures HasKey(a, k) && IndexOf(Keys(a), k) == IndexOf(Keys(a[..|a| - 1]), k) < |a| - 1
  {
    KeysFront(a);
    assert Keys(a)[..|a| - 1] == Keys(a[..|a| - 1]);
    IndexOfPrefix(Keys(a), |a| - 1, k);
  }

  /** The last key of an array is found at the last position. */
  lemma LastKeyIndex<V>(a: Dict<V>)
    requires a != []
    ensures HasKey(a, a[|a| - 1].0) && IndexOf(Keys(a), a[|a| - 1].0) == |a| - 1
  {
    LastKeyIsNew(a);
    KeysFront(a);
  }

  predicate HasKey<V>(a: seq<(string, V)>, k: string) {
    k in Keys(a)
  }

  function Lookup<V>(a: seq<(string, V)>, k: string): (r: Option<V>)
    ensures r.None? <==> !HasKey(a, k)
  {
    if HasKey(a, k) then Some(a[IndexOf(Keys(a), k)].1) else None
  }

  function Get<V>(a: seq<(string, V)>, k: string): V
    requires HasKey(a, k)
  {
    Lookup(a, k).value
  }

  /** `isset($a[$k]) ? $a[$k] : $default`. */
  function GetOr<V>(a: seq<(string, V)>, k: string, default: V): V {
    Lookup(a, k).GetOr(default)
  }

  /** In an array with distinct keys, the entry at position `i` is what `$a[key]` reads. */
  lemma LookupAt<V>(a: Dict<V>, i: nat)
    requires i < |a|
    ensures Lookup(a, a[i].0) == Some(a[i].1)
  {
    assert Keys(a)[i] == a[i].0;
  }

  /** `$a[$k] = $v`. */
  function Put<V>(a: Dict<V>, k: string, v: V): (r: Dict<V>)
    ensures Keys(r) == if HasKey(a, k) then Keys(a) else Keys(a) + [k]
    ensures Lookup(r, k) == Some(v)
  {
    var r: seq<(string, V)> :=
      if HasKey(a, k) then seq(|a|, i requires 0 <= i < |a| => if a[i].0 == k then (k, v) else a[i])
      else a + [(k, v)];
    assert Keys(r) == if HasKey(a, k) then Keys(a) else Keys(a) + [k];
    forall i, j | 0 <= i < j < |r| ensures r[i].0 != r[j].0 {
      assert r[i].0 == Keys(r)[i] && r[j].0 == Keys(r)[j];
      if j < |a| {
        assert Keys(a)[i] == a[i].0 && Keys(a)[j] == a[j].0;
      }
    }
    assert r[IndexOf(Keys(r), k)] == (k, v);
    r
  }

  /** Storing under a new key appends the entry. */
  lemma PutNew<V>(a: Dict<V>, k: string, v: V)
    requires !HasKey(a, k)
    ensures Put(a, k, v) == a + [(k, v)]
  {
  }

  /** `$a[$k] = $v` removes no key. */
  lemma PutKeepsKey<V>(a: Dict<V>, k: string, v: V, k': string)
    requires HasKey(a, k')
    ensures HasKey(Put(a, k, v), k')
  {
  }

  /** `$a[$k] = $v` leaves every other key's value as it was. */
  lemma PutOther<V>(a: Dict<V>, k: string, v: V, k': string)
    requires k' != k
    ensures Lookup(Put(a, k, v), k') == Lookup(a, k')
  {
    var r := Put(a, k, v);
    if HasKey(a, k') {
      var j := IndexOf(Keys(a), k');
      assert Keys(r)[j] == k' && Keys(r)[..j] == Keys(a)[..j];
      assert IndexOf(Keys(r), k') == j;
    }
  }

  /** `unset($a[$k])`. */
  function Remove<V>(a: Dict<V>, k: string): (r: Dict<V>)
    ensures Keys(r) == Without(Keys(a), k)
    decreases |a|
  {
    if a == [] then []
    else
      var rest := Remove(a[1..], k);
      assert Keys(a) == [a[0].0] + Keys(a[1..]);
      if a[0].0 == k then rest
      else
        assert Keys([a[0]] + rest) == [a[0].0] + Keys(rest);
        ConsDistinct(a[0], rest);
        [a[0]] + rest
  }

  /** After `unset($a[$k])` the key is gone and every other key reads as before. */
  lemma RemoveLookup<V>(a: Dict<V>, k: string, k': string)
    ensures Lookup(Remove(a, k), k) == None
    ensures k' != k ==> Lookup(Remove(a, k), k') == Lookup(a, k')
  {
    assert !HasKey(Remove(a, k), k);
    if k' != k {
      RemoveOther(a, k, k');
    }
  }

  lemma {:induction false} RemoveOther<V>(a: Dict<V>, k: string, k': string)
    requires k' != k
    ensures Lookup(Remove(a, k), k') == Lookup(a, k')
    decreases |a|
  {
    if a != [] {
      var rest := Remove(a[1..], k);
      RemoveOther(a[1..], k, k');
      RestLookup(a);
      if a[0].0 != k {
        var r := Remove(a, k);
        assert r == [a[0]] + rest;
        RestLookup(r);
        assert r[0] == a[0] && r[1..] == rest;
      }
    }
  }

  /** `unset` of a key that is not there changes nothing. */
  lemma {:induction false} RemoveAbsent<V>(a: Dict<V>, k: string)
    requires !HasKey(a, k)
    ensures Remove(a, k) == a
    decreases |a|
  {
    if a != [] {
      assert Keys(a) == [a[0].0] + Keys(a[1..]);
      RemoveAbsent(a[1..], k);
      assert [a[0]] + a[1..] == a;
    }
  }

  /** Reading a key other than the first one's ignores the first entry. */
  lemma RestLookup<V>(a: Dict<V>)
    requires a != []
    ensures Lookup(a, a[0].0) == Some(a[0].1)
    ensures forall k :: k != a[0].0 ==> Lookup(a, k) == Lookup(a[1..], k)
  {
    LookupAt(a, 0);
    assert Keys(a) == [a[0].0] + Keys(a[1..]);
    forall k | k != a[0].0 && HasKey(a, k) ensures Lookup(a, k) == Lookup(a[1..], k) {
      assert IndexOf(Keys(a), k) == 1 + IndexOf(Keys(a[1..]), k);
    }
  }

  lemma ConsDistinct<V>(e: (string, V), r: Dict<V>)
    requires e.0 !in Keys(r)
    ensures DistinctKeys([e] + r)
  {
    forall i, j | 0 <= i < j < |[e] + r| ensures ([e] + r)[i].0 != ([e] + r)[j].0 {
      if i == 0 {
        assert ([e] + r)[j].0 == Keys(r)[j - 1];
      }
    }
  }

  /** Applies `f` to every value, keeping keys and order (a `foreach` that re-assigns each entry). */
  function MapValues<V, W>(a: Dict<V>, f: V -> W): (r: Dict<W>)
    ensures Keys(r) == Keys(a)
  {
    var r := seq(|a|, i requires 0 <= i < |a| => (a[i].0, f(a[i].1)));
    assert Keys(r) == Keys(a);
    r
  }

  /** Every key of the mapped array reads as `f` of what it read before. */
  lemma MapValuesLookup<V, W>(a: Dict<V>, f: V -> W, k: string)
    ensures HasKey(a, k) ==> Lookup(MapValues(a, f), k) == Some(f(Get(a, k)))
  {
  }

  lemma KeysNoDups<V>(a: Dict<V>)
    ensures NoDups(Keys(a))
  {
  }

  /** `$result[$keys[$i]] = $values[$i]` for each position in turn. */
  function Assign<V>(keys: seq<string>, values: seq<V>): Dict<V>
    requires |values| == |keys|
    decreases |keys|
  {
    if keys == [] then []
    else
      var n := |keys| - 1;
      Put(Assign(keys[..n], values[..n]), keys[n], values[n])
  }

  /** Assigning one more key is one more `Put`. */
  lemma AssignSnoc<V>(keys: seq<string>, values: seq<V>, k: string, v: V)
    requires |values| == |keys|
    ensures Assign(keys + [k], values + [v]) == Put(Assign(keys, values), k, v)
  {
    assert (keys + [k])[..|keys|] == keys;
    assert (values + [v])[..|keys|] == values;
  }

  /** The keys assigned are the given keys, each once, in the order first seen. */
  lemma {:induction false} AssignKeys<V>(keys: seq<string>, values: seq<V>)
    requires |values| == |keys|
    ensures Keys(Assign(keys, values)) == Dedup(keys)
    decreases |keys|
  {
    if keys != [] {
      var n := |keys| - 1;
      FrontLast(keys);
      AssignKeys(keys[..n], values[..n]);
      PutKeysDedup(Assign(keys[..n], values[..n]), keys[n], values[n], keys[..n]);
    }
  }

  /** Storing under key `k` extends the de-duplicated key list by `k`. */
  lemma PutKeysDedup<V>(prev: Dict<V>, k: string, v: V, s: seq<string>)
    requires Keys(prev) == Dedup(s)
    ensures Keys(Put(prev, k, v)) == Dedup(s + [k])
  {
    DedupHas(s, k);
    assert (s + [k])[..|s|] == s;
  }

  /** No key after position `i` equals the one at `i`. */
  predicate LastOf(keys: seq<string>, i: nat)
    requires i < |keys|
  {
    forall j :: i < j < |keys| ==> keys[j] != keys[i]
  }

  /** Every key holds a value; the last position with a key is the one whose value it holds. */
  lemma AssignValueAt<V>(keys: seq<string>, values: seq<V>, i: nat)
    requires |values| == |keys| && i < |keys|
    ensures HasKey(Assign(keys, values), keys[i])
    ensures LastOf(keys, i) ==> Lookup(Assign(keys, values), keys[i]) == Some(values[i])
  {
    AssignHas(keys, values, i);
    if LastOf(keys, i) {
      AssignLast(keys, values, i);
    }
  }

  lemma {:induction false} AssignHas<V>(keys: seq<string>, values: seq<V>, i: nat)
    requires |values| == |keys| && i < |keys|
    ensures Lookup(Assign(keys, values), keys[i]).Some?
    decreases |keys|
  {
    var n := |keys| - 1;
    var prev := Assign(keys[..n], values[..n]);
    assert Assign(keys, values) == Put(prev, keys[n], values[n]);
    if keys[i] == keys[n] {
      assert Lookup(Put(prev, keys[n], values[n]), keys[n]) == Some(values[n]);
    } else {
      AssignHas(keys[..n], values[..n], i);
      FrontAt(keys, i);
      PutOther(prev, keys[n], values[n], keys[i]);
    }
  }

  lemma {:induction false} AssignLast<V>(keys: seq<string>, values: seq<V>, i: nat)
    requires |values| == |keys| && i < |keys| && LastOf(keys, i)
    ensures Lookup(Assign(keys, values), keys[i]) == Some(values[i])
    decreases |keys|
  {
    var n := |keys| - 1;
    var prev := Assign(keys[..n], values[..n]);
    assert Assign(keys, values) == Put(prev, keys[n], values[n]);
    if i < n {
      LastOfFront(keys, i);
      AssignLast(keys[..n], values[..n], i);
      FrontAt(keys, i);
      FrontAt(values, i);
      PutOther(prev, keys[n], values[n], keys[i]);
    } else {
      assert Lookup(Put(prev, keys[n], values[n]), keys[n]) == Some(values[n]);
    }
  }

  lemma FrontAt<T>(s: seq<T>, i: nat)
    requires i < |s| - 1
    ensures s[..|s| - 1][i] == s[i]
  {
  }

  lemma LastOfFront(keys: seq<string>, i: nat)
    requires i < |keys| - 1 && LastOf(keys, i)
    ensures keys[|keys| - 1] != keys[i] && LastOf(keys[..|keys| - 1], i)
  {
  }
  /** Positions sharing a key carry the same value. */
  ghost predicate ValuesAgree<V>(keys: seq<string>, values: seq<V>)
    requires |values| == |keys|
  {
    forall a, b :: 0 <= a < |keys| && 0 <= b < |keys| && keys[a] == keys[b] ==> values[a] == values[b]
  }

  /** When equal keys carry equal values, every key reads back its value. */
  lemma {:induction false} AssignConsistent<V>(keys: seq<string>, values: seq<V>, i: nat)
    requires |values| == |keys| && i < |keys|
    requires ValuesAgree(keys, values)
    ensures Lookup(Assign(keys, values), keys[i]) == Some(values[i])
    decreases |keys|
  {
    var n := |keys| - 1;
    var prev := Assign(keys[..n], values[..n]);
    assert Assign(keys, values) == Put(prev, keys[n], values[n]);
    if keys[n] != keys[i] {
      FrontAt(keys, i);
      FrontAt(values, i);
      assert ValuesAgree(keys[..n], values[..n]) by {
        forall a, b | 0 <= a < n && 0 <= b < n && keys[..n][a] == keys[..n][b]
          ensures values[..n][a] == values[..n][b]
        {
          assert keys[..n][a] == keys[a] && keys[..n][b] == keys[b];
        }
      }
      AssignConsistent(keys[..n], values[..n], i);
      PutOther(prev, keys[n], values[n], keys[i]);
    }
  }

  /** Only the given keys are assigned. */
  lemma AssignOnly<V>(keys: seq<string>, values: seq<V>, k: string)
    requires |values| == |keys|
    ensures HasKey(Assign(keys, values), k) <==> k in keys
  {
    AssignKeys(keys, values);
    DedupHas(keys, k);
  }

  /** The keys of an array as a set. */
  function KeySet<V>(a: seq<(string, V)>): set<string> {
    set k | k in Keys(a)
  }

  /** Distinct keys: an array has as many entries as it has keys. */
  lemma {:induction false} KeySetSize<V>(a: Dict<V>)
    ensures |KeySet(a)| == |a|
    decreases |a|
  {
    if a != [] {
      var n := |a| - 1;
      var front: Dict<V> := a[..n];
      KeySetSize(front);
      KeysFront(a);
      assert KeySet(a) == KeySet(front) + {a[n].0};
      forall i | 0 <= i < n ensures Keys(front)[i] != a[n].0 {
        assert Keys(front)[i] == a[i].0;
      }
    }
  }

  /** Two arrays of the same size, the keys of one among the keys of the other, have the same keys. */
  lemma SameSizeSameKeys<V, W>(a: Dict<V>, b: Dict<W>)
    requires |a| == |b|
    requires forall k :: HasKey(a, k) ==> HasKey(b, k)
    ensures forall k :: HasKey(b, k) ==> HasKey(a, k)
  {
    KeySetSize(a);
    KeySetSize(b);
    var ka, kb := KeySet(a), KeySet(b);
    forall k | k in ka ensures k in kb {
      assert HasKey(a, k);
    }
    assert |kb - ka| == |kb| - |ka|;
    assert kb - ka == {};
    forall k | HasKey(b, k) ensures HasKey(a, k) {
      assert k in kb;
    }
  }

  /** Arrays with the same keys have the same size. */
  lemma SameKeysSameSize<V, W>(a: Dict<V>, b: Dict<W>)
    requires forall k :: HasKey(a, k) <==> HasKey(b, k)
    ensures |a| == |b|
  {
    KeySetSize(a);
    KeySetSize(b);
    forall k ensures k in KeySet(a) <==> k in KeySet(b) {
      assert HasKey(a, k) <==> HasKey(b, k);
    }
    assert KeySet(a) == KeySet(b);
  }
}
