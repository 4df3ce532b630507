/** Python's `dict`, which iterates its keys in the order they were first
    inserted, and the dict comprehension `{key: value for item in records}`
    that the query service uses to build its vector index and its metadata
    catalog. */
module OrderedDicts {
  import opened Catalog

  /** `keys` is the iteration order, `items` the key-to-value mapping. */
  datatype Dict<K, V> = Dict(keys: seq<K>, items: map<K, V>)

  /** Every key is listed once, and exactly the mapped keys are listed. */
  ghost predicate Valid<K, V>(d: Dict<K, V>) {
    && (forall i, j :: 0 <= i < j < |d.keys| ==> d.keys[i] != d.keys[j])
    && (forall k :: k in d.items ==> k in d.keys)
    && (forall i :: 0 <= i < |d.keys| ==> d.keys[i] in d.items)
  }

  /** `{}` */
  function Empty<K(==), V>(): Dict<K, V> {
    Dict([], map[])
  }

  /** `d.get(k)`: the value stored under `k`, or `None` when `k` is absent. */
  function Get<K(==), V>(d: Dict<K, V>, k: K): Option<V> {
    if k in d.items then Some(d.items[k]) else None
  }

  /** `d[k] = v`: an existing key keeps its place and takes the new value; a
      new key is placed after all others. */
  function Put<K(==), V>(d: Dict<K, V>, k: K, v: V): (r: Dict<K, V>)
    requires Valid(d)
    ensures Valid(r)
    ensures r.items == d.items[k := v]
    ensures k in d.items ==> r.keys == d.keys
    ensures k !in d.items ==> r.keys == d.keys + [k]
  {
    if k in d.items then Dict(d.keys, d.items[k := v]) else Dict(d.keys + [k], d.items[k := v])
  }

  /** The keys of a list of pairs, in list order (duplicates kept). */
  function Firsts<K(==), V>(ps: seq<(K, V)>): (ks: seq<K>)
    ensures |ks| == |ps|
  {
    seq(|ps|, i requires 0 <= i < |ps| => ps[i].0)
  }

  /** The position of the first occurrence of `k` in `s`. */
  function FirstIndex<K(==)>(s: seq<K>, k: K): (r: nat)
    requires k in s
    ensures r < |s| && s[r] == k
    ensures forall j :: 0 <= j < r ==> s[j] != k
  {
    if s[0] == k then 0 else 1 + FirstIndex(s[1..], k)
  }

  /** The comprehension `{k: v for (k, v) in ps}`, evaluated left to right:
      each pair is stored with `d[k] = v`. */
  function FromPairs<K(==), V>(ps: seq<(K, V)>): (d: Dict<K, V>)
    ensures Valid(d)
  {
    if ps == [] then Empty()
    else
      var last := ps[|ps| - 1];
      Put(FromPairs(ps[..|ps| - 1]), last.0, last.1)
  }

  /** The dictionary holds exactly the keys that occur in the pairs. */
  lemma {:induction false} FromPairsDomain<K, V>(ps: seq<(K, V)>)
    ensures forall k :: k in FromPairs(ps).items <==> k in Firsts(ps)
  {
    if ps != [] {
      var init := ps[..|ps| - 1];
      FromPairsDomain(init);
      assert Firsts(ps) == Firsts(init) + [ps[|ps| - 1].0];
    }
  }

  /** A key is mapped to the value of the LAST pair that carries it. */
  lemma {:induction false} FromPairsLastWins<K, V>(ps: seq<(K, V)>, i: nat)
    requires i < |ps|
    requires forall j :: i < j < |ps| ==> ps[j].0 != ps[i].0
    ensures ps[i].0 in FromPairs(ps).items
    ensures FromPairs(ps).items[ps[i].0] == ps[i].1
  {
    var init := ps[..|ps| - 1];
    if i < |ps| - 1 {
      FromPairsLastWins(init, i);
    }
  }

  /** Every stored value is the value of some pair with that key. */
  lemma {:induction false} FromPairsValuesFromPairs<K, V>(ps: seq<(K, V)>)
    ensures forall k :: k in FromPairs(ps).items ==> (k, FromPairs(ps).items[k]) in ps
  {
    if ps != [] {
      var init := ps[..|ps| - 1];
      FromPairsValuesFromPairs(init);
      assert forall p :: p in init ==> p in ps;
    }
  }

  /** Every listed key occurs in the pairs. */
  lemma KeysOccurInPairs<K, V>(ps: seq<(K, V)>)
    ensures forall i :: 0 <= i < |FromPairs(ps).keys| ==> FromPairs(ps).keys[i] in Firsts(ps)
  {
    FromPairsDomain(ps);
  }

  /** Keys are iterated in the order of their FIRST occurrence in the pairs:
      a later duplicate does not move its key. */
  lemma {:induction false} FromPairsFirstOccurrenceOrder<K, V>(ps: seq<(K, V)>)
    ensures forall k :: k in FromPairs(ps).keys <==> k in Firsts(ps)
    ensures forall a, b :: 0 <= a < b < |FromPairs(ps).keys| ==>
      FirstIndex(Firsts(ps), FromPairs(ps).keys[a]) < FirstIndex(Firsts(ps), FromPairs(ps).keys[b])
  {
    FromPairsDomain(ps);
    if ps != [] {
      var init := ps[..|ps| - 1];
      var last := ps[|ps| - 1];
      FromPairsFirstOccurrenceOrder(init);
      KeysOccurInPairs(init);
      FromPairsDomain(init);
      assert Firsts(ps) == Firsts(init) + [last.0];
      FirstOccurrenceStep(Firsts(init), FromPairs(init).keys, last.0, FromPairs(ps).keys);
    }
  }

  /** One step of the comprehension keeps the keys in first-occurrence
      order: either the new pair's key is already listed, or it occurs for
      the first time and is listed last. */
  lemma FirstOccurrenceStep<K>(s0: seq<K>, keys0: seq<K>, k: K, keys: seq<K>)
    requires forall i :: 0 <= i < |keys0| ==> keys0[i] in s0
    requires forall a, b :: 0 <= a < b < |keys0| ==> FirstIndex(s0, keys0[a]) < FirstIndex(s0, keys0[b])
    requires keys == keys0 || (keys == keys0 + [k] && k !in s0)
    ensures forall a, b :: 0 <= a < b < |keys| ==> FirstIndex(s0 + [k], keys[a]) < FirstIndex(s0 + [k], keys[b])
  {
    var s := s0 + [k];
    forall a, b | 0 <= a < b < |keys|
      ensures FirstIndex(s, keys[a]) < FirstIndex(s, keys[b])
    {
      assert a < |keys0| && keys[a] == keys0[a];
      FirstIndexOfPrefix(s0, [k], keys0[a]);
      if b < |keys0| {
        assert keys[b] == keys0[b];
        FirstIndexOfPrefix(s0, [k], keys0[b]);
      } else {
        assert keys[b] == k;
        assert FirstIndex(s, k) == |s0|;
      }
    }
  }

  /** Appending elements does not move the first occurrence of an element
      that is already present. */
  lemma FirstIndexOfPrefix<K>(s: seq<K>, t: seq<K>, k: K)
    requires k in s
    ensures FirstIndex(s + t, k) == FirstIndex(s, k)
  {
    assert (s + t)[FirstIndex(s, k)] == k;
  }
}
