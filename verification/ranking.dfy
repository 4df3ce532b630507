/** The ranking step of the query endpoint: every indexed product is paired
    with its similarity to the query, the pairs are sorted by similarity with
    Python's stable `sorted(..., reverse=True)`, and the first ten are kept.

    Cosine similarity itself (a floating-point library routine) is a
    parameter `cos`: the ranking only relies on its results being totally
    ordered. */
module Ranking {
  import opened Catalog
  import opened OrderedDicts

  /** One `(product_id, score)` pair of `zip(product_ids, similarities)`. */
  datatype Scored = Scored(id: Id, score: real)

  /** How many ranked entries the endpoint looks at (`results_with_scores[:10]`). */
  const TopN: nat := 10

  /** `zip(list(index.keys()), cosine_similarity([query], list(index.values()))[0])`:
      one pair per indexed id, in the index's iteration order. */
  function ScoreIndex(index: Dict<Id, Vector>, query: Vector, cos: (Vector, Vector) -> real): (r: seq<Scored>)
    requires Valid(index)
    ensures |r| == |index.keys|
    ensures forall i :: 0 <= i < |r| ==> r[i].id == index.keys[i]
  {
    seq(|index.keys|, i requires 0 <= i < |index.keys| => Scored(index.keys[i], cos(query, index.items[index.keys[i]])))
  }

  /** No id occurs twice. */
  ghost predicate IdsDistinct(s: seq<Scored>) {
    forall i, j :: 0 <= i < j < |s| ==> s[i].id != s[j].id
  }

  /** Non-increasing by score. */
  ghost predicate SortedDesc(s: seq<Scored>) {
    forall i, j :: 0 <= i < j < |s| ==> s[i].score >= s[j].score
  }

  /** Inserts `x` in front of the first entry that does not score strictly
      higher, so that `x` stays ahead of every entry with an equal score. */
  function Insert(x: Scored, s: seq<Scored>): (r: seq<Scored>)
    ensures multiset(r) == multiset(s) + multiset{x}
  {
    if s == [] || x.score >= s[0].score then [x] + s
    else
      assert s == [s[0]] + s[1..];
      [s[0]] + Insert(x, s[1..])
  }

  /** `sorted(s, key=lambda item: item[1], reverse=True)`: a stable sort by
      score, highest first. */
  function SortDesc(s: seq<Scored>): (r: seq<Scored>)
    ensures SortedDesc(r)
    ensures multiset(r) == multiset(s)
  {
    if s == [] then []
    else
      assert s == [s[0]] + s[1..];
      InsertSorted(s[0], SortDesc(s[1..]));
      Insert(s[0], SortDesc(s[1..]))
  }

  /** The entries scoring exactly `v`, in their order in `s`. Stability means
      that sorting leaves each of these groups as it was. */
  function WithScore(s: seq<Scored>, v: real): seq<Scored> {
    if s == [] then []
    else (if s[0].score == v then [s[0]] else []) + WithScore(s[1..], v)
  }

  /** `sorted(zip(product_ids, similarities), key=..., reverse=True)`. */
  function Rank(index: Dict<Id, Vector>, query: Vector, cos: (Vector, Vector) -> real): (r: seq<Scored>)
    requires Valid(index)
    ensures SortedDesc(r)
    ensures |r| == |index.keys|
  {
    var scored := ScoreIndex(index, query, cos);
    assert |multiset(SortDesc(scored))| == |multiset(scored)|;
    SortDesc(scored)
  }

  /** `ranked[:k]`. */
  function TopK(ranked: seq<Scored>, k: nat): seq<Scored> {
    if |ranked| <= k then ranked else ranked[..k]
  }

  // ---------------------------------------------------------------------
  // Sorting: stability and uniqueness

  /** A sorted list stays sorted under a head scoring at least every entry. */
  lemma ConsSorted(h: Scored, rest: seq<Scored>)
    requires SortedDesc(rest)
    requires forall y :: y in rest ==> y.score <= h.score
    ensures SortedDesc([h] + rest)
  {
  }

  /** Inserting into a sorted list keeps it sorted. */
  lemma {:induction false} InsertSorted(x: Scored, s: seq<Scored>)
    requires SortedDesc(s)
    ensures SortedDesc(Insert(x, s))
  {
    if s == [] || x.score >= s[0].score {
      ConsSorted(x, s);
    } else {
      var rest := Insert(x, s[1..]);
      InsertSorted(x, s[1..]);
      forall y | y in rest
        ensures y.score <= s[0].score
      {
        assert y in multiset(s[1..]) + multiset{x};
      }
      ConsSorted(s[0], rest);
    }
  }

  lemma {:induction false} WithScoreMembers(s: seq<Scored>, v: real)
    ensures forall y :: y in WithScore(s, v) <==> y in s && y.score == v
  {
    if s != [] {
      WithScoreMembers(s[1..], v);
      assert s == [s[0]] + s[1..];
    }
  }

  /** Inserting `x` into a sorted list puts it at the head of its score group. */
  lemma {:induction false} InsertWithScore(x: Scored, s: seq<Scored>, v: real)
    requires SortedDesc(s)
    ensures WithScore(Insert(x, s), v) == if x.score == v then [x] + WithScore(s, v) else WithScore(s, v)
  {
    if s == [] || x.score >= s[0].score {
      assert ([x] + s)[1..] == s;
    } else {
      var rest := Insert(x, s[1..]);
      InsertWithScore(x, s[1..], v);
      assert ([s[0]] + rest)[1..] == rest;
    }
  }

  /** The sort is stable: entries with equal scores keep their input order. */
  lemma {:induction false} SortDescStable(s: seq<Scored>, v: real)
    ensures WithScore(SortDesc(s), v) == WithScore(s, v)
  {
    if s != [] {
      SortDescStable(s[1..], v);
      InsertWithScore(s[0], SortDesc(s[1..]), v);
    }
  }

  lemma WithScoreOwnScore(s: seq<Scored>)
    requires s != []
    ensures WithScore(s, s[0].score) == [s[0]] + WithScore(s[1..], s[0].score)
  {
  }

  /** Two non-empty score-sorted lists with the same score groups start with
      the same entry. */
  lemma SameGroupsSameHead(a: seq<Scored>, b: seq<Scored>)
    requires a != [] && b != []
    requires SortedDesc(a) && SortedDesc(b)
    requires forall v :: WithScore(a, v) == WithScore(b, v)
    ensures a[0] == b[0]
  {
    var m, n := a[0].score, b[0].score;
    WithScoreOwnScore(a);
    WithScoreOwnScore(b);
    WithScoreMembers(a, n);
    WithScoreMembers(b, m);
    assert b[0] in WithScore(a, n);
    assert a[0] in WithScore(b, m);
    assert m == n;
    assert a[0] == WithScore(a, m)[0] == WithScore(b, m)[0] == b[0];
  }

  /** Removing the same head from two lists with the same score groups
      leaves lists with the same score groups. */
  lemma SameGroupsTail(a: seq<Scored>, b: seq<Scored>)
    requires a != [] && b != [] && a[0] == b[0]
    requires forall v :: WithScore(a, v) == WithScore(b, v)
    ensures forall v :: WithScore(a[1..], v) == WithScore(b[1..], v)
  {
    forall v
      ensures WithScore(a[1..], v) == WithScore(b[1..], v)
    {
      var h := if a[0].score == v then [a[0]] else [];
      assert WithScore(a, v) == h + WithScore(a[1..], v);
      assert WithScore(b, v) == h + WithScore(b[1..], v);
      assert WithScore(a, v) == WithScore(b, v);
      assert WithScore(a[1..], v) == WithScore(a, v)[|h|..];
    }
  }

  /** Two score-sorted lists with the same score groups are equal. */
  lemma {:induction false} SortedSameGroupsEqual(a: seq<Scored>, b: seq<Scored>)
    requires SortedDesc(a) && SortedDesc(b)
    requires forall v :: WithScore(a, v) == WithScore(b, v)
    ensures a == b
    decreases |a|
  {
    if a == [] || b == [] {
      if a != [] {
        WithScoreOwnScore(a);
        assert false;
      }
      if b != [] {
        WithScoreOwnScore(b);
        assert false;
      }
    } else {
      SameGroupsSameHead(a, b);
      SameGroupsTail(a, b);
      SortedSameGroupsEqual(a[1..], b[1..]);
      assert a == [a[0]] + a[1..];
      assert b == [b[0]] + b[1..];
    }
  }

  /** Any stable descending sort of `s` gives exactly `SortDesc(s)`: the
      result of `sorted(..., reverse=True)` is fully determined by the scores
      and the input order. */
  lemma StableSortUnique(s: seq<Scored>, r: seq<Scored>)
    requires SortedDesc(r)
    requires forall v :: WithScore(r, v) == WithScore(s, v)
    ensures r == SortDesc(s)
  {
    forall v
      ensures WithScore(r, v) == WithScore(SortDesc(s), v)
    {
      SortDescStable(s, v);
    }
    SortedSameGroupsEqual(r, SortDesc(s));
  }

  // ---------------------------------------------------------------------
  // Ranking: coverage of the index

  lemma {:induction false} InsertKeepsIdsDistinct(x: Scored, s: seq<Scored>)
    requires IdsDistinct(s)
    requires forall y :: y in s ==> y.id != x.id
    ensures IdsDistinct(Insert(x, s))
  {
    if s != [] && x.score < s[0].score {
      var rest := Insert(x, s[1..]);
      InsertKeepsIdsDistinct(x, s[1..]);
      forall j | 0 <= j < |rest|
        ensures rest[j].id != s[0].id
      {
        assert rest[j] in multiset(s[1..]) + multiset{x};
      }
    }
  }

  lemma {:induction false} SortDescKeepsIdsDistinct(s: seq<Scored>)
    requires IdsDistinct(s)
    ensures IdsDistinct(SortDesc(s))
  {
    if s != [] {
      SortDescKeepsIdsDistinct(s[1..]);
      assert forall y :: y in SortDesc(s[1..]) ==> y in multiset(s[1..]);
      InsertKeepsIdsDistinct(s[0], SortDesc(s[1..]));
    }
  }

  /** Sorting neither adds nor loses entries. */
  lemma SortDescSameMembers(s: seq<Scored>)
    ensures forall e :: e in SortDesc(s) <==> e in s
  {
    var r := SortDesc(s);
    assert forall e :: e in r <==> e in multiset(r);
    assert forall e :: e in s <==> e in multiset(s);
  }

  /** The ranking has distinct ids and holds exactly the scored pairs. */
  lemma RankMembers(index: Dict<Id, Vector>, query: Vector, cos: (Vector, Vector) -> real)
    requires Valid(index)
    ensures IdsDistinct(Rank(index, query, cos))
    ensures forall e :: e in Rank(index, query, cos) <==> e in ScoreIndex(index, query, cos)
  {
    var scored := ScoreIndex(index, query, cos);
    forall i, j | 0 <= i < j < |scored|
      ensures scored[i].id != scored[j].id
    {
      assert scored[i].id == index.keys[i] && scored[j].id == index.keys[j];
    }
    SortDescKeepsIdsDistinct(scored);
    SortDescSameMembers(scored);
  }

  /** Every indexed id appears exactly once in the ranking, paired with the
      similarity of its own vector, and nothing else appears. */
  lemma RankCoversIndex(index: Dict<Id, Vector>, query: Vector, cos: (Vector, Vector) -> real)
    requires Valid(index)
    ensures IdsDistinct(Rank(index, query, cos))
    ensures forall id :: id in index.items <==> exists i :: 0 <= i < |Rank(index, query, cos)| && Rank(index, query, cos)[i].id == id
    ensures forall e :: e in Rank(index, query, cos) ==> e.id in index.items && e.score == cos(query, index.items[e.id])
  {
    var scored := ScoreIndex(index, query, cos);
    var r := Rank(index, query, cos);
    RankMembers(index, query, cos);
    forall e | e in r
      ensures e.id in index.items && e.score == cos(query, index.items[e.id])
    {
      assert e in scored;
    }
    forall id
      ensures id in index.items <==> exists i :: 0 <= i < |r| && r[i].id == id
    {
      if id in index.items {
        var k :| 0 <= k < |index.keys| && index.keys[k] == id;
        assert scored[k] in r;
      }
      if exists i :: 0 <= i < |r| && r[i].id == id {
        var i :| 0 <= i < |r| && r[i].id == id;
        assert r[i] in r;
      }
    }
  }

  /** Equal-score entries are ranked in the index's iteration order. */
  lemma RankStable(index: Dict<Id, Vector>, query: Vector, cos: (Vector, Vector) -> real, v: real)
    requires Valid(index)
    ensures WithScore(Rank(index, query, cos), v) == WithScore(ScoreIndex(index, query, cos), v)
  {
    SortDescStable(ScoreIndex(index, query, cos), v);
  }

  /** The kept prefix has `min(k, |ranked|)` entries, and none of the dropped
      entries scores higher than a kept one. */
  lemma TopKHighest(ranked: seq<Scored>, k: nat)
    requires SortedDesc(ranked)
    ensures |TopK(ranked, k)| == if |ranked| < k then |ranked| else k
    ensures TopK(ranked, k) == ranked[..|TopK(ranked, k)|]
    ensures forall i, j :: 0 <= i < |TopK(ranked, k)| <= j < |ranked| ==> TopK(ranked, k)[i].score >= ranked[j].score
  {
  }

  /** Three entries scoring 1.0, 0.0 and 0.7 are ranked first, third,
      second. */
  lemma SortDescExample()
    ensures SortDesc([Scored("p1", 1.0), Scored("p2", 0.0), Scored("p3", 0.7)])
         == [Scored("p1", 1.0), Scored("p3", 0.7), Scored("p2", 0.0)]
  {
    var p1, p2, p3 := Scored("p1", 1.0), Scored("p2", 0.0), Scored("p3", 0.7);
    assert [p1, p2, p3][1..] == [p2, p3] && [p2, p3][1..] == [p3] && [p3][1..] == [];
    assert SortDesc([p3]) == [p3];
    assert Insert(p2, [p3]) == [p3, p2];
    assert SortDesc([p2, p3]) == [p3, p2];
    assert Insert(p1, [p3, p2]) == [p1, p3, p2];
  }

  /** Two entries with equal scores keep their input order. */
  lemma SortDescTieExample()
    ensures SortDesc([Scored("a", 0.5), Scored("b", 0.5)]) == [Scored("a", 0.5), Scored("b", 0.5)]
  {
    var a, b := Scored("a", 0.5), Scored("b", 0.5);
    assert [a, b][1..] == [b] && [b][1..] == [];
    assert SortDesc([b]) == [b];
  }
}
