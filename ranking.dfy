/**
 * The ranking step of `Retriever.retrieve` (rag/retriever.py): the documents are
 * paired with their scores (`zip`), sorted by score from high to low with
 * `sorted(..., reverse=True)`, which is stable, and cut to the first `top_k`
 * pairs. Scores are given; how they are computed is not part of this module.
 */
module Ranking {

  /** Python's `zip`: pairs up to the shorter of the two sequences. */
  function Zip<T>(xs: seq<T>, ys: seq<real>): seq<(T, real)> {
    var n := if |xs| <= |ys| then |xs| else |ys|;
    seq(n, k requires 0 <= k < n => (xs[k], ys[k]))
  }

  /** Python's `xs[:k]`: a negative `k` counts from the end. */
  function Take<T>(xs: seq<T>, k: int): (r: seq<T>)
    ensures k >= 0 ==> |r| == if k <= |xs| then k else |xs|
    ensures k < 0 ==> |r| == if |xs| + k >= 0 then |xs| + k else 0
    ensures r <= xs
  {
    if k >= 0 then (if k <= |xs| then xs[..k] else xs)
    else if |xs| + k >= 0 then xs[..|xs| + k]
    else []
  }

  /** Index `i` comes before index `j` in a stable descending sort of `scores`:
      a higher score first, equal scores in their original order. */
  predicate Before(scores: seq<real>, i: nat, j: nat)
    requires i < |scores| && j < |scores|
  {
    scores[i] > scores[j] || (scores[i] == scores[j] && i < j)
  }

  /** Indices below `|scores|`, each ahead of every later one. */
  predicate SortedOrder(scores: seq<real>, order: seq<nat>) {
    && (forall k | 0 <= k < |order| :: order[k] < |scores|)
    && (forall a, b | 0 <= a < b < |order| :: Before(scores, order[a], order[b]))
  }

  /** Puts index `i` after every index whose score is at least `scores[i]`. */
  function Insert(order: seq<nat>, scores: seq<real>, i: nat): (r: seq<nat>)
    requires forall k | 0 <= k < |order| :: order[k] < |scores|
    requires i < |scores|
  {
    if order == [] then [i]
    else if scores[order[0]] < scores[i] then [i] + order
    else [order[0]] + Insert(order[1..], scores, i)
  }

  /** Inserting an index larger than all present keeps the order sorted and adds
      exactly that index. */
  lemma {:induction false} InsertSorted(order: seq<nat>, scores: seq<real>, i: nat)
    requires SortedOrder(scores, order) && i < |scores|
    requires forall k | 0 <= k < |order| :: order[k] < i
    ensures SortedOrder(scores, Insert(order, scores, i))
    ensures |Insert(order, scores, i)| == |order| + 1
    ensures forall x :: x in Insert(order, scores, i) <==> x in order || x == i
    decreases |order|
  {
    if order != [] && scores[order[0]] >= scores[i] {
      var tail := order[1..];
      InsertSorted(tail, scores, i);
      var r := Insert(order, scores, i);
      var t := Insert(tail, scores, i);
      assert r == [order[0]] + t;
      assert order == [order[0]] + tail;
      forall b | 0 < b < |r|
        ensures Before(scores, r[0], r[b])
      {
        assert r[b] == t[b - 1];
        assert t[b - 1] in t;
        if r[b] != i {
          var c :| 0 <= c < |tail| && tail[c] == r[b];
          assert r[b] == order[c + 1];
        }
      }
    }
  }

  /** The stable descending order of the indices `0 .. n-1`, built by inserting
      them one by one: each of them once, every one ahead of all later ones. */
  function RankOrder(scores: seq<real>, n: nat): (order: seq<nat>)
    requires n <= |scores|
    ensures |order| == n
    ensures forall k | 0 <= k < |order| :: order[k] < n
    ensures forall j | 0 <= j < n :: j in order
    ensures SortedOrder(scores, order)
    decreases n
  {
    if n == 0 then []
    else
      var pre := RankOrder(scores, n - 1);
      InsertSorted(pre, scores, n - 1);
      var r := Insert(pre, scores, n - 1);
      assert forall k | 0 <= k < |r| :: r[k] in r;
      r
  }

  /** How many documents have a score: the length of `zip(docs, scores)`. */
  function Paired<T>(docs: seq<T>, scores: seq<real>): nat {
    |Zip(docs, scores)|
  }

  /** The order `sorted` puts the scored documents in, as document indices. */
  function Order<T>(docs: seq<T>, scores: seq<real>): (order: seq<nat>)
    ensures |order| == Paired(docs, scores)
    ensures forall k | 0 <= k < |order| :: order[k] < Paired(docs, scores)
  {
    RankOrder(scores, Paired(docs, scores))
  }

  /** `sorted(zip(docs, scores), key=score, reverse=True)`. */
  function Ranked<T>(docs: seq<T>, scores: seq<real>): (r: seq<(T, real)>)
    ensures |r| == Paired(docs, scores)
    ensures forall k | 0 <= k < |r| ::
      r[k] == (docs[Order(docs, scores)[k]], scores[Order(docs, scores)[k]])
  {
    var pairs := Zip(docs, scores);
    var order := Order(docs, scores);
    seq(|order|, k requires 0 <= k < |order| => pairs[order[k]])
  }

  /** `sorted(zip(docs, scores), key=score, reverse=True)[:top_k]`. */
  function TopK<T>(docs: seq<T>, scores: seq<real>, topK: int): seq<(T, real)>
  {
    Take(Ranked(docs, scores), topK)
  }

  /** No index appears twice in the sorted order. */
  lemma RankOrderDistinct(scores: seq<real>, n: nat)
    requires n <= |scores|
    ensures forall a, b | 0 <= a < b < n :: RankOrder(scores, n)[a] != RankOrder(scores, n)[b]
  {
    var order := RankOrder(scores, n);
    forall a, b | 0 <= a < b < n
      ensures order[a] != order[b]
    {
      assert Before(scores, order[a], order[b]);
    }
  }

  /** For `top_k >= 0`, `retrieve` returns `min(top_k, n)` pairs, `n` the number of
      documents with a score, and `top_k = 0` gives none. */
  lemma TopKLength<T>(docs: seq<T>, scores: seq<real>, topK: int)
    requires topK >= 0
    ensures |TopK(docs, scores, topK)| == if topK <= Paired(docs, scores) then topK else Paired(docs, scores)
    ensures topK == 0 ==> TopK(docs, scores, topK) == []
  {
  }

  /** Every returned pair is a document with its own score, and no document is
      returned twice. */
  lemma TopKPairs<T>(docs: seq<T>, scores: seq<real>, topK: int)
    ensures forall k | 0 <= k < |TopK(docs, scores, topK)| ::
      && Order(docs, scores)[k] < Paired(docs, scores)
      && TopK(docs, scores, topK)[k] == (docs[Order(docs, scores)[k]], scores[Order(docs, scores)[k]])
    ensures forall a, b | 0 <= a < b < |TopK(docs, scores, topK)| ::
      Order(docs, scores)[a] != Order(docs, scores)[b]
  {
    RankOrderDistinct(scores, Paired(docs, scores));
    var r, ranked := TopK(docs, scores, topK), Ranked(docs, scores);
    assert forall k | 0 <= k < |r| :: r[k] == ranked[k];
  }

  /** Scores never increase along the result, and pairs with equal scores keep the
      order of their documents. */
  lemma TopKDescending<T>(docs: seq<T>, scores: seq<real>, topK: int)
    ensures forall a, b | 0 <= a < b < |TopK(docs, scores, topK)| ::
      TopK(docs, scores, topK)[a].1 >= TopK(docs, scores, topK)[b].1
    ensures forall a, b | 0 <= a < b < |TopK(docs, scores, topK)| &&
                          TopK(docs, scores, topK)[a].1 == TopK(docs, scores, topK)[b].1 ::
      Order(docs, scores)[a] < Order(docs, scores)[b]
  {
    var r, ranked, order := TopK(docs, scores, topK), Ranked(docs, scores), Order(docs, scores);
    forall a, b | 0 <= a < b < |r|
      ensures r[a].1 >= r[b].1 && (r[a].1 == r[b].1 ==> order[a] < order[b])
    {
      assert r[a] == ranked[a] && r[b] == ranked[b];
      assert Before(scores, order[a], order[b]);
    }
  }

  /** Every scored document that is not returned scores no higher than the last
      pair returned. */
  lemma TopKOmittedScoreLower<T>(docs: seq<T>, scores: seq<real>, topK: int, j: nat)
    requires j < Paired(docs, scores) && 0 < |TopK(docs, scores, topK)|
    requires j !in Order(docs, scores)[..|TopK(docs, scores, topK)|]
    ensures scores[j] <= TopK(docs, scores, topK)[|TopK(docs, scores, topK)| - 1].1
  {
    var r, ranked, order := TopK(docs, scores, topK), Ranked(docs, scores), Order(docs, scores);
    var m := |r|;
    assert j in order;
    var c :| 0 <= c < |order| && order[c] == j;
    assert r[m - 1] == ranked[m - 1];
    assert Before(scores, order[m - 1], order[c]);
  }
}
