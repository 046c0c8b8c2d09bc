/**
 * `rerank_results_with_finbert`: pair every result with its relevance score,
 * sort the pairs by score, highest first, with `list.sort(reverse=True)`
 * (stable: equal scores keep their input order), and keep the first ten.
 */
module Rerank {
  /** A search result paired with its relevance score. */
  datatype Scored<T> = Scored(item: T, score: int)

  /** How many reranked results are returned. */
  const RerankLimit: nat := 10

  function Min(a: nat, b: nat): nat {
    if a <= b then a else b
  }

  predicate IsPrefix<T(==)>(p: seq<T>, s: seq<T>) {
    |p| <= |s| && s[..|p|] == p
  }

  /** Scores never increase along the sequence. */
  predicate SortedDesc<T>(xs: seq<Scored<T>>) {
    forall i, j :: 0 <= i < j < |xs| ==> xs[i].score >= xs[j].score
  }

  /** The elements scored `k`, in their order in `xs`. */
  function WithScore<T>(xs: seq<Scored<T>>, k: int): seq<Scored<T>>
    decreases |xs|
  {
    if |xs| == 0 then []
    else WithScore(xs[..|xs| - 1], k) + (if xs[|xs| - 1].score == k then [xs[|xs| - 1]] else [])
  }

  /**
   * `x` placed after every element of `sorted` whose score is at least its
   * own, which is where a stable descending sort puts a later element.
   */
  function Insert<T>(sorted: seq<Scored<T>>, x: Scored<T>): (r: seq<Scored<T>>)
    requires SortedDesc(sorted)
    ensures SortedDesc(r)
    ensures multiset(r) == multiset(sorted) + multiset{x}
    ensures |r| == |sorted| + 1
    decreases |sorted|
  {
    if |sorted| == 0 then [x]
    else
      var last := sorted[|sorted| - 1];
      var init := sorted[..|sorted| - 1];
      assert sorted == init + [last];
      if last.score >= x.score then sorted + [x]
      else
        var front := Insert(init, x);
        assert forall i :: 0 <= i < |front| ==> front[i].score >= last.score by {
          forall i | 0 <= i < |front|
            ensures front[i].score >= last.score
          {
            assert front[i] in multiset(front);
          }
        }
        front + [last]
  }

  /** The stable descending sort, one element at a time from the front of the input. */
  function SortDesc<T>(xs: seq<Scored<T>>): (r: seq<Scored<T>>)
    ensures SortedDesc(r)
    ensures multiset(r) == multiset(xs)
    ensures |r| == |xs|
    decreases |xs|
  {
    if |xs| == 0 then []
    else
      assert xs == xs[..|xs| - 1] + [xs[|xs| - 1]];
      Insert(SortDesc(xs[..|xs| - 1]), xs[|xs| - 1])
  }

  lemma WithScoreSnoc<T>(xs: seq<Scored<T>>, y: Scored<T>, k: int)
    ensures WithScore(xs + [y], k) == WithScore(xs, k) + (if y.score == k then [y] else [])
  {
    assert (xs + [y])[..|xs|] == xs;
  }

  /** Inserting adds `x` at the end of its own score class and changes no other class. */
  lemma {:induction false} InsertWithScore<T>(sorted: seq<Scored<T>>, x: Scored<T>, k: int)
    requires SortedDesc(sorted)
    ensures WithScore(Insert(sorted, x), k) == WithScore(sorted, k) + (if x.score == k then [x] else [])
    decreases |sorted|
  {
    if |sorted| == 0 {
      WithScoreSnoc(sorted, x, k);
      assert sorted + [x] == [x];
    } else {
      var last := sorted[|sorted| - 1];
      var init := sorted[..|sorted| - 1];
      InsertUnfold(sorted, x);
      if last.score >= x.score {
        WithScoreSnoc(sorted, x, k);
      } else {
        var front := Insert(init, x);
        InsertWithScore(init, x, k);
        WithScoreSnoc(front, last, k);
        assert WithScore(sorted, k) == WithScore(init, k) + (if last.score == k then [last] else []);
        SwapSingletons(WithScore(init, k), x, last, k);
      }
    }
  }

  /** One step of `Insert`: past the last element, or in front of it. */
  lemma InsertUnfold<T>(sorted: seq<Scored<T>>, x: Scored<T>)
    requires SortedDesc(sorted) && |sorted| > 0
    ensures SortedDesc(sorted[..|sorted| - 1])
    ensures sorted[|sorted| - 1].score >= x.score ==> Insert(sorted, x) == sorted + [x]
    ensures sorted[|sorted| - 1].score < x.score ==>
              Insert(sorted, x) == Insert(sorted[..|sorted| - 1], x) + [sorted[|sorted| - 1]]
  {
  }

  /** At most one of two differently scored elements joins class `k`, so their order there is irrelevant. */
  lemma SwapSingletons<T>(p: seq<Scored<T>>, x: Scored<T>, y: Scored<T>, k: int)
    requires x.score != y.score
    ensures p + (if x.score == k then [x] else []) + (if y.score == k then [y] else []) ==
            p + (if y.score == k then [y] else []) + (if x.score == k then [x] else [])
  {
  }

  /** Stability: every score class keeps its input order. */
  lemma {:induction false} SortDescIsStable<T>(xs: seq<Scored<T>>, k: int)
    ensures WithScore(SortDesc(xs), k) == WithScore(xs, k)
    decreases |xs|
  {
    if |xs| > 0 {
      SortDescIsStable(xs[..|xs| - 1], k);
      InsertWithScore(SortDesc(xs[..|xs| - 1]), xs[|xs| - 1], k);
    }
  }

  /** A prefix of a sequence has as score classes prefixes of its classes. */
  lemma {:induction false} WithScoreOfPrefix<T>(xs: seq<Scored<T>>, m: nat, k: int)
    requires m <= |xs|
    ensures IsPrefix(WithScore(xs[..m], k), WithScore(xs, k))
    decreases |xs|
  {
    if m < |xs| {
      var init := xs[..|xs| - 1];
      assert init[..m] == xs[..m];
      WithScoreOfPrefix(init, m, k);
    } else {
      assert xs[..m] == xs;
    }
  }

  /** The class of `k` holds exactly the elements scored `k`. */
  lemma {:induction false} WithScoreMembers<T>(xs: seq<Scored<T>>, k: int)
    ensures forall y :: y in WithScore(xs, k) <==> y in xs && y.score == k
    decreases |xs|
  {
    if |xs| > 0 {
      var init := xs[..|xs| - 1];
      WithScoreMembers(init, k);
      assert xs == init + [xs[|xs| - 1]];
    }
  }

  lemma LastClassNonEmpty<T>(xs: seq<Scored<T>>)
    ensures |xs| > 0 ==> WithScore(xs, xs[|xs| - 1].score) != []
  {
  }

  /** Whatever sits in a class of `xs` is an element of `xs` with that score. */
  lemma {:induction false} ClassMember<T>(xs: seq<Scored<T>>, k: int, y: Scored<T>)
    requires y in WithScore(xs, k)
    ensures exists i :: 0 <= i < |xs| && xs[i] == y && y.score == k
    decreases |xs|
  {
    var init := xs[..|xs| - 1];
    if y in WithScore(init, k) {
      ClassMember(init, k, y);
      var i :| 0 <= i < |init| && init[i] == y && y.score == k;
      assert xs[i] == y;
    } else {
      assert xs[|xs| - 1] == y;
    }
  }

  /** Equal classes force the lowest scores to agree. */
  lemma LastScoresAgree<T>(a: seq<Scored<T>>, b: seq<Scored<T>>)
    requires SortedDesc(a) && SortedDesc(b) && |a| > 0 && |b| > 0
    requires WithScore(a, a[|a| - 1].score) == WithScore(b, a[|a| - 1].score)
    requires WithScore(a, b[|b| - 1].score) == WithScore(b, b[|b| - 1].score)
    ensures a[|a| - 1].score == b[|b| - 1].score
  {
    var x, y := a[|a| - 1], b[|b| - 1];
    LastInOwnClass(a);
    LastInOwnClass(b);
    ClassMember(b, x.score, x);
    ClassMember(a, y.score, y);
  }

  lemma LastInOwnClass<T>(xs: seq<Scored<T>>)
    requires |xs| > 0
    ensures xs[|xs| - 1] in WithScore(xs, xs[|xs| - 1].score)
  {
    var x := xs[|xs| - 1];
    assert WithScore(xs, x.score) == WithScore(xs[..|xs| - 1], x.score) + [x];
  }

  /** The last element is the last of its class, so equal classes share it. */
  lemma LastElementsAgree<T>(a: seq<Scored<T>>, b: seq<Scored<T>>)
    requires |a| > 0 && |b| > 0 && a[|a| - 1].score == b[|b| - 1].score
    requires forall k :: WithScore(a, k) == WithScore(b, k)
    ensures a[|a| - 1] == b[|b| - 1]
  {
    var x, y := a[|a| - 1], b[|b| - 1];
    var wa, wb := WithScore(a, x.score), WithScore(b, x.score);
    assert wa == wb;
    assert wa == WithScore(a[..|a| - 1], x.score) + [x];
    assert wb == WithScore(b[..|b| - 1], x.score) + [y];
    assert wa[|wa| - 1] == x && wb[|wb| - 1] == y;
  }

  /** Dropping a shared last element keeps the classes equal. */
  lemma InitClassesAgree<T>(a: seq<Scored<T>>, b: seq<Scored<T>>, k: int)
    requires |a| > 0 && |b| > 0 && a[|a| - 1] == b[|b| - 1]
    requires WithScore(a, k) == WithScore(b, k)
    ensures WithScore(a[..|a| - 1], k) == WithScore(b[..|b| - 1], k)
  {
    var x := a[|a| - 1];
    var tail: seq<Scored<T>> := if x.score == k then [x] else [];
    var pa, pb := WithScore(a[..|a| - 1], k), WithScore(b[..|b| - 1], k);
    assert pa + tail == pb + tail;
    assert pa == (pa + tail)[..|pa|];
    assert pb == (pb + tail)[..|pb|];
  }

  /**
   * The stable descending order is unique: two sequences sorted by
   * descending score with the same score classes are equal.
   */
  lemma {:induction false} SortedStableUnique<T>(a: seq<Scored<T>>, b: seq<Scored<T>>)
    requires SortedDesc(a) && SortedDesc(b)
    requires forall k :: WithScore(a, k) == WithScore(b, k)
    ensures a == b
    decreases |a|
  {
    LastClassNonEmpty(a);
    LastClassNonEmpty(b);
    if |a| > 0 && |b| > 0 {
      LastScoresAgree(a, b);
      LastElementsAgree(a, b);
      var ia, ib := a[..|a| - 1], b[..|b| - 1];
      forall k
        ensures WithScore(ia, k) == WithScore(ib, k)
      {
        InitClassesAgree(a, b, k);
      }
      SortedStableUnique(ia, ib);
      assert a == ia + [a[|a| - 1]] && b == ib + [b[|b| - 1]];
    }
  }

  /** `SortDesc` is the stable descending sort: any stable descending arrangement of the input is it. */
  lemma SortDescCharacterized<T>(xs: seq<Scored<T>>, ys: seq<Scored<T>>)
    requires SortedDesc(ys) && forall k :: WithScore(ys, k) == WithScore(xs, k)
    ensures ys == SortDesc(xs)
  {
    forall k
      ensures WithScore(ys, k) == WithScore(SortDesc(xs), k)
    {
      SortDescIsStable(xs, k);
    }
    SortedStableUnique(ys, SortDesc(xs));
  }

  /** The ten best pairs (or all of them when there are fewer), best first. */
  function TopScored<T>(scored: seq<Scored<T>>): (r: seq<Scored<T>>)
    ensures |r| == Min(RerankLimit, |scored|)
    ensures SortedDesc(r)
  {
    SortDesc(scored)[..Min(RerankLimit, |scored|)]
  }

  /** `[result[0] for result in reranked_results]`. */
  function Items<T>(xs: seq<Scored<T>>): (r: seq<T>)
    ensures |r| == |xs|
    ensures forall i :: 0 <= i < |r| ==> r[i] == xs[i].item
  {
    seq(|xs|, i requires 0 <= i < |xs| => xs[i].item)
  }

  lemma ItemsAppend<T>(a: seq<Scored<T>>, b: seq<Scored<T>>)
    ensures Items(a + b) == Items(a) + Items(b)
  {
  }

  /** Dropping the scores of a permutation gives a permutation. */
  lemma {:induction false} ItemsPermutation<T>(a: seq<Scored<T>>, b: seq<Scored<T>>)
    requires multiset(a) == multiset(b)
    ensures multiset(Items(a)) == multiset(Items(b))
    decreases |a|
  {
    if |a| > 0 {
      var x := a[|a| - 1];
      var a' := a[..|a| - 1];
      assert a == a' + [x];
      assert x in multiset(b);
      var j :| 0 <= j < |b| && b[j] == x;
      var b' := b[..j] + b[j + 1..];
      assert b == b[..j] + [x] + b[j + 1..];
      assert multiset(b) == multiset(b[..j]) + multiset{x} + multiset(b[j + 1..]);
      assert multiset(a) == multiset(a') + multiset{x};
      assert multiset(b') == multiset(b[..j]) + multiset(b[j + 1..]);
      assert multiset(a') == multiset(a) - multiset{x};
      assert multiset(b') == multiset(b) - multiset{x};
      ItemsPermutation(a', b');
      ItemsAppend(a', [x]);
      ItemsAppend(b[..j], [x]);
      ItemsAppend(b[..j] + [x], b[j + 1..]);
      ItemsAppend(b[..j], b[j + 1..]);
    } else {
      assert |b| == |multiset(b)| == 0;
    }
  }

  /** The reranked results, without their scores. */
  function RerankScored<T>(scored: seq<Scored<T>>): seq<T> {
    Items(TopScored(scored))
  }

  /** The kept pairs come from the input, each at most as often as it occurs there. */
  lemma TopScoredFromInput<T>(scored: seq<Scored<T>>)
    ensures multiset(TopScored(scored)) <= multiset(scored)
  {
    var sorted := SortDesc(scored);
    var m := Min(RerankLimit, |scored|);
    assert sorted == sorted[..m] + sorted[m..];
    assert multiset(sorted) == multiset(sorted[..m]) + multiset(sorted[m..]);
  }

  /** The reranked items come from the input, each at most as often as it occurs there. */
  lemma RerankScoredFromInput<T>(scored: seq<Scored<T>>)
    ensures multiset(RerankScored(scored)) <= multiset(Items(scored))
  {
    var sorted := SortDesc(scored);
    var m := Min(RerankLimit, |scored|);
    ItemsPermutation(sorted, scored);
    assert sorted == sorted[..m] + sorted[m..];
    ItemsAppend(sorted[..m], sorted[m..]);
  }

  /** No dropped pair scores above a kept one. */
  lemma TopScoredBeatsDropped<T>(scored: seq<Scored<T>>, i: nat, d: Scored<T>)
    requires i < |TopScored(scored)| && d in multiset(scored) - multiset(TopScored(scored))
    ensures d.score <= TopScored(scored)[i].score
  {
    var sorted := SortDesc(scored);
    var m := Min(RerankLimit, |scored|);
    SplitMultiset(sorted, m);
    DroppedBelowKept(sorted, m, i, d);
  }

  lemma SplitMultiset<T>(xs: seq<T>, m: nat)
    requires m <= |xs|
    ensures multiset(xs) - multiset(xs[..m]) == multiset(xs[m..])
  {
    assert xs == xs[..m] + xs[m..];
  }

  /** In a descending sequence, whatever lies past position `m` scores at most what lies before it. */
  lemma DroppedBelowKept<T>(sorted: seq<Scored<T>>, m: nat, i: nat, d: Scored<T>)
    requires SortedDesc(sorted) && i < m <= |sorted| && d in multiset(sorted[m..])
    ensures d.score <= sorted[i].score
  {
    var j :| 0 <= j < |sorted[m..]| && sorted[m..][j] == d;
    assert sorted[m + j] == d;
  }

  /** Ties keep their input order: each score class of the result starts that class of the input. */
  lemma TopScoredIsStable<T>(scored: seq<Scored<T>>, k: int)
    ensures IsPrefix(WithScore(TopScored(scored), k), WithScore(scored, k))
  {
    WithScoreOfPrefix(SortDesc(scored), Min(RerankLimit, |scored|), k);
    SortDescIsStable(scored, k);
  }
}
