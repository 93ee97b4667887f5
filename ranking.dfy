/**
 * Ranking by a score, highest first, and taking the first `n`: what
 * `DataFrame.nlargest(n, column)` returns once the scores are computed, and
 * what `Counter.most_common(n)` returns once the counts are. Each item is
 * paired with its score; an item ranks before every later item whose score
 * is not greater.
 */
module Ranking {
  import opened Common

  /** Scores never increase along the sequence. */
  predicate SortedDesc<T>(xs: seq<(real, T)>) {
    forall i, j :: 0 <= i < j < |xs| ==> xs[i].0 >= xs[j].0
  }

  /** Places `x` before the first item whose score is at most its own. */
  function Insert<T>(x: (real, T), xs: seq<(real, T)>): seq<(real, T)>
    decreases |xs|
  {
    if xs == [] || x.0 >= xs[0].0 then [x] + xs else [xs[0]] + Insert(x, xs[1..])
  }

  lemma {:induction false} InsertPermutes<T>(x: (real, T), xs: seq<(real, T)>)
    ensures multiset(Insert(x, xs)) == multiset(xs) + multiset{x}
    ensures |Insert(x, xs)| == |xs| + 1
    decreases |xs|
  {
    if xs != [] && x.0 < xs[0].0 {
      InsertPermutes(x, xs[1..]);
      assert xs == [xs[0]] + xs[1..];
    }
  }

  lemma {:induction false} InsertSorted<T>(x: (real, T), xs: seq<(real, T)>)
    requires SortedDesc(xs)
    ensures SortedDesc(Insert(x, xs))
    ensures Insert(x, xs) != [] && (Insert(x, xs)[0] == x || (xs != [] && Insert(x, xs)[0] == xs[0]))
    decreases |xs|
  {
    if xs != [] && x.0 < xs[0].0 {
      InsertSorted(x, xs[1..]);
      var rest := Insert(x, xs[1..]);
      InsertPermutes(x, xs[1..]);
      forall j | 0 <= j < |rest| ensures xs[0].0 >= rest[j].0 {
        assert rest[j] in multiset(xs[1..]) + multiset{x};
        if rest[j] in multiset(xs[1..]) {
          var k :| 0 <= k < |xs[1..]| && xs[1..][k] == rest[j];
          assert xs[k + 1] == rest[j];
        }
      }
    }
  }

  /** All items, highest score first; among equal scores the earlier item first. */
  function SortDesc<T>(xs: seq<(real, T)>): seq<(real, T)>
    decreases |xs|
  {
    if xs == [] then [] else Insert(xs[0], SortDesc(xs[1..]))
  }

  /** The ranking is a permutation of the items, ordered by score. */
  lemma {:induction false} SortDescCorrect<T>(xs: seq<(real, T)>)
    ensures multiset(SortDesc(xs)) == multiset(xs)
    ensures |SortDesc(xs)| == |xs|
    ensures SortedDesc(SortDesc(xs))
    decreases |xs|
  {
    if xs != [] {
      SortDescCorrect(xs[1..]);
      InsertPermutes(xs[0], SortDesc(xs[1..]));
      InsertSorted(xs[0], SortDesc(xs[1..]));
      assert xs == [xs[0]] + xs[1..];
    }
  }

  /** The first `n` items of the ranking (all of them when there are fewer). */
  function TopN<T>(xs: seq<(real, T)>, n: nat): seq<(real, T)> {
    var ranked := SortDesc(xs);
    SortDescCorrect(xs);
    ranked[..Min(n, |xs|)]
  }

  /** The items `TopN` leaves out. */
  function Rest<T>(xs: seq<(real, T)>, n: nat): seq<(real, T)> {
    var ranked := SortDesc(xs);
    SortDescCorrect(xs);
    ranked[Min(n, |xs|)..]
  }

  /**
   * `TopN` takes `min(n, |xs|)` of the items, ordered by score; together with
   * the items it leaves out they are all the items, and no item left out
   * scores higher than any item taken.
   */
  lemma TopNCorrect<T>(xs: seq<(real, T)>, n: nat)
    ensures |TopN(xs, n)| == Min(n, |xs|)
    ensures SortedDesc(TopN(xs, n))
    ensures multiset(TopN(xs, n)) + multiset(Rest(xs, n)) == multiset(xs)
    ensures forall i, j :: 0 <= i < |TopN(xs, n)| && 0 <= j < |Rest(xs, n)| ==> Rest(xs, n)[j].0 <= TopN(xs, n)[i].0
  {
    var ranked := SortDesc(xs);
    SortDescCorrect(xs);
    var k := Min(n, |xs|);
    assert ranked == ranked[..k] + ranked[k..];
    forall i, j | 0 <= i < k && 0 <= j < |ranked| - k ensures ranked[k..][j].0 <= ranked[..k][i].0 {
      assert ranked[k..][j] == ranked[k + j];
    }
  }

  /** Every item taken is one of the items. */
  lemma TopNFrom<T>(xs: seq<(real, T)>, n: nat)
    ensures forall i :: 0 <= i < |TopN(xs, n)| ==> TopN(xs, n)[i] in xs
  {
    TopNCorrect(xs, n);
    forall i | 0 <= i < |TopN(xs, n)| ensures TopN(xs, n)[i] in xs {
      assert TopN(xs, n)[i] in multiset(TopN(xs, n));
      assert TopN(xs, n)[i] in multiset(xs);
    }
  }
}
