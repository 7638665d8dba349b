/** Python's `sorted(xs, key=k, reverse=True)` and the slice `xs[:n]`,
    as the greedy fill uses them to rank candidates. */
module Sorting {
  import opened Util

  predicate SortedDesc<T>(xs: seq<T>, key: T -> real) {
    forall i, j :: 0 <= i < j < |xs| ==> key(xs[i]) >= key(xs[j])
  }

  /** The elements whose key is exactly c, in order. */
  function KeyClass<T>(xs: seq<T>, key: T -> real, c: real): seq<T> {
    if |xs| == 0 then [] else (if key(xs[0]) == c then [xs[0]] else []) + KeyClass(xs[1..], key, c)
  }

  /** Inserts x before the first element whose key is at most x's, so x
      goes ahead of every element of equal key that follows it. */
  function InsertDesc<T>(x: T, ys: seq<T>, key: T -> real): (r: seq<T>)
    requires SortedDesc(ys, key)
    ensures multiset(r) == multiset(ys) + multiset{x}
    ensures SortedDesc(r, key)
    ensures |r| > 0 && key(r[0]) == if |ys| == 0 || key(ys[0]) <= key(x) then key(x) else key(ys[0])
  {
    if |ys| == 0 then [x]
    else if key(ys[0]) <= key(x) then
      SortedCons(x, ys, key);
      [x] + ys
    else
      var rest := InsertDesc(x, ys[1..], key);
      assert ys == [ys[0]] + ys[1..];
      SortedCons(ys[0], rest, key);
      [ys[0]] + rest
  }

  lemma SortedCons<T>(y: T, rest: seq<T>, key: T -> real)
    requires SortedDesc(rest, key) && (|rest| > 0 ==> key(y) >= key(rest[0]))
    ensures SortedDesc([y] + rest, key)
  {
    var r := [y] + rest;
    forall i, j | 0 <= i < j < |r| ensures key(r[i]) >= key(r[j]) {
      if i == 0 {
        assert r[j] == rest[j - 1];
      } else {
        assert r[i] == rest[i - 1] && r[j] == rest[j - 1];
      }
    }
  }

  /** `sorted(xs, key=key, reverse=True)`. */
  function SortDesc<T>(xs: seq<T>, key: T -> real): (r: seq<T>)
    ensures multiset(r) == multiset(xs)
    ensures SortedDesc(r, key)
  {
    if |xs| == 0 then []
    else
      assert xs == [xs[0]] + xs[1..];
      InsertDesc(xs[0], SortDesc(xs[1..], key), key)
  }

  /** Inserting x only adds x to its own key class, at the front. */
  lemma {:induction false} InsertDescStable<T>(x: T, ys: seq<T>, key: T -> real, c: real)
    requires SortedDesc(ys, key)
    ensures KeyClass(InsertDesc(x, ys, key), key, c) == (if key(x) == c then [x] else []) + KeyClass(ys, key, c)
  {
    if |ys| == 0 || key(ys[0]) <= key(x) {
      InsertAtHead(x, ys, key, c);
    } else {
      InsertDescStable(x, ys[1..], key, c);
      InsertPastHead(x, ys, key, c);
    }
  }

  lemma InsertAtHead<T>(x: T, ys: seq<T>, key: T -> real, c: real)
    requires SortedDesc(ys, key) && (|ys| == 0 || key(ys[0]) <= key(x))
    ensures KeyClass(InsertDesc(x, ys, key), key, c) == (if key(x) == c then [x] else []) + KeyClass(ys, key, c)
  {
    assert InsertDesc(x, ys, key) == [x] + ys;
    assert ([x] + ys)[1..] == ys;
  }

  lemma InsertPastHead<T>(x: T, ys: seq<T>, key: T -> real, c: real)
    requires SortedDesc(ys, key) && |ys| > 0 && key(ys[0]) > key(x)
    requires KeyClass(InsertDesc(x, ys[1..], key), key, c) == (if key(x) == c then [x] else []) + KeyClass(ys[1..], key, c)
    ensures KeyClass(InsertDesc(x, ys, key), key, c) == (if key(x) == c then [x] else []) + KeyClass(ys, key, c)
  {
    var rest := InsertDesc(x, ys[1..], key);
    assert InsertDesc(x, ys, key) == [ys[0]] + rest;
    assert ([ys[0]] + rest)[1..] == rest;
  }

  /** The sort is stable: the elements of each key keep their input
      order. With the permutation and the ordering this fixes the result. */
  lemma {:induction false} SortDescStable<T>(xs: seq<T>, key: T -> real, c: real)
    ensures KeyClass(SortDesc(xs, key), key, c) == KeyClass(xs, key, c)
  {
    if |xs| > 0 {
      SortDescStable(xs[1..], key, c);
      InsertDescStable(xs[0], SortDesc(xs[1..], key), key, c);
    }
  }

  /** Python's `xs[:n]`: a negative n counts from the end. */
  function SliceTo<T>(xs: seq<T>, n: int): (r: seq<T>)
    ensures r <= xs
    ensures n >= 0 ==> |r| == if n <= |xs| then n else |xs|
    ensures n < 0 ==> |r| == if |xs| + n >= 0 then |xs| + n else 0
    ensures |r| < n <==> |xs| < n
  {
    if n >= 0 then (if n <= |xs| then xs[..n] else xs)
    else if |xs| + n >= 0 then xs[..|xs| + n] else []
  }

  /** The first n of the ranking are some of the candidates, as many as
      there are when fewer than n. */
  lemma SliceOfRanking<T>(xs: seq<T>, key: T -> real, n: int)
    ensures var sel := SliceTo(SortDesc(xs, key), n);
      && multiset(sel) <= multiset(xs)
      && (|sel| < n <==> |xs| < n)
      && (n >= 0 ==> |sel| == if n <= |xs| then n else |xs|)
  {
    var ranked := SortDesc(xs, key);
    var sel := SliceTo(ranked, n);
    assert |ranked| == |xs| by {
      assert |multiset(ranked)| == |multiset(xs)|;
    }
    assert ranked == sel + ranked[|sel|..];
    assert multiset(ranked) == multiset(sel) + multiset(ranked[|sel|..]);
  }

  /** What the fill takes from the ranking: the first n candidates by
      key, each scoring at least as much as every candidate left out. */
  lemma TopOfRanking<T>(xs: seq<T>, key: T -> real, n: int)
    ensures var ranked := SortDesc(xs, key);
            var sel := SliceTo(ranked, n);
            && multiset(sel) + multiset(ranked[|sel|..]) == multiset(xs)
            && forall i, j :: 0 <= i < |sel| && 0 <= j < |ranked[|sel|..]| ==> key(sel[i]) >= key(ranked[|sel|..][j])
  {
    var ranked := SortDesc(xs, key);
    var sel := SliceTo(ranked, n);
    assert ranked == sel + ranked[|sel|..];
  }

  /** The same, against the input list: a candidate that was not picked
      scores no more than any picked one. */
  lemma TopOfRankingMembers<T>(xs: seq<T>, key: T -> real, n: int)
    ensures var sel := SliceTo(SortDesc(xs, key), n);
            forall i, j :: 0 <= i < |sel| && 0 <= j < |xs| && xs[j] !in sel ==> key(sel[i]) >= key(xs[j])
  {
    var ranked := SortDesc(xs, key);
    var sel := SliceTo(ranked, n);
    var rest := ranked[|sel|..];
    TopOfRanking(xs, key, n);
    forall i, j | 0 <= i < |sel| && 0 <= j < |xs| && xs[j] !in sel ensures key(sel[i]) >= key(xs[j]) {
      var y := xs[j];
      assert y in multiset(xs) && y !in multiset(sel);
      assert y in multiset(rest);
      var m :| 0 <= m < |rest| && rest[m] == y;
    }
  }

  /** TopOfRankingMembers for one picked and one left-out candidate. */
  lemma TopOfRankingPair<T>(xs: seq<T>, key: T -> real, n: int, i: int, j: int)
    requires var sel := SliceTo(SortDesc(xs, key), n); 0 <= i < |sel| && 0 <= j < |xs| && xs[j] !in sel
    ensures key(SliceTo(SortDesc(xs, key), n)[i]) >= key(xs[j])
  {
    TopOfRankingMembers(xs, key, n);
  }
}
