/** Language-neutral helpers shared by every model: optional values, results,
    decimal digits and sums. */
module Util {

  datatype Option<+T> = None | Some(value: T)

  datatype Result<+T, +E> = Ok(value: T) | Err(error: E)

  predicate IsDigit(c: char) {
    '0' <= c <= '9'
  }

  predicate AllDigits(s: string) {
    forall i :: 0 <= i < |s| ==> IsDigit(s[i])
  }

  function DigitValue(c: char): nat
    requires IsDigit(c)
  {
    (c as int) - ('0' as int)
  }

  function DigitChar(d: nat): (c: char)
    requires d < 10
    ensures IsDigit(c) && DigitValue(c) == d
  {
    ('0' as int + d) as char
  }

  /** The value of a string of decimal digits, most significant first. */
  function DecimalValue(s: string): nat
    requires AllDigits(s)
  {
    if |s| == 0 then 0 else 10 * DecimalValue(s[..|s| - 1]) + DigitValue(s[|s| - 1])
  }

  /** Decimal rendering of a natural number without leading zeros. */
  function NatToString(n: nat): (s: string)
    ensures AllDigits(s) && 1 <= |s|
    ensures n < 10 <==> |s| == 1
    ensures |s| > 1 ==> s[0] != '0'
    decreases n
  {
    if n < 10 then [DigitChar(n)] else NatToString(n / 10) + [DigitChar(n % 10)]
  }

  lemma {:induction false} NatToStringRoundTrip(n: nat)
    ensures DecimalValue(NatToString(n)) == n
    decreases n
  {
    if n >= 10 {
      var s := NatToString(n);
      assert s[..|s| - 1] == NatToString(n / 10);
      NatToStringRoundTrip(n / 10);
    }
  }

  /** Distinct numbers have distinct decimal renderings. */
  lemma NatToStringInjective(a: nat, b: nat)
    requires NatToString(a) == NatToString(b)
    ensures a == b
  {
    NatToStringRoundTrip(a);
    NatToStringRoundTrip(b);
  }

  lemma NatToStringDistinct(a: nat, b: nat)
    requires a != b
    ensures NatToString(a) != NatToString(b)
  {
    if NatToString(a) == NatToString(b) {
      NatToStringInjective(a, b);
    }
  }

  /** Sum of a sequence of reals, left to right. */
  function SumReal(xs: seq<real>): real
  {
    if |xs| == 0 then 0.0 else SumReal(xs[..|xs| - 1]) + xs[|xs| - 1]
  }

  lemma {:induction false} SumRealAppend(xs: seq<real>, ys: seq<real>)
    ensures SumReal(xs + ys) == SumReal(xs) + SumReal(ys)
    decreases |ys|
  {
    if |ys| == 0 {
      assert xs + ys == xs;
    } else {
      assert (xs + ys)[..|xs + ys| - 1] == xs + ys[..|ys| - 1];
      SumRealAppend(xs, ys[..|ys| - 1]);
    }
  }

  lemma {:induction false} SumRealNonNeg(xs: seq<real>)
    requires forall i :: 0 <= i < |xs| ==> xs[i] >= 0.0
    ensures SumReal(xs) >= 0.0
    decreases |xs|
  {
    if |xs| > 0 {
      SumRealNonNeg(xs[..|xs| - 1]);
    }
  }

  /** A sum of terms each at least c is at least n times c. */
  lemma {:induction false} SumRealAtLeast(xs: seq<real>, c: real)
    requires forall i :: 0 <= i < |xs| ==> xs[i] >= c
    ensures SumReal(xs) >= |xs| as real * c
    decreases |xs|
  {
    if |xs| > 0 {
      SumRealAtLeast(xs[..|xs| - 1], c);
    }
  }

  /** The position of a least element. */
  function MinIndex(xs: seq<real>): (m: nat)
    requires |xs| > 0
    ensures m < |xs| && forall i :: 0 <= i < |xs| ==> xs[m] <= xs[i]
    decreases |xs|
  {
    if |xs| == 1 then 0
    else
      var m := MinIndex(xs[..|xs| - 1]);
      assert forall i :: 0 <= i < |xs| - 1 ==> xs[..|xs| - 1][i] == xs[i];
      if xs[|xs| - 1] < xs[m] then |xs| - 1 else m
  }

  /** Number of occurrences of x in s. */
  function Count<T(==)>(s: seq<T>, x: T): nat
  {
    if |s| == 0 then 0 else Count(s[..|s| - 1], x) + (if s[|s| - 1] == x then 1 else 0)
  }

  predicate NoDuplicates<T(==)>(s: seq<T>) {
    forall i, j :: 0 <= i < j < |s| ==> s[i] != s[j]
  }

  /** Index of the first occurrence of x, or -1. */
  function IndexOf<T(==)>(s: seq<T>, x: T): (r: int)
    ensures -1 <= r < |s|
    ensures r == -1 <==> x !in s
    ensures r >= 0 ==> s[r] == x && x !in s[..r]
  {
    if |s| == 0 then -1
    else if s[0] == x then 0
    else
      var k := IndexOf(s[1..], x);
      if k == -1 then -1
      else
        assert s[..k + 1] == [s[0]] + s[1..][..k];
        k + 1
  }

  /** Index of the last occurrence of x, or -1. */
  function LastIndexOf<T(==)>(s: seq<T>, x: T): (r: int)
    ensures -1 <= r < |s|
    ensures r == -1 <==> x !in s
    ensures r >= 0 ==> s[r] == x && x !in s[r + 1..]
  {
    if |s| == 0 then -1
    else if s[|s| - 1] == x then |s| - 1
    else
      var init := s[..|s| - 1];
      var k := LastIndexOf(init, x);
      assert s == init + [s[|s| - 1]];
      assert k >= 0 ==> s[k + 1..] == init[k + 1..] + [s[|s| - 1]];
      k
  }

  /** Splits s around the first occurrence of x. */
  function SplitAtFirst<T(==)>(s: seq<T>, x: T): (r: Option<(seq<T>, seq<T>)>)
    ensures r == None <==> x !in s
    ensures r.Some? ==> s == r.value.0 + [x] + r.value.1 && x !in r.value.0
  {
    var k := IndexOf(s, x);
    if k == -1 then None
    else
      assert s == s[..k] + [x] + s[k + 1..];
      Some((s[..k], s[k + 1..]))
  }

  /** Splits s around the last occurrence of x. */
  function SplitAtLast<T(==)>(s: seq<T>, x: T): (r: Option<(seq<T>, seq<T>)>)
    ensures r == None <==> x !in s
    ensures r.Some? ==> s == r.value.0 + [x] + r.value.1 && x !in r.value.1
    ensures r.Some? ==> s[..|r.value.0|] == r.value.0
  {
    var k := LastIndexOf(s, x);
    if k == -1 then None
    else
      assert s == s[..k] + [x] + s[k + 1..];
      Some((s[..k], s[k + 1..]))
  }

  /** The first-occurrence split is determined by its pieces. */
  lemma SplitAtFirstOf<T>(a: seq<T>, x: T, b: seq<T>)
    requires x !in a
    ensures SplitAtFirst(a + [x] + b, x) == Some((a, b))
  {
    var s := a + [x] + b;
    var r := SplitAtFirst(s, x);
    var a', b' := r.value.0, r.value.1;
    assert s[|a|] == x && s[..|a|] == a;
    assert a' == s[..|a|] == a;
    assert b' == s[|a| + 1..] == b;
  }

  /** The last-occurrence split is determined by its pieces. */
  lemma SplitAtLastOf<T>(a: seq<T>, x: T, b: seq<T>)
    requires x !in b
    ensures SplitAtLast(a + [x] + b, x) == Some((a, b))
  {
    var s := a + [x] + b;
    var r := SplitAtLast(s, x);
    var a', b' := r.value.0, r.value.1;
    assert s[|a|] == x && s[|a| + 1..] == b;
    assert a' == s[..|a|] == a;
    assert b' == s[|a| + 1..] == b;
  }

  /** Index of the first element satisfying p, if any. */
  function FirstWhere<T>(s: seq<T>, p: T -> bool): (r: Option<nat>)
    ensures r.None? <==> forall k :: 0 <= k < |s| ==> !p(s[k])
    ensures r.Some? ==> r.value < |s| && p(s[r.value]) && forall k :: 0 <= k < r.value ==> !p(s[k])
  {
    if |s| == 0 then None
    else if p(s[0]) then Some(0)
    else
      match FirstWhere(s[1..], p)
      case None => None
      case Some(k) => Some(k + 1)
  }

  /** Applies f to every item in order; None as soon as one item gives None. */
  function AllSome<A, B>(items: seq<A>, f: A -> Option<B>): (r: Option<seq<B>>)
    ensures r.Some? <==> forall i :: 0 <= i < |items| ==> f(items[i]).Some?
    ensures r.Some? ==> |r.value| == |items|
    ensures r.Some? ==> forall i :: 0 <= i < |items| ==> r.value[i] == f(items[i]).value
  {
    if |items| == 0 then Some([])
    else
      var init := items[..|items| - 1];
      assert forall i :: 0 <= i < |init| ==> init[i] == items[i];
      match AllSome(init, f)
      case None => None
      case Some(done) =>
        match f(items[|items| - 1])
        case None => None
        case Some(y) => Some(done + [y])
  }

  /** s with the element at position i removed. */
  function RemoveAt<T>(s: seq<T>, i: nat): (r: seq<T>)
    requires i < |s|
    ensures |r| == |s| - 1
    ensures forall k :: 0 <= k < i ==> r[k] == s[k]
    ensures forall k :: i <= k < |r| ==> r[k] == s[k + 1]
  {
    s[..i] + s[i + 1..]
  }

  /** The positions of the elements satisfying p, in increasing order. */
  function FilterIndices<T>(s: seq<T>, p: T -> bool): (r: seq<nat>)
    ensures |r| <= |s|
    ensures forall i :: 0 <= i < |r| ==> r[i] < |s| && p(s[r[i]])
    ensures forall i, j :: 0 <= i < j < |r| ==> r[i] < r[j]
    ensures forall k :: 0 <= k < |s| && p(s[k]) ==> k in r
  {
    if |s| == 0 then []
    else FilterIndices(s[..|s| - 1], p) + (if p(s[|s| - 1]) then [|s| - 1] else [])
  }

  /** The elements satisfying p, in order (a list comprehension with an
      `if`): exactly the elements at the positions FilterIndices picks. */
  function Filter<T>(s: seq<T>, p: T -> bool): (r: seq<T>)
    ensures |r| == |FilterIndices(s, p)|
    ensures forall i :: 0 <= i < |r| ==> r[i] == s[FilterIndices(s, p)[i]] && p(r[i])
  {
    if |s| == 0 then []
    else Filter(s[..|s| - 1], p) + (if p(s[|s| - 1]) then [s[|s| - 1]] else [])
  }

  /** Filter keeps exactly the elements of s that satisfy p. */
  lemma FilterMembers<T>(s: seq<T>, p: T -> bool, x: T)
    ensures x in Filter(s, p) <==> x in s && p(x)
  {
    var r, idx := Filter(s, p), FilterIndices(s, p);
    if x in r {
      var i :| 0 <= i < |r| && r[i] == x;
      assert s[idx[i]] == x;
    }
    if x in s && p(x) {
      var k :| 0 <= k < |s| && s[k] == x;
      assert k in idx;
      var i :| 0 <= i < |idx| && idx[i] == k;
      assert r[i] == x;
    }
  }

  /** Filtering the ids 1..n keeps distinct ids within 1..n. */
  lemma FilterOfCounting(ids: seq<int>, p: int -> bool)
    requires forall k :: 0 <= k < |ids| ==> ids[k] == k + 1
    ensures var r := Filter(ids, p);
      NoDuplicates(r) && forall i :: 0 <= i < |r| ==> 1 <= r[i] <= |ids|
  {
    var r, idx := Filter(ids, p), FilterIndices(ids, p);
    forall i | 0 <= i < |r| ensures r[i] == idx[i] + 1 {
      assert r[i] == ids[idx[i]];
    }
  }

  lemma FilterAppend<T>(s: seq<T>, t: seq<T>, p: T -> bool)
    ensures Filter(s + t, p) == Filter(s, p) + Filter(t, p)
    decreases |t|
  {
    if |t| > 0 {
      var u, x := t[..|t| - 1], t[|t| - 1];
      var tail := if p(x) then [x] else [];
      assert (s + t)[..|s + t| - 1] == s + u && (s + t)[|s + t| - 1] == x;
      assert Filter(s + t, p) == Filter(s + u, p) + tail;
      assert Filter(t, p) == Filter(u, p) + tail;
      FilterAppend(s, u, p);
    } else {
      assert s + t == s;
    }
  }

  /** Python's `list.remove(x)`: drops the first occurrence; None where it
      raises ValueError. */
  function RemoveFirst<T(==)>(s: seq<T>, x: T): (r: Option<seq<T>>)
    ensures r.None? <==> x !in s
    ensures r.Some? ==> var k := IndexOf(s, x); 0 <= k && r.value == s[..k] + s[k + 1..]
    ensures r.Some? ==> multiset(r.value) + multiset{x} == multiset(s)
  {
    match SplitAtFirst(s, x)
    case None => None
    case Some((a, b)) =>
      assert multiset(s) == multiset(a) + multiset{x} + multiset(b) by {
        assert s == a + [x] + b;
      }
      Some(a + b)
  }

  /** The index of the last element satisfying p, if any. */
  function LastWhere<T>(s: seq<T>, p: T -> bool): (r: Option<nat>)
    ensures r.None? <==> forall k :: 0 <= k < |s| ==> !p(s[k])
    ensures r.Some? ==> r.value < |s| && p(s[r.value]) && forall k :: r.value < k < |s| ==> !p(s[k])
  {
    if |s| == 0 then None
    else if p(s[|s| - 1]) then Some(|s| - 1)
    else LastWhere(s[..|s| - 1], p)
  }

  /** Applies f to every item in order; the first error ends the walk. */
  function AllOk<A, B, E>(items: seq<A>, f: A -> Result<B, E>): (r: Result<seq<B>, E>)
    ensures r.Ok? <==> forall i :: 0 <= i < |items| ==> f(items[i]).Ok?
    ensures r.Ok? ==> |r.value| == |items|
    ensures r.Ok? ==> forall i :: 0 <= i < |items| ==> r.value[i] == f(items[i]).value
  {
    if |items| == 0 then Ok([])
    else
      var init := items[..|items| - 1];
      assert forall i :: 0 <= i < |init| ==> init[i] == items[i];
      match AllOk(init, f)
      case Err(e) => Err(e)
      case Ok(done) =>
        match f(items[|items| - 1])
        case Err(e) => Err(e)
        case Ok(y) => Ok(done + [y])
  }

  /** The walk stops at the first item, so its error is the one reported. */
  lemma {:induction false} AllOkFirstError<A, B, E>(items: seq<A>, f: A -> Result<B, E>)
    requires |items| > 0 && f(items[0]).Err?
    ensures AllOk(items, f) == Err(f(items[0]).error)
    decreases |items|
  {
    if |items| > 1 {
      var init := items[..|items| - 1];
      assert init[0] == items[0];
      AllOkFirstError(init, f);
    }
  }

  /** The predicate "p succeeds and says yes". */
  function OkAndTrue<T, E>(p: T -> Result<bool, E>): T -> bool {
    x => p(x).Ok? && p(x).value
  }

  /** A filter whose test can raise: the first error in order ends it. */
  function FilterOk<T, E>(s: seq<T>, p: T -> Result<bool, E>): (r: Result<seq<T>, E>)
    ensures r.Ok? <==> forall i :: 0 <= i < |s| ==> p(s[i]).Ok?
    ensures r.Ok? ==> r.value == Filter(s, OkAndTrue(p))
  {
    if |s| == 0 then Ok([])
    else
      var init := s[..|s| - 1];
      assert forall i :: 0 <= i < |init| ==> init[i] == s[i];
      match FilterOk(init, p)
      case Err(e) => Err(e)
      case Ok(done) =>
        match p(s[|s| - 1])
        case Err(e) => Err(e)
        case Ok(keep) => Ok(done + (if keep then [s[|s| - 1]] else []))
  }

  /** Filters with tests that agree on every element agree. */
  lemma {:induction false} FilterCongruent<T>(s: seq<T>, p: T -> bool, q: T -> bool)
    requires forall i :: 0 <= i < |s| ==> p(s[i]) == q(s[i])
    ensures Filter(s, p) == Filter(s, q)
    decreases |s|
  {
    if |s| > 0 {
      var init := s[..|s| - 1];
      assert forall i :: 0 <= i < |init| ==> init[i] == s[i];
      FilterCongruent(init, p, q);
    }
  }

  /** A filter with a weaker test keeps everything a stronger one keeps. */
  lemma FilterWeaker<T>(s: seq<T>, p: T -> bool, q: T -> bool)
    requires forall i :: 0 <= i < |s| ==> p(s[i]) ==> q(s[i])
    ensures forall x :: x in Filter(s, p) ==> x in Filter(s, q)
  {
    var fp, fq, iq := Filter(s, p), Filter(s, q), FilterIndices(s, q);
    forall x | x in fp ensures x in fq {
      var i :| 0 <= i < |fp| && fp[i] == x;
      var k := FilterIndices(s, p)[i];
      assert k < |s| && p(s[k]);
      assert k in iq;
      var j :| 0 <= j < |iq| && iq[j] == k;
      assert fq[j] == s[k] == x;
    }
  }

  /** Without repeats, every value occurs at most once. */
  lemma {:induction false} NoDuplicatesCount<T>(xs: seq<T>, v: T)
    requires NoDuplicates(xs)
    ensures multiset(xs)[v] <= 1
  {
    if |xs| > 0 {
      var rest := xs[..|xs| - 1];
      NoDuplicatesCount(rest, v);
      assert xs == rest + [xs[|xs| - 1]];
      assert xs[|xs| - 1] == v ==> v !in rest;
    }
  }

  /** A sequence whose elements, with multiplicity, are among those of a
      sequence without repeats has no repeats either. */
  lemma NoDuplicatesSubMultiset<T>(xs: seq<T>, ys: seq<T>)
    requires NoDuplicates(xs) && multiset(ys) <= multiset(xs)
    ensures NoDuplicates(ys)
  {
    forall i, j | 0 <= i < j < |ys| ensures ys[i] != ys[j] {
      var v := ys[i];
      NoDuplicatesCount(xs, v);
      assert ys == ys[..j] + ys[j..];
      assert ys[..j][i] == v && ys[j..][0] == ys[j];
      assert multiset(ys[..j])[v] >= 1;
      assert multiset(ys[j..])[v] >= (if ys[j] == v then 1 else 0);
    }
  }

  /** A dictionary's key order: each key once, and nothing else. */
  predicate KeyOrder<K(==), V>(order: seq<K>, m: map<K, V>) {
    && NoDuplicates(order)
    && (forall i :: 0 <= i < |order| ==> order[i] in m)
    && (forall k :: k in m ==> k in order)
  }

  /** The key order of a map is one of every map with the same keys. */
  lemma KeyOrderSameKeys<K, V>(order: seq<K>, m: map<K, V>, m2: map<K, V>)
    requires KeyOrder(order, m) && m2.Keys == m.Keys
    ensures KeyOrder(order, m2)
  {
    assert forall k :: k in m2 <==> k in m.Keys;
  }
}
