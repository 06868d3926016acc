/** Sequence vocabulary shared by the models: optional values, sums and filters. */
module Base {

  datatype Option<+T> = None | Some(value: T) {
    function GetOr(default: T): T {
      match this
      case Some(v) => v
      case None => default
    }
  }

  function Max(a: int, b: int): int {
    if a < b then b else a
  }

  function Min(a: int, b: int): int {
    if a < b then a else b
  }

  /** The sum of a weight over a sequence. */
  function Sum<T>(f: T -> int, s: seq<T>): int {
    if s == [] then 0 else f(s[0]) + Sum(f, s[1..])
  }

  lemma {:induction false} SumConcat<T>(f: T -> int, a: seq<T>, b: seq<T>)
    ensures Sum(f, a + b) == Sum(f, a) + Sum(f, b)
  {
    if a == [] {
      assert a + b == b;
    } else {
      assert (a + b)[1..] == a[1..] + b;
      SumConcat(f, a[1..], b);
    }
  }

  /** Replacing one element moves the sum by the difference of the two weights. */
  lemma SumUpdate<T>(f: T -> int, s: seq<T>, i: nat, x: T)
    requires i < |s|
    ensures Sum(f, s[i := x]) == Sum(f, s) - f(s[i]) + f(x)
  {
    var rest := s[i + 1..];
    assert s == s[..i] + ([s[i]] + rest);
    assert s[i := x] == s[..i] + ([x] + rest);
    SumConcat(f, s[..i], [s[i]] + rest);
    SumConcat(f, s[..i], [x] + rest);
  }

  lemma {:induction false} SumZero<T>(f: T -> int, s: seq<T>)
    requires forall x <- s :: f(x) == 0
    ensures Sum(f, s) == 0
  {
    if s != [] {
      SumZero(f, s[1..]);
    }
  }

  lemma {:induction false} SumNonNegative<T>(f: T -> int, s: seq<T>)
    requires forall x <- s :: f(x) >= 0
    ensures Sum(f, s) >= 0
  {
    if s != [] {
      SumNonNegative(f, s[1..]);
    }
  }

  lemma {:induction false} SumMonotone<T>(f: T -> int, g: T -> int, s: seq<T>)
    requires forall x <- s :: f(x) <= g(x)
    ensures Sum(f, s) <= Sum(g, s)
  {
    if s != [] {
      SumMonotone(f, g, s[1..]);
    }
  }

  /** The elements that satisfy p, in order. */
  function Filter<T>(p: T -> bool, s: seq<T>): seq<T> {
    if s == [] then [] else if p(s[0]) then [s[0]] + Filter(p, s[1..]) else Filter(p, s[1..])
  }

  lemma {:induction false} FilterConcat<T>(p: T -> bool, a: seq<T>, b: seq<T>)
    ensures Filter(p, a + b) == Filter(p, a) + Filter(p, b)
  {
    if a == [] {
      assert a + b == b;
    } else {
      assert (a + b)[1..] == a[1..] + b;
      FilterConcat(p, a[1..], b);
    }
  }

  lemma FilterSnoc<T>(p: T -> bool, s: seq<T>, x: T)
    ensures Filter(p, s + [x]) == if p(x) then Filter(p, s) + [x] else Filter(p, s)
  {
    FilterConcat(p, s, [x]);
  }

  lemma {:induction false} FilterMembers<T>(p: T -> bool, s: seq<T>)
    ensures |Filter(p, s)| <= |s|
    ensures forall x :: x in Filter(p, s) <==> x in s && p(x)
  {
    if s != [] {
      FilterMembers(p, s[1..]);
    }
  }

  lemma {:induction false} FilterNothing<T>(p: T -> bool, s: seq<T>)
    requires forall x <- s :: !p(x)
    ensures Filter(p, s) == []
  {
    if s != [] {
      FilterNothing(p, s[1..]);
    }
  }

  lemma {:induction false} FilterEverything<T>(p: T -> bool, s: seq<T>)
    requires forall x <- s :: p(x)
    ensures Filter(p, s) == s
  {
    if s != [] {
      FilterEverything(p, s[1..]);
    }
  }

  /** A pointwise smaller sequence with one strictly smaller element has a smaller sum. */
  lemma {:induction false} SumLess<T>(f: T -> int, a: seq<T>, b: seq<T>, i: nat)
    requires |a| == |b| && i < |a| && f(a[i]) < f(b[i])
    requires forall k :: 0 <= k < |a| ==> f(a[k]) <= f(b[k])
    ensures Sum(f, a) < Sum(f, b)
  {
    if i == 0 {
      SumPointwise(f, a[1..], b[1..]);
    } else {
      SumLess(f, a[1..], b[1..], i - 1);
    }
  }

  lemma {:induction false} SumPointwise<T>(f: T -> int, a: seq<T>, b: seq<T>)
    requires |a| == |b|
    requires forall k :: 0 <= k < |a| ==> f(a[k]) <= f(b[k])
    ensures Sum(f, a) <= Sum(f, b)
  {
    if a != [] {
      SumPointwise(f, a[1..], b[1..]);
    }
  }

  function Pow2(n: nat): (r: nat)
    ensures r >= 1
  {
    if n == 0 then 1 else 2 * Pow2(n - 1)
  }

  lemma Regroup<T>(a: seq<T>, b: seq<T>, c: seq<T>)
    ensures (a + b) + c == a + (b + c)
  {
  }

  ghost predicate Distinct<T>(s: seq<T>) {
    forall i, j :: 0 <= i < j < |s| ==> s[i] != s[j]
  }

  lemma MultisetSnoc<T>(s: seq<T>, x: T)
    ensures multiset(s + [x]) == multiset(s) + multiset{x}
  {
  }

  lemma {:induction false} DistinctOnce<T>(s: seq<T>, x: T)
    requires Distinct(s)
    ensures multiset(s)[x] <= 1
  {
    if s != [] {
      var n := |s| - 1;
      assert s == s[..n] + [s[n]];
      MultisetSnoc(s[..n], s[n]);
      DistinctOnce(s[..n], x);
      if x == s[n] {
        assert x !in s[..n];
      }
    }
  }

  lemma CountedTwice<T>(s: seq<T>, i: nat, j: nat)
    requires i < j < |s| && s[i] == s[j]
    ensures multiset(s)[s[i]] >= 2
  {
    var left, right := s[..j], s[j..];
    assert s == left + right;
    assert left[i] == s[i] && right[0] == s[i];
    assert s[i] in left && s[i] in right;
  }

  /** A permutation of a duplicate-free sequence has the same members and no duplicates. */
  lemma PermutationDistinct<T>(a: seq<T>, b: seq<T>)
    requires multiset(a) == multiset(b) && Distinct(b)
    ensures Distinct(a)
    ensures forall x :: x in a <==> x in b
  {
    forall x
      ensures x in a <==> x in b
    {
      assert x in a <==> x in multiset(a);
      assert x in b <==> x in multiset(b);
    }
    forall i, j | 0 <= i < j < |a|
      ensures a[i] != a[j]
    {
      DistinctOnce(b, a[i]);
      if a[i] == a[j] {
        CountedTwice(a, i, j);
      }
    }
  }

  lemma {:induction false} FilterDistinct<T>(p: T -> bool, s: seq<T>)
    requires Distinct(s)
    ensures Distinct(Filter(p, s))
  {
    if s != [] {
      FilterDistinct(p, s[1..]);
      FilterMembers(p, s[1..]);
      assert s[0] !in s[1..];
    }
  }

  lemma DistinctConcat<T>(a: seq<T>, b: seq<T>)
    requires Distinct(a) && Distinct(b) && forall x <- a :: x !in b
    ensures Distinct(a + b)
  {
    forall i, j | 0 <= i < j < |a + b|
      ensures (a + b)[i] != (a + b)[j]
    {
      if i < |a| <= j {
        assert (a + b)[i] in a && (a + b)[j] in b;
      }
    }
  }

  /** Pigeonhole: a duplicate-free sequence over the elements of another is no longer than it. */
  lemma {:induction false} DistinctFits<T>(a: seq<T>, b: seq<T>)
    requires Distinct(a) && forall x <- a :: x in b
    ensures |a| <= |b|
    decreases |b|
  {
    if a != [] {
      var n := |a| - 1;
      assert a[n] in b;
      var k :| 0 <= k < |b| && b[k] == a[n];
      var b' := b[..k] + b[k + 1..];
      forall x | x in a[..n]
        ensures x in b'
      {
        assert x in a && x != a[n];
        var i :| 0 <= i < |b| && b[i] == x;
        assert x == b'[if i < k then i else i - 1];
      }
      DistinctFits(a[..n], b');
    }
  }

  /** The first position whose element satisfies p. */
  function FirstIndex<T>(p: T -> bool, s: seq<T>): (row: Option<nat>)
    ensures row.None? ==> forall k :: 0 <= k < |s| ==> !p(s[k])
    ensures row.Some? ==>
      row.value < |s| && p(s[row.value]) && forall k :: 0 <= k < row.value ==> !p(s[k])
  {
    if s == [] then None
    else if p(s[0]) then Some(0)
    else
      var rest := FirstIndex(p, s[1..]);
      if rest.Some? then
        assert forall k :: 0 < k < |s| ==> s[k] == s[1..][k - 1];
        Some(rest.value + 1)
      else
        assert forall k :: 0 < k < |s| ==> s[k] == s[1..][k - 1];
        None
  }
}
