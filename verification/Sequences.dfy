/**
 Sums over sequences and the sort that the source borrows from its runtime.

 JavaScript's `sort` is called with comparators that leave ties open, so callers here learn
 nothing about ties: `Sort` promises an ordered permutation and no more.
 */
module Sequences {

  /** The last `n` elements, or all of them. */
  function LastN<T>(s: seq<T>, n: nat): seq<T> {
    if |s| > n then s[|s| - n..] else s
  }

  lemma LastNSpelled<T>(s: seq<T>, n: nat)
    ensures var r := LastN(s, n);
            && |r| == (if |s| < n then |s| else n)
            && forall i | 0 <= i < |r| :: r[i] == s[|s| - |r| + i]
  {
  }

  function Sum<T>(s: seq<T>, f: T -> int): int
  {
    if s == [] then 0 else f(s[0]) + Sum(s[1..], f)
  }

  lemma {:induction false} SumConcat<T>(a: seq<T>, b: seq<T>, f: T -> int)
    ensures Sum(a + b, f) == Sum(a, f) + Sum(b, f)
  {
    if a == [] {
      assert a + b == b;
    } else {
      assert (a + b)[1..] == a[1..] + b;
      SumConcat(a[1..], b, f);
    }
  }

  lemma SumOne<T>(x: T, f: T -> int)
    ensures Sum([x], f) == f(x)
  {
    assert [x][1..] == [];
  }

  lemma SumTwo<T>(x: T, y: T, f: T -> int)
    ensures Sum([x, y], f) == f(x) + f(y)
  {
    assert [x, y] == [x] + [y];
    SumConcat([x], [y], f);
    SumOne(x, f);
    SumOne(y, f);
  }

  lemma SumSnoc<T>(s: seq<T>, i: nat, f: T -> int)
    requires i < |s|
    ensures Sum(s[..i + 1], f) == Sum(s[..i], f) + f(s[i])
  {
    assert s[..i + 1] == s[..i] + [s[i]];
    SumConcat(s[..i], [s[i]], f);
  }

  lemma SumRemove<T>(s: seq<T>, i: nat, f: T -> int)
    requires i < |s|
    ensures Sum(s, f) == f(s[i]) + Sum(s[..i] + s[i + 1..], f)
  {
    assert s == s[..i] + ([s[i]] + s[i + 1..]);
    SumConcat(s[..i], [s[i]] + s[i + 1..], f);
    SumConcat(s[..i], s[i + 1..], f);
    assert ([s[i]] + s[i + 1..])[1..] == s[i + 1..];
  }

  lemma MultisetRemove<T>(s: seq<T>, i: nat)
    requires i < |s|
    ensures multiset(s[..i] + s[i + 1..]) == multiset(s) - multiset{s[i]}
  {
    assert s == s[..i] + [s[i]] + s[i + 1..];
  }

  lemma MultisetTail<T>(s: seq<T>)
    requires s != []
    ensures multiset(s[1..]) == multiset(s) - multiset{s[0]}
  {
    assert s == [s[0]] + s[1..];
  }

  /** A sum does not depend on the order of its terms. */
  lemma {:induction false} SumPermutation<T>(a: seq<T>, b: seq<T>, f: T -> int)
    requires multiset(a) == multiset(b)
    ensures Sum(a, f) == Sum(b, f)
  {
    if a == [] {
      assert |multiset(b)| == 0;
    } else {
      var i := IndexIn(a[0], b, multiset(a));
      var rest := b[..i] + b[i + 1..];
      MultisetTail(a);
      MultisetRemove(b, i);
      SumRemove(b, i, f);
      SumPermutation(a[1..], rest, f);
    }
  }

  ghost function IndexIn<T>(x: T, s: seq<T>, m: multiset<T>): (i: nat)
    requires m == multiset(s) && x in m
    ensures i < |s| && s[i] == x
  {
    assert x in s;
    var i: nat :| i < |s| && s[i] == x;
    i
  }

  ghost predicate TotalPreorder<T(!new)>(le: (T, T) -> bool)
  {
    && (forall a, b :: le(a, b) || le(b, a))
    && (forall a, b, c :: le(a, b) && le(b, c) ==> le(a, c))
  }

  ghost predicate Ordered<T>(s: seq<T>, le: (T, T) -> bool)
  {
    forall i, j | 0 <= i < j < |s| :: le(s[i], s[j])
  }

  /** `r` is one of the orders a comparator sort of `s` may leave. */
  ghost predicate OrderedPermutation<T>(s: seq<T>, r: seq<T>, le: (T, T) -> bool)
  {
    multiset(r) == multiset(s) && Ordered(r, le)
  }

  lemma InsertOrdered<T(!new)>(s: seq<T>, i: nat, x: T, le: (T, T) -> bool)
    requires TotalPreorder(le) && Ordered(s, le)
    requires i <= |s|
    requires i > 0 ==> le(s[i - 1], x)
    requires forall k | i <= k < |s| :: le(x, s[k])
    ensures Ordered(s[..i] + [x] + s[i..], le)
  {
    var r := s[..i] + [x] + s[i..];
    forall j, k | 0 <= j < k < |r|
      ensures le(r[j], r[k])
    {
      if k == i && j < i - 1 {
        assert le(s[j], s[i - 1]);
      } else if j < i < k {
        assert r[k] == s[k - 1] && le(s[j], s[k - 1]);
      }
    }
  }

  lemma InsertPermutation<T>(s: seq<T>, i: nat, x: T)
    requires i <= |s|
    ensures multiset(s[..i] + [x] + s[i..]) == multiset(s + [x])
  {
    assert s == s[..i] + s[i..];
  }

  method Insert<T(!new)>(s: seq<T>, x: T, le: (T, T) -> bool) returns (r: seq<T>)
    requires TotalPreorder(le) && Ordered(s, le)
    ensures OrderedPermutation(s + [x], r, le)
  {
    var i := |s|;
    while i > 0 && !le(s[i - 1], x)
      invariant 0 <= i <= |s|
      invariant forall k | i <= k < |s| :: le(x, s[k])
    {
      i := i - 1;
    }
    r := s[..i] + [x] + s[i..];
    InsertOrdered(s, i, x, le);
    InsertPermutation(s, i, x);
  }

  method Sort<T(!new)>(s: seq<T>, le: (T, T) -> bool) returns (r: seq<T>)
    requires TotalPreorder(le)
    ensures OrderedPermutation(s, r, le)
  {
    r := [];
    for i := 0 to |s|
      invariant OrderedPermutation(s[..i], r, le)
    {
      r := Insert(r, s[i], le);
      assert s[..i + 1] == s[..i] + [s[i]];
    }
    assert s[..|s|] == s;
  }

  lemma LeastFirst<T(!new)>(a: seq<T>, x: T, le: (T, T) -> bool)
    requires TotalPreorder(le) && Ordered(a, le) && x in a
    ensures le(a[0], x)
  {
    var i :| 0 <= i < |a| && a[i] == x;
    assert le(x, x);
    if i > 0 {
      assert le(a[0], a[i]);
    }
  }

  /** Under an antisymmetric order a multiset has one ordered listing, so tie handling cannot show. */
  lemma {:induction false} OrderedUnique<T(!new)>(a: seq<T>, b: seq<T>, le: (T, T) -> bool)
    requires TotalPreorder(le)
    requires forall x, y :: le(x, y) && le(y, x) ==> x == y
    requires Ordered(a, le) && Ordered(b, le)
    requires multiset(a) == multiset(b)
    ensures a == b
  {
    if a == [] {
      assert |multiset(b)| == 0;
    } else {
      assert |multiset(b)| == |a|;
      assert a[0] in multiset(b) && b[0] in multiset(a);
      LeastFirst(a, b[0], le);
      LeastFirst(b, a[0], le);
      MultisetTail(a);
      MultisetTail(b);
      OrderedUnique(a[1..], b[1..], le);
    }
  }
}
