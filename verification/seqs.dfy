/** Sequence algorithms the source gets from Python's built-ins: list
    comprehensions with a condition (filter), `sum(1 for x in xs if p(x))`
    (count) and `list.sort(key=..., reverse=True)` (a stable sort). */
module Seqs {

  /** `a` is obtained from `b` by deleting elements, order kept. */
  predicate IsSubsequence<T(==)>(a: seq<T>, b: seq<T>)
    decreases |b|
  {
    if |a| == 0 then true
    else if |b| == 0 then false
    else if a[0] == b[0] then IsSubsequence(a[1..], b[1..])
    else IsSubsequence(a, b[1..])
  }

  /** `[x for x in s if p(x)]` */
  function Filter<T(==)>(s: seq<T>, p: T -> bool): (r: seq<T>)
    ensures |r| <= |s|
    ensures forall i :: 0 <= i < |r| ==> r[i] in s && p(r[i])
    ensures forall i :: 0 <= i < |s| && p(s[i]) ==> s[i] in r
  {
    if |s| == 0 then []
    else if p(s[0]) then [s[0]] + Filter(s[1..], p)
    else Filter(s[1..], p)
  }

  /** The filtered sequence keeps the source order. */
  lemma {:induction false} FilterIsSubsequence<T>(s: seq<T>, p: T -> bool)
    ensures IsSubsequence(Filter(s, p), s)
  {
    if |s| > 0 {
      FilterIsSubsequence(s[1..], p);
      var r := Filter(s, p);
      if p(s[0]) {
        assert r[1..] == Filter(s[1..], p);
      } else {
        SubsequenceOfTail(r, s);
      }
    }
  }

  /** A subsequence of `s[1..]` is a subsequence of `s`. */
  lemma {:induction false} SubsequenceOfTail<T>(a: seq<T>, s: seq<T>)
    requires |s| > 0 && IsSubsequence(a, s[1..])
    ensures IsSubsequence(a, s)
    decreases |s|, |a|
  {
    if |a| > 0 && a[0] == s[0] {
      // s[1..] starts with an element equal to a[0] or skips ahead; either way
      // a[1..] is a subsequence of s[1..].
      SubsequenceDropHead(a, s[1..]);
    }
  }

  /** Dropping the first element of a subsequence keeps it a subsequence. */
  lemma {:induction false} SubsequenceDropHead<T>(a: seq<T>, s: seq<T>)
    requires |a| > 0 && IsSubsequence(a, s)
    ensures IsSubsequence(a[1..], s)
    decreases |s|, |a|
  {
    if a[0] == s[0] {
      if |a[1..]| > 0 {
        SubsequenceOfTail(a[1..], s);
      }
    } else {
      SubsequenceDropHead(a, s[1..]);
      if |a[1..]| > 0 {
        SubsequenceOfTail(a[1..], s);
      }
    }
  }

  /** A prefix is a subsequence. */
  lemma {:induction false} PrefixIsSubsequence<T>(s: seq<T>, n: nat)
    requires n <= |s|
    ensures IsSubsequence(s[..n], s)
    decreases |s|
  {
    if n > 0 {
      PrefixIsSubsequence(s[1..], n - 1);
      assert s[..n][1..] == s[1..][..n - 1];
    }
  }

  lemma {:induction false} SubsequenceTransitive<T>(a: seq<T>, b: seq<T>, c: seq<T>)
    requires IsSubsequence(a, b) && IsSubsequence(b, c)
    ensures IsSubsequence(a, c)
    decreases |c|
  {
    if |a| > 0 && |c| > 0 {
      if |b| > 0 && b[0] == c[0] {
        if a[0] == b[0] {
          SubsequenceTransitive(a[1..], b[1..], c[1..]);
        } else {
          SubsequenceTransitive(a, b[1..], c[1..]);
        }
      } else {
        SubsequenceTransitive(a, b, c[1..]);
        SubsequenceOfTail(a, c);
      }
    }
  }

  /** Every element of a subsequence occurs in the sequence. */
  lemma {:induction false} SubsequenceMembers<T>(a: seq<T>, b: seq<T>)
    requires IsSubsequence(a, b)
    ensures forall x :: x in a ==> x in b
    decreases |b|
  {
    if |a| > 0 {
      if a[0] == b[0] {
        SubsequenceMembers(a[1..], b[1..]);
        assert forall x :: x in a ==> x == a[0] || x in a[1..];
      } else {
        SubsequenceMembers(a, b[1..]);
      }
    }
  }

  /** A subsequence of a duplicate-free sequence is duplicate-free. */
  lemma {:induction false} SubsequenceNoDup<T>(a: seq<T>, b: seq<T>)
    requires IsSubsequence(a, b) && NoDup(b)
    ensures NoDup(a)
    decreases |b|
  {
    if |a| > 0 {
      NoDupTail(b);
      if a[0] == b[0] {
        SubsequenceNoDup(a[1..], b[1..]);
        SubsequenceMembers(a[1..], b[1..]);
        forall i, j | 0 <= i < j < |a|
          ensures a[i] != a[j]
        {
          assert a[j] == a[1..][j - 1];
          if i > 0 {
            assert a[i] == a[1..][i - 1];
          }
        }
      } else {
        SubsequenceNoDup(a, b[1..]);
      }
    }
  }

  /** `s[:e]` with Python's slice semantics for a negative end. */
  function PyPrefix<T>(s: seq<T>, e: int): (r: seq<T>)
    ensures |r| <= |s| && r == s[..|r|]
    ensures e >= 0 ==> |r| == if e <= |s| then e else |s|
    ensures e < 0 ==> |r| == if |s| + e >= 0 then |s| + e else 0
  {
    if e >= 0 then (if e <= |s| then s[..e] else s)
    else if |s| + e >= 0 then s[..|s| + e]
    else []
  }

  /** `sum(1 for x in s if p(x))` */
  function Count<T>(s: seq<T>, p: T -> bool): (n: nat)
    ensures n <= |s|
  {
    if |s| == 0 then 0 else (if p(s[0]) then 1 else 0) + Count(s[1..], p)
  }

  /** Counting over one more element at the end. */
  lemma {:induction false} CountSnoc<T>(s: seq<T>, x: T, p: T -> bool)
    ensures Count(s + [x], p) == Count(s, p) + (if p(x) then 1 else 0)
  {
    if |s| > 0 {
      assert (s + [x])[1..] == s[1..] + [x];
      CountSnoc(s[1..], x, p);
    }
  }

  /** Counting is the length of the filtered sequence. */
  lemma {:induction false} CountIsFilterLength<T>(s: seq<T>, p: T -> bool)
    ensures Count(s, p) == |Filter(s, p)|
  {
    if |s| > 0 {
      CountIsFilterLength(s[1..], p);
    }
  }

  /** Every element satisfies `p` exactly when the count is the length. */
  lemma {:induction false} CountAll<T>(s: seq<T>, p: T -> bool)
    ensures Count(s, p) == |s| <==> forall i :: 0 <= i < |s| ==> p(s[i])
  {
    if |s| > 0 {
      CountAll(s[1..], p);
      assert forall i :: 1 <= i < |s| ==> s[i] == s[1..][i - 1];
    }
  }

  /** Every element satisfies `p` or its negation, so the two counts add up. */
  lemma {:induction false} CountComplement<T>(s: seq<T>, p: T -> bool, q: T -> bool)
    requires forall x :: q(x) == !p(x)
    ensures Count(s, p) + Count(s, q) == |s|
  {
    if |s| > 0 {
      CountComplement(s[1..], p, q);
    }
  }

  /** `ge` is a total preorder: what a sort key with `>=` gives. */
  ghost predicate TotalPreorder<T(!new)>(ge: (T, T) -> bool) {
    && (forall a, b :: ge(a, b) || ge(b, a))
    && (forall a, b, c :: ge(a, b) && ge(b, c) ==> ge(a, c))
  }

  /** Non-increasing with respect to `ge`: `reverse=True` order. */
  ghost predicate SortedDesc<T>(s: seq<T>, ge: (T, T) -> bool) {
    forall i, j :: 0 <= i < j < |s| ==> ge(s[i], s[j])
  }

  /** Inserts `x` before the first element it is at least as large as. */
  function Insert<T>(x: T, s: seq<T>, ge: (T, T) -> bool): (r: seq<T>)
    ensures multiset(r) == multiset(s) + multiset{x}
    ensures |r| == |s| + 1
  {
    if |s| == 0 then [x]
    else if ge(x, s[0]) then [x] + s
    else
      assert s == [s[0]] + s[1..];
      [s[0]] + Insert(x, s[1..], ge)
  }

  lemma {:induction false} InsertSorted<T(!new)>(x: T, s: seq<T>, ge: (T, T) -> bool)
    requires TotalPreorder(ge) && SortedDesc(s, ge)
    ensures SortedDesc(Insert(x, s, ge), ge)
  {
    if |s| > 0 && !ge(x, s[0]) {
      InsertSorted(x, s[1..], ge);
      var r := Insert(x, s, ge);
      var t := Insert(x, s[1..], ge);
      assert r == [s[0]] + t;
      forall j | 0 < j < |r|
        ensures ge(r[0], r[j])
      {
        assert r[j] in multiset(t);
        assert r[j] in multiset(s[1..]) || r[j] == x;
        if r[j] != x {
          var k :| 0 <= k < |s[1..]| && s[1..][k] == r[j];
          assert s[k + 1] == r[j];
        }
      }
    }
  }

  /** `sorted(s, key=..., reverse=True)`: a stable insertion sort on `ge`. */
  function SortDesc<T>(s: seq<T>, ge: (T, T) -> bool): (r: seq<T>)
    ensures multiset(r) == multiset(s)
    ensures |r| == |s|
  {
    if |s| == 0 then []
    else
      assert s == [s[0]] + s[1..];
      Insert(s[0], SortDesc(s[1..], ge), ge)
  }

  /** The sort produces a non-increasing permutation of its input. */
  lemma {:induction false} SortDescSorted<T(!new)>(s: seq<T>, ge: (T, T) -> bool)
    requires TotalPreorder(ge)
    ensures SortedDesc(SortDesc(s, ge), ge)
  {
    if |s| > 0 {
      SortDescSorted(s[1..], ge);
      InsertSorted(s[0], SortDesc(s[1..], ge), ge);
    }
  }

  /** The elements `ge` ranks equal to `y`. */
  function TiedWith<T(!new)>(ge: (T, T) -> bool, y: T): (p: T -> bool)
    ensures forall z :: p(z) <==> ge(z, y) && ge(y, z)
  {
    z => ge(z, y) && ge(y, z)
  }

  /** Insertion passes over no element tied with `x`, so among the elements
      tied with any `y`, `x` goes in front. */
  lemma {:induction false} InsertKeepsTies<T(!new)>(x: T, t: seq<T>, ge: (T, T) -> bool, y: T)
    requires TotalPreorder(ge)
    ensures var p := TiedWith(ge, y);
      Filter(Insert(x, t, ge), p) == (if p(x) then [x] else []) + Filter(t, p)
  {
    var p := TiedWith(ge, y);
    if |t| == 0 {
      assert Insert(x, t, ge) == [x];
      assert [x][1..] == [];
    } else if ge(x, t[0]) {
      assert ([x] + t)[1..] == t;
    } else {
      InsertKeepsTies(x, t[1..], ge, y);
      var r := Insert(x, t, ge);
      assert r[1..] == Insert(x, t[1..], ge);
      assert !(p(x) && p(t[0]));
    }
  }

  /** The sort is stable: the elements ranked equal to any `y` keep their
      relative order, as Python's `sort` with `reverse=True` does. */
  lemma {:induction false} SortDescStable<T(!new)>(s: seq<T>, ge: (T, T) -> bool, y: T)
    requires TotalPreorder(ge)
    ensures Filter(SortDesc(s, ge), TiedWith(ge, y)) == Filter(s, TiedWith(ge, y))
  {
    if |s| > 0 {
      SortDescStable(s[1..], ge, y);
      InsertKeepsTies(s[0], SortDesc(s[1..], ge), ge, y);
    }
  }

  /** The file system enumerates every file of the directory `dir` exactly once. */
  ghost predicate IsEnumeration<V>(dir: map<string, V>, order: seq<string>) {
    && (forall i, j :: 0 <= i < j < |order| ==> order[i] != order[j])
    && (forall n :: n in order <==> n in dir)
  }

  /** No element occurs twice. */
  ghost predicate NoDup<T>(s: seq<T>) {
    forall i, j :: 0 <= i < j < |s| ==> s[i] != s[j]
  }

  /** The tail of a duplicate-free sequence is duplicate-free and lacks the head. */
  lemma NoDupTail<T>(s: seq<T>)
    requires |s| > 0 && NoDup(s)
    ensures NoDup(s[1..]) && s[0] !in s[1..]
  {
    forall i, j | 0 <= i < j < |s[1..]|
      ensures s[1..][i] != s[1..][j]
    {
      assert s[1..][i] == s[i + 1] && s[1..][j] == s[j + 1];
    }
  }

  lemma {:induction false} NoDupCount<T>(s: seq<T>)
    requires NoDup(s)
    ensures forall x :: multiset(s)[x] <= 1
  {
    if |s| > 0 {
      NoDupCount(s[1..]);
      assert s == [s[0]] + s[1..];
      assert s[0] !in s[1..];
    }
  }

  lemma RepeatCount<T>(s: seq<T>, i: int, j: int)
    requires 0 <= i < j < |s| && s[i] == s[j]
    ensures multiset(s)[s[i]] >= 2
  {
    var x := s[i];
    assert s == s[..j] + s[j..];
    assert s[..j][i] == x;
    assert x in multiset(s[..j]);
    assert s[j..][0] == x;
    assert x in multiset(s[j..]);
    assert multiset(s)[x] == multiset(s[..j])[x] + multiset(s[j..])[x];
  }

  /** Reordering keeps a sequence free of repeats. */
  lemma NoDupPermutation<T>(a: seq<T>, b: seq<T>)
    requires multiset(a) == multiset(b) && NoDup(a)
    ensures NoDup(b)
  {
    NoDupCount(a);
    forall i, j | 0 <= i < j < |b|
      ensures b[i] != b[j]
    {
      if b[i] == b[j] {
        RepeatCount(b, i, j);
      }
    }
  }

  /** Reordering keeps the set of elements. */
  lemma PermutationMembers<T>(a: seq<T>, b: seq<T>)
    requires multiset(a) == multiset(b)
    ensures forall i :: 0 <= i < |b| ==> b[i] in a
    ensures forall i :: 0 <= i < |a| ==> a[i] in b
  {
    forall i | 0 <= i < |b| ensures b[i] in a {
      assert b[i] in multiset(b);
    }
    forall i | 0 <= i < |a| ensures a[i] in b {
      assert a[i] in multiset(a);
    }
  }
}
