/** Generic sequence helpers: `map`, `filter` and the stable `Array.prototype.sort`
    of JavaScript, modelled as a stable insertion sort. */
module Seqs {

  /** `s.map(f)` */
  function Map<T, U>(s: seq<T>, f: T -> U): (r: seq<U>)
    ensures |r| == |s|
    ensures forall i :: 0 <= i < |s| ==> r[i] == f(s[i])
  {
    if |s| == 0 then [] else [f(s[0])] + Map(s[1..], f)
  }

  lemma {:induction false} MapConcat<T, U>(a: seq<T>, b: seq<T>, f: T -> U)
    ensures Map(a + b, f) == Map(a, f) + Map(b, f)
  {
  }

  /** `s.filter(p)` */
  function Filter<T>(s: seq<T>, p: T -> bool): (r: seq<T>)
    ensures |r| <= |s|
    ensures forall i :: 0 <= i < |r| ==> r[i] in s && p(r[i])
    ensures forall i :: 0 <= i < |s| && p(s[i]) ==> s[i] in r
  {
    if |s| == 0 then [] else (if p(s[0]) then [s[0]] else []) + Filter(s[1..], p)
  }

  lemma {:induction false} FilterConcat<T>(a: seq<T>, b: seq<T>, p: T -> bool)
    ensures Filter(a + b, p) == Filter(a, p) + Filter(b, p)
  {
    if |a| > 0 {
      FilterConcat(a[1..], b, p);
      assert (a + b)[0] == a[0];
      assert (a + b)[1..] == a[1..] + b;
    } else {
      assert a + b == b;
    }
  }

  /** Filtering a sequence with one more element at its end. */
  lemma {:induction false} FilterSnoc<T>(s: seq<T>, p: T -> bool)
    requires |s| > 0
    ensures Filter(s, p) == Filter(s[..|s| - 1], p) + (if p(s[|s| - 1]) then [s[|s| - 1]] else [])
  {
    var n := |s| - 1;
    assert s == s[..n] + [s[n]];
    FilterConcat(s[..n], [s[n]], p);
    assert Filter([s[n]], p) == (if p(s[n]) then [s[n]] else []) by {
      assert [s[n]][1..] == [];
    }
  }

  /** Filtering then mapping a sequence with one more element at its end. */
  lemma {:induction false} MapFilterSnoc<T, U>(s: seq<T>, p: T -> bool, f: T -> U)
    requires |s| > 0
    ensures Map(Filter(s, p), f) ==
      Map(Filter(s[..|s| - 1], p), f) + (if p(s[|s| - 1]) then [f(s[|s| - 1])] else [])
  {
    var n := |s| - 1;
    FilterSnoc(s, p);
    var acc := Filter(s, p);
    if p(s[n]) {
      assert acc[..|acc| - 1] == Filter(s[..n], p);
      MapSnoc(acc, f);
    }
  }

  /** A `for` loop pushing `f(x)` for each element `x` that passes `p`. */
  function Collect<T, U>(s: seq<T>, p: T -> bool, f: T -> U): seq<U> {
    if |s| == 0 then []
    else
      var n := |s| - 1;
      Collect(s[..n], p, f) + (if p(s[n]) then [f(s[n])] else [])
  }

  /** The loop computes the mapped filter. */
  lemma {:induction false} CollectIsMapFilter<T, U>(s: seq<T>, p: T -> bool, f: T -> U)
    ensures Collect(s, p, f) == Map(Filter(s, p), f)
  {
    if |s| > 0 {
      CollectIsMapFilter(s[..|s| - 1], p, f);
      MapFilterSnoc(s, p, f);
    }
  }

  /** `a` is `b` with some elements left out. */
  predicate Subsequence<T(==)>(a: seq<T>, b: seq<T>)
    decreases |b|
  {
    |a| == 0 || (|b| > 0 && ((a[0] == b[0] && Subsequence(a[1..], b[1..])) || Subsequence(a, b[1..])))
  }

  /** One more element in front of `s`, kept in front of `r` or left out. */
  lemma {:induction false} SubsequenceCons<T>(x: T, r: seq<T>, s: seq<T>, keep: bool)
    requires Subsequence(r, s)
    ensures Subsequence((if keep then [x] else []) + r, [x] + s)
  {
    var t := (if keep then [x] else []) + r;
    assert ([x] + s)[1..] == s;
    if keep {
      assert t[0] == x && t[1..] == r;
    } else {
      assert t == r;
      SubsequenceSkip(x, r, s);
    }
  }

  lemma {:induction false} SubsequenceSkip<T>(x: T, r: seq<T>, s: seq<T>)
    requires Subsequence(r, s)
    ensures Subsequence(r, [x] + s)
  {
    assert ([x] + s)[1..] == s;
  }

  // ---------------------------------------------------------------------------
  // Stable sorting

  /** `le` is total and transitive: what a consistent sort comparator is. */
  ghost predicate TotalPreorder<T(!new)>(le: (T, T) -> bool) {
    && (forall a, b :: le(a, b) || le(b, a))
    && (forall a, b, c :: le(a, b) && le(b, c) ==> le(a, c))
  }

  predicate SortedBy<T>(s: seq<T>, le: (T, T) -> bool) {
    forall i, j :: 0 <= i < j < |s| ==> le(s[i], s[j])
  }

  /** Inserts `x` after every element that is not greater than it. */
  function Insert<T>(x: T, s: seq<T>, le: (T, T) -> bool): (r: seq<T>)
    ensures |r| == |s| + 1
  {
    if |s| == 0 then [x]
    else if le(s[0], x) then [s[0]] + Insert(x, s[1..], le)
    else [x] + s
  }

  /** The stable sort of `s` under `le`: `[...s].sort(cmp)` with `le(a, b)` iff `cmp(a, b) <= 0`. */
  function SortBy<T>(s: seq<T>, le: (T, T) -> bool): (r: seq<T>)
    ensures |r| == |s|
  {
    if |s| == 0 then [] else Insert(s[|s| - 1], SortBy(s[..|s| - 1], le), le)
  }

  lemma {:induction false} InsertPermutes<T>(x: T, s: seq<T>, le: (T, T) -> bool)
    ensures multiset(Insert(x, s, le)) == multiset(s) + multiset{x}
  {
    if |s| > 0 && le(s[0], x) {
      InsertPermutes(x, s[1..], le);
      assert s == [s[0]] + s[1..];
    }
  }

  /** Sorting is a permutation. */
  lemma {:induction false} SortByPermutes<T>(s: seq<T>, le: (T, T) -> bool)
    ensures multiset(SortBy(s, le)) == multiset(s)
  {
    if |s| > 0 {
      var n := |s| - 1;
      SortByPermutes(s[..n], le);
      InsertPermutes(s[n], SortBy(s[..n], le), le);
      assert s == s[..n] + [s[n]];
    }
  }

  lemma {:induction false} InSortBy<T>(s: seq<T>, le: (T, T) -> bool, x: T)
    ensures x in SortBy(s, le) <==> x in s
  {
    SortByPermutes(s, le);
    assert x in SortBy(s, le) <==> x in multiset(SortBy(s, le));
  }

  lemma {:induction false} InsertSorted<T(!new)>(x: T, s: seq<T>, le: (T, T) -> bool)
    requires TotalPreorder(le)
    requires SortedBy(s, le)
    ensures SortedBy(Insert(x, s, le), le)
  {
    if |s| > 0 && le(s[0], x) {
      InsertSorted(x, s[1..], le);
      var r := Insert(x, s, le);
      InsertPermutes(x, s[1..], le);
      forall j | 0 < j < |r| ensures le(s[0], r[j]) {
        assert r[j] in multiset(Insert(x, s[1..], le));
        if r[j] != x {
          assert r[j] in s[1..];
        }
      }
    }
  }

  lemma {:induction false} SortBySorted<T(!new)>(s: seq<T>, le: (T, T) -> bool)
    requires TotalPreorder(le)
    ensures SortedBy(SortBy(s, le), le)
  {
    if |s| > 0 {
      SortBySorted(s[..|s| - 1], le);
      InsertSorted(s[|s| - 1], SortBy(s[..|s| - 1], le), le);
    }
  }

  /** The elements of `s` that `le` cannot tell apart from `y`, in order. */
  function EquivTo<T>(s: seq<T>, le: (T, T) -> bool, y: T): (r: seq<T>)
  {
    if |s| == 0 then []
    else (if le(s[0], y) && le(y, s[0]) then [s[0]] else []) + EquivTo(s[1..], le, y)
  }

  lemma {:induction false} EquivToConcat<T>(a: seq<T>, b: seq<T>, le: (T, T) -> bool, y: T)
    ensures EquivTo(a + b, le, y) == EquivTo(a, le, y) + EquivTo(b, le, y)
  {
    if |a| > 0 {
      assert (a + b)[1..] == a[1..] + b;
      EquivToConcat(a[1..], b, le, y);
    } else {
      assert a + b == b;
    }
  }

  lemma {:induction false} EquivToNone<T>(s: seq<T>, le: (T, T) -> bool, y: T)
    requires forall e :: e in s ==> !(le(e, y) && le(y, e))
    ensures EquivTo(s, le, y) == []
  {
    if |s| > 0 {
      EquivToNone(s[1..], le, y);
    }
  }

  /** In a sorted `s` whose head is above `x`, nothing is equivalent to `x`. */
  lemma {:induction false} NoneEquivBelowHead<T(!new)>(x: T, s: seq<T>, le: (T, T) -> bool, y: T)
    requires TotalPreorder(le)
    requires SortedBy(s, le)
    requires |s| > 0 && !le(s[0], x)
    requires le(x, y) && le(y, x)
    ensures EquivTo(s, le, y) == []
  {
    forall e | e in s ensures !(le(e, y) && le(y, e)) {
      var k :| 0 <= k < |s| && s[k] == e;
      assert le(s[0], e) by {
        if k > 0 { assert le(s[0], s[k]); }
      }
    }
    EquivToNone(s, le, y);
  }

  lemma {:induction false} InsertStable<T(!new)>(x: T, s: seq<T>, le: (T, T) -> bool, y: T)
    requires TotalPreorder(le)
    requires SortedBy(s, le)
    ensures EquivTo(Insert(x, s, le), le, y) == EquivTo(s, le, y) + EquivTo([x], le, y)
  {
    if |s| == 0 {
      assert Insert(x, s, le) == [x];
    } else if le(s[0], x) {
      assert SortedBy(s[1..], le);
      InsertStable(x, s[1..], le, y);
      InsertPastHead(x, s, le, y);
    } else {
      InsertFrontStable(x, s, le, y);
    }
  }

  lemma {:induction false} InsertPastHead<T>(x: T, s: seq<T>, le: (T, T) -> bool, y: T)
    requires |s| > 0 && le(s[0], x)
    requires EquivTo(Insert(x, s[1..], le), le, y) == EquivTo(s[1..], le, y) + EquivTo([x], le, y)
    ensures EquivTo(Insert(x, s, le), le, y) == EquivTo(s, le, y) + EquivTo([x], le, y)
  {
    var t := Insert(x, s[1..], le);
    var r := Insert(x, s, le);
    var h := if le(s[0], y) && le(y, s[0]) then [s[0]] else [];
    assert r == [s[0]] + t;
    assert r[0] == s[0] && r[1..] == t;
    assert EquivTo(r, le, y) == h + EquivTo(t, le, y);
    assert EquivTo(s, le, y) == h + EquivTo(s[1..], le, y);
  }

  lemma {:induction false} InsertFrontStable<T(!new)>(x: T, s: seq<T>, le: (T, T) -> bool, y: T)
    requires TotalPreorder(le)
    requires SortedBy(s, le)
    requires |s| > 0 && !le(s[0], x)
    ensures EquivTo(Insert(x, s, le), le, y) == EquivTo(s, le, y) + EquivTo([x], le, y)
  {
    assert Insert(x, s, le) == [x] + s;
    EquivToConcat([x], s, le, y);
    if le(x, y) && le(y, x) {
      NoneEquivBelowHead(x, s, le, y);
    }
  }

  /** Stability: the elements equivalent to any `y` keep their relative order. */
  lemma {:induction false} SortByStable<T(!new)>(s: seq<T>, le: (T, T) -> bool, y: T)
    requires TotalPreorder(le)
    ensures EquivTo(SortBy(s, le), le, y) == EquivTo(s, le, y)
  {
    if |s| > 0 {
      var n := |s| - 1;
      SortByStable(s[..n], le, y);
      SortBySorted(s[..n], le);
      InsertStable(s[n], SortBy(s[..n], le), le, y);
      assert s == s[..n] + [s[n]];
      EquivToConcat(s[..n], [s[n]], le, y);
    }
  }

  /** Sorting commutes with a projection that preserves the comparator. */
  lemma {:induction false} InsertMap<T, U>(x: T, s: seq<T>, f: T -> U, le1: (T, T) -> bool, le2: (U, U) -> bool)
    requires forall a, b :: le1(a, b) == le2(f(a), f(b))
    ensures Insert(f(x), Map(s, f), le2) == Map(Insert(x, s, le1), f)
  {
    if |s| > 0 {
      InsertMap(x, s[1..], f, le1, le2);
      if le1(s[0], x) {
        assert Map(s, f) == [f(s[0])] + Map(s[1..], f);
      }
    }
  }

  lemma {:induction false} SortByMap<T, U>(s: seq<T>, f: T -> U, le1: (T, T) -> bool, le2: (U, U) -> bool)
    requires forall a, b :: le1(a, b) == le2(f(a), f(b))
    ensures SortBy(Map(s, f), le2) == Map(SortBy(s, le1), f)
  {
    if |s| > 0 {
      var n := |s| - 1;
      assert Map(s, f)[..n] == Map(s[..n], f);
      SortByMap(s[..n], f, le1, le2);
      InsertMap(s[n], SortBy(s[..n], le1), f, le1, le2);
    }
  }

  /** Projecting a sorted copy gives the projections of the input, permuted. */
  lemma {:induction false} InsertProjectPermutes<T, U>(x: T, s: seq<T>, le: (T, T) -> bool, f: T -> U)
    ensures multiset(Map(Insert(x, s, le), f)) == multiset(Map(s, f)) + multiset{f(x)}
  {
    if |s| > 0 && le(s[0], x) {
      InsertProjectPermutes(x, s[1..], le, f);
      assert Map(Insert(x, s, le), f) == [f(s[0])] + Map(Insert(x, s[1..], le), f);
      assert Map(s, f) == [f(s[0])] + Map(s[1..], f);
    }
  }

  lemma {:induction false} MapSnoc<T, U>(s: seq<T>, f: T -> U)
    requires |s| > 0
    ensures Map(s, f) == Map(s[..|s| - 1], f) + [f(s[|s| - 1])]
  {
    var n := |s| - 1;
    var m, l := Map(s, f), Map(s[..n], f) + [f(s[n])];
    assert |m| == |l|;
    forall i | 0 <= i < |s|
      ensures m[i] == l[i]
    {
      if i < n {
        assert l[i] == Map(s[..n], f)[i] == f(s[..n][i]);
      }
    }
  }

  lemma {:induction false} SortByProjectPermutes<T, U>(s: seq<T>, le: (T, T) -> bool, f: T -> U)
    ensures multiset(Map(SortBy(s, le), f)) == multiset(Map(s, f))
  {
    if |s| > 0 {
      var n := |s| - 1;
      var sorted := SortBy(s[..n], le);
      SortByProjectPermutes(s[..n], le, f);
      InsertProjectPermutes(s[n], sorted, le, f);
      MapSnoc(s, f);
      calc {
        multiset(Map(SortBy(s, le), f));
        multiset(Map(Insert(s[n], sorted, le), f));
        multiset(Map(s[..n], f)) + multiset{f(s[n])};
        multiset(Map(s[..n], f) + [f(s[n])]);
      }
    }
  }

  /** `s.reduce((sum, x) => sum + f(x), 0)` */
  function SumBy<T>(s: seq<T>, f: T -> int): int {
    if |s| == 0 then 0 else f(s[0]) + SumBy(s[1..], f)
  }

  /** `s.filter(p).length` */
  function CountBy<T>(s: seq<T>, p: T -> bool): (n: nat)
    ensures n <= |s|
  {
    if |s| == 0 then 0 else (if p(s[0]) then 1 else 0) + CountBy(s[1..], p)
  }

  lemma {:induction false} SumByConcat<T>(a: seq<T>, b: seq<T>, f: T -> int)
    ensures SumBy(a + b, f) == SumBy(a, f) + SumBy(b, f)
  {
    if |a| == 0 {
      assert a + b == b;
    } else {
      assert (a + b)[1..] == a[1..] + b;
      SumByConcat(a[1..], b, f);
    }
  }

  lemma {:induction false} CountByConcat<T>(a: seq<T>, b: seq<T>, p: T -> bool)
    ensures CountBy(a + b, p) == CountBy(a, p) + CountBy(b, p)
  {
    if |a| == 0 {
      assert a + b == b;
    } else {
      assert (a + b)[1..] == a[1..] + b;
      CountByConcat(a[1..], b, p);
    }
  }

  lemma {:induction false} SumByInsert<T>(x: T, s: seq<T>, le: (T, T) -> bool, f: T -> int, p: T -> bool)
    ensures SumBy(Insert(x, s, le), f) == SumBy(s, f) + f(x)
    ensures CountBy(Insert(x, s, le), p) == CountBy(s, p) + (if p(x) then 1 else 0)
  {
    if |s| > 0 && le(s[0], x) {
      SumByInsert(x, s[1..], le, f, p);
      assert Insert(x, s, le)[1..] == Insert(x, s[1..], le);
    }
  }

  /** Sorting changes neither a sum nor a count. */
  lemma {:induction false} SumBySortBy<T>(s: seq<T>, le: (T, T) -> bool, f: T -> int, p: T -> bool)
    ensures SumBy(SortBy(s, le), f) == SumBy(s, f)
    ensures CountBy(SortBy(s, le), p) == CountBy(s, p)
  {
    if |s| > 0 {
      var n := |s| - 1;
      SumBySortBy(s[..n], le, f, p);
      SumByInsert(s[n], SortBy(s[..n], le), le, f, p);
      assert s == s[..n] + [s[n]];
      SumByConcat(s[..n], [s[n]], f);
      CountByConcat(s[..n], [s[n]], p);
    }
  }

  lemma {:induction false} CountByImplies<T>(s: seq<T>, p: T -> bool, q: T -> bool)
    requires forall x :: p(x) ==> q(x)
    ensures CountBy(s, p) <= CountBy(s, q)
  {
    if |s| > 0 {
      CountByImplies(s[1..], p, q);
    }
  }

  lemma {:induction false} PrefixOfPrefix<T>(s: seq<T>, n: int, k: int)
    requires 0 <= k <= n <= |s|
    ensures s[..n][..k] == s[..k]
  {
  }

  // ---------------------------------------------------------------------------
  // Distinct elements and reversal

  predicate NoDup<T(==)>(s: seq<T>) {
    forall i, j :: 0 <= i < j < |s| ==> s[i] != s[j]
  }

  /** In a sequence without repeats every element occurs at most once. */
  lemma {:induction false} NoDupCount<T>(s: seq<T>, x: T)
    requires NoDup(s)
    ensures multiset(s)[x] <= 1
  {
    if |s| > 0 {
      assert NoDup(s[1..]) by {
        forall i, j | 0 <= i < j < |s[1..]| ensures s[1..][i] != s[1..][j] {
          assert s[1..][i] == s[i + 1] && s[1..][j] == s[j + 1];
        }
      }
      NoDupCount(s[1..], x);
      assert s == [s[0]] + s[1..];
      if s[0] == x {
        assert x !in s[1..] by {
          forall k | 0 <= k < |s[1..]| ensures s[1..][k] != x {
            assert s[1..][k] == s[k + 1];
          }
        }
      }
    }
  }

  /** A permutation of a sequence without repeats has none either. */
  lemma {:induction false} NoDupPermutes<T>(a: seq<T>, b: seq<T>)
    requires NoDup(a) && multiset(a) == multiset(b)
    ensures NoDup(b)
  {
    forall i, j | 0 <= i < j < |b| ensures b[i] != b[j] {
      if b[i] == b[j] {
        var x := b[i];
        assert b == b[..j] + b[j..];
        assert x in b[..j] by { assert b[..j][i] == x; }
        assert x in b[j..] by { assert b[j..][0] == x; }
        assert multiset(b)[x] == multiset(b[..j])[x] + multiset(b[j..])[x];
        NoDupCount(a, x);
        assert false;
      }
    }
  }

  /** `reverse()` */
  function Reverse<T>(s: seq<T>): (r: seq<T>)
    ensures |r| == |s|
    ensures forall i :: 0 <= i < |s| ==> r[i] == s[|s| - 1 - i]
  {
    if |s| == 0 then [] else [s[|s| - 1]] + Reverse(s[..|s| - 1])
  }
}
