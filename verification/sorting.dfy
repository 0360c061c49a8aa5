/** Stable insertion sort over an arbitrary "may come before" relation, and the
    lexicographic order on strings that Python's `sorted` uses for `str`.
    Every `sort_values` of the source is modelled by `Sort` with a relation that
    names the sort key; ties keep their input order. */
module Sorting {
  import opened Seqs

  /** `le` is total and transitive, so a sequence can be arranged in its order. */
  ghost predicate TotalPreorder<T(!new)>(le: (T, T) -> bool)
  {
    && (forall a, b :: le(a, b) || le(b, a))
    && (forall a, b, c :: le(a, b) && le(b, c) ==> le(a, c))
  }

  predicate SortedBy<T>(s: seq<T>, le: (T, T) -> bool)
  {
    forall i, j :: 0 <= i < j < |s| ==> le(s[i], s[j])
  }

  /** Places `x` before the first element it may precede. */
  function Insert<T>(x: T, s: seq<T>, le: (T, T) -> bool): (r: seq<T>)
    ensures |r| == |s| + 1
    ensures multiset(r) == multiset(s) + multiset{x}
  {
    if |s| == 0 then [x]
    else if le(x, s[0]) then [x] + s
    else
      assert s == [s[0]] + s[1..];
      [s[0]] + Insert(x, s[1..], le)
  }

  /** Stable insertion sort: a permutation of `s` (sortedness: `SortIsSorted`). */
  function Sort<T>(s: seq<T>, le: (T, T) -> bool): (r: seq<T>)
    ensures |r| == |s|
    ensures multiset(r) == multiset(s)
  {
    if |s| == 0 then []
    else
      assert s == [s[0]] + s[1..];
      Insert(s[0], Sort(s[1..], le), le)
  }

  /** Sorting keeps exactly the elements it was given. */
  lemma SortKeepsMembers<T>(s: seq<T>, le: (T, T) -> bool)
    ensures forall x :: x in Sort(s, le) <==> x in s
  {
    var r := Sort(s, le);
    forall x ensures x in r <==> x in s {
      assert x in r <==> x in multiset(r);
      assert x in s <==> x in multiset(s);
    }
  }

  lemma {:induction false} InsertIsSorted<T(!new)>(x: T, s: seq<T>, le: (T, T) -> bool)
    requires TotalPreorder(le)
    requires SortedBy(s, le)
    ensures SortedBy(Insert(x, s, le), le)
  {
    if |s| > 0 && !le(x, s[0]) {
      InsertIsSorted(x, s[1..], le);
      var r := Insert(x, s, le);
      var t := Insert(x, s[1..], le);
      assert r == [s[0]] + t;
      forall j | 0 < j < |r|
        ensures le(s[0], r[j])
      {
        assert r[j] in multiset(t);
        assert r[j] in multiset(s[1..]) + multiset{x};
        if r[j] != x || r[j] in multiset(s[1..]) {
          if r[j] in multiset(s[1..]) {
            var k :| 0 <= k < |s[1..]| && s[1..][k] == r[j];
            assert s[k + 1] == r[j];
          }
        }
      }
    }
  }

  /** `Sort` arranges its input in the order of `le`. */
  lemma {:induction false} SortIsSorted<T(!new)>(s: seq<T>, le: (T, T) -> bool)
    requires TotalPreorder(le)
    ensures SortedBy(Sort(s, le), le)
  {
    if |s| > 0 {
      SortIsSorted(s[1..], le);
      InsertIsSorted(s[0], Sort(s[1..], le), le);
    }
  }

  /** Where `Insert` puts `x`: after exactly those elements it may not precede. */
  lemma {:induction false} InsertPosition<T>(x: T, s: seq<T>, le: (T, T) -> bool) returns (p: nat)
    ensures p <= |s|
    ensures Insert(x, s, le) == s[..p] + [x] + s[p..]
    ensures forall j :: 0 <= j < p ==> !le(x, s[j])
  {
    if |s| == 0 || le(x, s[0]) {
      p := 0;
    } else {
      var q := InsertPosition(x, s[1..], le);
      p := q + 1;
      assert s[..p] == [s[0]] + s[1..][..q];
      assert s[p..] == s[1..][q..];
    }
  }

  lemma {:induction false} InsertSum<T>(x: T, s: seq<T>, le: (T, T) -> bool, f: T -> real)
    ensures SumReal(Insert(x, s, le), f) == f(x) + SumReal(s, f)
  {
    if |s| > 0 && !le(x, s[0]) {
      InsertSum(x, s[1..], le, f);
      assert Insert(x, s, le)[1..] == Insert(x, s[1..], le);
    }
  }

  /** Sorting does not change a sum over the elements. */
  lemma {:induction false} SortPreservesSum<T>(s: seq<T>, le: (T, T) -> bool, f: T -> real)
    ensures SumReal(Sort(s, le), f) == SumReal(s, f)
  {
    if |s| > 0 {
      SortPreservesSum(s[1..], le, f);
      InsertSum(s[0], Sort(s[1..], le), le, f);
    }
  }

  /** Lexicographic order by code point: Python's `<=` on `str`. */
  predicate StrLe(a: string, b: string)
  {
    |a| == 0 || (|b| > 0 && (a[0] < b[0] || (a[0] == b[0] && StrLe(a[1..], b[1..]))))
  }

  lemma {:induction false} StrLeTotal(a: string, b: string)
    ensures StrLe(a, b) || StrLe(b, a)
  {
    if |a| > 0 && |b| > 0 && a[0] == b[0] {
      StrLeTotal(a[1..], b[1..]);
    }
  }

  lemma {:induction false} StrLeTransitive(a: string, b: string, c: string)
    requires StrLe(a, b) && StrLe(b, c)
    ensures StrLe(a, c)
  {
    if |a| > 0 && a[0] == b[0] && b[0] == c[0] {
      StrLeTransitive(a[1..], b[1..], c[1..]);
    }
  }

  lemma {:induction false} StrLeAntisymmetric(a: string, b: string)
    requires StrLe(a, b) && StrLe(b, a)
    ensures a == b
  {
    if |a| > 0 {
      StrLeAntisymmetric(a[1..], b[1..]);
      assert a == [a[0]] + a[1..];
      assert b == [b[0]] + b[1..];
    }
  }

  lemma StrLeIsTotalPreorder()
    ensures TotalPreorder(StrLe)
  {
    forall a, b ensures StrLe(a, b) || StrLe(b, a) {
      StrLeTotal(a, b);
    }
    forall a, b, c | StrLe(a, b) && StrLe(b, c) ensures StrLe(a, c) {
      StrLeTransitive(a, b, c);
    }
  }

  /** `sorted(strings)`: ascending, a permutation of the input. */
  function SortStrings(s: seq<string>): (r: seq<string>)
    ensures multiset(r) == multiset(s)
    ensures forall i, j :: 0 <= i < j < |r| ==> StrLe(r[i], r[j])
  {
    StrLeIsTotalPreorder();
    SortIsSorted(s, StrLe);
    Sort(s, StrLe)
  }

  /** Ascending order on integers. */
  function IntLe(a: int, b: int): bool
  {
    a <= b
  }

  /** `sorted(ints)`: ascending, a permutation of the input. */
  function SortInts(s: seq<int>): (r: seq<int>)
    ensures multiset(r) == multiset(s)
    ensures forall i, j :: 0 <= i < j < |r| ==> r[i] <= r[j]
  {
    assert TotalPreorder(IntLe);
    SortIsSorted(s, IntLe);
    Sort(s, IntLe)
  }

  /** `sorted(set(s))` on integers: each value of `s` once, strictly ascending. */
  function SortedDistinctInts(s: seq<int>): (r: seq<int>)
    ensures forall x :: x in r <==> x in s
    ensures forall i, j :: 0 <= i < j < |r| ==> r[i] < r[j]
  {
    var distinct := Distinct(s);
    var r := SortInts(distinct);
    NoDupsPermutation(distinct, r);
    assert forall x :: x in r <==> x in distinct by {
      forall x ensures x in r <==> x in distinct {
        assert x in r <==> x in multiset(r);
        assert x in distinct <==> x in multiset(distinct);
      }
    }
    r
  }
}
