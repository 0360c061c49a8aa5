/** Counting, filtering, summing and grouping over finite sequences of records:
    the pandas operations `mask.sum()`, boolean indexing, `groupby(...).sum()`,
    `groupby(...).size()` and `np.mean`, stated once and shared by every module. */
module Seqs {

  /** Number of elements satisfying `p`. */
  function Count<T>(s: seq<T>, p: T -> bool): (c: nat)
    ensures c <= |s|
  {
    if |s| == 0 then 0 else (if p(s[0]) then 1 else 0) + Count(s[1..], p)
  }

  /** The elements satisfying `p`, in their original order. */
  function Filter<T(!new)>(s: seq<T>, p: T -> bool): (r: seq<T>)
    ensures |r| == Count(s, p)
    ensures forall x :: x in r <==> x in s && p(x)
  {
    if |s| == 0 then [] else (if p(s[0]) then [s[0]] else []) + Filter(s[1..], p)
  }

  lemma {:induction false} FilterConcat<T(!new)>(a: seq<T>, b: seq<T>, p: T -> bool)
    ensures Filter(a + b, p) == Filter(a, p) + Filter(b, p)
  {
    if |a| == 0 {
      assert a + b == b;
    } else {
      assert (a + b)[1..] == a[1..] + b;
      FilterConcat(a[1..], b, p);
    }
  }

  /** Filtering keeps everything when every element passes. */
  lemma {:induction false} FilterAllKept<T(!new)>(s: seq<T>, p: T -> bool)
    requires forall i :: 0 <= i < |s| ==> p(s[i])
    ensures Filter(s, p) == s
  {
    if |s| > 0 {
      assert forall i :: 0 <= i < |s| - 1 ==> s[1..][i] == s[i + 1];
      FilterAllKept(s[1..], p);
    }
  }

  function MapSeq<T, U>(s: seq<T>, f: T -> U): (r: seq<U>)
    ensures |r| == |s|
    ensures forall i :: 0 <= i < |s| ==> r[i] == f(s[i])
  {
    seq(|s|, i requires 0 <= i < |s| => f(s[i]))
  }

  /** `df.iloc[idx]`: the elements at the given positions, in the order given. */
  function RowsAt<T>(rows: seq<T>, idx: seq<nat>): (r: seq<T>)
    requires forall i :: 0 <= i < |idx| ==> idx[i] < |rows|
    ensures |r| == |idx|
    ensures forall i :: 0 <= i < |idx| ==> r[i] == rows[idx[i]]
  {
    seq(|idx|, i requires 0 <= i < |idx| => rows[idx[i]])
  }

  /** Mapping distributes over concatenation. */
  lemma MapSeqConcat<T, U>(a: seq<T>, b: seq<T>, f: T -> U)
    ensures MapSeq(a + b, f) == MapSeq(a, f) + MapSeq(b, f)
  {
    assert forall i :: |a| <= i < |a + b| ==> (a + b)[i] == b[i - |a|];
  }

  predicate NoDups<T(==)>(s: seq<T>)
  {
    forall i, j :: 0 <= i < j < |s| ==> s[i] != s[j]
  }

  /** Keeping some elements of a duplicate-free sequence leaves it duplicate-free. */
  lemma {:induction false} FilterKeepsNoDups<T(!new)>(s: seq<T>, p: T -> bool)
    requires NoDups(s)
    ensures NoDups(Filter(s, p))
  {
    if |s| > 0 {
      FilterKeepsNoDups(s[1..], p);
      forall j | 0 <= j < |s[1..]|
        ensures s[1..][j] != s[0]
      {
        assert s[1..][j] == s[j + 1];
      }
    }
  }

  /** Keeping some records of a sequence whose keys are distinct keeps the keys distinct. */
  lemma {:induction false} FilterKeysNoDups<T(!new), K>(s: seq<T>, p: T -> bool, key: T -> K)
    requires NoDups(MapSeq(s, key))
    ensures NoDups(MapSeq(Filter(s, p), key))
  {
    if |s| > 0 {
      var keys := MapSeq(s, key);
      assert MapSeq(s[1..], key) == keys[1..];
      FilterKeysNoDups(s[1..], p, key);
      var rest := Filter(s[1..], p);
      if p(s[0]) {
        forall y | y in rest ensures key(y) != key(s[0]) {
          var k :| 0 <= k < |s[1..]| && s[1..][k] == y;
          assert keys[0] != keys[k + 1];
        }
        ConsKeysNoDups(s[0], rest, key);
        assert Filter(s, p) == [s[0]] + rest;
      } else {
        assert Filter(s, p) == rest;
      }
    }
  }

  /** A record whose key no other record has can go in front of distinct keys. */
  lemma ConsKeysNoDups<T, K>(x: T, rest: seq<T>, key: T -> K)
    requires NoDups(MapSeq(rest, key))
    requires forall y :: y in rest ==> key(y) != key(x)
    ensures NoDups(MapSeq([x] + rest, key))
  {
    var r := [x] + rest;
    forall i, j | 0 <= i < j < |r| ensures key(r[i]) != key(r[j]) {
      assert r[j] == rest[j - 1];
      if i > 0 {
        assert r[i] == rest[i - 1];
        assert MapSeq(rest, key)[i - 1] != MapSeq(rest, key)[j - 1];
      }
    }
  }

  lemma {:induction false} NoDupsMultiplicity<T>(s: seq<T>, x: T)
    requires NoDups(s)
    ensures multiset(s)[x] <= 1
  {
    if |s| > 0 {
      assert s == [s[0]] + s[1..];
      NoDupsMultiplicity(s[1..], x);
      assert s[0] !in s[1..];
    }
  }

  lemma DuplicateMultiplicity<T>(s: seq<T>, i: int, j: int)
    requires 0 <= i < j < |s|
    ensures s[i] == s[j] ==> multiset(s)[s[i]] >= 2
  {
    assert s == s[..j] + s[j..];
    assert multiset(s) == multiset(s[..j]) + multiset(s[j..]);
    assert s[i] in s[..j];
    assert s[j] in s[j..];
  }

  /** A rearrangement of a duplicate-free sequence is duplicate-free. */
  lemma NoDupsPermutation<T>(a: seq<T>, b: seq<T>)
    requires multiset(a) == multiset(b)
    requires NoDups(a)
    ensures NoDups(b)
  {
    forall i, j | 0 <= i < j < |b| ensures b[i] != b[j] {
      NoDupsMultiplicity(a, b[i]);
      DuplicateMultiplicity(b, i, j);
    }
  }

  /** Cutting a sequence and gluing the pieces back gives the sequence. */
  lemma SplitAt<T>(s: seq<T>, n: nat)
    requires n <= |s|
    ensures s[..n] + s[n..] == s
  {
  }

  /** Concatenation regroups freely. */
  lemma ConcatAssociative<T>(a: seq<T>, b: seq<T>, c: seq<T>)
    ensures a + (b + c) == (a + b) + c
  {
  }

  /** Two duplicate-free sequences with no common element concatenate without
      duplicates. */
  lemma NoDupsConcat<T>(a: seq<T>, b: seq<T>)
    requires NoDups(a) && NoDups(b)
    requires forall x :: x in b ==> x !in a
    ensures NoDups(a + b)
  {
    forall i, j | 0 <= i < j < |a + b| ensures (a + b)[i] != (a + b)[j] {
      if j >= |a| && i < |a| {
        assert (a + b)[j] == b[j - |a|];
        assert b[j - |a|] in b;
      }
      if i >= |a| {
        assert (a + b)[i] == b[i - |a|] && (a + b)[j] == b[j - |a|];
      }
    }
  }

  function SumInt<T>(s: seq<T>, f: T -> int): int
  {
    if |s| == 0 then 0 else f(s[0]) + SumInt(s[1..], f)
  }

  function SumReal<T>(s: seq<T>, f: T -> real): real
  {
    if |s| == 0 then 0.0 else f(s[0]) + SumReal(s[1..], f)
  }

  /** Sum of a sequence of reals (`np.sum`). */
  function Sum(s: seq<real>): real
  {
    if |s| == 0 then 0.0 else s[0] + Sum(s[1..])
  }

  /** Sum of a sequence of integers. */
  function Total(s: seq<int>): int
  {
    if |s| == 0 then 0 else s[0] + Total(s[1..])
  }

  lemma {:induction false} SumConcat(a: seq<real>, b: seq<real>)
    ensures Sum(a + b) == Sum(a) + Sum(b)
  {
    if |a| == 0 {
      assert a + b == b;
    } else {
      assert (a + b)[1..] == a[1..] + b;
      SumConcat(a[1..], b);
    }
  }

  /** A sum of terms each in [lo, hi] lies in [|s| * lo, |s| * hi]. */
  lemma {:induction false} SumBounds(s: seq<real>, lo: real, hi: real)
    requires forall i :: 0 <= i < |s| ==> lo <= s[i] <= hi
    ensures |s| as real * lo <= Sum(s) <= |s| as real * hi
  {
    if |s| > 0 {
      SumBounds(s[1..], lo, hi);
      assert (|s| - 1) as real * lo + lo == |s| as real * lo;
      assert (|s| - 1) as real * hi + hi == |s| as real * hi;
    }
  }

  /** Arithmetic mean, 0.0 for no values: the `np.mean(xs) if xs else 0.0` idiom. */
  function Mean(s: seq<real>): real
  {
    if |s| == 0 then 0.0 else Sum(s) / |s| as real
  }

  /** A mean of values in [lo, hi] lies in [lo, hi] (and is 0.0 for no values). */
  lemma MeanBounds(s: seq<real>, lo: real, hi: real)
    requires forall i :: 0 <= i < |s| ==> lo <= s[i] <= hi
    ensures |s| > 0 ==> lo <= Mean(s) <= hi
    ensures |s| == 0 ==> Mean(s) == 0.0
  {
    if |s| > 0 {
      SumBounds(s, lo, hi);
      var n := |s| as real;
      assert Sum(s) / n >= lo by {
        assert Sum(s) >= n * lo;
      }
      assert Sum(s) / n <= hi by {
        assert Sum(s) <= n * hi;
      }
    }
  }

  /** `n` copies of `x` added up: `n * x` without a product of two unknowns. */
  function Copies(n: nat, x: real): real
  {
    if n == 0 then 0.0 else x + Copies(n - 1, x)
  }

  lemma {:induction false} CopiesIsProduct(n: nat, x: real)
    ensures Copies(n, x) == n as real * x
  {
    if n > 0 {
      CopiesIsProduct(n - 1, x);
      assert (n - 1) as real * x + x == n as real * x;
    }
  }

  /** A sum of terms at most `hi` reaches `|s|` copies of `hi` exactly when every term is `hi`. */
  lemma {:induction false} SumAtCeiling(s: seq<real>, hi: real)
    requires forall i :: 0 <= i < |s| ==> s[i] <= hi
    ensures Sum(s) <= Copies(|s|, hi)
    ensures Sum(s) == Copies(|s|, hi) <==> forall i :: 0 <= i < |s| ==> s[i] == hi
  {
    if |s| > 0 {
      var t := s[1..];
      assert forall i :: 0 <= i < |t| ==> t[i] <= hi by {
        assert forall i :: 0 <= i < |t| ==> t[i] == s[i + 1];
      }
      SumAtCeiling(t, hi);
      TailAllEqual(s, hi);
    }
  }

  /** A sum of terms at least `lo` reaches down to `|s|` copies of `lo` exactly when every
      term is `lo`. */
  lemma {:induction false} SumAtFloor(s: seq<real>, lo: real)
    requires forall i :: 0 <= i < |s| ==> lo <= s[i]
    ensures Copies(|s|, lo) <= Sum(s)
    ensures Sum(s) == Copies(|s|, lo) <==> forall i :: 0 <= i < |s| ==> s[i] == lo
  {
    if |s| > 0 {
      var t := s[1..];
      assert forall i :: 0 <= i < |t| ==> lo <= t[i] by {
        assert forall i :: 0 <= i < |t| ==> t[i] == s[i + 1];
      }
      SumAtFloor(t, lo);
      TailAllEqual(s, lo);
    }
  }

  /** Every term is `v` exactly when the head and every term of the tail are. */
  lemma TailAllEqual(s: seq<real>, v: real)
    requires |s| > 0
    ensures (forall i :: 0 <= i < |s| ==> s[i] == v) <==> s[0] == v && forall i :: 0 <= i < |s[1..]| ==> s[1..][i] == v
  {
    assert forall i :: 1 <= i < |s| ==> s[i] == s[1..][i - 1];
  }

  /** The mean of values in [lo, hi] is `hi` exactly when all are `hi`, and `lo` exactly
      when all are `lo`. */
  lemma MeanAtBounds(s: seq<real>, lo: real, hi: real)
    requires |s| > 0
    requires forall i :: 0 <= i < |s| ==> lo <= s[i] <= hi
    ensures Mean(s) == hi <==> forall i :: 0 <= i < |s| ==> s[i] == hi
    ensures Mean(s) == lo <==> forall i :: 0 <= i < |s| ==> s[i] == lo
  {
    SumAtCeiling(s, hi);
    SumAtFloor(s, lo);
    QuotientIsCopies(Sum(s), |s|, hi);
    QuotientIsCopies(Sum(s), |s|, lo);
  }

  /** `a / n` is `b` exactly when `a` is `n` copies of `b`. */
  lemma QuotientIsCopies(a: real, n: nat, b: real)
    requires n > 0
    ensures a / n as real == b <==> a == Copies(n, b)
  {
    CopiesIsProduct(n, b);
  }

  /** The elements of `s` not in `seen`, each once, in order of first appearance. */
  function DistinctFrom<T(==,!new)>(s: seq<T>, seen: set<T>): (r: seq<T>)
    ensures forall x :: x in r <==> x in s && x !in seen
    ensures NoDups(r)
  {
    if |s| == 0 then []
    else if s[0] in seen then DistinctFrom(s[1..], seen)
    else [s[0]] + DistinctFrom(s[1..], seen + {s[0]})
  }

  /** Distinct values in order of first appearance (`pd.unique`, `groupby(sort=False)` keys). */
  function Distinct<T(==,!new)>(s: seq<T>): (r: seq<T>)
    ensures forall x :: x in r <==> x in s
    ensures NoDups(r)
  {
    DistinctFrom(s, {})
  }

  /** Distinct keys of the records, in order of first appearance, skipping keys in `seen`. */
  function KeysFrom<T, K(==,!new)>(s: seq<T>, key: T -> K, seen: set<K>): (r: seq<K>)
    ensures forall k :: k in r ==> k !in seen
    ensures forall i :: 0 <= i < |s| && key(s[i]) !in seen ==> key(s[i]) in r
    ensures forall k :: k in r ==> exists i :: 0 <= i < |s| && key(s[i]) == k
    ensures NoDups(r)
  {
    if |s| == 0 then []
    else if key(s[0]) in seen then
      var r := KeysFrom(s[1..], key, seen);
      assert forall i :: 1 <= i < |s| ==> s[i] == s[1..][i - 1];
      r
    else
      var r := KeysFrom(s[1..], key, seen + {key(s[0])});
      assert forall i :: 1 <= i < |s| ==> s[i] == s[1..][i - 1];
      [key(s[0])] + r
  }

  /** The group keys of `s` in order of first appearance (`groupby(..., sort=False)`). */
  function Keys<T, K(==,!new)>(s: seq<T>, key: T -> K): (r: seq<K>)
    ensures forall i :: 0 <= i < |s| ==> key(s[i]) in r
    ensures forall k :: k in r ==> exists i :: 0 <= i < |s| && key(s[i]) == k
    ensures NoDups(r)
  {
    KeysFrom(s, key, {})
  }

  /** Sum of `w` over the records whose key is `k` (one group's `sum()`). */
  function MassOf<T, K(==,!new)>(s: seq<T>, key: T -> K, w: T -> int, k: K): int
  {
    if |s| == 0 then 0 else (if key(s[0]) == k then w(s[0]) else 0) + MassOf(s[1..], key, w, k)
  }

  /** A group's mass over two pieces is the sum of its masses over each. */
  lemma {:induction false} MassOfConcat<T, K(!new)>(a: seq<T>, b: seq<T>, key: T -> K, w: T -> int, k: K)
    ensures MassOf(a + b, key, w, k) == MassOf(a, key, w, k) + MassOf(b, key, w, k)
  {
    if |a| == 0 {
      assert a + b == b;
    } else {
      assert (a + b)[1..] == a[1..] + b;
      MassOfConcat(a[1..], b, key, w, k);
    }
  }

  /** Sum of `w` over the records whose key is outside `seen`. */
  function MassOutside<T, K(==,!new)>(s: seq<T>, key: T -> K, w: T -> int, seen: set<K>): int
  {
    if |s| == 0 then 0 else (if key(s[0]) !in seen then w(s[0]) else 0) + MassOutside(s[1..], key, w, seen)
  }

  lemma {:induction false} MassOfMonotone<T, K(!new)>(s: seq<T>, key: T -> K, v: T -> int, w: T -> int, k: K)
    requires forall x :: x in s ==> v(x) <= w(x)
    ensures MassOf(s, key, v, k) <= MassOf(s, key, w, k)
  {
    if |s| > 0 {
      assert s[0] in s;
      MassOfMonotone(s[1..], key, v, w, k);
    }
  }

  lemma {:induction false} MassOfNonNegative<T, K(!new)>(s: seq<T>, key: T -> K, w: T -> int, k: K)
    requires forall x :: x in s ==> w(x) >= 0
    ensures MassOf(s, key, w, k) >= 0
  {
    if |s| > 0 {
      assert s[0] in s;
      MassOfNonNegative(s[1..], key, w, k);
    }
  }

  /** A key no record carries has no mass. */
  lemma {:induction false} MassOfAbsentKey<T, K(!new)>(s: seq<T>, key: T -> K, w: T -> int, k: K)
    requires forall i :: 0 <= i < |s| ==> key(s[i]) != k
    ensures MassOf(s, key, w, k) == 0
  {
    if |s| > 0 {
      assert forall i :: 0 <= i < |s| - 1 ==> s[1..][i] == s[i + 1];
      MassOfAbsentKey(s[1..], key, w, k);
    }
  }

  /** Sum over the listed keys of each key's group mass. */
  function SumMass<T, K(==,!new)>(ks: seq<K>, s: seq<T>, key: T -> K, w: T -> int): int
  {
    if |ks| == 0 then 0 else MassOf(s, key, w, ks[0]) + SumMass(ks[1..], s, key, w)
  }

  lemma {:induction false} SumMassDropHead<T, K(!new)>(ks: seq<K>, x: T, t: seq<T>, key: T -> K, w: T -> int)
    requires key(x) !in ks
    ensures SumMass(ks, [x] + t, key, w) == SumMass(ks, t, key, w)
  {
    if |ks| > 0 {
      assert ([x] + t)[1..] == t;
      SumMassDropHead(ks[1..], x, t, key, w);
    }
  }

  lemma {:induction false} MassOutsideSplit<T, K(!new)>(t: seq<T>, key: T -> K, w: T -> int, seen: set<K>, k: K)
    requires k !in seen
    ensures MassOutside(t, key, w, seen) == MassOf(t, key, w, k) + MassOutside(t, key, w, seen + {k})
  {
    if |t| > 0 {
      MassOutsideSplit(t[1..], key, w, seen, k);
    }
  }

  lemma {:induction false} KeysFromMass<T, K(!new)>(s: seq<T>, key: T -> K, w: T -> int, seen: set<K>)
    ensures SumMass(KeysFrom(s, key, seen), s, key, w) == MassOutside(s, key, w, seen)
  {
    if |s| > 0 {
      var x, t := s[0], s[1..];
      assert s == [x] + t;
      if key(x) in seen {
        var ks := KeysFrom(t, key, seen);
        SumMassDropHead(ks, x, t, key, w);
        KeysFromMass(t, key, w, seen);
      } else {
        var ks := KeysFrom(t, key, seen + {key(x)});
        assert KeysFrom(s, key, seen) == [key(x)] + ks;
        SumMassDropHead(ks, x, t, key, w);
        KeysFromMass(t, key, w, seen + {key(x)});
        MassOutsideSplit(t, key, w, seen, key(x));
      }
    }
  }

  lemma {:induction false} MassOutsideNothing<T, K(!new)>(s: seq<T>, key: T -> K, w: T -> int)
    ensures MassOutside(s, key, w, {}) == SumInt(s, w)
  {
    if |s| > 0 {
      MassOutsideNothing(s[1..], key, w);
    }
  }

  /** Grouping loses nothing: the group masses over all distinct keys add up to the
      total mass of the records (what `groupby(key)[col].sum()` promises). */
  lemma GroupMassesSumToTotal<T, K(!new)>(s: seq<T>, key: T -> K, w: T -> int)
    ensures SumMass(Keys(s, key), s, key, w) == SumInt(s, w)
  {
    KeysFromMass(s, key, w, {});
    MassOutsideNothing(s, key, w);
  }

  function One<T>(x: T): int
  {
    1
  }

  lemma {:induction false} SumOneIsLength<T>(s: seq<T>)
    ensures SumInt(s, One) == |s|
  {
    if |s| > 0 {
      SumOneIsLength(s[1..]);
    }
  }

  lemma {:induction false} MassOfOneIsCount<T, K(!new)>(s: seq<T>, key: T -> K, k: K)
    ensures MassOf(s, key, One, k) >= 0
    ensures MassOf(s, key, One, k) > 0 <==> exists i :: 0 <= i < |s| && key(s[i]) == k
  {
    if |s| > 0 {
      MassOfOneIsCount(s[1..], key, k);
      assert forall i :: 1 <= i < |s| ==> s[i] == s[1..][i - 1];
      if key(s[0]) != k {
        assert (exists i :: 0 <= i < |s| && key(s[i]) == k) ==> exists i :: 0 <= i < |s[1..]| && key(s[1..][i]) == k by {
          if exists i :: 0 <= i < |s| && key(s[i]) == k {
            var i :| 0 <= i < |s| && key(s[i]) == k;
            assert i >= 1 && key(s[1..][i - 1]) == k;
          }
        }
      }
    }
  }

  // Facts about real division, kept small so each is proved in isolation.

  lemma DivideSum(a: real, b: real, t: real)
    requires t != 0.0
    ensures a / t + b / t == (a + b) / t
  {
  }

  lemma DivideDifference(a: real, b: real, t: real)
    requires t != 0.0
    ensures a / t - b / t == (a - b) / t
  {
  }

  lemma SelfDivide(t: real)
    requires t != 0.0
    ensures t / t == 1.0
  {
  }

  lemma DivideNonNegative(a: real, t: real)
    requires a >= 0.0 && t > 0.0
    ensures a / t >= 0.0
  {
  }

  /** A non-negative amount shrinks as its divisor grows. */
  lemma DivideAntitone(a: real, s: real, t: real)
    requires a >= 0.0 && 0.0 < s <= t
    ensures a / s >= a / t
  {
    assert a / s - a / t == a * (t - s) / (s * t);
    assert a * (t - s) >= 0.0;
  }

  /** A fraction `m / total` with `0 <= m <= total` is a probability. */
  lemma ShareIsProbability(m: int, total: int)
    requires 0 <= m <= total && total > 0
    ensures 0.0 <= m as real / total as real <= 1.0
  {
  }
}
