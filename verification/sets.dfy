/** Python's `set(xs)` and `len` of a set: the elements of a sequence and the
    cardinality facts the set-based metrics rest on. */
module Sets {
  import opened Seqs

  /** `set(s)`. */
  function Elements<T(!new)>(s: seq<T>): (e: set<T>)
    ensures forall x :: x in e <==> x in s
  {
    set x | x in s
  }

  /** A sequence has at most as many distinct elements as positions, at least one
      when it is non-empty, and exactly as many when it has no duplicates. */
  lemma {:induction false} ElementsCard<T(!new)>(s: seq<T>)
    ensures |Elements(s)| <= |s|
    ensures |s| > 0 ==> |Elements(s)| >= 1
    ensures NoDups(s) <==> |Elements(s)| == |s|
  {
    if |s| > 0 {
      var t := s[1..];
      ElementsCard(t);
      assert Elements(s) == {s[0]} + Elements(t);
      if s[0] in t {
        assert Elements(s) == Elements(t);
        var k :| 0 <= k < |t| && t[k] == s[0];
        assert s[k + 1] == s[0];
      } else {
        assert NoDups(s) <==> NoDups(t) by {
          if NoDups(t) {
            forall i, j | 0 <= i < j < |s| ensures s[i] != s[j] {
              if i > 0 {
                assert s[i] == t[i - 1] && s[j] == t[j - 1];
              } else {
                assert s[j] == t[j - 1];
              }
            }
          }
          if NoDups(s) {
            forall i, j | 0 <= i < j < |t| ensures t[i] != t[j] {
              assert t[i] == s[i + 1] && t[j] == s[j + 1];
            }
          }
        }
      }
    }
  }

  /** A subset is no larger than its superset, and one of the same size is the superset. */
  lemma {:induction false} SubsetCard<T>(a: set<T>, b: set<T>)
    requires a <= b
    ensures |a| <= |b|
    ensures |a| == |b| ==> a == b
  {
    if a != {} {
      var x :| x in a;
      SubsetCard(a - {x}, b - {x});
    }
  }

  /** Two sets share nothing exactly when their intersection is empty. */
  lemma DisjointCard<T>(a: set<T>, b: set<T>)
    ensures |a * b| == 0 <==> a !! b
  {
    if |a * b| != 0 {
      var x :| x in a * b;
    } else {
      assert a * b == {};
      forall x | x in a ensures x !in b {
        assert x !in a * b;
      }
    }
  }

  /** `set(range(n))`. */
  function Below(n: nat): (r: set<int>)
    ensures forall x :: x in r <==> 0 <= x < n
  {
    if n == 0 then {} else Below(n - 1) + {n - 1}
  }

  /** `range(n)` has `n` elements. */
  lemma {:induction false} RangeCard(n: nat)
    ensures |Below(n)| == n
  {
    if n > 0 {
      RangeCard(n - 1);
      assert n - 1 !in Below(n - 1);
    }
  }

  /** A set of indices below `n` has at most `n` elements. */
  lemma IndicesCard(s: set<int>, n: nat)
    requires forall x :: x in s ==> 0 <= x < n
    ensures |s| <= n
  {
    RangeCard(n);
    SubsetCard(s, Below(n));
  }

  /** A duplicate-free sequence has a duplicate-free tail without its head. */
  lemma NoDupsTail<T>(s: seq<T>)
    requires NoDups(s) && |s| > 0
    ensures NoDups(s[1..]) && s[0] !in s[1..]
  {
    var t := s[1..];
    forall i, j | 0 <= i < j < |t| ensures t[i] != t[j] {
      assert t[i] == s[i + 1] && t[j] == s[j + 1];
    }
    forall k | 0 <= k < |t| ensures t[k] != s[0] {
      assert t[k] == s[k + 1];
    }
  }

  /** Adding a new element to a set adds one shared element exactly when the other
      set holds it. */
  lemma InsertIntersectCard<T>(x: T, a: set<T>, b: set<T>)
    requires x !in a
    ensures |({x} + a) * b| == (if x in b then 1 else 0) + |a * b|
  {
    if x in b {
      assert ({x} + a) * b == {x} + a * b;
    } else {
      assert ({x} + a) * b == a * b;
    }
  }
}
