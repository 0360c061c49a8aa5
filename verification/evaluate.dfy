/** Offline ranking metrics: DCG and NDCG with exponential gains, average precision
    and MAP over binarised labels, and their means over (user, session) groups.

    The logarithmic discount `log2(i + 2)` of 0-based position `i` is a parameter
    `disc`; every result here holds for any discount that starts at 1 or more and
    never decreases with the position, which `log2(i + 2)` does. */
module Evaluate {
  import opened Seqs
  import opened Sorting
  import opened PyOps

  ghost predicate ValidDiscount(disc: nat -> real)
  {
    && (forall i :: disc(i) >= 1.0)
    && (forall i, j :: i <= j ==> disc(i) <= disc(j))
  }

  function Pow2(n: nat): (p: nat)
    ensures p >= 1
  {
    if n == 0 then 1 else 2 * Pow2(n - 1)
  }

  /** `2 ** rel - 1`. */
  function Gain(rel: nat): nat
  {
    Pow2(rel) - 1
  }

  lemma {:induction false} GainMonotone(a: nat, b: nat)
    requires a <= b
    ensures Gain(a) <= Gain(b)
  {
    if a < b {
      GainMonotone(a, b - 1);
    }
  }

  /** Total gain of a sequence of grades. */
  function GainSum(s: seq<nat>): nat
  {
    if |s| == 0 then 0 else Gain(s[0]) + GainSum(s[1..])
  }

  lemma {:induction false} GainSumConcat(a: seq<nat>, b: seq<nat>)
    ensures GainSum(a + b) == GainSum(a) + GainSum(b)
  {
    if |a| > 0 {
      assert (a + b)[0] == a[0];
      assert (a + b)[1..] == a[1..] + b;
      GainSumConcat(a[1..], b);
    } else {
      assert a + b == b;
    }
  }

  /** Sum of gain / discount over the first `j` positions. */
  function DiscountedGain(s: seq<nat>, disc: nat -> real, j: nat): real
    requires j <= |s|
    requires ValidDiscount(disc)
  {
    if j == 0 then 0.0 else DiscountedGain(s, disc, j - 1) + Gain(s[j - 1]) as real / disc(j - 1)
  }

  lemma {:induction false} DiscountedGainNonNegative(s: seq<nat>, disc: nat -> real, j: nat)
    requires j <= |s|
    requires ValidDiscount(disc)
    ensures DiscountedGain(s, disc, j) >= 0.0
  {
    if j > 0 {
      DiscountedGainNonNegative(s, disc, j - 1);
      DivideNonNegative(Gain(s[j - 1]) as real, disc(j - 1));
    }
  }

  /** The discounted gain of the first `j` positions reads only those positions. */
  lemma {:induction false} DiscountedGainOfPrefix(s: seq<nat>, t: seq<nat>, disc: nat -> real, j: nat)
    requires j <= |s| && j <= |t| && s[..j] == t[..j]
    requires ValidDiscount(disc)
    ensures DiscountedGain(s, disc, j) == DiscountedGain(t, disc, j)
  {
    if j > 0 {
      assert s[j - 1] == s[..j][j - 1] == t[..j][j - 1] == t[j - 1];
      assert s[..j - 1] == s[..j][..j - 1];
      assert t[..j - 1] == t[..j][..j - 1];
      DiscountedGainOfPrefix(s, t, disc, j - 1);
    }
  }

  /** `dcg_at_k`: discounted gain of `rels[:k]`, 0 for an empty slice. */
  function Dcg(rels: seq<nat>, k: int, disc: nat -> real): (r: real)
    requires ValidDiscount(disc)
    ensures r >= 0.0
    ensures |Prefix(rels, k)| == 0 ==> r == 0.0
  {
    var p := Prefix(rels, k);
    DiscountedGainNonNegative(p, disc, |p|);
    if |p| == 0 then 0.0 else DiscountedGain(p, disc, |p|)
  }

  function GradeGe(a: nat, b: nat): bool { a >= b }

  /** `np.sort(rels)[::-1]`: the grades in descending order. */
  function Ideal(rels: seq<nat>): (r: seq<nat>)
    ensures |r| == |rels|
    ensures multiset(r) == multiset(rels)
    ensures forall i, j :: 0 <= i < j < |r| ==> r[i] >= r[j]
  {
    assert TotalPreorder(GradeGe);
    SortIsSorted(rels, GradeGe);
    Sort(rels, GradeGe)
  }

  // ---------------------------------------------------------------------------
  // The ideal order has the largest prefix gains

  lemma PrefixGainStep(s: seq<nat>, j: nat)
    requires 0 < j <= |s|
    ensures GainSum(s[..j]) == GainSum(s[..j - 1]) + Gain(s[j - 1])
  {
    assert s[..j] == s[..j - 1] + [s[j - 1]];
    GainSumConcat(s[..j - 1], [s[j - 1]]);
  }

  lemma {:induction false} InsertPrefixGain(x: nat, t: seq<nat>, j: nat)
    requires 0 < j <= |t| + 1
    ensures GainSum(Insert(x, t, GradeGe)[..j]) >= GainSum(t[..j - 1]) + Gain(x)
  {
    var p := InsertPosition(x, t, GradeGe);
    var ins := Insert(x, t, GradeGe);
    if j <= p {
      assert ins[..j] == t[..j];
      PrefixGainStep(t, j);
      assert t[j - 1] > x;
      GainMonotone(x, t[j - 1]);
    } else {
      assert ins[..j] == t[..p] + [x] + t[p..j - 1];
      assert t[..j - 1] == t[..p] + t[p..j - 1];
      GainSumConcat(t[..p] + [x], t[p..j - 1]);
      GainSumConcat(t[..p], [x]);
      GainSumConcat(t[..p], t[p..j - 1]);
    }
  }

  /** Arranging grades in descending order maximises the gain of every prefix. */
  lemma {:induction false} IdealDominates(s: seq<nat>, j: nat)
    requires j <= |s|
    ensures GainSum(s[..j]) <= GainSum(Sort(s, GradeGe)[..j])
  {
    if j > 0 {
      var t := s[1..];
      var st := Sort(t, GradeGe);
      assert GainSum(t[..j - 1]) <= GainSum(st[..j - 1]) by {
        IdealDominates(t, j - 1);
      }
      PrefixGainHead(s, j);
      assert Sort(s, GradeGe) == Insert(s[0], st, GradeGe);
      InsertPrefixGain(s[0], st, j);
    }
  }

  /** A non-empty prefix gains its first grade plus the prefix of the rest. */
  lemma PrefixGainHead(s: seq<nat>, j: nat)
    requires 0 < j <= |s|
    ensures GainSum(s[..j]) == Gain(s[0]) + GainSum(s[1..][..j - 1])
  {
    assert GainSum([s[0]]) == Gain(s[0]) + GainSum([s[0]][1..]);
    assert s[..j] == [s[0]] + s[1..][..j - 1];
    GainSumConcat([s[0]], s[1..][..j - 1]);
  }

  /** Summation by parts: if `b` has at least the gain of `a` on every prefix, it also
      has at least the discounted gain, with a margin of the last prefix surplus. */
  lemma {:induction false} DominanceBoundsDiscountedGain(a: seq<nat>, b: seq<nat>, disc: nat -> real, j: nat)
    requires |a| == |b| && j <= |a|
    requires ValidDiscount(disc)
    requires forall i :: 0 <= i <= j ==> GainSum(a[..i]) <= GainSum(b[..i])
    ensures j > 0 ==> DiscountedGain(b, disc, j) - DiscountedGain(a, disc, j)
                      >= (GainSum(b[..j]) - GainSum(a[..j])) as real / disc(j - 1)
    ensures DiscountedGain(a, disc, j) <= DiscountedGain(b, disc, j)
  {
    if j > 0 {
      DominanceBoundsDiscountedGain(a, b, disc, j - 1);
      var d := disc(j - 1);
      var before := (GainSum(b[..j - 1]) - GainSum(a[..j - 1])) as real;
      var surplus := (GainSum(b[..j]) - GainSum(a[..j])) as real;
      var step := (Gain(b[j - 1]) - Gain(a[j - 1])) as real;
      PrefixGainStep(a, j);
      PrefixGainStep(b, j);
      assert surplus == before + step;
      DivideDifference(Gain(b[j - 1]) as real, Gain(a[j - 1]) as real, d);
      assert DiscountedGain(b, disc, j) - DiscountedGain(a, disc, j)
          == DiscountedGain(b, disc, j - 1) - DiscountedGain(a, disc, j - 1) + step / d;
      if j > 1 {
        DivideAntitone(before, disc(j - 2), d);
      } else {
        assert a[..0] == b[..0];
      }
      assert DiscountedGain(b, disc, j - 1) - DiscountedGain(a, disc, j - 1) >= before / d;
      DivideSum(before, step, d);
      DivideNonNegative(surplus, d);
    }
  }

  /** No ordering of the grades beats the ideal one at any cut-off. */
  lemma DcgAtMostIdeal(rels: seq<nat>, k: int, disc: nat -> real)
    requires ValidDiscount(disc)
    ensures Dcg(rels, k, disc) <= Dcg(Ideal(rels), k, disc)
  {
    var ideal := Ideal(rels);
    assert ideal == Sort(rels, GradeGe);
    var m := SliceBound(k, |rels|);
    if m > 0 {
      forall i | 0 <= i <= m
        ensures GainSum(rels[..i]) <= GainSum(ideal[..i])
      {
        IdealDominates(rels, i);
      }
      DominanceBoundsDiscountedGain(rels, ideal, disc, m);
      DiscountedGainOfPrefix(Prefix(rels, k), rels, disc, m);
      DiscountedGainOfPrefix(Prefix(ideal, k), ideal, disc, m);
    }
  }

  /** `ndcg_at_k`: DCG relative to the ideal ordering's DCG, 0 when that is 0. */
  function Ndcg(rels: seq<nat>, k: int, disc: nat -> real): (r: real)
    requires ValidDiscount(disc)
    ensures 0.0 <= r <= 1.0
  {
    var dcg := Dcg(rels, k, disc);
    var idcg := Dcg(Ideal(rels), k, disc);
    DcgAtMostIdeal(rels, k, disc);
    if idcg == 0.0 then 0.0
    else
      ShareIsProbabilityReal(dcg, idcg);
      dcg / idcg
  }

  lemma ShareIsProbabilityReal(a: real, t: real)
    requires 0.0 <= a <= t && t > 0.0
    ensures 0.0 <= a / t <= 1.0
  {
    DivideNonNegative(a, t);
    if a > 0.0 {
      DivideAntitone(a, a, t);
      SelfDivide(a);
    }
  }

  lemma {:induction false} SortOfSortedIsIdentity(s: seq<nat>)
    requires forall i, j :: 0 <= i < j < |s| ==> s[i] >= s[j]
    ensures Sort(s, GradeGe) == s
  {
    if |s| > 0 {
      SortOfSortedIsIdentity(s[1..]);
      assert s == [s[0]] + s[1..];
    }
  }

  /** A list already in ideal order scores 1 whenever it has any gain in the cut-off. */
  lemma IdealOrderScoresOne(rels: seq<nat>, k: int, disc: nat -> real)
    requires ValidDiscount(disc)
    requires forall i, j :: 0 <= i < j < |rels| ==> rels[i] >= rels[j]
    requires Dcg(rels, k, disc) != 0.0
    ensures Ndcg(rels, k, disc) == 1.0
  {
    SortOfSortedIsIdentity(rels);
    SelfDivide(Dcg(rels, k, disc));
  }

  /** NDCG depends only on the order of the grades: the ideal arrangement of any
      list scores 1 unless the list has no gain in the cut-off. */
  lemma IdealOfAnyListScoresOne(rels: seq<nat>, k: int, disc: nat -> real)
    requires ValidDiscount(disc)
    requires Dcg(Ideal(rels), k, disc) != 0.0
    ensures Ndcg(Ideal(rels), k, disc) == 1.0
  {
    IdealOrderScoresOne(Ideal(rels), k, disc);
  }

  // ---------------------------------------------------------------------------
  // Average precision

  /** The precisions `hits / i` recorded at each 1-based position `i` holding a 1,
      for the entries of `b` starting at position `pos` with `hits` ones before. */
  function Precisions(b: seq<int>, pos: nat, hits: nat): (r: seq<real>)
    requires 1 <= pos && hits < pos
    ensures |r| == Count(b, IsOne)
    ensures forall i :: 0 <= i < |r| ==> 0.0 < r[i] <= 1.0
  {
    if |b| == 0 then []
    else if b[0] == 1 then
      ShareIsProbability(hits + 1, pos);
      [(hits + 1) as real / pos as real] + Precisions(b[1..], pos + 1, hits + 1)
    else Precisions(b[1..], pos + 1, hits)
  }

  function IsOne(x: int): bool { x == 1 }

  function Id(x: int): int { x }

  /** `average_precision_at_k`: the mean precision at the hits of `b[:k]`; 0 when
      that slice sums to 0 or holds no entry equal to 1. */
  function AveragePrecision(b: seq<int>, k: int): (r: real)
    ensures 0.0 <= r <= 1.0
    ensures SumInt(Prefix(b, k), Id) == 0 ==> r == 0.0
  {
    var p := Prefix(b, k);
    if SumInt(p, Id) == 0 then 0.0
    else
      var ps := Precisions(p, 1, 0);
      MeanBounds(ps, 0.0, 1.0);
      if |ps| == 0 then 0.0 else Mean(ps)
  }

  /** The loop of `average_precision_at_k`, computing the same value. */
  method AveragePrecisionLoop(binaryRels: seq<int>, k: int) returns (ap: real)
    ensures ap == AveragePrecision(binaryRels, k)
    ensures 0.0 <= ap <= 1.0
  {
    var b := Prefix(binaryRels, k);
    if SumInt(b, Id) == 0 {
      return 0.0;
    }
    var precisions: seq<real> := [];
    var hits: nat := 0;
    var i := 0;
    while i < |b|
      invariant 0 <= i <= |b|
      invariant hits <= i
      invariant precisions + Precisions(b[i..], i + 1, hits) == Precisions(b, 1, 0)
    {
      PrecisionsStep(b, i, hits);
      if b[i] == 1 {
        var x := (hits + 1) as real / (i + 1) as real;
        assert precisions + ([x] + Precisions(b[i + 1..], i + 2, hits + 1))
            == (precisions + [x]) + Precisions(b[i + 1..], i + 2, hits + 1);
        hits := hits + 1;
        precisions := precisions + [x];
      }
      i := i + 1;
    }
    assert b[i..] == [];
    assert precisions == Precisions(b, 1, 0);
    ap := if |precisions| == 0 then 0.0 else Mean(precisions);
  }

  lemma PrecisionsStep(b: seq<int>, i: nat, hits: nat)
    requires i < |b| && hits <= i
    ensures Precisions(b[i..], i + 1, hits)
         == if b[i] == 1
            then [(hits + 1) as real / (i + 1) as real] + Precisions(b[i + 1..], i + 2, hits + 1)
            else Precisions(b[i + 1..], i + 2, hits)
  {
    assert b[i..][0] == b[i];
    assert b[i..][1..] == b[i + 1..];
  }

  /** A list whose hits all come before its misses records precision 1 at each hit. */
  lemma {:induction false} HitsFirstPrecisionsAreOne(b: seq<int>, pos: nat, hits: nat)
    requires 1 <= pos && hits + 1 == pos
    requires forall i, j :: 0 <= i < j < |b| && b[j] == 1 ==> b[i] == 1
    ensures forall i :: 0 <= i < |Precisions(b, pos, hits)| ==> Precisions(b, pos, hits)[i] == 1.0
  {
    if |b| > 0 {
      if b[0] == 1 {
        var t := b[1..];
        assert forall i, j :: 0 <= i < j < |t| && t[j] == 1 ==> t[i] == 1 by {
          forall i, j | 0 <= i < j < |t| && t[j] == 1 ensures t[i] == 1 {
            assert b[j + 1] == 1;
          }
        }
        HitsFirstPrecisionsAreOne(t, pos + 1, hits + 1);
        SelfDivide(pos as real);
        assert Precisions(b, pos, hits) == [pos as real / pos as real] + Precisions(t, pos + 1, hits + 1);
      } else {
        forall j | 0 <= j < |b[1..]| ensures b[1..][j] != 1 {
          assert b[j + 1] != 1;
        }
        NoOnesNoPrecisions(b[1..], pos + 1, hits);
      }
    }
  }

  lemma {:induction false} NoOnesNoPrecisions(b: seq<int>, pos: nat, hits: nat)
    requires 1 <= pos && hits < pos
    requires forall j :: 0 <= j < |b| ==> b[j] != 1
    ensures Precisions(b, pos, hits) == []
  {
    if |b| > 0 {
      NoOnesNoPrecisions(b[1..], pos + 1, hits);
    }
  }

  lemma {:induction false} MeanOfOnes(s: seq<real>)
    requires |s| > 0
    requires forall i :: 0 <= i < |s| ==> s[i] == 1.0
    ensures Mean(s) == 1.0
  {
    MeanBounds(s, 1.0, 1.0);
  }

  /** Average precision is 1 when every hit in the cut-off precedes every miss. */
  lemma HitsFirstScoresOne(b: seq<int>, k: int)
    requires forall i :: 0 <= i < |b| ==> b[i] == 0 || b[i] == 1
    requires forall i, j :: 0 <= i < j < |Prefix(b, k)| && Prefix(b, k)[j] == 1 ==> Prefix(b, k)[i] == 1
    requires Count(Prefix(b, k), IsOne) > 0
    ensures AveragePrecision(b, k) == 1.0
  {
    var p := Prefix(b, k);
    HitsFirstPrecisionsAreOne(p, 1, 0);
    var ps := Precisions(p, 1, 0);
    MeanOfOnes(ps);
    OnesHaveSum(p);
  }

  lemma {:induction false} OnesHaveSum(b: seq<int>)
    requires forall i :: 0 <= i < |b| ==> b[i] == 0 || b[i] == 1
    requires Count(b, IsOne) > 0
    ensures SumInt(b, Id) > 0
  {
    if |b| > 0 && b[0] != 1 {
      OnesHaveSum(b[1..]);
    } else if |b| > 0 {
      ZeroOneSumNonNegative(b[1..]);
    }
  }

  lemma {:induction false} ZeroOneSumNonNegative(b: seq<int>)
    requires forall i :: 0 <= i < |b| ==> b[i] == 0 || b[i] == 1
    ensures SumInt(b, Id) >= 0
  {
    if |b| > 0 {
      ZeroOneSumNonNegative(b[1..]);
    }
  }

  /** `(rels >= positive_threshold).astype(int)`. */
  function Binarize(rels: seq<nat>, threshold: int): (b: seq<int>)
    ensures |b| == |rels|
    ensures forall i :: 0 <= i < |rels| ==> b[i] == (if rels[i] >= threshold then 1 else 0)
  {
    if |rels| == 0 then [] else [if rels[0] >= threshold then 1 else 0] + Binarize(rels[1..], threshold)
  }

  /** `map_at_k`. */
  function MapAtK(rels: seq<nat>, k: int, threshold: int): (r: real)
    ensures 0.0 <= r <= 1.0
  {
    AveragePrecision(Binarize(rels, threshold), k)
  }

  // ---------------------------------------------------------------------------
  // Grouped evaluation

  /** A scored candidate of the evaluation frame. */
  datatype Scored = Scored(userId: string, sessionId: string, grade: nat, score: real)

  datatype GroupKey = GroupKey(userId: string, sessionId: string)

  function KeyOf(r: Scored): GroupKey { GroupKey(r.userId, r.sessionId) }

  function GradeOf(r: Scored): nat { r.grade }

  /** `sort_values(score_col, ascending=False)`. */
  function HigherScoreFirst(a: Scored, b: Scored): bool { a.score >= b.score }

  function RowsOf(rows: seq<Scored>, key: GroupKey): (g: seq<Scored>)
    ensures forall r :: r in g <==> r in rows && KeyOf(r) == key
  {
    if |rows| == 0 then []
    else (if KeyOf(rows[0]) == key then [rows[0]] else []) + RowsOf(rows[1..], key)
  }

  /** The grades of one group, highest score first. */
  function GroupGrades(rows: seq<Scored>, key: GroupKey): seq<nat>
  {
    MapSeq(Sort(RowsOf(rows, key), HigherScoreFirst), GradeOf)
  }

  function NdcgPerGroup(rows: seq<Scored>, keys: seq<GroupKey>, k: int, disc: nat -> real): (r: seq<real>)
    requires ValidDiscount(disc)
    ensures |r| == |keys|
    ensures forall i :: 0 <= i < |keys| ==> r[i] == Ndcg(GroupGrades(rows, keys[i]), k, disc)
  {
    if |keys| == 0 then []
    else
      var rest := NdcgPerGroup(rows, keys[1..], k, disc);
      assert forall i :: 1 <= i < |keys| ==> keys[i] == keys[1..][i - 1];
      [Ndcg(GroupGrades(rows, keys[0]), k, disc)] + rest
  }

  function MapPerGroup(rows: seq<Scored>, keys: seq<GroupKey>, k: int): (r: seq<real>)
    ensures |r| == |keys|
    ensures forall i :: 0 <= i < |keys| ==> r[i] == MapAtK(GroupGrades(rows, keys[i]), k, 1)
  {
    if |keys| == 0 then []
    else
      var rest := MapPerGroup(rows, keys[1..], k);
      assert forall i :: 1 <= i < |keys| ==> keys[i] == keys[1..][i - 1];
      [MapAtK(GroupGrades(rows, keys[0]), k, 1)] + rest
  }

  datatype Metrics = Metrics(ndcg: real, meanAp: real, numGroups: nat)

  /** `evaluate_ranking`: the mean NDCG@k and MAP@k over (user, session) groups, and
      the number of groups; both means are 0 for an empty frame. */
  function EvaluateRanking(rows: seq<Scored>, k: int, disc: nat -> real): (m: Metrics)
    requires ValidDiscount(disc)
    ensures m.numGroups == |Keys(rows, KeyOf)|
    ensures m.numGroups == 0 <==> rows == []
    ensures 0.0 <= m.ndcg <= 1.0 && 0.0 <= m.meanAp <= 1.0
    ensures rows == [] ==> m.ndcg == 0.0 && m.meanAp == 0.0
    ensures forall r :: r in rows ==> KeyOf(r) in Keys(rows, KeyOf)
    ensures rows != [] ==> m.ndcg == Mean(NdcgPerGroup(rows, Keys(rows, KeyOf), k, disc))
    ensures rows != [] ==> m.meanAp == Mean(MapPerGroup(rows, Keys(rows, KeyOf), k))
  {
    var keys := Keys(rows, KeyOf);
    var ndcgs := NdcgPerGroup(rows, keys, k, disc);
    var maps := MapPerGroup(rows, keys, k);
    MeanBounds(ndcgs, 0.0, 1.0);
    MeanBounds(maps, 0.0, 1.0);
    EveryRowHasAGroup(rows);
    Metrics(Mean(ndcgs), Mean(maps), |keys|)
  }

  /** Every row's key is a group, so there are groups exactly when there are rows. */
  lemma EveryRowHasAGroup(rows: seq<Scored>)
    ensures |Keys(rows, KeyOf)| == 0 <==> rows == []
    ensures forall r :: r in rows ==> KeyOf(r) in Keys(rows, KeyOf)
  {
    assert |rows| > 0 ==> KeyOf(rows[0]) in Keys(rows, KeyOf);
  }
  /** The reported means reach 1 exactly when every group scores 1, and 0 exactly when
      every group scores 0. */
  lemma EvaluationAtBounds(rows: seq<Scored>, k: int, disc: nat -> real)
    requires ValidDiscount(disc) && rows != []
    ensures var m := EvaluateRanking(rows, k, disc);
      && (m.ndcg == 1.0 <==> forall key :: key in Keys(rows, KeyOf) ==> Ndcg(GroupGrades(rows, key), k, disc) == 1.0)
      && (m.ndcg == 0.0 <==> forall key :: key in Keys(rows, KeyOf) ==> Ndcg(GroupGrades(rows, key), k, disc) == 0.0)
      && (m.meanAp == 1.0 <==> forall key :: key in Keys(rows, KeyOf) ==> MapAtK(GroupGrades(rows, key), k, 1) == 1.0)
      && (m.meanAp == 0.0 <==> forall key :: key in Keys(rows, KeyOf) ==> MapAtK(GroupGrades(rows, key), k, 1) == 0.0)
  {
    var keys := Keys(rows, KeyOf);
    assert KeyOf(rows[0]) in keys;
    NdcgMeanAtBounds(rows, keys, k, disc, 1.0);
    NdcgMeanAtBounds(rows, keys, k, disc, 0.0);
    MapMeanAtBounds(rows, keys, k, 1.0);
    MapMeanAtBounds(rows, keys, k, 0.0);
  }

  /** The mean NDCG over some groups is 0 (or 1) exactly when each group's is. */
  lemma NdcgMeanAtBounds(rows: seq<Scored>, keys: seq<GroupKey>, k: int, disc: nat -> real, v: real)
    requires ValidDiscount(disc) && |keys| > 0 && (v == 0.0 || v == 1.0)
    ensures Mean(NdcgPerGroup(rows, keys, k, disc)) == v <==>
      forall key :: key in keys ==> Ndcg(GroupGrades(rows, key), k, disc) == v
  {
    var ndcgs := NdcgPerGroup(rows, keys, k, disc);
    MeanAtBounds(ndcgs, 0.0, 1.0);
    assert (forall i :: 0 <= i < |ndcgs| ==> ndcgs[i] == v) <==>
      forall key :: key in keys ==> Ndcg(GroupGrades(rows, key), k, disc) == v by {
      forall key | key in keys ensures exists i :: 0 <= i < |keys| && keys[i] == key {
      }
    }
  }

  /** The mean average precision over some groups is 0 (or 1) exactly when each group's is. */
  lemma MapMeanAtBounds(rows: seq<Scored>, keys: seq<GroupKey>, k: int, v: real)
    requires |keys| > 0 && (v == 0.0 || v == 1.0)
    ensures Mean(MapPerGroup(rows, keys, k)) == v <==>
      forall key :: key in keys ==> MapAtK(GroupGrades(rows, key), k, 1) == v
  {
    var maps := MapPerGroup(rows, keys, k);
    MeanAtBounds(maps, 0.0, 1.0);
    assert (forall i :: 0 <= i < |maps| ==> maps[i] == v) <==>
      forall key :: key in keys ==> MapAtK(GroupGrades(rows, key), k, 1) == v by {
      forall key | key in keys ensures exists i :: 0 <= i < |keys| && keys[i] == key {
      }
    }
  }

  /** A ranking that puts every group in ideal grade order, each group having some gain
      inside the cut-off, scores NDCG 1. */
  lemma IdealRankingScoresOne(rows: seq<Scored>, k: int, disc: nat -> real)
    requires ValidDiscount(disc) && rows != []
    requires forall key :: key in Keys(rows, KeyOf) ==>
      && (forall i, j :: 0 <= i < j < |GroupGrades(rows, key)| ==> GroupGrades(rows, key)[i] >= GroupGrades(rows, key)[j])
      && Dcg(GroupGrades(rows, key), k, disc) != 0.0
    ensures EvaluateRanking(rows, k, disc).ndcg == 1.0
  {
    forall key | key in Keys(rows, KeyOf) ensures Ndcg(GroupGrades(rows, key), k, disc) == 1.0 {
      IdealOrderScoresOne(GroupGrades(rows, key), k, disc);
    }
    EvaluationAtBounds(rows, k, disc);
  }

}
