/** Train / validation / test splits of an interaction log: chronological by
    timestamp, or by a seeded shuffle of the row positions. The fractions are exact
    reals here; the cut points are `int(n * frac)`, truncated toward zero. */
module Splits {
  import opened Wrappers
  import opened Errors
  import opened Seqs
  import opened Sorting
  import opened PyOps

  datatype Fractions = Fractions(train: real, val: real, test: real)

  datatype Split<T> = Split(train: seq<T>, val: seq<T>, test: seq<T>)

  /** The guard `abs(train + val + test - 1.0) > 1e-6` does not fire. */
  predicate SumsToOne(f: Fractions)
  {
    var d := f.train + f.val + f.test - 1.0;
    -0.000001 <= d <= 0.000001
  }

  predicate NonNegative(f: Fractions)
  {
    f.train >= 0.0 && f.val >= 0.0 && f.test >= 0.0
  }

  /** `int(n * frac)`. */
  function CutSize(n: nat, frac: real): (k: int)
    ensures frac >= 0.0 ==> 0 <= k && k as real <= n as real * frac
  {
    Trunc(n as real * frac)
  }

  /** `s[:a]`, `s[a:a+b]`, `s[a+b:]`. */
  function Cut<T>(s: seq<T>, a: int, b: int): Split<T>
  {
    Split(Prefix(s, a), Slice(s, a, a + b), Suffix(s, a + b))
  }

  /** With non-negative sizes the three parts are consecutive pieces of `s`. */
  lemma CutPartitions<T>(s: seq<T>, a: int, b: int)
    requires 0 <= a && 0 <= b
    ensures Cut(s, a, b).train + Cut(s, a, b).val + Cut(s, a, b).test == s
  {
    ThreeWayCut(s, a, a + b);
  }

  function CutOf<T>(s: seq<T>, f: Fractions): Split<T>
  {
    Cut(s, CutSize(|s|, f.train), CutSize(|s|, f.val))
  }

  /** The order of `sort_values("timestamp")`. */
  function EarlierFirst<T>(ts: T -> int): (T, T) -> bool
  {
    (a: T, b: T) => ts(a) <= ts(b)
  }

  lemma EarlierFirstIsTotalPreorder<T(!new)>(ts: T -> int)
    ensures TotalPreorder(EarlierFirst(ts))
  {
  }

  function Chronological<T>(rows: seq<T>, ts: T -> int): seq<T>
  {
    Sort(rows, EarlierFirst(ts))
  }

  /** `time_split` as written: any fractions summing to 1 within 1e-6 are accepted. */
  function TimeSplit<T(!new)>(rows: seq<T>, ts: T -> int, f: Fractions): (r: Result<Split<T>, Error>)
    ensures r.Failure? <==> !SumsToOne(f)
    ensures r.Failure? ==> r.error == FractionsDoNotSumToOne
    ensures r.Success? ==> forall x :: x in r.value.train + r.value.val + r.value.test ==> x in rows
    ensures r.Success? && NonNegative(f) ==>
      && multiset(r.value.train + r.value.val + r.value.test) == multiset(rows)
      && SortedBy(r.value.train + r.value.val + r.value.test, EarlierFirst(ts))
  {
    if !SumsToOne(f) then Failure(FractionsDoNotSumToOne)
    else
      var sorted := Chronological(rows, ts);
      var parts := CutOf(sorted, f);
      SortKeepsMembers(rows, EarlierFirst(ts));
      assert forall x :: x in parts.train + parts.val + parts.test ==> x in sorted;
      if NonNegative(f) then
        CutPartitions(sorted, CutSize(|sorted|, f.train), CutSize(|sorted|, f.val));
        EarlierFirstIsTotalPreorder(ts);
        SortIsSorted(rows, EarlierFirst(ts));
        Success(parts)
      else Success(parts)
  }

  /** No leakage from the future: with non-negative fractions every training row is
      no later than every validation row, which is no later than every test row. */
  lemma TimeSplitIsChronological<T(!new)>(rows: seq<T>, ts: T -> int, f: Fractions)
    requires TimeSplit(rows, ts, f).Success? && NonNegative(f)
    ensures var p := TimeSplit(rows, ts, f).value;
      && (forall a, b :: a in p.train && b in p.val ==> ts(a) <= ts(b))
      && (forall a, b :: a in p.val && b in p.test ==> ts(a) <= ts(b))
      && (forall a, b :: a in p.train && b in p.test ==> ts(a) <= ts(b))
  {
    var p := TimeSplit(rows, ts, f).value;
    var all := p.train + p.val + p.test;
    var a, b := |p.train|, |p.train| + |p.val|;
    assert p.train == all[..a] && p.val == all[a..b] && p.test == all[b..];
    SortedSegmentsOrdered(all, 0, a, a, b, ts);
    SortedSegmentsOrdered(all, a, b, b, |all|, ts);
    SortedSegmentsOrdered(all, 0, a, b, |all|, ts);
  }

  /** In a chronologically sorted sequence, a segment lying wholly before another holds
      no later row. */
  lemma SortedSegmentsOrdered<T>(all: seq<T>, lo1: nat, hi1: nat, lo2: nat, hi2: nat, ts: T -> int)
    requires SortedBy(all, EarlierFirst(ts))
    requires lo1 <= hi1 <= lo2 <= hi2 <= |all|
    ensures forall x, y :: x in all[lo1..hi1] && y in all[lo2..hi2] ==> ts(x) <= ts(y)
  {
    forall x, y | x in all[lo1..hi1] && y in all[lo2..hi2] ensures ts(x) <= ts(y) {
      var i :| lo1 <= i < hi1 && all[i] == x;
      var j :| lo2 <= j < hi2 && all[j] == y;
      assert EarlierFirst(ts)(all[i], all[j]);
    }
  }

  lemma CutTrainSize<T>(s: seq<T>, f: Fractions)
    requires 0.0 <= f.train <= 1.0
    ensures |CutOf(s, f).train| == CutSize(|s|, f.train)
  {
    var n := |s| as real;
    var k := CutSize(|s|, f.train);
    assert n * f.train <= n * 1.0;
    assert n * 1.0 == n;
    assert k as real <= n * f.train;
    assert k as real <= n;
    assert 0 <= k <= |s|;
    assert CutOf(s, f).train == Prefix(s, k);
  }

  /** With a training fraction in [0, 1] the training part holds exactly
      `int(n * train_frac)` rows. */
  lemma TimeSplitTrainSize<T(!new)>(rows: seq<T>, ts: T -> int, f: Fractions)
    requires TimeSplit(rows, ts, f).Success?
    requires 0.0 <= f.train <= 1.0
    ensures |TimeSplit(rows, ts, f).value.train| == CutSize(|rows|, f.train)
  {
    var sorted := Chronological(rows, ts);
    assert TimeSplit(rows, ts, f).value == CutOf(sorted, f);
    CutTrainSize(sorted, f);
  }

  lemma CutValSize<T>(s: seq<T>, f: Fractions)
    requires 0.0 <= f.train && 0.0 <= f.val && f.train + f.val <= 1.0
    ensures |CutOf(s, f).val| == CutSize(|s|, f.val)
  {
    var n := |s| as real;
    var a, b := CutSize(|s|, f.train), CutSize(|s|, f.val);
    TwoCutsFit(n, f.train, f.val, a as real, b as real);
    assert 0 <= a <= a + b <= |s|;
    assert CutOf(s, f).val == s[a..a + b];
  }

  /** Two truncated shares of `n` whose fractions add up to at most 1 fit in `n`. */
  lemma TwoCutsFit(n: real, x: real, y: real, a: real, b: real)
    requires 0.0 <= n && 0.0 <= x && 0.0 <= y && x + y <= 1.0
    requires a <= n * x && b <= n * y
    ensures a + b <= n
  {
    assert n * x + n * y == n * (x + y);
    ScaleAtMostSelf(n, x + y);
  }

  lemma ScaleAtMostSelf(x: real, t: real)
    requires 0.0 <= x && t <= 1.0
    ensures x * t <= x
  {
    assert x - x * t == x * (1.0 - t);
  }

  /** With training and validation fractions that are non-negative and leave room for
      each other, the validation part holds exactly `int(n * val_frac)` rows. */
  lemma TimeSplitValSize<T(!new)>(rows: seq<T>, ts: T -> int, f: Fractions)
    requires TimeSplit(rows, ts, f).Success?
    requires 0.0 <= f.train && 0.0 <= f.val && f.train + f.val <= 1.0
    ensures |TimeSplit(rows, ts, f).value.val| == CutSize(|rows|, f.val)
  {
    var sorted := Chronological(rows, ts);
    assert TimeSplit(rows, ts, f).value == CutOf(sorted, f);
    CutValSize(sorted, f);
  }

  /** On any two-row log the accepted fractions (-0.5, 0.5, 1.0) make the three parts
      hold three rows out of two: the earlier row lands in both training and test. */
  lemma NegativeFractionDuplicatesRows<T(!new)>(rows: seq<T>, ts: T -> int)
    requires |rows| == 2
    ensures var r := TimeSplit(rows, ts, Fractions(-0.5, 0.5, 1.0));
      && r.Success?
      && |r.value.train| + |r.value.val| + |r.value.test| == 3
      && |r.value.train| == 1
      && r.value.train[0] in r.value.test
  {
    var sorted := Chronological(rows, ts);
    assert CutSize(2, -0.5) == -1;
    assert CutSize(2, 0.5) == 1;
    var p := CutOf(sorted, Fractions(-0.5, 0.5, 1.0));
    assert p.train == sorted[..1];
    assert p.val == [];
    assert p.test == sorted;
  }

  /** `time_split` with the range check the guard evidently intends: a negative
      fraction is refused as well. Every accepted call partitions the log. */
  function TimeSplitChecked<T(!new)>(rows: seq<T>, ts: T -> int, f: Fractions): (r: Result<Split<T>, Error>)
    ensures r.Failure? <==> !SumsToOne(f) || !NonNegative(f)
    ensures r.Success? ==> r == TimeSplit(rows, ts, f)
    ensures r.Success? ==>
      && multiset(r.value.train + r.value.val + r.value.test) == multiset(rows)
      && SortedBy(r.value.train + r.value.val + r.value.test, EarlierFirst(ts))
  {
    if !SumsToOne(f) then Failure(FractionsDoNotSumToOne)
    else if !NonNegative(f) then Failure(NegativeFraction)
    else TimeSplit(rows, ts, f)
  }

  // ---------------------------------------------------------------------------
  // Random split

  /** `idx` after `rng.shuffle`: each position 0 .. n-1 exactly once. */
  predicate IsPermutation(idx: seq<nat>, n: nat)
  {
    && |idx| == n
    && NoDups(idx)
    && (forall i :: 0 <= i < |idx| ==> idx[i] < n)
    && (forall k: nat :: k < n ==> k in idx)
  }

  /** The parts of a duplicate-free sequence share no element. */
  lemma NoDupsConcatDisjoint(x: seq<nat>, y: seq<nat>)
    requires NoDups(x + y)
    ensures forall v :: v in x ==> v !in y
  {
    forall v | v in x ensures v !in y {
      var i :| 0 <= i < |x| && x[i] == v;
      forall j | 0 <= j < |y| ensures y[j] != v {
        assert (x + y)[i] != (x + y)[|x| + j];
      }
    }
  }

  /** The positions each part takes: `idx[:n_train]`, `idx[n_train:n_train+n_val]`,
      `idx[n_train+n_val:]`. Only positions of `idx` are taken; with non-negative
      fractions the three parts read in order are `idx` itself, and the first two parts
      have the truncated sizes. */
  function RandomSplitPositions(idx: seq<nat>, f: Fractions): (r: Result<Split<nat>, Error>)
    ensures r.Failure? <==> !SumsToOne(f)
    ensures r.Failure? ==> r.error == FractionsDoNotSumToOne
    ensures r.Success? ==> forall x :: x in r.value.train + r.value.val + r.value.test ==> x in idx
    ensures r.Success? && NonNegative(f) ==> r.value.train + r.value.val + r.value.test == idx
    ensures r.Success? && 0.0 <= f.train <= 1.0 ==> |r.value.train| == CutSize(|idx|, f.train)
    ensures r.Success? && 0.0 <= f.train && 0.0 <= f.val && f.train + f.val <= 1.0 ==>
      |r.value.val| == CutSize(|idx|, f.val)
  {
    if !SumsToOne(f) then Failure(FractionsDoNotSumToOne)
    else
      var p := CutOf(idx, f);
      assert NonNegative(f) ==> p.train + p.val + p.test == idx by {
        if NonNegative(f) {
          CutPartitions(idx, CutSize(|idx|, f.train), CutSize(|idx|, f.val));
        }
      }
      assert 0.0 <= f.train <= 1.0 ==> |p.train| == CutSize(|idx|, f.train) by {
        if 0.0 <= f.train <= 1.0 {
          CutTrainSize(idx, f);
        }
      }
      assert 0.0 <= f.train && 0.0 <= f.val && f.train + f.val <= 1.0 ==> |p.val| == CutSize(|idx|, f.val) by {
        if 0.0 <= f.train && 0.0 <= f.val && f.train + f.val <= 1.0 {
          CutValSize(idx, f);
        }
      }
      Success(p)
  }

  /** `random_split`: `idx` is the shuffled position array the seeded generator
      produces, passed in since the generator is not modelled. Every row of the parts is
      a row of the log; with non-negative fractions the parts, read in order, are the
      rows in shuffled order, so together they are a rearrangement of the log. */
  function RandomSplit<T>(rows: seq<T>, idx: seq<nat>, f: Fractions): (r: Result<Split<T>, Error>)
    requires IsPermutation(idx, |rows|)
    ensures r.Failure? <==> !SumsToOne(f)
    ensures r.Success? ==> forall x :: x in r.value.train + r.value.val + r.value.test ==> x in rows
    ensures r.Success? && NonNegative(f) ==>
      && |r.value.train + r.value.val + r.value.test| == |rows|
      && (forall i :: 0 <= i < |rows| ==> (r.value.train + r.value.val + r.value.test)[i] == rows[idx[i]])
      && multiset(r.value.train + r.value.val + r.value.test) == multiset(rows)
    ensures r.Success? && 0.0 <= f.train <= 1.0 ==> |r.value.train| == CutSize(|rows|, f.train)
    ensures r.Success? && 0.0 <= f.train && 0.0 <= f.val && f.train + f.val <= 1.0 ==>
      |r.value.val| == CutSize(|rows|, f.val)
  {
    var p :- RandomSplitPositions(idx, f);
    ShuffledParts(rows, idx, f, p);
    Success(Split(RowsAt(rows, p.train), RowsAt(rows, p.val), RowsAt(rows, p.test)))
  }

  /** Every entry of `idx` is a position of a sequence of length `n`. */
  predicate PositionsBelow(idx: seq<nat>, n: nat)
  {
    forall i :: 0 <= i < |idx| ==> idx[i] < n
  }

  /** The facts `RandomSplit` passes on, for the positions its cut takes. */
  lemma ShuffledParts<T>(rows: seq<T>, idx: seq<nat>, f: Fractions, p: Split<nat>)
    requires IsPermutation(idx, |rows|)
    requires RandomSplitPositions(idx, f) == Success(p)
    ensures PositionsBelow(p.train, |rows|) && PositionsBelow(p.val, |rows|) && PositionsBelow(p.test, |rows|)
    ensures forall x :: x in RowsAt(rows, p.train) + RowsAt(rows, p.val) + RowsAt(rows, p.test) ==> x in rows
    ensures NonNegative(f) ==>
      var all := RowsAt(rows, p.train) + RowsAt(rows, p.val) + RowsAt(rows, p.test);
      && |all| == |rows|
      && (forall i :: 0 <= i < |rows| ==> all[i] == rows[idx[i]])
      && multiset(all) == multiset(rows)
  {
    var cat := p.train + p.val + p.test;
    PositionsOfPermutation(idx, cat);
    PartsOfPositions(rows, p.train, p.val, p.test);
    RowsAtMembers(rows, cat);
    if NonNegative(f) {
      PermutedRowsSameMultiset(rows, idx);
    }
  }

  /** Positions taken from a permutation of `0 .. n-1` are below `n`. */
  lemma PositionsOfPermutation(idx: seq<nat>, cat: seq<nat>)
    requires forall x :: x in cat ==> x in idx
    requires forall i :: 0 <= i < |idx| ==> idx[i] < |idx|
    ensures PositionsBelow(cat, |idx|)
  {
    forall i | 0 <= i < |cat| ensures cat[i] < |idx| {
      assert cat[i] in idx;
    }
  }

  /** Every row picked by position is a row of the sequence. */
  lemma RowsAtMembers<T>(rows: seq<T>, cat: seq<nat>)
    requires PositionsBelow(cat, |rows|)
    ensures forall x :: x in RowsAt(rows, cat) ==> x in rows
  {
    forall x | x in RowsAt(rows, cat) ensures x in rows {
      var i :| 0 <= i < |cat| && RowsAt(rows, cat)[i] == x;
      assert x == rows[cat[i]];
    }
  }

  /** Picking rows part by part is picking them at the concatenated positions. */
  lemma PartsOfPositions<T>(rows: seq<T>, a: seq<nat>, b: seq<nat>, c: seq<nat>)
    requires PositionsBelow(a + b + c, |rows|)
    ensures PositionsBelow(a, |rows|) && PositionsBelow(b, |rows|) && PositionsBelow(c, |rows|)
    ensures RowsAt(rows, a) + RowsAt(rows, b) + RowsAt(rows, c) == RowsAt(rows, a + b + c)
  {
    var cat := a + b + c;
    assert forall i :: 0 <= i < |a| ==> a[i] == cat[i];
    assert forall i :: 0 <= i < |b| ==> b[i] == cat[|a| + i];
    assert forall i :: 0 <= i < |c| ==> c[i] == cat[|a| + |b| + i];
    RowsAtConcat(rows, a, b);
    RowsAtConcat(rows, a + b, c);
  }

  lemma RowsAtConcat<T>(rows: seq<T>, a: seq<nat>, b: seq<nat>)
    requires PositionsBelow(a, |rows|) && PositionsBelow(b, |rows|)
    ensures PositionsBelow(a + b, |rows|)
    ensures RowsAt(rows, a + b) == RowsAt(rows, a) + RowsAt(rows, b)
  {
    assert forall i :: |a| <= i < |a + b| ==> (a + b)[i] == b[i - |a|];
  }

  /** Reading the rows at a permutation of their positions rearranges them. */
  lemma {:induction false} PermutedRowsSameMultiset<T>(rows: seq<T>, idx: seq<nat>)
    requires IsPermutation(idx, |rows|)
    ensures multiset(RowsAt(rows, idx)) == multiset(rows)
    decreases |rows|
  {
    if |rows| > 0 {
      var m := |rows| - 1;
      assert m in idx;
      var p :| 0 <= p < |idx| && idx[p] == m;
      RemoveLastPosition(idx, p, m);
      PermutedRowsSameMultiset(rows[..m], idx[..p] + idx[p + 1..]);
      PermutedRowsStep(rows, idx, p);
    }
  }

  /** The step of `PermutedRowsSameMultiset`: the largest position contributes the last
      row, and the others pick their rows from the rows before it. */
  lemma PermutedRowsStep<T>(rows: seq<T>, idx: seq<nat>, p: nat)
    requires |rows| > 0 && p < |idx| && idx[p] == |rows| - 1
    requires PositionsBelow(idx[..p], |rows| - 1) && PositionsBelow(idx[p + 1..], |rows| - 1)
    requires multiset(RowsAt(rows[..|rows| - 1], idx[..p] + idx[p + 1..])) == multiset(rows[..|rows| - 1])
    ensures PositionsBelow(idx, |rows|)
    ensures multiset(RowsAt(rows, idx)) == multiset(rows)
  {
    var m := |rows| - 1;
    var before, after, init := idx[..p], idx[p + 1..], rows[..m];
    assert idx == before + [m] + after;
    RowsAtAroundLast(rows, before, after);
    RowsAtConcat(init, before, after);
    MultisetWithOneMore(RowsAt(init, before), RowsAt(init, after), rows[m], init);
    assert rows == init + [rows[m]];
  }

  /** Picking the last row between two runs of earlier positions. */
  lemma RowsAtAroundLast<T>(rows: seq<T>, before: seq<nat>, after: seq<nat>)
    requires |rows| > 0
    requires PositionsBelow(before, |rows| - 1) && PositionsBelow(after, |rows| - 1)
    ensures PositionsBelow(before + [|rows| - 1] + after, |rows|)
    ensures RowsAt(rows, before + [|rows| - 1] + after)
         == RowsAt(rows[..|rows| - 1], before) + [rows[|rows| - 1]] + RowsAt(rows[..|rows| - 1], after)
  {
    var m := |rows| - 1;
    var cat := before + [m] + after;
    var k := |before|;
    assert forall i :: 0 <= i < k ==> cat[i] == before[i];
    assert cat[k] == m;
    assert forall i :: k < i < |cat| ==> cat[i] == after[i - k - 1];
    var lhs := RowsAt(rows, cat);
    var rhs := RowsAt(rows[..m], before) + [rows[m]] + RowsAt(rows[..m], after);
    forall i | 0 <= i < |lhs| ensures lhs[i] == rhs[i] {
      if i < k {
        assert rhs[i] == RowsAt(rows[..m], before)[i];
      } else if k < i {
        assert rhs[i] == RowsAt(rows[..m], after)[i - k - 1];
      }
    }
  }

  lemma MultisetWithOneMore<T>(x: seq<T>, z: seq<T>, v: T, init: seq<T>)
    requires multiset(x + z) == multiset(init)
    ensures multiset(x + [v] + z) == multiset(init + [v])
  {
    assert multiset(x + [v] + z) == multiset(x) + multiset([v]) + multiset(z);
    assert multiset(x + z) == multiset(x) + multiset(z);
  }

  /** Taking the largest position out of a permutation of `0 .. m` leaves a permutation
      of `0 .. m-1`. */
  lemma RemoveLastPosition(idx: seq<nat>, p: nat, m: nat)
    requires IsPermutation(idx, m + 1) && p < |idx| && idx[p] == m
    ensures PositionsBelow(idx[..p], m) && PositionsBelow(idx[p + 1..], m)
    ensures IsPermutation(idx[..p] + idx[p + 1..], m)
  {
    var rest := idx[..p] + idx[p + 1..];
    assert forall i :: 0 <= i < |rest| ==> rest[i] == (if i < p then idx[i] else idx[i + 1]);
    forall i, j | 0 <= i < j < |rest| ensures rest[i] != rest[j] {
      var i', j' := if i < p then i else i + 1, if j < p then j else j + 1;
      assert rest[i] == idx[i'] && rest[j] == idx[j'];
    }
    forall i | 0 <= i < |rest| ensures rest[i] < m {
      var i' := if i < p then i else i + 1;
      assert i' != p && idx[i'] != idx[p];
    }
    forall k: nat | k < m ensures k in rest {
      assert k in idx;
      var i :| 0 <= i < |idx| && idx[i] == k;
      assert i != p;
      assert rest[if i < p then i else i - 1] == k;
    }
  }

  /** With non-negative fractions every row position lands in exactly one part. */
  lemma RandomSplitPartitions(idx: seq<nat>, n: nat, f: Fractions, k: nat)
    requires IsPermutation(idx, n) && k < n
    requires SumsToOne(f) && NonNegative(f)
    ensures var p := RandomSplitPositions(idx, f).value;
      && (k in p.train || k in p.val || k in p.test)
      && !(k in p.train && k in p.val)
      && !(k in p.val && k in p.test)
      && !(k in p.train && k in p.test)
  {
    var p := RandomSplitPositions(idx, f).value;
    CutPartitions(idx, CutSize(n, f.train), CutSize(n, f.val));
    assert k in p.train + p.val + p.test;
    ThreePartsDisjoint(p.train, p.val, p.test);
  }

  /** The three parts of a duplicate-free sequence are pairwise disjoint. */
  lemma ThreePartsDisjoint(x: seq<nat>, y: seq<nat>, z: seq<nat>)
    requires NoDups(x + y + z)
    ensures forall v :: v in x ==> v !in y && v !in z
    ensures forall v :: v in y ==> v !in z
  {
    ConcatAssociative(x, y, z);
    NoDupsConcatDisjoint(x, y + z);
    assert NoDups(y + z) by {
      forall i, j | 0 <= i < j < |y + z| ensures (y + z)[i] != (y + z)[j] {
        assert (y + z)[i] == (x + (y + z))[|x| + i];
        assert (y + z)[j] == (x + (y + z))[|x| + j];
      }
    }
    NoDupsConcatDisjoint(y, z);
  }
}
