/** The ranking dataset builder: a popularity table over items, rejection sampling of
    negatives that avoid a user's history, and the expansion of every positive event
    into one positive row followed by its sampled negative rows.

    The random generator is an explicit stream of draws. A draw `d` picks element
    `d % |pool|` of the pool being sampled; which element numpy would pick (uniformly,
    or weighted by popularity) is not modelled. The source loops until enough negatives
    are found; when the stream runs out first the model reports `RandomStreamExhausted`,
    which stands for the source's loop not having finished yet. */
module NegativeSampling {
  import opened Wrappers
  import opened Errors
  import opened Seqs
  import opened Sorting
  import opened Frames
  import opened Interactions

  // ---------------------------------------------------------------------------
  // Popularity table

  datatype PopEntry = PopEntry(itemId: string, weight: real)

  /** The popularity Series. When the label total is 0 pandas divides by zero and
      every weight is NaN or infinite: `Undefined` keeps only the item index. */
  datatype Popularity = Weights(entries: seq<PopEntry>) | Undefined(items: seq<string>)

  function ItemOf(e: Event): string { e.itemId }
  function LabelOf(e: Event): int { e.grade }
  function WeightOf(p: PopEntry): real { p.weight }
  function ItemOfEntry(p: PopEntry): string { p.itemId }

  /** The order of `sort_values(ascending=False)`: heavier first. */
  function HeavierFirst(a: PopEntry, b: PopEntry): bool { a.weight >= b.weight }

  /** An item's share of the total label mass. */
  function Share(events: seq<Event>, item: string, total: int): real
    requires total != 0
  {
    MassOf(events, ItemOf, LabelOf, item) as real / total as real
  }

  function ShareEntries(items: seq<string>, events: seq<Event>, total: int): (r: seq<PopEntry>)
    requires total != 0
    ensures |r| == |items|
    ensures forall i :: 0 <= i < |items| ==> r[i] == PopEntry(items[i], Share(events, items[i], total))
  {
    if |items| == 0 then []
    else [PopEntry(items[0], Share(events, items[0], total))] + ShareEntries(items[1..], events, total)
  }

  /** The share entries of every item with events, heaviest first. */
  function SortedShares(events: seq<Event>, total: int): (r: seq<PopEntry>)
    requires total != 0
    ensures SortedBy(r, HeavierFirst)
    ensures forall p :: p in r ==> p.itemId in Keys(events, ItemOf) && p.weight == Share(events, p.itemId, total)
    ensures forall k :: k in Keys(events, ItemOf) ==> exists p :: p in r && p.itemId == k
    ensures NoDups(MapSeq(r, ItemOfEntry))
  {
    var unsorted := ShareEntries(Keys(events, ItemOf), events, total);
    SharesSorted(events, total);
    SharesMembers(events, total);
    Sort(unsorted, HeavierFirst)
  }

  lemma SharesSorted(events: seq<Event>, total: int)
    requires total != 0
    ensures var sorted := Sort(ShareEntries(Keys(events, ItemOf), events, total), HeavierFirst);
      SortedBy(sorted, HeavierFirst) && NoDups(MapSeq(sorted, ItemOfEntry))
  {
    var items := Keys(events, ItemOf);
    var unsorted := ShareEntries(items, events, total);
    assert TotalPreorder(HeavierFirst);
    SortIsSorted(unsorted, HeavierFirst);
    PermutationKeepsNoDups(unsorted, Sort(unsorted, HeavierFirst), items);
  }

  lemma SharesMembers(events: seq<Event>, total: int)
    requires total != 0
    ensures var sorted := Sort(ShareEntries(Keys(events, ItemOf), events, total), HeavierFirst);
      && (forall p :: p in sorted ==> p.itemId in Keys(events, ItemOf) && p.weight == Share(events, p.itemId, total))
      && (forall k :: k in Keys(events, ItemOf) ==> exists p :: p in sorted && p.itemId == k)
  {
    var items := Keys(events, ItemOf);
    var unsorted := ShareEntries(items, events, total);
    var sorted := Sort(unsorted, HeavierFirst);
    SortKeepsMembers(unsorted, HeavierFirst);
    forall p | p in sorted ensures p.itemId in items && p.weight == Share(events, p.itemId, total) {
      assert p in unsorted;
      var j :| 0 <= j < |unsorted| && unsorted[j] == p;
      assert items[j] in items;
    }
    forall k | k in items ensures exists p :: p in sorted && p.itemId == k {
      var j :| 0 <= j < |items| && items[j] == k;
      assert unsorted[j] in unsorted;
      assert unsorted[j] in sorted;
    }
  }

  /** `build_item_popularity`: for each item that has events, the sum of its RAW label
      column divided by the grand total, heaviest first, one entry per item. (The
      clipped copy the source computes is never used: the groupby selects the column
      by its name, "label".) With a zero total the weights are undefined. */
  function BuildItemPopularity(events: seq<Event>): (r: Popularity)
    ensures r.Weights? <==> SumInt(events, LabelOf) != 0
    ensures r.Undefined? ==> r.items == Keys(events, ItemOf)
    ensures r.Weights? ==> SortedBy(r.entries, HeavierFirst)
    ensures r.Weights? ==> NoDups(MapSeq(r.entries, ItemOfEntry))
    ensures r.Weights? ==> forall p :: p in r.entries ==>
      && (exists i :: 0 <= i < |events| && events[i].itemId == p.itemId)
      && p.weight == Share(events, p.itemId, SumInt(events, LabelOf))
    ensures r.Weights? ==> forall i :: 0 <= i < |events| ==>
      exists p :: p in r.entries && p.itemId == events[i].itemId
  {
    var total := SumInt(events, LabelOf);
    if total == 0 then Undefined(Keys(events, ItemOf))
    else
      var sorted := SortedShares(events, total);
      assert forall i :: 0 <= i < |events| ==> ItemOf(events[i]) in Keys(events, ItemOf);
      Weights(sorted)
  }

  lemma PermutationKeepsNoDups(unsorted: seq<PopEntry>, sorted: seq<PopEntry>, items: seq<string>)
    requires multiset(sorted) == multiset(unsorted)
    requires |unsorted| == |items|
    requires forall i :: 0 <= i < |items| ==> unsorted[i].itemId == items[i]
    requires NoDups(items)
    ensures NoDups(MapSeq(sorted, ItemOfEntry))
  {
    var ids := MapSeq(sorted, ItemOfEntry);
    forall i, j | 0 <= i < j < |ids|
      ensures ids[i] != ids[j]
    {
      assert sorted[i] in multiset(unsorted);
      assert sorted[j] in multiset(unsorted);
      var a :| 0 <= a < |unsorted| && unsorted[a] == sorted[i];
      var b :| 0 <= b < |unsorted| && unsorted[b] == sorted[j];
      if a == b {
        // the same entry twice in `sorted` would need it twice in `unsorted`
        assert multiset(sorted)[sorted[i]] >= 2 by {
          assert sorted[i] == sorted[j];
          assert multiset(sorted[..j]) + multiset(sorted[j..]) == multiset(sorted) by {
            assert sorted[..j] + sorted[j..] == sorted;
          }
          assert sorted[i] in sorted[..j];
          assert sorted[j] in sorted[j..];
        }
        MultiplicityAtMostOne(unsorted, items, unsorted[a]);
      }
    }
  }

  lemma {:induction false} MultiplicityAtMostOne(unsorted: seq<PopEntry>, items: seq<string>, p: PopEntry)
    requires |unsorted| == |items|
    requires forall i :: 0 <= i < |items| ==> unsorted[i].itemId == items[i]
    requires NoDups(items)
    ensures multiset(unsorted)[p] <= 1
  {
    if |unsorted| > 0 {
      assert unsorted == [unsorted[0]] + unsorted[1..];
      MultiplicityAtMostOne(unsorted[1..], items[1..], p);
      if unsorted[0] == p {
        forall j | 0 <= j < |unsorted[1..]|
          ensures unsorted[1..][j] != p
        {
          assert items[j + 1] != items[0];
        }
        assert p !in unsorted[1..];
      }
    }
  }

  lemma {:induction false} ShareEntriesSum(items: seq<string>, events: seq<Event>, total: int)
    requires total != 0
    ensures SumReal(ShareEntries(items, events, total), WeightOf)
         == SumMass(items, events, ItemOf, LabelOf) as real / total as real
  {
    if |items| > 0 {
      ShareEntriesSum(items[1..], events, total);
      var es := ShareEntries(items, events, total);
      assert es[1..] == ShareEntries(items[1..], events, total);
      var m0 := MassOf(events, ItemOf, LabelOf, items[0]);
      var rest := SumMass(items[1..], events, ItemOf, LabelOf);
      assert SumReal(es, WeightOf) == m0 as real / total as real + rest as real / total as real;
      DivideSum(m0 as real, rest as real, total as real);
      assert SumMass(items, events, ItemOf, LabelOf) == m0 + rest;
    }
  }

  /** The weights of a defined popularity table sum to 1. */
  lemma PopularitySumsToOne(events: seq<Event>)
    requires SumInt(events, LabelOf) != 0
    ensures BuildItemPopularity(events).Weights?
    ensures SumReal(BuildItemPopularity(events).entries, WeightOf) == 1.0
  {
    var items := Keys(events, ItemOf);
    var total := SumInt(events, LabelOf);
    var unsorted := ShareEntries(items, events, total);
    var sorted := SortedShares(events, total);
    assert sorted == Sort(unsorted, HeavierFirst);
    assert BuildItemPopularity(events).entries == sorted;
    SortPreservesSum(unsorted, HeavierFirst, WeightOf);
    ShareEntriesSum(items, events, total);
    GroupMassesSumToTotal(events, ItemOf, LabelOf);
    var t := total as real;
    assert SumReal(sorted, WeightOf) == t / t;
    SelfDivide(t);
  }

  lemma {:induction false} MassBounds(events: seq<Event>, item: string)
    requires forall i :: 0 <= i < |events| ==> events[i].grade >= 0
    ensures 0 <= MassOf(events, ItemOf, LabelOf, item) <= SumInt(events, LabelOf)
  {
    if |events| > 0 {
      MassBounds(events[1..], item);
    }
  }

  /** With non-negative labels every defined weight is a probability in [0, 1]. */
  lemma PopularityWeightsAreProbabilities(events: seq<Event>)
    requires forall i :: 0 <= i < |events| ==> events[i].grade >= 0
    requires BuildItemPopularity(events).Weights?
    ensures forall p :: p in BuildItemPopularity(events).entries ==> 0.0 <= p.weight <= 1.0
  {
    var total := SumInt(events, LabelOf);
    forall p | p in BuildItemPopularity(events).entries
      ensures 0.0 <= p.weight <= 1.0
    {
      MassBounds(events, p.itemId);
      ShareIsProbability(MassOf(events, ItemOf, LabelOf, p.itemId), total);
    }
  }

  // ---------------------------------------------------------------------------
  // Rejection sampling

  /** The item each draw picks from the pool. */
  function Pick<T>(pool: seq<T>, d: nat): T
    requires |pool| > 0
  {
    pool[d % |pool|]
  }

  /** The picks of the draws `ds` that are not in `history`, in draw order. */
  function AcceptedPicks<T>(pool: seq<T>, history: set<T>, ds: seq<nat>): (r: seq<T>)
    requires |pool| > 0
    ensures forall x :: x in r ==> x in pool && x !in history
  {
    if |ds| == 0 then []
    else (if Pick(pool, ds[0]) !in history then [Pick(pool, ds[0])] else []) + AcceptedPicks(pool, history, ds[1..])
  }

  lemma AcceptedPicksCons<T>(pool: seq<T>, history: set<T>, draws: seq<nat>, m: nat)
    requires |pool| > 0
    requires 1 <= m <= |draws|
    ensures AcceptedPicks(pool, history, draws[..m])
         == (if Pick(pool, draws[0]) !in history then [Pick(pool, draws[0])] else [])
            + AcceptedPicks(pool, history, draws[1..][..m - 1])
  {
    assert draws[..m][1..] == draws[1..][..m - 1];
  }

  /** The same unfolding with the picks accepted so far in front. */
  lemma AccumulatedPicksCons<T>(pool: seq<T>, history: set<T>, draws: seq<nat>, acc: seq<T>, m: nat)
    requires |pool| > 0
    requires 1 <= m <= |draws|
    ensures var it := Pick(pool, draws[0]);
      acc + AcceptedPicks(pool, history, draws[..m])
        == (if it !in history then acc + [it] else acc) + AcceptedPicks(pool, history, draws[1..][..m - 1])
  {
    var it := Pick(pool, draws[0]);
    var head := if it !in history then [it] else [];
    AcceptedPicksCons(pool, history, draws, m);
    ConcatAssociative(acc, head, AcceptedPicks(pool, history, draws[1..][..m - 1]));
  }

  /** What is left of the random stream, and the negatives found. */
  datatype Draw<T> = Draw(value: T, rest: seq<nat>)

  /** The `while len(negs) < n` loop: pick, keep the pick unless it is in `history`.
      Succeeds exactly when the stream holds enough acceptable picks; what it returns
      is the stream's first acceptable picks, in draw order. */
  function RejectionSample<T>(pool: seq<T>, history: set<T>, n: nat, draws: seq<nat>, acc: seq<T>)
    : (r: Result<Draw<seq<T>>, Error>)
    requires |pool| > 0
    requires |acc| <= n
    requires forall x :: x in acc ==> x in pool && x !in history
    ensures r.Success? <==> |acc| + |AcceptedPicks(pool, history, draws)| >= n
    ensures r.Failure? ==> r.error == RandomStreamExhausted
    ensures r.Success? ==> |r.value.rest| <= |draws| && r.value.rest == draws[|draws| - |r.value.rest|..]
    ensures r.Success? ==> |r.value.value| == n
    ensures r.Success? ==> forall x :: x in r.value.value ==> x in pool && x !in history
    decreases |draws|
  {
    if |acc| == n then
      Success(Draw(acc, draws))
    else if |draws| == 0 then
      Failure(RandomStreamExhausted)
    else
      var it := Pick(pool, draws[0]);
      var acc' := if it !in history then acc + [it] else acc;
      var r := RejectionSample(pool, history, n, draws[1..], acc');
      RejectionSampleCons(pool, history, n, draws, acc, r);
      r
  }

  /** What the loop promises after the first draw, it promises before it. */
  lemma RejectionSampleCons<T>(pool: seq<T>, history: set<T>, n: nat, draws: seq<nat>, acc: seq<T>,
                               r: Result<Draw<seq<T>>, Error>)
    requires |pool| > 0 && |draws| > 0
    requires var it := Pick(pool, draws[0]);
      var acc' := if it !in history then acc + [it] else acc;
      && (r.Success? <==> |acc'| + |AcceptedPicks(pool, history, draws[1..])| >= n)
      && (r.Success? ==> |r.value.rest| <= |draws[1..]| && r.value.rest == draws[1..][|draws[1..]| - |r.value.rest|..])
    ensures r.Success? <==> |acc| + |AcceptedPicks(pool, history, draws)| >= n
    ensures r.Success? ==> |r.value.rest| <= |draws| && r.value.rest == draws[|draws| - |r.value.rest|..]
  {
    var it := Pick(pool, draws[0]);
    var head := if it !in history then [it] else [];
    assert AcceptedPicks(pool, history, draws) == head + AcceptedPicks(pool, history, draws[1..]);
    if r.Success? {
      assert draws[1..][|draws[1..]| - |r.value.rest|..] == draws[|draws| - |r.value.rest|..];
    }
  }

  /** What the loop returns is the stream's first acceptable picks, in draw order, up to
      the draw where it stops. */
  lemma {:induction false} RejectionSampleFirstAcceptances<T>(
    pool: seq<T>, history: set<T>, n: nat, draws: seq<nat>, acc: seq<T>)
    requires |pool| > 0
    requires |acc| <= n
    requires forall x :: x in acc ==> x in pool && x !in history
    requires RejectionSample(pool, history, n, draws, acc).Success?
    ensures var r := RejectionSample(pool, history, n, draws, acc).value;
      r.value == acc + AcceptedPicks(pool, history, draws[..|draws| - |r.rest|])
    decreases |draws|
  {
    if |acc| == n {
      assert draws[..0] == [];
      assert acc + [] == acc;
    } else {
      assert |draws| > 0;
      var it := Pick(pool, draws[0]);
      var acc' := if it !in history then acc + [it] else acc;
      RejectionSampleStep(pool, history, n, draws, acc);
      var r := RejectionSample(pool, history, n, draws[1..], acc');
      RejectionSampleFirstAcceptances(pool, history, n, draws[1..], acc');
      var m := |draws| - |r.value.rest|;
      assert r.value.value == acc' + AcceptedPicks(pool, history, draws[1..][..m - 1]) by {
        assert |draws[1..]| - |r.value.rest| == m - 1;
      }
      AccumulatedPicksCons(pool, history, draws, acc, m);
    }
  }

  /** One turn of the loop: a draw is consumed and its pick kept unless it is in `history`. */
  lemma RejectionSampleStep<T>(pool: seq<T>, history: set<T>, n: nat, draws: seq<nat>, acc: seq<T>)
    requires |pool| > 0
    requires |acc| < n && |draws| > 0
    requires forall x :: x in acc ==> x in pool && x !in history
    ensures var it := Pick(pool, draws[0]);
      var acc' := if it !in history then acc + [it] else acc;
      && |acc'| <= n
      && (forall x :: x in acc' ==> x in pool && x !in history)
      && RejectionSample(pool, history, n, draws, acc) == RejectionSample(pool, history, n, draws[1..], acc')
  {
  }

  /** The loop stops at the draw that completes the n-th acceptance: no shorter
      stretch of the stream holds enough acceptable picks. */
  lemma {:induction false} RejectionSampleStopsAtNth<T>(
    pool: seq<T>, history: set<T>, n: nat, draws: seq<nat>, acc: seq<T>, m: nat)
    requires |pool| > 0
    requires |acc| <= n
    requires forall x :: x in acc ==> x in pool && x !in history
    requires RejectionSample(pool, history, n, draws, acc).Success?
    requires m < |draws| - |RejectionSample(pool, history, n, draws, acc).value.rest|
    ensures |acc| + |AcceptedPicks(pool, history, draws[..m])| < n
    decreases |draws|
  {
    if m == 0 {
      assert draws[..0] == [];
    } else {
      var it := Pick(pool, draws[0]);
      var acc' := if it !in history then acc + [it] else acc;
      var r := RejectionSample(pool, history, n, draws[1..], acc');
      assert RejectionSample(pool, history, n, draws, acc) == r;
      RejectionSampleStopsAtNth(pool, history, n, draws[1..], acc', m - 1);
      AcceptedPicksCons(pool, history, draws, m);
    }
  }

  /** The sampler's configuration: the catalog, how many negatives per positive, the
      strategy name and the popularity table (present only for "popularity"). */
  datatype SamplerConfig = SamplerConfig(
    allItems: seq<string>,
    n: int,
    strategy: string,
    itemPop: Option<Popularity>)

  /** numpy's checks on `p`: no NaN, no negative entry, summing to 1. */
  predicate ValidProbabilities(pop: Popularity)
  {
    && pop.Weights?
    && (forall p :: p in pop.entries ==> p.weight >= 0.0)
    && SumReal(pop.entries, WeightOf) == 1.0
  }

  /** The pool a strategy draws from: the catalog, or the popularity table's index. */
  function Pool(cfg: SamplerConfig): seq<string>
  {
    if cfg.strategy == "popularity" && cfg.itemPop.Some? && cfg.itemPop.value.Weights?
    then MapSeq(cfg.itemPop.value.entries, ItemOfEntry)
    else cfg.allItems
  }

  /** `sample_negatives_for_user`. */
  function SampleNegatives(history: set<string>, cfg: SamplerConfig, draws: seq<nat>)
    : (r: Result<Draw<seq<string>>, Error>)
    ensures cfg.n <= 0 ==> r == Success(Draw([], draws))
    ensures cfg.n > 0 && cfg.strategy != "uniform" && cfg.strategy != "popularity" ==>
      r == Failure(UnknownStrategy(cfg.strategy))
    ensures cfg.n > 0 && cfg.strategy == "popularity" && cfg.itemPop.None? ==>
      r == Failure(MissingPopularityTable)
    ensures cfg.n > 0 && cfg.strategy == "popularity" && cfg.itemPop.Some? && !ValidProbabilities(cfg.itemPop.value) ==>
      r == Failure(InvalidProbabilities)
    ensures r.Success? ==> |r.value.value| == (if cfg.n <= 0 then 0 else cfg.n)
    ensures r.Success? ==> forall x :: x in r.value.value ==> x !in history && x in Pool(cfg)
    ensures r.Success? ==> |r.value.rest| <= |draws| && r.value.rest == draws[|draws| - |r.value.rest|..]
    ensures r.Success? && cfg.n > 0 ==> cfg.strategy == "uniform" || cfg.strategy == "popularity"
  {
    if cfg.n <= 0 then Success(Draw([], draws))
    else if cfg.strategy == "uniform" then
      if |cfg.allItems| == 0 then Failure(EmptyCandidatePool)
      else RejectionSample(cfg.allItems, history, cfg.n, draws, [])
    else if cfg.strategy == "popularity" then
      if cfg.itemPop.None? then Failure(MissingPopularityTable)
      else if !ValidProbabilities(cfg.itemPop.value) then Failure(InvalidProbabilities)
      else
        var pool := MapSeq(cfg.itemPop.value.entries, ItemOfEntry);
        if |pool| == 0 then Failure(EmptyCandidatePool)
        else RejectionSample(pool, history, cfg.n, draws, [])
    else Failure(UnknownStrategy(cfg.strategy))
  }

  // ---------------------------------------------------------------------------
  // Dataset builder

  /** One row of the ranking dataset before the static joins. */
  datatype Sample = Sample(
    userId: string,
    sessionId: string,
    timestamp: int,
    device: string,
    itemId: string,
    grade: int,
    watchMinutes: int,
    isNegative: bool)

  function IsPositive(e: Event): bool { e.grade > 0 }

  /** `interactions[interactions["label"] > 0]`. */
  function Positives(events: seq<Event>): (r: seq<Event>)
    ensures forall e :: e in r <==> e in events && e.grade > 0
  {
    Filter(events, IsPositive)
  }

  function PositiveRow(e: Event): Sample
  {
    Sample(e.userId, e.sessionId, e.timestamp, e.device, e.itemId, e.grade, e.watchMinutes, false)
  }

  /** A sampled negative: the positive's user, session, timestamp and device, a
      sampled item, label 0, no watch time, flagged negative. */
  predicate IsNegativeOf(s: Sample, e: Event, history: set<string>, pool: seq<string>)
  {
    && s.userId == e.userId && s.sessionId == e.sessionId
    && s.timestamp == e.timestamp && s.device == e.device
    && s.grade == 0 && s.watchMinutes == 0 && s.isNegative
    && s.itemId !in history && s.itemId in pool
  }

  function NegativeRows(e: Event, negs: seq<string>): (r: seq<Sample>)
    ensures |r| == |negs|
    ensures forall j :: 0 <= j < |negs| ==>
      r[j] == Sample(e.userId, e.sessionId, e.timestamp, e.device, negs[j], 0, 0, true)
  {
    if |negs| == 0 then []
    else [Sample(e.userId, e.sessionId, e.timestamp, e.device, negs[0], 0, 0, true)] + NegativeRows(e, negs[1..])
  }

  /** Rows `i*b .. (i+1)*b` of `rows`: the block of the i-th positive. */
  function Block(rows: seq<Sample>, i: nat, b: nat): seq<Sample>
  {
    if (i + 1) * b <= |rows| then rows[i * b..(i + 1) * b] else []
  }

  lemma BlockShift(head: seq<Sample>, tail: seq<Sample>, i: nat, b: nat)
    requires |head| == b
    requires i >= 1
    ensures Block(head + tail, i, b) == Block(tail, i - 1, b)
  {
    assert (i + 1) * b == i * b + b;
    assert i * b == (i - 1) * b + b;
  }

  /** The number of rows each positive contributes: itself and its negatives. */
  function BlockSize(n: int): nat
  {
    1 + (if n <= 0 then 0 else n)
  }

  /** The rows a positive event contributes: its own row, then `BlockSize(n) - 1`
      negatives for its user drawn from the pool. */
  predicate ExpandedBlock(block: seq<Sample>, e: Event, events: seq<Event>, cfg: SamplerConfig)
  {
    && |block| == BlockSize(cfg.n)
    && block[0] == PositiveRow(e)
    && forall j :: 1 <= j < |block| ==> IsNegativeOf(block[j], e, History(events, e.userId), Pool(cfg))
  }

  lemma HeadBlock(e: Event, events: seq<Event>, cfg: SamplerConfig, negs: seq<string>)
    requires |negs| == BlockSize(cfg.n) - 1
    requires forall x :: x in negs ==> x !in History(events, e.userId) && x in Pool(cfg)
    ensures ExpandedBlock([PositiveRow(e)] + NegativeRows(e, negs), e, events, cfg)
  {
    var block := [PositiveRow(e)] + NegativeRows(e, negs);
    forall j | 1 <= j < |block|
      ensures IsNegativeOf(block[j], e, History(events, e.userId), Pool(cfg))
    {
      assert block[j] == NegativeRows(e, negs)[j - 1];
      assert negs[j - 1] in negs;
    }
  }

  /** The loop over positives, threading the random stream through successive calls. */
  function ExpandPositives(pos: seq<Event>, events: seq<Event>, cfg: SamplerConfig, draws: seq<nat>)
    : (r: Result<Draw<seq<Sample>>, Error>)
    ensures r.Success? ==> |r.value.value| == |pos| * BlockSize(cfg.n)
    ensures r.Success? ==> forall i :: 0 <= i < |pos| ==>
      ExpandedBlock(Block(r.value.value, i, BlockSize(cfg.n)), pos[i], events, cfg)
    ensures |pos| > 0 && cfg.n > 0 && cfg.strategy != "uniform" && cfg.strategy != "popularity" ==>
      r == Failure(UnknownStrategy(cfg.strategy))
    ensures |pos| > 0 && cfg.n > 0 && cfg.strategy == "popularity" && cfg.itemPop.None? ==>
      r == Failure(MissingPopularityTable)
  {
    if |pos| == 0 then Success(Draw([], draws))
    else
      var e := pos[0];
      var negs :- SampleNegatives(History(events, e.userId), cfg, draws);
      var rest :- ExpandPositives(pos[1..], events, cfg, negs.rest);
      var b := BlockSize(cfg.n);
      var head := [PositiveRow(e)] + NegativeRows(e, negs.value);
      HeadBlock(e, events, cfg, negs.value);
      BlocksCons(head, rest.value, pos, events, cfg);
      Success(Draw(head + rest.value, rest.rest))
  }

  /** Prepending the first positive's block to the blocks of the others gives the blocks
      of all positives. */
  lemma BlocksCons(head: seq<Sample>, rest: seq<Sample>, pos: seq<Event>, events: seq<Event>, cfg: SamplerConfig)
    requires |pos| > 0
    requires ExpandedBlock(head, pos[0], events, cfg)
    requires |rest| == (|pos| - 1) * BlockSize(cfg.n)
    requires forall i :: 0 <= i < |pos| - 1 ==> ExpandedBlock(Block(rest, i, BlockSize(cfg.n)), pos[1..][i], events, cfg)
    ensures |head + rest| == |pos| * BlockSize(cfg.n)
    ensures forall i :: 0 <= i < |pos| ==> ExpandedBlock(Block(head + rest, i, BlockSize(cfg.n)), pos[i], events, cfg)
  {
    var b := BlockSize(cfg.n);
    var rows := head + rest;
    assert |rows| == |pos| * b by {
      assert |pos| * b == b + (|pos| - 1) * b;
    }
    assert Block(rows, 0, b) == head;
    forall i | 1 <= i < |pos|
      ensures ExpandedBlock(Block(rows, i, b), pos[i], events, cfg)
    {
      BlockShift(head, rest, i, b);
      assert pos[i] == pos[1..][i - 1];
    }
  }

  /** The sampler settings `make_ranking_dataset` passes on: the popularity table is
      built from the events only for the popularity strategy. */
  function RankingConfig(events: seq<Event>, allItems: seq<string>, n: int, strategy: string): (cfg: SamplerConfig)
    ensures cfg.allItems == allItems && cfg.n == n && cfg.strategy == strategy
    ensures cfg.itemPop.Some? <==> strategy == "popularity"
    ensures strategy == "popularity" ==> cfg.itemPop == Some(BuildItemPopularity(events))
  {
    var itemPop := if strategy == "popularity" then Some(BuildItemPopularity(events)) else None;
    SamplerConfig(allItems, n, strategy, itemPop)
  }

  /** The sampled rows of `make_ranking_dataset` before the static joins: one block per
      positive event in input order, each the positive's row followed by the configured
      number of negatives for its user, none from the user's history. An unknown
      strategy fails as soon as a negative is wanted. */
  function RankingSamples(events: seq<Event>, allItems: seq<string>, n: int, strategy: string, draws: seq<nat>)
    : (r: Result<seq<Sample>, Error>)
    ensures r.Success? ==> |r.value| == |Positives(events)| * BlockSize(n)
    ensures r.Success? ==> forall i :: 0 <= i < |Positives(events)| ==>
      ExpandedBlock(Block(r.value, i, BlockSize(n)), Positives(events)[i], events,
                    RankingConfig(events, allItems, n, strategy))
    ensures |Positives(events)| > 0 && n > 0 && strategy != "uniform" && strategy != "popularity" ==>
      r == Failure(UnknownStrategy(strategy))
  {
    var cfg := RankingConfig(events, allItems, n, strategy);
    var out :- ExpandPositives(Positives(events), events, cfg, draws);
    Success(out.value)
  }

  const SampleColumns: seq<Column> := [
    Plain("user_id"), Plain("session_id"), Plain("timestamp"), Plain("device"),
    Plain("item_id"), Plain("label"), Plain("watch_minutes"), Plain("is_negative")]

  function SampleRow(s: Sample): (r: Row)
    ensures r.Keys == ColumnSet(SampleColumns)
  {
    map[Plain("user_id") := Text(s.userId), Plain("session_id") := Text(s.sessionId),
        Plain("timestamp") := Int(s.timestamp), Plain("device") := Text(s.device),
        Plain("item_id") := Text(s.itemId), Plain("label") := Int(s.grade),
        Plain("watch_minutes") := Int(s.watchMinutes), Plain("is_negative") := Flag(s.isNegative)]
  }

  /** `pd.DataFrame(rows)`: a frame built from no rows has no columns at all. */
  function SamplesFrame(samples: seq<Sample>): (f: Frame)
    ensures |f.rows| == |samples|
    ensures |samples| > 0 ==> f.columns == SampleColumns
    ensures |samples| == 0 ==> f.columns == []
    ensures forall i :: 0 <= i < |samples| ==> f.rows[i] == SampleRow(samples[i])
  {
    Frame(if |samples| == 0 then [] else SampleColumns, MapSeq(samples, SampleRow))
  }

  /** `make_ranking_dataset`: the sampled rows, left-joined with the user table on
      `user_id` and the item table on `item_id`. With no positive there are no rows and
      no columns, and the first merge raises KeyError. */
  function MakeRankingDataset(events: seq<Event>, users: Catalog, items: Catalog, n: int, strategy: string, draws: seq<nat>)
    : (r: Result<Frame, Error>)
    requires users.keyName == "user_id" && items.keyName == "item_id"
    ensures Positives(events) == [] ==> r.Failure?
    ensures r.Success? ==> |r.value.rows| >= |Positives(events)| * BlockSize(n)
  {
    var samples :- RankingSamples(events, Ids(items.entries), n, strategy, draws);
    var withUsers :- LeftMerge(SamplesFrame(samples), users);
    var withItems :- LeftMerge(withUsers, items);
    Success(withItems)
  }

  /** When the user and item tables have unique ids the joins add columns only: the
      dataset has one row per sample, holding every cell of that sample. */
  lemma RankingDatasetKeepsSamples(
    events: seq<Event>, users: Catalog, items: Catalog, n: int, strategy: string, draws: seq<nat>)
    requires users.keyName == "user_id" && items.keyName == "item_id"
    requires MakeRankingDataset(events, users, items, n, strategy, draws).Success?
    requires NoDups(Ids(users.entries)) && NoDups(Ids(items.entries))
    ensures RankingSamples(events, Ids(items.entries), n, strategy, draws).Success?
    ensures var samples := RankingSamples(events, Ids(items.entries), n, strategy, draws).value;
      var out := MakeRankingDataset(events, users, items, n, strategy, draws).value;
      && |out.rows| == |samples|
      && forall i, c :: 0 <= i < |samples| && c in SampleRow(samples[i]) ==>
           c in out.rows[i] && out.rows[i][c] == SampleRow(samples[i])[c]
  {
    var samples := RankingSamples(events, Ids(items.entries), n, strategy, draws).value;
    MergesKeepCells(SamplesFrame(samples), users, items);
  }

  /** Two left joins on catalogs with unique ids keep every row and every cell. */
  lemma MergesKeepCells(f: Frame, first: Catalog, second: Catalog)
    requires LeftMerge(f, first).Success? && LeftMerge(LeftMerge(f, first).value, second).Success?
    requires NoDups(Ids(first.entries)) && NoDups(Ids(second.entries))
    ensures var out := LeftMerge(LeftMerge(f, first).value, second).value;
      && |out.rows| == |f.rows|
      && forall i, k :: 0 <= i < |f.rows| && k in f.rows[i] ==> k in out.rows[i] && out.rows[i][k] == f.rows[i][k]
  {
  }
}
