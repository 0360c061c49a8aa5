/** Set-based trust metrics of a recommender: Jaccard overlap of two lists (and the
    stability of a list under perturbation, which is the same overlap), the share of
    the catalogue ever recommended, the genre diversity of one list, and their summary
    over many lists. Item and movie ids are integers; a movie's genres are a
    `|`-separated text, absent (NaN) for some movies. */
module TrustMetrics {
  import opened Wrappers
  import opened Errors
  import opened Seqs
  import opened Sets
  import opened PyOps

  /** `max(1, n)`, the guard every ratio here divides by. */
  function AtLeastOne(n: int): (d: nat)
    ensures d >= 1 && d >= n
    ensures n >= 1 ==> d == n
  {
    if n < 1 then 1 else n
  }

  /** A count over a count that is at least as large: a share in [0, 1], which is 1
      exactly when the two counts agree and 0 exactly when the first is 0. */
  lemma ShareBounds(num: nat, den: nat)
    requires 1 <= den && num <= den
    ensures 0.0 <= num as real / den as real <= 1.0
    ensures num as real / den as real == 1.0 <==> num == den
    ensures num as real / den as real == 0.0 <==> num == 0
  {
    var q := num as real / den as real;
    assert q * den as real == num as real;
  }

  /** `jaccard(a, b)`: shared distinct ids over all distinct ids (at least 1). It depends
      on the two lists only as sets, is 0 exactly when they share nothing, and 1 exactly
      when they hold the same, non-empty, set of ids. */
  function Jaccard(a: seq<int>, b: seq<int>): (r: real)
    ensures 0.0 <= r <= 1.0
    ensures r == 0.0 <==> Elements(a) !! Elements(b)
    ensures r == 1.0 <==> Elements(a) == Elements(b) && |a| > 0
  {
    var both, either := Elements(a) * Elements(b), Elements(a) + Elements(b);
    SubsetCard(both, either);
    ShareBounds(|both|, AtLeastOne(|either|));
    ElementsCard(a);
    assert both == either <==> Elements(a) == Elements(b);
    DisjointCard(Elements(a), Elements(b));
    |both| as real / AtLeastOne(|either|) as real
  }

  /** The overlap does not depend on order, repetition or which list comes first. */
  lemma JaccardOfSets(a: seq<int>, b: seq<int>, a': seq<int>, b': seq<int>)
    requires Elements(a) == Elements(a') && Elements(b) == Elements(b')
    ensures Jaccard(a, b) == Jaccard(a', b') == Jaccard(b', a')
  {
    assert Elements(a') * Elements(b') == Elements(b') * Elements(a');
    assert Elements(a') + Elements(b') == Elements(b') + Elements(a');
  }

  /** `stability_under_perturbation`: the overlap of the original and perturbed lists. */
  function Stability(original: seq<int>, perturbed: seq<int>): (r: real)
    ensures 0.0 <= r <= 1.0
    ensures r == 1.0 <==> Elements(original) == Elements(perturbed) && |original| > 0
    ensures r == 0.0 <==> Elements(original) !! Elements(perturbed)
  {
    Jaccard(original, perturbed)
  }

  /** Every id of any of the lists (`shown` after the loop of `list_coverage`). */
  function Shown(recs: seq<seq<int>>): (shown: set<int>)
    ensures forall x :: x in shown <==> exists i :: 0 <= i < |recs| && x in recs[i]
  {
    if |recs| == 0 then {}
    else
      var rest := Shown(recs[1..]);
      assert forall i :: 1 <= i < |recs| ==> recs[i] == recs[1..][i - 1];
      Elements(recs[0]) + rest
  }

  /** `list_coverage`: the share of the catalogue shown at least once. It is 0 exactly
      when every list is empty, and at most 1 when every id is a catalogue index. */
  function ListCoverage(recs: seq<seq<int>>, nItems: int): (r: real)
    ensures r >= 0.0
    ensures r == 0.0 <==> forall i :: 0 <= i < |recs| ==> |recs[i]| == 0
    ensures (forall i, j :: 0 <= i < |recs| && 0 <= j < |recs[i]| ==> 0 <= recs[i][j] < nItems) ==> r <= 1.0
  {
    var shown := Shown(recs);
    assert |shown| == 0 <==> forall i :: 0 <= i < |recs| ==> |recs[i]| == 0 by {
      if exists i :: 0 <= i < |recs| && |recs[i]| > 0 {
        var i :| 0 <= i < |recs| && |recs[i]| > 0;
        assert recs[i][0] in shown;
      }
    }
    assert (forall i, j :: 0 <= i < |recs| && 0 <= j < |recs[i]| ==> 0 <= recs[i][j] < nItems) ==>
      |shown| as real / AtLeastOne(nItems) as real <= 1.0 by {
      if forall i, j :: 0 <= i < |recs| && 0 <= j < |recs[i]| ==> 0 <= recs[i][j] < nItems {
        if nItems > 0 {
          IndicesCard(shown, nItems);
          ShareBounds(|shown|, nItems);
        } else {
          assert shown == {};
        }
      }
    }
    DivideNonNegative(|shown| as real, AtLeastOne(nItems) as real);
    |shown| as real / AtLeastOne(nItems) as real
  }

  /** `str(movies_df.loc[mid, "genres"])`: NaN prints as "nan". */
  function GenreText(genres: Option<string>): string
  {
    genres.GetOr("nan")
  }

  /** The genres collected by `genre_diversity`: the pieces of every listed movie's genre
      text, in list order; ids missing from the catalogue contribute nothing, and every
      catalogued id at least one piece. */
  function CollectedGenres(ids: seq<int>, movies: map<int, Option<string>>): (g: seq<string>)
    ensures |g| == 0 <==> forall i :: 0 <= i < |ids| ==> ids[i] !in movies
    ensures |g| >= Count(ids, id => id in movies)
  {
    if |ids| == 0 then []
    else
      var rest := CollectedGenres(ids[1..], movies);
      assert forall i :: 1 <= i < |ids| ==> ids[i] == ids[1..][i - 1];
      if ids[0] in movies then Split(GenreText(movies[ids[0]]), '|') + rest else rest
  }

  /** `genre_diversity`: distinct genres over genre occurrences, 0 when no listed movie
      is in the catalogue. It is positive exactly when some movie is catalogued, and 1
      exactly when no genre repeats. */
  function GenreDiversity(ids: seq<int>, movies: map<int, Option<string>>): (r: real)
    ensures 0.0 <= r <= 1.0
    ensures r == 0.0 <==> forall i :: 0 <= i < |ids| ==> ids[i] !in movies
    ensures r == 1.0 <==> |CollectedGenres(ids, movies)| > 0 && NoDups(CollectedGenres(ids, movies))
  {
    var genres := CollectedGenres(ids, movies);
    if |genres| == 0 then 0.0
    else
      ElementsCard(genres);
      ShareBounds(|Elements(genres)|, |genres|);
      |Elements(genres)| as real / |genres| as real
  }

  /** The three summary figures. */
  datatype TrustSummary = TrustSummary(catalogCoverage: real, avgNovelty: real, avgGenreDiversity: real)

  /** `[internal_to_movie_id[i] for i in recs]`; a missing index raises KeyError. */
  function MovieIds(recs: seq<int>, toMovie: map<int, int>): (r: Result<seq<int>, Error>)
    ensures r.Success? <==> forall j :: 0 <= j < |recs| ==> recs[j] in toMovie
    ensures r.Success? ==> |r.value| == |recs| && forall j :: 0 <= j < |recs| ==> r.value[j] == toMovie[recs[j]]
    ensures r.Failure? ==> r.error.MissingKey? && r.error.key !in toMovie
  {
    MapAll(recs, (i: int) => if i in toMovie then Success(toMovie[i]) else Failure(MissingKey(i)))
  }

  /** The genre diversity of one list, after translating its internal ids. */
  function ListDiversity(recs: seq<int>, toMovie: map<int, int>, movies: map<int, Option<string>>)
    : (r: Result<real, Error>)
    ensures r.Success? <==> MovieIds(recs, toMovie).Success?
    ensures r.Success? ==> 0.0 <= r.value <= 1.0
    ensures r.Failure? ==> r.error.MissingKey? && r.error.key !in toMovie
  {
    var ids :- MovieIds(recs, toMovie);
    Success(GenreDiversity(ids, movies))
  }

  /** `summarize_trust_metrics`, with the novelty of a list (a mean of `-log2` of
      normalised popularities) as the given function `novelty`. Coverage is over the
      `len(popularity)` catalogue; both averages are 0.0 for no lists; the average
      diversity lies in [0, 1]; a list id missing from the translation map raises. */
  function Summarize(all: seq<seq<int>>, popularity: seq<real>, toMovie: map<int, int>,
                     movies: map<int, Option<string>>, novelty: (seq<int>, seq<real>) -> real)
    : (r: Result<TrustSummary, Error>)
    ensures r.Success? <==> forall i, j :: 0 <= i < |all| && 0 <= j < |all[i]| ==> all[i][j] in toMovie
    ensures r.Failure? ==> r.error.MissingKey? && r.error.key !in toMovie
    ensures r.Success? ==> r.value.catalogCoverage == ListCoverage(all, |popularity|)
    ensures r.Success? ==> 0.0 <= r.value.avgGenreDiversity <= 1.0
    ensures r.Success? ==>
      r.value.avgNovelty == Mean(MapSeq(all, (recs: seq<int>) => novelty(recs, popularity)))
    ensures |all| == 0 ==> r == Success(TrustSummary(0.0, 0.0, 0.0))
  {
    var diversities := MapAll(all, (recs: seq<int>) => ListDiversity(recs, toMovie, movies));
    if diversities.Failure? then
      var i :| 0 <= i < |all| && ListDiversity(all[i], toMovie, movies).Failure?
        && diversities.error == ListDiversity(all[i], toMovie, movies).error;
      Failure(diversities.error)
    else
      MeanBounds(diversities.value, 0.0, 1.0);
      var novelties := MapSeq(all, (recs: seq<int>) => novelty(recs, popularity));
      Success(TrustSummary(ListCoverage(all, |popularity|), Mean(novelties), Mean(diversities.value)))
  }
}
