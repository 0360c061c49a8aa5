/** The engagement dataset of the MovieLens side project: ratings joined with movie
    metadata, an `engaged` flag for ratings of 4.0 and above, the genre text split on
    `|`, rows ordered by user and time; and the split that holds out each user's last
    interaction. Times are epoch seconds (`pd.to_datetime(..., unit="s")` keeps their
    order, so the model keeps the seconds). */
module EngagementDataset {
  import opened Wrappers
  import opened Seqs
  import opened Sets
  import opened Sorting
  import opened PyOps

  datatype Rating = Rating(userId: int, movieId: int, rating: real, timestamp: int)

  /** A row of the movie table; `genres` is NaN for some rows. */
  datatype Movie = Movie(movieId: int, title: string, genres: Option<string>)

  /** A row of the built table. `title` is NaN when the movie is not in the table. */
  datatype Interaction = Interaction(
    userId: int,
    movieId: int,
    rating: real,
    ts: int,
    title: Option<string>,
    genres: string,
    genresList: seq<string>,
    engaged: int)

  const NoGenres := "(no genres listed)"

  /** The rating fields a built row carries over. */
  function RatingOf(x: Interaction): Rating
  {
    Rating(x.userId, x.movieId, x.rating, x.ts)
  }

  /** What `build_interactions` derives in every row: the engagement flag from the
      rating, and a genre list that re-joins to the genre text. */
  predicate Derived(x: Interaction)
  {
    && (x.engaged == 1 <==> x.rating >= 4.0)
    && (x.engaged == 0 || x.engaged == 1)
    && Join(x.genresList, '|') == x.genres
  }

  /** One joined row: the rating's fields, the movie's title and genres (the placeholder
      text when there is no movie or its genres are NaN), the `|`-split genre list and
      the engagement flag. */
  function Enrich(r: Rating, m: Option<Movie>): (x: Interaction)
    ensures RatingOf(x) == r
    ensures x.engaged == 1 <==> r.rating >= 4.0
    ensures x.engaged == 0 || x.engaged == 1
    ensures m.None? || m.value.genres.None? ==> x.genres == NoGenres
    ensures m.Some? && m.value.genres.Some? ==> x.genres == m.value.genres.value
    ensures Join(x.genresList, '|') == x.genres
    ensures forall i :: 0 <= i < |x.genresList| ==> '|' !in x.genresList[i]
    ensures Derived(x)
  {
    var genres := if m.Some? then m.value.genres.GetOr(NoGenres) else NoGenres;
    SplitJoin(genres, '|');
    Interaction(r.userId, r.movieId, r.rating, r.timestamp,
                if m.Some? then Some(m.value.title) else None,
                genres, Split(genres, '|'), if r.rating >= 4.0 then 1 else 0)
  }

  function MovieIdOf(m: Movie): int
  {
    m.movieId
  }

  /** The left-merge rows of one rating: one per movie row with its id, in table order,
      or a single row with no movie. */
  function JoinOne(r: Rating, movies: seq<Movie>): (rows: seq<Interaction>)
    ensures |rows| >= 1
    ensures forall x :: x in rows ==> RatingOf(x) == r && Derived(x)
    ensures |rows| == AtLeast1(Count(movies, (m: Movie) => m.movieId == r.movieId))
  {
    var matches := Filter(movies, (m: Movie) => m.movieId == r.movieId);
    if |matches| == 0 then [Enrich(r, None)]
    else MapSeq(matches, (m: Movie) => Enrich(r, Some(m)))
  }

  function AtLeast1(n: nat): nat
  {
    if n == 0 then 1 else n
  }

  /** `ratings.merge(movies, on="movieId", how="left")`: every rating, in order, with
      its movie rows. */
  function JoinMovies(ratings: seq<Rating>, movies: seq<Movie>): (rows: seq<Interaction>)
    ensures |rows| >= |ratings|
    ensures forall x :: x in rows ==> RatingOf(x) in ratings && Derived(x)
  {
    if |ratings| == 0 then []
    else
      JoinOne(ratings[0], movies) + JoinMovies(ratings[1..], movies)
  }

  /** A movie table with distinct ids joins one row to each rating, so the joined rows
      give back the ratings, in order. */
  lemma {:induction false} JoinKeepsRatings(ratings: seq<Rating>, movies: seq<Movie>)
    requires NoDups(MapSeq(movies, MovieIdOf))
    ensures MapSeq(JoinMovies(ratings, movies), RatingOf) == ratings
  {
    if |ratings| > 0 {
      var r := ratings[0];
      JoinKeepsRatings(ratings[1..], movies);
      AtMostOneMatch(movies, r.movieId);
      var head := JoinOne(r, movies);
      var rest := JoinMovies(ratings[1..], movies);
      assert |head| == 1 && head[0] in head;
      assert MapSeq(head, RatingOf) == [r];
      MapSeqConcat(head, rest, RatingOf);
      assert ratings == [r] + ratings[1..];
    }
  }

  /** Distinct ids: at most one movie row per id. */
  lemma {:induction false} AtMostOneMatch(movies: seq<Movie>, id: int)
    requires NoDups(MapSeq(movies, MovieIdOf))
    ensures Count(movies, (m: Movie) => m.movieId == id) <= 1
  {
    if |movies| > 0 {
      assert MapSeq(movies[1..], MovieIdOf) == MapSeq(movies, MovieIdOf)[1..];
      AtMostOneMatch(movies[1..], id);
      if movies[0].movieId == id {
        NoMatch(movies[1..], id);
      }
    }
  }

  lemma {:induction false} NoMatch(movies: seq<Movie>, id: int)
    requires forall i :: 0 <= i < |movies| ==> movies[i].movieId != id
    ensures Count(movies, (m: Movie) => m.movieId == id) == 0
  {
    if |movies| > 0 {
      NoMatch(movies[1..], id);
    }
  }

  /** `sort_values(["userId", "ts"])`: by user, then by time. */
  function UserThenTime(a: Interaction, b: Interaction): bool
  {
    a.userId < b.userId || (a.userId == b.userId && a.ts <= b.ts)
  }

  lemma UserThenTimeIsTotalPreorder()
    ensures TotalPreorder(UserThenTime)
  {
  }

  /** `build_interactions`: the joined rows ordered by user, then time; a rearrangement
      of the joined rows. */
  function BuildInteractions(ratings: seq<Rating>, movies: seq<Movie>): (rows: seq<Interaction>)
    ensures multiset(rows) == multiset(JoinMovies(ratings, movies))
    ensures |rows| >= |ratings|
    ensures SortedBy(rows, UserThenTime)
    ensures forall i :: 0 <= i < |rows| ==> Derived(rows[i])
  {
    var joined := JoinMovies(ratings, movies);
    UserThenTimeIsTotalPreorder();
    SortIsSorted(joined, UserThenTime);
    var rows := Sort(joined, UserThenTime);
    forall i | 0 <= i < |rows| ensures Derived(rows[i]) {
      assert rows[i] in multiset(joined);
      assert rows[i] in joined;
    }
    rows
  }

  // ---------------------------------------------------------------------------
  // Holding out the last interaction of each user (lines 25-30)

  function UserOf(x: Interaction): int
  {
    x.userId
  }

  /** `df.groupby("userId")["ts"].idxmax()` for one user: the first position holding the
      user's latest time, if the user has rows. */
  function LastIndex(df: seq<Interaction>, u: int): (r: Option<nat>)
    ensures r.None? <==> forall k :: 0 <= k < |df| ==> df[k].userId != u
    ensures r.Some? ==> r.value < |df| && df[r.value].userId == u
    ensures r.Some? ==> forall k :: 0 <= k < |df| && df[k].userId == u ==> df[k].ts <= df[r.value].ts
    ensures r.Some? ==> forall k :: 0 <= k < r.value && df[k].userId == u ==> df[k].ts < df[r.value].ts
  {
    if |df| == 0 then None
    else
      var n := |df| - 1;
      var p := LastIndex(df[..n], u);
      assert forall k :: 0 <= k < n ==> df[..n][k] == df[k];
      if df[n].userId != u then p
      else if p.None? || df[p.value].ts < df[n].ts then Some(n)
      else p
  }

  /** The group keys in `groupby` order: the distinct users, ascending. */
  function Users(df: seq<Interaction>): (us: seq<int>)
    ensures forall u :: u in us <==> exists k :: 0 <= k < |df| && df[k].userId == u
    ensures forall i, j :: 0 <= i < j < |us| ==> us[i] < us[j]
  {
    var ids := MapSeq(df, UserOf);
    assert forall u :: u in ids <==> exists k :: 0 <= k < |df| && df[k].userId == u by {
      forall u ensures u in ids <==> exists k :: 0 <= k < |df| && df[k].userId == u {
        if u in ids {
          var k :| 0 <= k < |ids| && ids[k] == u;
          assert df[k].userId == u;
        }
        if exists k :: 0 <= k < |df| && df[k].userId == u {
          var k :| 0 <= k < |df| && df[k].userId == u;
          assert ids[k] == u;
        }
      }
    }
    SortedDistinctInts(ids)
  }

  /** Every listed user has a held-out position. */
  lemma UsersHaveLastIndex(df: seq<Interaction>, u: int)
    requires u in Users(df)
    ensures LastIndex(df, u).Some?
  {
    var k :| 0 <= k < |df| && df[k].userId == u;
  }

  /** The held-out positions, one per user in `Users` order. */
  function TestIndices(df: seq<Interaction>): (idx: seq<nat>)
    ensures |idx| == |Users(df)|
    ensures forall i :: 0 <= i < |idx| ==> LastIndex(df, Users(df)[i]) == Some(idx[i])
    ensures forall i :: 0 <= i < |idx| ==> idx[i] < |df|
  {
    var us := Users(df);
    assert forall i :: 0 <= i < |us| ==> LastIndex(df, us[i]).Some? by {
      forall i | 0 <= i < |us| ensures LastIndex(df, us[i]).Some? {
        UsersHaveLastIndex(df, us[i]);
      }
    }
    seq(|us|, i requires 0 <= i < |us| => LastIndex(df, us[i]).GetOr(0))
  }

  /** `0, 1, ..., n - 1`. */
  function Positions(n: nat): (p: seq<nat>)
    ensures |p| == n
    ensures forall i :: 0 <= i < n ==> p[i] == i
    ensures forall k :: k in p <==> 0 <= k < n
  {
    var p := seq(n, i requires 0 <= i < n => i);
    assert forall k :: k in p <==> 0 <= k < n by {
      forall k ensures k in p <==> 0 <= k < n {
        if 0 <= k < n {
          assert p[k] == k;
        }
      }
    }
    p
  }

  /** `df.drop(idx_last)`: the remaining positions, in order. */
  function TrainIndices(df: seq<Interaction>): (idx: seq<nat>)
    ensures forall k :: k in idx <==> 0 <= k < |df| && k !in TestIndices(df)
    ensures forall i :: 0 <= i < |idx| ==> idx[i] < |df|
    ensures forall i, j :: 0 <= i < j < |idx| ==> idx[i] < idx[j]
  {
    var held := Elements(TestIndices(df));
    var keep := (k: nat) => k !in held;
    var idx := Filter<nat>(Positions(|df|), keep);
    FilterAscending(Positions(|df|), keep);
    assert forall i :: 0 <= i < |idx| ==> idx[i] < |df| by {
      forall i | 0 <= i < |idx| ensures idx[i] < |df| {
        assert idx[i] in idx;
      }
    }
    idx
  }

  /** Keeping some of an ascending run of positions leaves them ascending. */
  lemma {:induction false} FilterAscending(s: seq<nat>, p: nat -> bool)
    requires forall i, j :: 0 <= i < j < |s| ==> s[i] < s[j]
    ensures forall i, j :: 0 <= i < j < |Filter(s, p)| ==> Filter(s, p)[i] < Filter(s, p)[j]
  {
    if |s| > 0 {
      FilterAscending(s[1..], p);
      var rest := Filter(s[1..], p);
      assert forall x :: x in rest ==> s[0] < x by {
        forall x | x in rest ensures s[0] < x {
          var k :| 0 <= k < |s[1..]| && s[1..][k] == x;
          assert s[k + 1] == x;
        }
      }
      if p(s[0]) {
        assert Filter(s, p) == [s[0]] + rest;
        forall i, j | 0 <= i < j < |Filter(s, p)| ensures Filter(s, p)[i] < Filter(s, p)[j] {
          if i == 0 {
            assert Filter(s, p)[j] == rest[j - 1];
            assert rest[j - 1] in rest;
          }
        }
      }
    }
  }

  datatype Holdout = Holdout(train: seq<Interaction>, test: seq<Interaction>)

  /** Each held-out position belongs to its own user, so no two coincide. */
  lemma TestIndicesDistinct(df: seq<Interaction>)
    ensures forall i :: 0 <= i < |TestIndices(df)| ==> TestIndices(df)[i] < |df|
    ensures NoDups(TestIndices(df))
  {
    var test, us := TestIndices(df), Users(df);
    forall i, j | 0 <= i < j < |test| ensures test[i] != test[j] {
      assert df[test[i]].userId == us[i] && df[test[j]].userId == us[j];
    }
  }

  /** The held-out and remaining positions partition the positions of the table: each
      position is in exactly one part, and no position is listed twice. */
  lemma HoldoutPartition(df: seq<Interaction>)
    ensures forall i :: 0 <= i < |TestIndices(df)| ==> TestIndices(df)[i] < |df|
    ensures forall i :: 0 <= i < |TrainIndices(df)| ==> TrainIndices(df)[i] < |df|
    ensures NoDups(TestIndices(df)) && NoDups(TrainIndices(df))
    ensures Elements(TestIndices(df)) !! Elements(TrainIndices(df))
    ensures Elements(TestIndices(df)) + Elements(TrainIndices(df)) == Below(|df|)
    ensures |TestIndices(df)| + |TrainIndices(df)| == |df|
  {
    var test, train := TestIndices(df), TrainIndices(df);
    TestIndicesDistinct(df);
    assert forall i :: 0 <= i < |train| ==> train[i] < |df| by {
      forall i | 0 <= i < |train| ensures train[i] < |df| {
        assert train[i] in train;
      }
    }
    var a, b := Elements(test), Elements(train);
    assert a + b == Below(|df|);
    PartitionCard(test, train, |df|);
  }

  /** Two duplicate-free lists whose sets split `range(n)` have `n` entries together. */
  lemma PartitionCard(a: seq<nat>, b: seq<nat>, n: nat)
    requires NoDups(a) && NoDups(b)
    requires Elements(a) !! Elements(b)
    requires Elements(a) + Elements(b) == Below(n)
    ensures |a| + |b| == n
  {
    ElementsCard(a);
    ElementsCard(b);
    RangeCard(n);
  }

  /** `time_split_last_interaction_per_user`: the rows at the held-out positions, one per
      user in ascending user order, and the rows at the remaining positions in their order. */
  function SplitLastInteraction(df: seq<Interaction>): (r: Holdout)
    ensures |r.test| == |TestIndices(df)| == |Users(df)|
    ensures |r.train| == |TrainIndices(df)|
    ensures forall i :: 0 <= i < |r.train| ==> r.train[i] == df[TrainIndices(df)[i]]
    ensures forall i :: 0 <= i < |r.test| ==> r.test[i] == df[TestIndices(df)[i]]
  {
    Holdout(RowsAt(df, TrainIndices(df)), RowsAt(df, TestIndices(df)))
  }

  /** Every row lands in exactly one part. */
  lemma HoldoutKeepsRows(df: seq<Interaction>)
    ensures |SplitLastInteraction(df).train| + |SplitLastInteraction(df).test| == |df|
  {
    HoldoutPartition(df);
  }

  /** The held-out row of the i-th user belongs to that user and is one of its latest rows. */
  lemma TestIsLatest(df: seq<Interaction>, i: int, k: int)
    requires 0 <= i < |SplitLastInteraction(df).test| && 0 <= k < |df|
    requires df[k].userId == Users(df)[i]
    ensures SplitLastInteraction(df).test[i].userId == Users(df)[i]
    ensures df[k].ts <= SplitLastInteraction(df).test[i].ts
  {
  }

  /** No remaining row of a user is later than that user's held-out row. */
  lemma TrainNotLater(df: seq<Interaction>, i: int, j: int)
    requires 0 <= i < |SplitLastInteraction(df).train| && 0 <= j < |SplitLastInteraction(df).test|
    requires SplitLastInteraction(df).train[i].userId == SplitLastInteraction(df).test[j].userId
    ensures SplitLastInteraction(df).train[i].ts <= SplitLastInteraction(df).test[j].ts
  {
    var r := SplitLastInteraction(df);
    HoldoutPartition(df);
    assert r.train[i] == df[TrainIndices(df)[i]];
  }
}
