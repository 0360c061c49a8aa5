/** Model features of the engagement side project: the multi-hot genre columns, the
    per-user and per-movie aggregates fitted on the training rows only, their left
    merge onto any table with the recency and time-of-day features, and the final
    column selection. Times are epoch seconds, as in `EngagementDataset`. */
module EngagementFeatures {
  import opened Wrappers
  import opened Seqs
  import opened Sets
  import opened Sorting
  import opened EngagementDataset
  import ContextFeatures

  /** The fixed genre vocabulary, in column order. */
  const Genres: seq<string> := [
    "Action", "Adventure", "Animation", "Children", "Comedy", "Crime", "Documentary", "Drama",
    "Fantasy", "Film-Noir", "Horror", "Musical", "Mystery", "Romance", "Sci-Fi", "Thriller",
    "War", "Western", "IMAX", "(no genres listed)"]

  const GenrePrefix := "genre__"

  /** `f"genre__{g}"`. */
  function GenreColumn(g: string): string
  {
    GenrePrefix + g
  }

  /** Distinct genres give distinct column names, all carrying the prefix. */
  lemma GenreColumnsDistinct(genres: seq<string>)
    requires NoDups(genres)
    ensures NoDups(MapSeq(genres, GenreColumn))
    ensures forall i :: 0 <= i < |genres| ==> MapSeq(genres, GenreColumn)[i][..|GenrePrefix|] == GenrePrefix
  {
    var cols := MapSeq(genres, GenreColumn);
    forall i, j | 0 <= i < j < |cols| ensures cols[i] != cols[j] {
      assert cols[i][|GenrePrefix|..] == genres[i] && cols[j][|GenrePrefix|..] == genres[j];
    }
  }

  /** The vocabulary lists each genre once. */
  lemma VocabularyDistinct()
    ensures |Genres| == 20
    ensures NoDups(Genres)
  {
    forall i, j | 0 <= i < j < |Genres| ensures Genres[i] != Genres[j] {
      assert Genres[i][0] != Genres[j][0] || |Genres[i]| != |Genres[j]| || Genres[i][1] != Genres[j][1];
    }
  }

  // ---------------------------------------------------------------------------
  // Multi-hot genres (lines 10-15)

  /** `int(g in xs)` for each genre of the vocabulary. */
  function GenreFlags(genresList: seq<string>, genres: seq<string>): (flags: seq<int>)
    ensures |flags| == |genres|
    ensures forall i :: 0 <= i < |genres| ==> (flags[i] == 1 <==> genres[i] in genresList)
    ensures forall i :: 0 <= i < |genres| ==> (flags[i] == 0 <==> genres[i] !in genresList)
  {
    if |genres| == 0 then []
    else [if genres[0] in genresList then 1 else 0] + GenreFlags(genresList, genres[1..])
  }

  /** Over a vocabulary without repeats, the flags of a row add up to the number of
      distinct vocabulary genres the row lists: repeated or unknown genres add nothing. */
  lemma {:induction false} GenreFlagsCount(genresList: seq<string>, genres: seq<string>)
    requires NoDups(genres)
    ensures Total(GenreFlags(genresList, genres)) == |Elements(genres) * Elements(genresList)|
  {
    if |genres| > 0 {
      NoDupsTail(genres);
      GenreFlagsCount(genresList, genres[1..]);
      assert Elements(genres) == {genres[0]} + Elements(genres[1..]);
      InsertIntersectCard(genres[0], Elements(genres[1..]), Elements(genresList));
    }
  }

  // ---------------------------------------------------------------------------
  // Aggregates fitted on training rows (lines 17-32)

  /** `count`, `mean` of the rating and `mean` of the engagement flag over one group. */
  datatype GroupStats = GroupStats(count: nat, ratingMean: real, engagedRate: real)

  datatype UserAgg = UserAgg(userId: int, stats: GroupStats, lastTs: int)

  datatype MovieAgg = MovieAgg(movieId: int, stats: GroupStats)

  datatype Aggregates = Aggregates(users: seq<UserAgg>, movies: seq<MovieAgg>)

  function RatingValue(x: Interaction): real
  {
    x.rating
  }

  function EngagedValue(x: Interaction): real
  {
    x.engaged as real
  }

  predicate IsEngaged(x: Interaction)
  {
    x.rating >= 4.0
  }

  /** With the flag derived from the rating, the flags add up to the engaged rows. */
  lemma {:induction false} EngagedTotal(rows: seq<Interaction>)
    requires forall x :: x in rows ==> Derived(x)
    ensures Sum(MapSeq(rows, EngagedValue)) == Count(rows, IsEngaged) as real
  {
    if |rows| > 0 {
      assert MapSeq(rows, EngagedValue)[1..] == MapSeq(rows[1..], EngagedValue);
      assert rows[0] in rows;
      EngagedTotal(rows[1..]);
    }
  }

  /** The statistics of one non-empty group. The mean rating times the count is the
      rating total; on built rows the engagement rate is the share of ratings of 4.0 and
      above, so it lies in [0, 1]. */
  function Stats(rows: seq<Interaction>): (s: GroupStats)
    requires |rows| > 0
    ensures s.count == |rows|
    ensures s.ratingMean * |rows| as real == Sum(MapSeq(rows, RatingValue))
    ensures (forall x :: x in rows ==> Derived(x)) ==>
      && s.engagedRate == Count(rows, IsEngaged) as real / |rows| as real
      && 0.0 <= s.engagedRate <= 1.0
  {
    var ratings, flags := MapSeq(rows, RatingValue), MapSeq(rows, EngagedValue);
    assert (forall x :: x in rows ==> Derived(x)) ==> Sum(flags) == Count(rows, IsEngaged) as real by {
      if forall x :: x in rows ==> Derived(x) {
        EngagedTotal(rows);
      }
    }
    ShareIsProbability(Count(rows, IsEngaged), |rows|);
    GroupStats(|rows|, Mean(ratings), Mean(flags))
  }

  /** `max` of the times of a non-empty group. */
  function LastTs(rows: seq<Interaction>): (t: int)
    requires |rows| > 0
    ensures exists k :: 0 <= k < |rows| && rows[k].ts == t
    ensures forall k :: 0 <= k < |rows| ==> rows[k].ts <= t
  {
    if |rows| == 1 then rows[0].ts
    else
      var rest := LastTs(rows[1..]);
      assert forall k :: 1 <= k < |rows| ==> rows[k] == rows[1..][k - 1];
      if rows[0].ts >= rest then rows[0].ts else rest
  }

  function OfUser(rows: seq<Interaction>, u: int): seq<Interaction>
  {
    Filter(rows, (x: Interaction) => x.userId == u)
  }

  function OfMovie(rows: seq<Interaction>, m: int): seq<Interaction>
  {
    Filter(rows, (x: Interaction) => x.movieId == m)
  }

  function MovieOf(x: Interaction): int
  {
    x.movieId
  }

  /** The movie group keys in `groupby` order: the distinct movies, ascending. */
  function Movies(rows: seq<Interaction>): (ms: seq<int>)
    ensures forall m :: m in ms <==> exists k :: 0 <= k < |rows| && rows[k].movieId == m
    ensures forall i, j :: 0 <= i < j < |ms| ==> ms[i] < ms[j]
  {
    var ids := MapSeq(rows, MovieOf);
    assert forall m :: m in ids <==> exists k :: 0 <= k < |rows| && rows[k].movieId == m by {
      forall m ensures m in ids <==> exists k :: 0 <= k < |rows| && rows[k].movieId == m {
        if m in ids {
          var k :| 0 <= k < |ids| && ids[k] == m;
          assert rows[k].movieId == m;
        }
        if exists k :: 0 <= k < |rows| && rows[k].movieId == m {
          var k :| 0 <= k < |rows| && rows[k].movieId == m;
          assert ids[k] == m;
        }
      }
    }
    SortedDistinctInts(ids)
  }

  /** A key that occurs in the rows has a non-empty group. */
  lemma GroupNonEmpty(rows: seq<Interaction>, k: int, p: Interaction -> bool)
    requires exists i :: 0 <= i < |rows| && p(rows[i])
    ensures |Filter(rows, p)| > 0
  {
    var i :| 0 <= i < |rows| && p(rows[i]);
    assert rows[i] in Filter(rows, p);
  }

  /** The per-user aggregate of one user of the training rows. */
  function UserAggregate(train: seq<Interaction>, u: int): (a: UserAgg)
    requires u in Users(train)
    ensures a.userId == u
    ensures a.stats.count == Count(train, (x: Interaction) => x.userId == u) >= 1
    ensures exists k :: 0 <= k < |train| && train[k].userId == u && train[k].ts == a.lastTs
    ensures forall k :: 0 <= k < |train| && train[k].userId == u ==> train[k].ts <= a.lastTs
  {
    var rows := OfUser(train, u);
    GroupNonEmpty(train, u, (x: Interaction) => x.userId == u);
    var last := LastTs(rows);
    assert exists k :: 0 <= k < |train| && train[k].userId == u && train[k].ts == last by {
      var j :| 0 <= j < |rows| && rows[j].ts == last;
      assert rows[j] in rows;
    }
    assert forall k :: 0 <= k < |train| && train[k].userId == u ==> train[k].ts <= last by {
      forall k | 0 <= k < |train| && train[k].userId == u ensures train[k].ts <= last {
        assert train[k] in rows;
      }
    }
    UserAgg(u, Stats(rows), last)
  }

  /** The per-movie aggregate of one movie of the training rows. */
  function MovieAggregate(train: seq<Interaction>, m: int): (a: MovieAgg)
    requires m in Movies(train)
    ensures a.movieId == m
    ensures a.stats.count == Count(train, (x: Interaction) => x.movieId == m) >= 1
  {
    var rows := OfMovie(train, m);
    GroupNonEmpty(train, m, (x: Interaction) => x.movieId == m);
    MovieAgg(m, Stats(rows))
  }

  /** `fit_aggregates`: one aggregate per user and per movie of the training rows, in
      ascending key order. */
  function FitAggregates(train: seq<Interaction>): (aggs: Aggregates)
    ensures |aggs.users| == |Users(train)|
    ensures forall i :: 0 <= i < |aggs.users| ==> aggs.users[i] == UserAggregate(train, Users(train)[i])
    ensures forall i :: 0 <= i < |aggs.users| ==> aggs.users[i].userId == Users(train)[i]
    ensures |aggs.movies| == |Movies(train)|
    ensures forall i :: 0 <= i < |aggs.movies| ==> aggs.movies[i] == MovieAggregate(train, Movies(train)[i])
    ensures forall i :: 0 <= i < |aggs.movies| ==> aggs.movies[i].movieId == Movies(train)[i]
  {
    var us, ms := Users(train), Movies(train);
    Aggregates(seq(|us|, i requires 0 <= i < |us| => UserAggregate(train, us[i])),
               seq(|ms|, i requires 0 <= i < |ms| => MovieAggregate(train, ms[i])))
  }

  // ---------------------------------------------------------------------------
  // Applying the aggregates (lines 34-57)

  /** The merge partner of a key: the aggregate with that key, if any. */
  function FindUser(aggs: seq<UserAgg>, u: int): (r: Option<UserAgg>)
    ensures r.None? <==> forall i :: 0 <= i < |aggs| ==> aggs[i].userId != u
    ensures r.Some? ==> r.value in aggs && r.value.userId == u
  {
    if |aggs| == 0 then None
    else if aggs[0].userId == u then Some(aggs[0])
    else
      var r := FindUser(aggs[1..], u);
      assert forall i :: 1 <= i < |aggs| ==> aggs[i] == aggs[1..][i - 1];
      r
  }

  function FindMovie(aggs: seq<MovieAgg>, m: int): (r: Option<MovieAgg>)
    ensures r.None? <==> forall i :: 0 <= i < |aggs| ==> aggs[i].movieId != m
    ensures r.Some? ==> r.value in aggs && r.value.movieId == m
  {
    if |aggs| == 0 then None
    else if aggs[0].movieId == m then Some(aggs[0])
    else
      var r := FindMovie(aggs[1..], m);
      assert forall i :: 1 <= i < |aggs| ==> aggs[i] == aggs[1..][i - 1];
      r
  }

  /** A row after the two left merges and the derived columns. The aggregate columns
      are absent (NaN) when the key has no aggregate; the median fill is not modelled. */
  datatype Featured = Featured(
    row: Interaction,
    user: Option<UserAgg>,
    movie: Option<MovieAgg>,
    daysSince: Option<real>,
    hour: int,
    dayOfWeek: int)

  const SecondsPerDay := 86400

  /** The derived columns of one row. */
  function ApplyRow(x: Interaction, aggs: Aggregates): (f: Featured)
    ensures f.row == x
    ensures f.user.Some? <==> exists i :: 0 <= i < |aggs.users| && aggs.users[i].userId == x.userId
    ensures f.user.Some? ==> f.user.value in aggs.users && f.user.value.userId == x.userId
    ensures f.movie.Some? <==> exists i :: 0 <= i < |aggs.movies| && aggs.movies[i].movieId == x.movieId
    ensures f.movie.Some? ==> f.movie.value in aggs.movies && f.movie.value.movieId == x.movieId
    ensures f.daysSince.Some? <==> f.user.Some?
    ensures f.user.Some? ==> f.daysSince.value * SecondsPerDay as real == (x.ts - f.user.value.lastTs) as real
    ensures 0 <= f.hour < 24 && 0 <= f.dayOfWeek < 7
    ensures f.hour == ContextFeatures.HourOf(x.ts) && f.dayOfWeek == ContextFeatures.DayOfWeek(x.ts)
  {
    var user := FindUser(aggs.users, x.userId);
    var days := if user.Some? then Some((x.ts - user.value.lastTs) as real / SecondsPerDay as real) else None;
    Featured(x, user, FindMovie(aggs.movies, x.movieId), days,
             ContextFeatures.HourOf(x.ts), ContextFeatures.DayOfWeek(x.ts))
  }

  /** `apply_aggregates`: a left merge on keys that are unique in the aggregates, so one
      output row per input row, in input order. */
  function ApplyAggregates(df: seq<Interaction>, aggs: Aggregates): (out: seq<Featured>)
    ensures |out| == |df|
    ensures forall i :: 0 <= i < |df| ==> out[i] == ApplyRow(df[i], aggs)
  {
    MapSeq(df, (x: Interaction) => ApplyRow(x, aggs))
  }

  /** When no training row of a user is later than a row, the aggregates fitted on the
      training rows find the row's user exactly when it has a training row, and then the
      days since its last training interaction are never negative. */
  lemma RecencyNotNegative(train: seq<Interaction>, x: Interaction)
    requires forall k :: 0 <= k < |train| && train[k].userId == x.userId ==> train[k].ts <= x.ts
    ensures var f := ApplyRow(x, FitAggregates(train));
      && (f.daysSince.Some? <==> exists k :: 0 <= k < |train| && train[k].userId == x.userId)
      && (f.daysSince.Some? ==> f.daysSince.value >= 0.0)
  {
    var aggs, us := FitAggregates(train), Users(train);
    var f := ApplyRow(x, aggs);
    assert f.user.Some? <==> x.userId in us by {
      if x.userId in us {
        var i :| 0 <= i < |us| && us[i] == x.userId;
        assert aggs.users[i].userId == x.userId;
      }
      if f.user.Some? {
        var i :| 0 <= i < |aggs.users| && aggs.users[i].userId == x.userId;
        assert us[i] == x.userId;
      }
    }
    if f.user.Some? {
      var i :| 0 <= i < |aggs.users| && aggs.users[i] == f.user.value;
      var a := UserAggregate(train, us[i]);
      assert a == f.user.value;
      var k :| 0 <= k < |train| && train[k].userId == us[i] && train[k].ts == a.lastTs;
      assert x.ts - a.lastTs >= 0;
    }
  }

  /** Fitted on the training part of the last-interaction split, the aggregates find
      exactly the held-out rows whose user kept a training row, and for those the days
      since the user's last training interaction are never negative. */
  lemma HeldOutRecency(df: seq<Interaction>, j: int)
    requires 0 <= j < |SplitLastInteraction(df).test|
    ensures var split := SplitLastInteraction(df);
      var f := ApplyRow(split.test[j], FitAggregates(split.train));
      && (f.daysSince.Some? <==> exists k :: 0 <= k < |split.train| && split.train[k].userId == split.test[j].userId)
      && (f.daysSince.Some? ==> f.daysSince.value >= 0.0)
  {
    var split := SplitLastInteraction(df);
    forall k | 0 <= k < |split.train| && split.train[k].userId == split.test[j].userId
      ensures split.train[k].ts <= split.test[j].ts
    {
      TrainNotLater(df, k, j);
    }
    RecencyNotNegative(split.train, split.test[j]);
  }

  // ---------------------------------------------------------------------------
  // The model table (lines 59-69)

  /** The numeric columns kept after the target, in order. */
  const NumericColumns: seq<string> := [
    "user_rating_count", "user_rating_mean", "user_engaged_rate",
    "movie_rating_count", "movie_rating_mean", "movie_engaged_rate",
    "days_since_user_last_train", "rating_hour", "rating_dayofweek"]

  /** `keep`: the target, the numeric columns, then one column per vocabulary genre. */
  function ModelColumns(genres: seq<string>): (cols: seq<string>)
    ensures |cols| == 1 + |NumericColumns| + |genres|
    ensures cols[0] == "engaged"
    ensures forall i :: 0 <= i < |genres| ==> cols[1 + |NumericColumns| + i] == GenreColumn(genres[i])
  {
    ["engaged"] + NumericColumns + MapSeq(genres, GenreColumn)
  }

  /** The kept columns are 30 distinct names. */
  lemma ModelColumnsDistinct()
    ensures |ModelColumns(Genres)| == 30
    ensures NoDups(ModelColumns(Genres))
  {
    VocabularyDistinct();
    GenreColumnsDistinct(Genres);
    var fixed := ["engaged"] + NumericColumns;
    var genreCols := MapSeq(Genres, GenreColumn);
    assert NoDups(fixed) by {
      forall i, j | 0 <= i < j < |fixed| ensures fixed[i] != fixed[j] {
        assert fixed[i][0] != fixed[j][0] || fixed[i][|fixed[i]| - 1] != fixed[j][|fixed[j]| - 1]
          || fixed[i][1] != fixed[j][1] || |fixed[i]| != |fixed[j]|;
      }
    }
    assert forall i :: 0 <= i < |fixed| ==> fixed[i][0] != 'g';
    forall k | 0 <= k < |genreCols| ensures genreCols[k] !in fixed {
      assert genreCols[k][..|GenrePrefix|] == GenrePrefix;
      assert genreCols[k][0] == 'g';
    }
    NoDupsConcat(fixed, genreCols);
  }

  /** A kept cell: a number, or NaN for an aggregate the merge did not find. */
  datatype Cell = Num(x: real) | Missing

  function StatCells(s: Option<GroupStats>): seq<Cell>
  {
    if s.Some? then [Num(s.value.count as real), Num(s.value.ratingMean), Num(s.value.engagedRate)]
    else [Missing, Missing, Missing]
  }

  function GenreCell(flag: int): Cell
  {
    Num(flag as real)
  }

  /** The target and numeric cells of a row, in `NumericColumns` order after the target. */
  function HeadCells(f: Featured): (cells: seq<Cell>)
    ensures |cells| == 1 + |NumericColumns|
    ensures cells[0] == Num(f.row.engaged as real)
    ensures cells[1..4] == StatCells(if f.user.Some? then Some(f.user.value.stats) else None)
    ensures cells[4..7] == StatCells(if f.movie.Some? then Some(f.movie.value.stats) else None)
    ensures cells[7] == if f.daysSince.Some? then Num(f.daysSince.value) else Missing
    ensures cells[8] == Num(f.hour as real) && cells[9] == Num(f.dayOfWeek as real)
  {
    var userStats := if f.user.Some? then Some(f.user.value.stats) else None;
    var movieStats := if f.movie.Some? then Some(f.movie.value.stats) else None;
    var days := if f.daysSince.Some? then Num(f.daysSince.value) else Missing;
    [Num(f.row.engaged as real)] + StatCells(userStats) + StatCells(movieStats)
      + [days, Num(f.hour as real), Num(f.dayOfWeek as real)]
  }

  /** One row of `make_model_table`, aligned with `ModelColumns(genres)`: the head cells,
      then a 1.0 under each genre the row lists and a 0.0 under every other. */
  function ModelRow(f: Featured, genres: seq<string>): (cells: seq<Cell>)
    ensures |cells| == |ModelColumns(genres)|
    ensures cells[..10] == HeadCells(f)
    ensures forall i :: 0 <= i < |genres| ==>
      && (cells[10 + i] == Num(1.0) <==> genres[i] in f.row.genresList)
      && (cells[10 + i] == Num(0.0) <==> genres[i] !in f.row.genresList)
  {
    var head, flags := HeadCells(f), GenreFlags(f.row.genresList, genres);
    var tail := MapSeq(flags, GenreCell);
    assert forall i :: 0 <= i < |genres| ==> (head + tail)[10 + i] == tail[i];
    head + tail
  }

  datatype ModelTable = ModelTable(columns: seq<string>, rows: seq<seq<Cell>>)

  /** `make_model_table`: the multi-hot columns, then only the kept columns, one row per
      input row. */
  function MakeModelTable(df: seq<Featured>): (t: ModelTable)
    ensures t.columns == ModelColumns(Genres)
    ensures |t.rows| == |df|
    ensures forall i :: 0 <= i < |df| ==> |t.rows[i]| == |t.columns|
    ensures forall i :: 0 <= i < |df| ==> t.rows[i] == ModelRow(df[i], Genres)
  {
    ModelTable(ModelColumns(Genres), MapSeq(df, (f: Featured) => ModelRow(f, Genres)))
  }
}
