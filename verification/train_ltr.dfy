/** The data preparation of the learning-to-rank training run: the cross features, the
    feature/label column selection, the one-hot encoding of the three splits aligned on
    the training columns, and the query-group sizes handed to the ranker. Model fitting
    and prediction are not modelled. */
module TrainLtr {
  import opened Wrappers
  import opened Errors
  import opened Seqs
  import opened Frames
  import opened Encoding

  // ---------------------------------------------------------------- cross features

  /** `(genre == "Kids").astype(int)`: a missing genre is not "Kids". */
  function KidsContent(genre: Value): (v: Value)
    ensures v == Int(1) <==> genre == Text("Kids")
    ensures v == Int(0) || v == Int(1)
  {
    Flag(genre == Text("Kids"))
  }

  /** `((is_kids_profile == 1) & (genre != "Kids")).astype(int)`. */
  function KidsMismatch(profile: int, genre: Value): (v: Value)
    ensures v == Int(1) <==> profile == 1 && genre != Text("Kids")
    ensures v == Int(0) || v == Int(1)
  {
    Flag(profile == 1 && genre != Text("Kids"))
  }

  /** A row is never both kids content and a kids mismatch, and a kids profile always
      gets exactly one of the two flags. */
  lemma KidsFlagsExclusive(profile: int, genre: Value)
    ensures KidsContent(genre) == Int(0) || KidsMismatch(profile, genre) == Int(0)
    ensures profile == 1 ==> (KidsContent(genre) == Int(1) <==> KidsMismatch(profile, genre) == Int(0))
    ensures profile != 1 ==> KidsMismatch(profile, genre) == Int(0)
  {
  }

  /** `.astype(int)` on a whole column: fails on the first cell that is text or NaN. */
  function PyInts(cells: seq<Value>): (r: Result<seq<int>, Error>)
    ensures r.Success? <==> forall i :: 0 <= i < |cells| ==> PyInt(cells[i]).Success?
    ensures r.Success? ==> |r.value| == |cells|
    ensures r.Success? ==> forall i :: 0 <= i < |cells| ==> r.value[i] == PyInt(cells[i]).value
  {
    if |cells| == 0 then Success([])
    else
      var head :- PyInt(cells[0]);
      var rest :- PyInts(cells[1..]);
      assert forall i :: 1 <= i < |cells| ==> cells[i] == cells[1..][i - 1];
      Success([head] + rest)
  }

  const CrossNames: seq<string> := ["item_age", "is_kids_content", "kids_mismatch"]

  const CrossColumns: set<Column> := {Plain("item_age"), Plain("is_kids_content"), Plain("kids_mismatch")}

  function WithCross(row: Row, year: int, release: int, genre: Value, profile: int): (r: Row)
    ensures r.Keys == row.Keys + CrossColumns
    ensures r[Plain("item_age")] == Int(year - release)
    ensures r[Plain("is_kids_content")] == KidsContent(genre)
    ensures r[Plain("kids_mismatch")] == KidsMismatch(profile, genre)
    ensures forall c :: c in row && c !in CrossColumns ==> r[c] == row[c]
  {
    row[Plain("item_age") := Int(year - release)]
       [Plain("is_kids_content") := KidsContent(genre)]
       [Plain("kids_mismatch") := KidsMismatch(profile, genre)]
  }

  function CrossRows(rows: seq<Row>, year: int, releases: seq<int>, genres: seq<Value>, profiles: seq<int>)
    : (r: seq<Row>)
    requires |releases| == |rows| && |genres| == |rows| && |profiles| == |rows|
    ensures |r| == |rows|
    ensures forall i :: 0 <= i < |rows| ==> r[i] == WithCross(rows[i], year, releases[i], genres[i], profiles[i])
  {
    if |rows| == 0 then []
    else
      var head := WithCross(rows[0], year, releases[0], genres[0], profiles[0]);
      [head] + CrossRows(rows[1..], year, releases[1..], genres[1..], profiles[1..])
  }

  /** Lines 73-75 of the training run, with the current year as a parameter: the item's
      age, and the two kids flags. Fails when a source column is absent or when a release
      year or kids-profile cell is not a number. */
  function AddCrossFeatures(f: Frame, year: int): (r: Result<Frame, Error>)
    ensures (Plain("release_year") !in f.columns || Plain("genre") !in f.columns
             || Plain("is_kids_profile") !in f.columns) ==> r.Failure?
    ensures r.Success? ==> |r.value.rows| == |f.rows|
    ensures r.Success? ==> |r.value.columns| >= |f.columns| && r.value.columns[..|f.columns|] == f.columns
    ensures r.Success? && WellFormed(f) ==> forall i :: 0 <= i < |f.rows| ==>
      var row := r.value.rows[i];
      && Plain("item_age") in row && Plain("is_kids_content") in row && Plain("kids_mismatch") in row
      && PyInt(f.rows[i][Plain("release_year")]).Success?
      && row[Plain("item_age")] == Int(year - PyInt(f.rows[i][Plain("release_year")]).value)
      && (row[Plain("is_kids_content")] == Int(1) <==> f.rows[i][Plain("genre")] == Text("Kids"))
      && (row[Plain("kids_mismatch")] == Int(1) <==>
            PyInt(f.rows[i][Plain("is_kids_profile")]) == Success(1) && f.rows[i][Plain("genre")] != Text("Kids"))
    ensures r.Success? ==> forall i :: 0 <= i < |f.rows| ==> CrossColumns <= r.value.rows[i].Keys
    ensures r.Success? ==> forall i :: 0 <= i < |f.rows| ==>
      !(r.value.rows[i][Plain("is_kids_content")] == Int(1) && r.value.rows[i][Plain("kids_mismatch")] == Int(1))
    ensures r.Success? ==> forall i, c :: 0 <= i < |f.rows| && c in f.rows[i] && c !in CrossColumns ==>
      c in r.value.rows[i] && r.value.rows[i][c] == f.rows[i][c]
  {
    var releaseCells :- GetColumn(f, "release_year");
    var releases :- PyInts(releaseCells);
    var genres :- GetColumn(f, "genre");
    var profileCells :- GetColumn(f, "is_kids_profile");
    var profiles :- PyInts(profileCells);
    var rows := CrossRows(f.rows, year, releases, genres, profiles);
    CrossFlagsExclusive(f.rows, year, releases, genres, profiles);
    CrossCellsAgree(f, year, releaseCells, releases, genres, profileCells, profiles);
    Success(Frame(AppendMissing(f.columns, CrossNames), rows))
  }

  lemma CrossFlagsExclusive(rows: seq<Row>, year: int, releases: seq<int>, genres: seq<Value>, profiles: seq<int>)
    requires |releases| == |rows| && |genres| == |rows| && |profiles| == |rows|
    ensures forall i :: 0 <= i < |rows| ==>
      var row := CrossRows(rows, year, releases, genres, profiles)[i];
      !(row[Plain("is_kids_content")] == Int(1) && row[Plain("kids_mismatch")] == Int(1))
  {
    forall i | 0 <= i < |rows| {
      KidsFlagsExclusive(profiles[i], genres[i]);
    }
  }

  lemma CrossCellsAgree(f: Frame, year: int, releaseCells: seq<Value>, releases: seq<int>, genres: seq<Value>,
                        profileCells: seq<Value>, profiles: seq<int>)
    requires GetColumn(f, "release_year") == Success(releaseCells)
    requires GetColumn(f, "genre") == Success(genres)
    requires GetColumn(f, "is_kids_profile") == Success(profileCells)
    requires PyInts(releaseCells) == Success(releases) && PyInts(profileCells) == Success(profiles)
    ensures WellFormed(f) ==> forall i :: 0 <= i < |f.rows| ==>
      var row := CrossRows(f.rows, year, releases, genres, profiles)[i];
      && PyInt(f.rows[i][Plain("release_year")]).Success?
      && row[Plain("item_age")] == Int(year - PyInt(f.rows[i][Plain("release_year")]).value)
      && (row[Plain("is_kids_content")] == Int(1) <==> f.rows[i][Plain("genre")] == Text("Kids"))
      && (row[Plain("kids_mismatch")] == Int(1) <==>
            PyInt(f.rows[i][Plain("is_kids_profile")]) == Success(1) && f.rows[i][Plain("genre")] != Text("Kids"))
  {
    if WellFormed(f) {
      forall i | 0 <= i < |f.rows|
        ensures var row := CrossRows(f.rows, year, releases, genres, profiles)[i];
          && PyInt(f.rows[i][Plain("release_year")]).Success?
          && row[Plain("item_age")] == Int(year - PyInt(f.rows[i][Plain("release_year")]).value)
          && (row[Plain("is_kids_content")] == Int(1) <==> f.rows[i][Plain("genre")] == Text("Kids"))
          && (row[Plain("kids_mismatch")] == Int(1) <==>
                PyInt(f.rows[i][Plain("is_kids_profile")]) == Success(1) && f.rows[i][Plain("genre")] != Text("Kids"))
      {
        ColumnCell(f, "release_year", releaseCells, i);
        ColumnCell(f, "genre", genres, i);
        ColumnCell(f, "is_kids_profile", profileCells, i);
        CrossRowAgrees(f.rows[i], year, releases[i], genres[i], profiles[i]);
      }
    }
  }

  /** The derived cells of one row, in terms of the row's own cells. */
  lemma CrossRowAgrees(row: Row, year: int, release: int, genre: Value, profile: int)
    ensures var r := WithCross(row, year, release, genre, profile);
      && r[Plain("item_age")] == Int(year - release)
      && (r[Plain("is_kids_content")] == Int(1) <==> genre == Text("Kids"))
      && (r[Plain("kids_mismatch")] == Int(1) <==> profile == 1 && genre != Text("Kids"))
  {
  }

  /** In a well-formed frame, a column read back holds each row's own cell. */
  lemma ColumnCell(f: Frame, name: string, cells: seq<Value>, i: int)
    requires WellFormed(f) && GetColumn(f, name) == Success(cells) && 0 <= i < |f.rows|
    ensures Plain(name) in f.rows[i] && f.rows[i][Plain(name)] == cells[i]
  {
    assert f.rows[i].Keys == ColumnSet(f.columns);
  }

  // ---------------------------------------------------------------- feature matrices

  /** The target and the columns left out as leaking or unavailable online. */
  const NonFeatureNames: seq<string> := ["label", "timestamp", "watch_minutes"]

  /** `split.drop(columns=[target] + drop_cols)`. */
  function FeatureFrame(split: Frame): (r: Result<Frame, Error>)
    ensures r.Failure? <==> exists n :: n in NonFeatureNames && Plain(n) !in split.columns
    ensures r.Success? ==> |r.value.rows| == |split.rows|
    ensures r.Success? ==> forall n :: n in NonFeatureNames ==> Plain(n) !in r.value.columns
    ensures r.Success? ==> forall n :: Plain(n) in r.value.columns <==> Plain(n) in split.columns && n !in NonFeatureNames
  {
    DropColumns(split, NonFeatureNames)
  }

  /** The three model matrices, encoded and aligned on the training columns, and the
      query-group sizes of the training and validation rows. */
  datatype Matrices = Matrices(train: Frame, val: Frame, test: Frame, trainGroups: seq<int>, valGroups: seq<int>)

  /** Lines 94-119: drop the non-feature columns, one-hot encode each split, then
      `reindex` validation and test onto the training columns; the group sizes are those
      of `_build_group_sizes` (see `GroupSizes`). */
  function BuildMatrices(train: Frame, val: Frame, test: Frame): (r: Result<Matrices, Error>)
    ensures r.Success? ==> r.value.val.columns == r.value.train.columns
    ensures r.Success? ==> r.value.test.columns == r.value.train.columns
    ensures r.Success? ==>
      |r.value.train.rows| == |train.rows| && |r.value.val.rows| == |val.rows| && |r.value.test.rows| == |test.rows|
    ensures r.Success? ==> forall n :: n in NonFeatureNames ==> Plain(n) !in r.value.train.columns
    ensures r.Success? ==> forall n :: n in CategoricalFields ==> Plain(n) !in r.value.train.columns
    ensures r.Success? ==> forall n :: Plain(n) in r.value.train.columns <==>
      Plain(n) in train.columns && n !in NonFeatureNames && n !in CategoricalFields
    ensures (exists n :: n in NonFeatureNames && Plain(n) !in train.columns) ==> r.Failure?
    ensures (exists n :: n in CategoricalFields && Plain(n) !in train.columns) ==> r.Failure?
    ensures r.Success? ==>
      && Total(r.value.trainGroups) == Count(MapSeq(train.rows, GroupKeyOf), Complete)
      && Total(r.value.valGroups) == Count(MapSeq(val.rows, GroupKeyOf), Complete)
    ensures r.Success? && AlignedQueries(MapSeq(train.rows, GroupKeyOf)) ==>
      r.value.trainGroups == RunLengths(MapSeq(train.rows, GroupKeyOf))
    ensures r.Success? && AlignedQueries(MapSeq(val.rows, GroupKeyOf)) ==>
      r.value.valGroups == RunLengths(MapSeq(val.rows, GroupKeyOf))
  {
    var ftrain :- FeatureFrame(train);
    var fval :- FeatureFrame(val);
    var ftest :- FeatureFrame(test);
    var xtrain :- OneHot(ftrain, CategoricalFields);
    var xval :- EncodeAligned(fval, CategoricalFields, xtrain.columns);
    var xtest :- EncodeAligned(ftest, CategoricalFields, xtrain.columns);
    Success(Matrices(xtrain, xval, xtest, GroupSizes(train), GroupSizes(val)))
  }

  /** `_build_group_sizes(df[group_cols])`: one size per distinct complete
      `(user_id, session_id)` key in order of first appearance, counting every row with
      that key wherever it lies; rows with a missing key part are not counted. When each
      query's rows are consecutive and complete, the sizes are the run lengths the ranker
      needs. */
  function GroupSizes(f: Frame): (r: seq<int>)
    ensures |r| == |Keys(Filter(MapSeq(f.rows, GroupKeyOf), Complete), SameKey)|
    ensures forall j :: 0 <= j < |r| ==> r[j] > 0
    ensures forall j :: 0 <= j < |r| ==>
      var kept := Filter(MapSeq(f.rows, GroupKeyOf), Complete);
      r[j] == MassOf(kept, SameKey, One, Keys(kept, SameKey)[j])
    ensures Total(r) == Count(MapSeq(f.rows, GroupKeyOf), Complete) <= |f.rows|
    ensures AlignedQueries(MapSeq(f.rows, GroupKeyOf)) ==> r == RunLengths(MapSeq(f.rows, GroupKeyOf))
  {
    var keys := MapSeq(f.rows, GroupKeyOf);
    AlignedSizesAreRuns(keys);
    GroupSizesAsWritten(keys)
  }

  /** `"features": list(X_train.columns)`: the schema saved with the model. */
  function FeatureSchema(m: Matrices): seq<Column>
  {
    m.train.columns
  }

  // ---------------------------------------------------------------- query groups

  /** A row's query group: its `(user_id, session_id)` pair. */
  type GroupKey = (Value, Value)

  function GroupKeyOf(row: Row): GroupKey
  {
    (Cell(row, Plain("user_id")), Cell(row, Plain("session_id")))
  }

  function SameKey(k: GroupKey): GroupKey
  {
    k
  }

  /** `groupby` leaves out rows whose key has a missing part. */
  predicate Complete(k: GroupKey)
  {
    k.0 != Null && k.1 != Null
  }

  function Occurrences(ks: seq<GroupKey>, keys: seq<GroupKey>): (r: seq<int>)
    ensures |r| == |ks|
    ensures forall j :: 0 <= j < |ks| ==> r[j] == MassOf(keys, SameKey, One, ks[j])
    ensures Total(r) == SumMass(ks, keys, SameKey, One)
  {
    if |ks| == 0 then [] else [MassOf(keys, SameKey, One, ks[0])] + Occurrences(ks[1..], keys)
  }

  /** `_build_group_sizes` as written: `groupby(["user_id", "session_id"], sort=False).size()`
      gives, for each distinct complete key in order of first appearance, the number of
      rows carrying it, wherever those rows are. */
  function GroupSizesAsWritten(keys: seq<GroupKey>): (r: seq<int>)
    ensures |r| == |Keys(Filter(keys, Complete), SameKey)|
    ensures forall j :: 0 <= j < |r| ==> r[j] > 0
    ensures forall j :: 0 <= j < |r| ==>
      r[j] == MassOf(Filter(keys, Complete), SameKey, One, Keys(Filter(keys, Complete), SameKey)[j])
    ensures Total(r) == Count(keys, Complete)
  {
    var kept := Filter(keys, Complete);
    var ks := Keys(kept, SameKey);
    forall j | 0 <= j < |ks| ensures MassOf(kept, SameKey, One, ks[j]) > 0 {
      assert ks[j] in ks;
      MassOfOneIsCount(kept, SameKey, ks[j]);
    }
    GroupMassesSumToTotal(kept, SameKey, One);
    SumOneIsLength(kept);
    Occurrences(ks, kept)
  }

  /** The length of the run of equal keys at the front. */
  function RunOf<K(==)>(keys: seq<K>): (n: nat)
    requires |keys| > 0
    ensures 1 <= n <= |keys|
    ensures forall i :: 0 <= i < n ==> keys[i] == keys[0]
    ensures n < |keys| ==> keys[n] != keys[0]
  {
    if |keys| == 1 || keys[1] != keys[0] then 1
    else
      var m := RunOf(keys[1..]);
      assert forall i :: 1 <= i < 1 + m ==> keys[i] == keys[1..][i - 1];
      1 + m
  }

  /** The group sizes LightGBM needs: the lengths of the maximal runs of consecutive rows
      with the same key, so that group `j` is exactly the `j`-th run. */
  function RunLengths<K(==)>(keys: seq<K>): (r: seq<int>)
    ensures Total(r) == |keys|
    ensures forall j :: 0 <= j < |r| ==> r[j] > 0
    decreases |keys|
  {
    if |keys| == 0 then []
    else
      var n := RunOf(keys);
      var rest := RunLengths(keys[n..]);
      assert ([n] + rest)[1..] == rest;
      [n] + rest
  }

  /** How the ranker reads rows against sizes: consecutive blocks of the given lengths. */
  function Chunks<K>(keys: seq<K>, sizes: seq<int>): (r: seq<seq<K>>)
    ensures |r| == |sizes|
    decreases |sizes|
  {
    if |sizes| == 0 then []
    else
      var n := if sizes[0] < 0 then 0 else if sizes[0] > |keys| then |keys| else sizes[0];
      [keys[..n]] + Chunks(keys[n..], sizes[1..])
  }

  predicate Homogeneous<K(==)>(c: seq<K>)
  {
    forall i :: 0 <= i < |c| ==> c[i] == c[0]
  }

  /** With run lengths every block the ranker forms is one query: non-empty and a single
      key. */
  lemma {:induction false} RunChunksHomogeneous<K>(keys: seq<K>)
    ensures forall j :: 0 <= j < |Chunks(keys, RunLengths(keys))| ==>
      |Chunks(keys, RunLengths(keys))[j]| > 0 && Homogeneous(Chunks(keys, RunLengths(keys))[j])
    decreases |keys|
  {
    if |keys| > 0 {
      var n := RunOf(keys);
      RunChunksCons(keys);
      RunChunksHomogeneous(keys[n..]);
    }
  }

  /** Consecutive blocks carry different keys, so no query is cut in two. */
  ghost predicate Maximal<K>(ch: seq<seq<K>>)
  {
    forall i, j :: 0 <= i < j < |ch| && j == i + 1 ==> |ch[i]| > 0 && |ch[j]| > 0 && ch[i][0] != ch[j][0]
  }

  lemma {:induction false} RunChunksMaximal<K>(keys: seq<K>)
    ensures Maximal(Chunks(keys, RunLengths(keys)))
    decreases |keys|
  {
    if |keys| > 0 {
      var n := RunOf(keys);
      RunChunksCons(keys);
      var tail := Chunks(keys[n..], RunLengths(keys[n..]));
      RunChunksMaximal(keys[n..]);
      RunChunksHomogeneous(keys[n..]);
      if |tail| > 0 {
        RunChunksCons(keys[n..]);
        assert tail[0][0] == keys[n..][0];
      }
      MaximalCons(keys[..n], tail);
    }
  }

  lemma MaximalCons<K>(c: seq<K>, tail: seq<seq<K>>)
    requires Maximal(tail) && |c| > 0
    requires |tail| > 0 ==> |tail[0]| > 0 && tail[0][0] != c[0]
    ensures Maximal([c] + tail)
  {
    var ch := [c] + tail;
    forall i, j | 0 <= i < j < |ch| && j == i + 1 ensures |ch[i]| > 0 && |ch[j]| > 0 && ch[i][0] != ch[j][0] {
      if i > 0 {
        assert ch[i] == tail[i - 1] && ch[j] == tail[j - 1];
      }
    }
  }

  /** The blocks, read in order, are exactly the rows. */
  lemma {:induction false} RunChunksCover<K>(keys: seq<K>)
    ensures Flatten(Chunks(keys, RunLengths(keys))) == keys
    decreases |keys|
  {
    if |keys| > 0 {
      RunChunksCover(keys[RunOf(keys)..]);
      RunChunksCoverStep(keys);
    }
  }

  lemma RunChunksCoverStep<K>(keys: seq<K>)
    requires |keys| > 0
    requires Flatten(Chunks(keys[RunOf(keys)..], RunLengths(keys[RunOf(keys)..]))) == keys[RunOf(keys)..]
    ensures Flatten(Chunks(keys, RunLengths(keys))) == keys
  {
    var n := RunOf(keys);
    var tail := Chunks(keys[n..], RunLengths(keys[n..]));
    var ch := Chunks(keys, RunLengths(keys));
    RunChunksCons(keys);
    assert ch[0] == keys[..n] && ch[1..] == tail;
    assert Flatten(ch) == ch[0] + Flatten(ch[1..]);
    SplitAt(keys, n);
  }

  lemma RunChunksCons<K>(keys: seq<K>)
    requires |keys| > 0
    ensures Chunks(keys, RunLengths(keys))
         == [keys[..RunOf(keys)]] + Chunks(keys[RunOf(keys)..], RunLengths(keys[RunOf(keys)..]))
  {
    var n := RunOf(keys);
    var rest := RunLengths(keys[n..]);
    assert RunLengths(keys) == [n] + rest;
    assert ([n] + rest)[1..] == rest;
  }

  function Flatten<K>(ch: seq<seq<K>>): seq<K>
  {
    if |ch| == 0 then [] else ch[0] + Flatten(ch[1..])
  }

  /** Every row of a query lies between any two rows of that query: each key's rows
      are consecutive. */
  predicate Contiguous<K(==)>(keys: seq<K>)
  {
    forall i, j, k :: 0 <= i < j < k < |keys| && keys[i] == keys[k] ==> keys[j] == keys[i]
  }

  /** The rows as `_build_group_sizes` needs them: every key complete, and every
      query's rows consecutive. */
  predicate AlignedQueries(keys: seq<GroupKey>)
  {
    (forall i :: 0 <= i < |keys| ==> Complete(keys[i])) && Contiguous(keys)
  }

  /** When the rows are aligned, `groupby(sort=False).size()` is the run lengths: the
      as-written sizes are right exactly on inputs whose queries are not interleaved. */
  lemma AlignedSizesAreRuns(keys: seq<GroupKey>)
    ensures AlignedQueries(keys) ==> GroupSizesAsWritten(keys) == RunLengths(keys)
  {
    if AlignedQueries(keys) {
      FilterAllKept(keys, Complete);
      RunsAreOccurrences(keys);
    }
  }

  lemma {:induction false} RunsAreOccurrences(keys: seq<GroupKey>)
    requires Contiguous(keys)
    ensures Occurrences(Keys(keys, SameKey), keys) == RunLengths(keys)
    decreases |keys|
  {
    if |keys| > 0 {
      RunHeadLeaves(keys);
      RunsAreOccurrences(keys[RunOf(keys)..]);
      RunsStep(keys);
    }
  }

  /** The step of `RunsAreOccurrences`: a first run whose key does not come back adds
      its length in front of the sizes of the rest. */
  lemma RunsStep(keys: seq<GroupKey>)
    requires |keys| > 0 && keys[0] !in keys[RunOf(keys)..]
    requires Occurrences(Keys(keys[RunOf(keys)..], SameKey), keys[RunOf(keys)..]) == RunLengths(keys[RunOf(keys)..])
    ensures Occurrences(Keys(keys, SameKey), keys) == RunLengths(keys)
  {
    var n, k0 := RunOf(keys), keys[0];
    var ks := Keys(keys[n..], SameKey);
    KeysAfterRun(keys);
    FirstRunCounts(keys);
    assert ([k0] + ks)[1..] == ks;
    assert Occurrences([k0] + ks, keys) == [MassOf(keys, SameKey, One, k0)] + Occurrences(ks, keys);
    assert RunLengths(keys) == [n] + RunLengths(keys[n..]);
  }

  /** With the first run's key absent afterwards, that key counts the run's length and
      every later key counts as it does after the run. */
  lemma FirstRunCounts(keys: seq<GroupKey>)
    requires |keys| > 0 && keys[0] !in keys[RunOf(keys)..]
    ensures MassOf(keys, SameKey, One, keys[0]) == RunOf(keys)
    ensures Occurrences(Keys(keys[RunOf(keys)..], SameKey), keys)
         == Occurrences(Keys(keys[RunOf(keys)..], SameKey), keys[RunOf(keys)..])
  {
    var n, k0 := RunOf(keys), keys[0];
    var run, rest := keys[..n], keys[n..];
    var ks := Keys(rest, SameKey);
    forall j | 0 <= j < |ks| ensures ks[j] != k0 {
      assert ks[j] in ks;
    }
    SplitAt(keys, n);
    MassOfConcat(run, rest, SameKey, One, k0);
    MassOfRun(run, k0);
    MassOfAbsentKey(rest, SameKey, One, k0);
    OccurrencesDropRun(ks, run, rest, k0);
  }

  /** The key of the first run leaves with the run, and the rows after it are still
      contiguous. */
  lemma RunHeadLeaves<K>(keys: seq<K>)
    requires |keys| > 0 && Contiguous(keys)
    ensures keys[0] !in keys[RunOf(keys)..]
    ensures Contiguous(keys[RunOf(keys)..])
  {
    RunKeyLeaves(keys);
    ContiguousSuffix(keys, RunOf(keys));
  }

  lemma ContiguousAt<K>(keys: seq<K>, i: int, j: int, k: int)
    requires Contiguous(keys) && 0 <= i < j < k < |keys| && keys[i] == keys[k]
    ensures keys[j] == keys[i]
  {
  }

  lemma RunKeyLeaves<K>(keys: seq<K>)
    requires |keys| > 0 && Contiguous(keys)
    ensures keys[0] !in keys[RunOf(keys)..]
  {
    var n := RunOf(keys);
    var rest := keys[n..];
    forall t | 0 <= t < |rest| ensures rest[t] != keys[0] {
      assert rest[t] == keys[n + t];
      if t > 0 && rest[t] == keys[0] {
        ContiguousAt(keys, 0, n, n + t);
      }
    }
  }

  lemma ContiguousSuffix<K>(keys: seq<K>, n: nat)
    requires n <= |keys| && Contiguous(keys)
    ensures Contiguous(keys[n..])
  {
    var rest := keys[n..];
    forall i, j, k | 0 <= i < j < k < |rest| && rest[i] == rest[k] ensures rest[j] == rest[i] {
      assert rest[i] == keys[n + i] && rest[j] == keys[n + j] && rest[k] == keys[n + k];
      ContiguousAt(keys, n + i, n + j, n + k);
    }
  }

  /** The distinct keys are the first run's key followed by the distinct keys after it. */
  lemma KeysAfterRun(keys: seq<GroupKey>)
    requires |keys| > 0 && keys[0] !in keys[RunOf(keys)..]
    ensures Keys(keys, SameKey) == [keys[0]] + Keys(keys[RunOf(keys)..], SameKey)
  {
    var n, k0 := RunOf(keys), keys[0];
    var seen: set<GroupKey> := {} + {k0};
    assert seen == {k0};
    assert Keys(keys, SameKey) == [k0] + KeysFrom(keys[1..], SameKey, seen);
    KeysFromSkipSeen(keys[1..], n - 1, seen);
    assert keys[1..][n - 1..] == keys[n..];
    KeysFromUnseen(keys[n..], {}, k0);
  }

  lemma {:induction false} KeysFromSkipSeen(s: seq<GroupKey>, j: nat, seen: set<GroupKey>)
    requires j <= |s| && forall i :: 0 <= i < j ==> s[i] in seen
    ensures KeysFrom(s, SameKey, seen) == KeysFrom(s[j..], SameKey, seen)
    decreases j
  {
    if j > 0 {
      assert SameKey(s[0]) in seen;
      assert forall i :: 0 <= i < j - 1 ==> s[1..][i] == s[i + 1];
      KeysFromSkipSeen(s[1..], j - 1, seen);
      assert s[1..][j - 1..] == s[j..];
    }
  }

  lemma {:induction false} KeysFromUnseen(s: seq<GroupKey>, seen: set<GroupKey>, x: GroupKey)
    requires x !in s
    ensures KeysFrom(s, SameKey, seen + {x}) == KeysFrom(s, SameKey, seen)
  {
    if |s| > 0 {
      assert s[0] != x && x !in s[1..];
      if s[0] in seen {
        KeysFromUnseen(s[1..], seen, x);
      } else {
        assert seen + {x} + {s[0]} == seen + {s[0]} + {x};
        KeysFromUnseen(s[1..], seen + {s[0]}, x);
      }
    }
  }

  /** A run of one key holds that key once per row and no other key. */
  lemma {:induction false} MassOfRun(c: seq<GroupKey>, k: GroupKey)
    requires Homogeneous(c)
    ensures MassOf(c, SameKey, One, k) == if |c| > 0 && c[0] == k then |c| else 0
  {
    if |c| > 0 {
      assert Homogeneous(c[1..]) by {
        assert forall i :: 0 <= i < |c| - 1 ==> c[1..][i] == c[i + 1];
      }
      MassOfRun(c[1..], k);
      assert |c| > 1 ==> c[1..][0] == c[0];
    }
  }

  /** Keys other than the run's count the same with or without the run in front. */
  lemma OccurrencesDropRun(ks: seq<GroupKey>, run: seq<GroupKey>, rest: seq<GroupKey>, k0: GroupKey)
    requires Homogeneous(run) && |run| > 0 && run[0] == k0
    requires forall j :: 0 <= j < |ks| ==> ks[j] != k0
    ensures Occurrences(ks, run + rest) == Occurrences(ks, rest)
  {
    forall j | 0 <= j < |ks|
      ensures MassOf(run + rest, SameKey, One, ks[j]) == MassOf(rest, SameKey, One, ks[j])
    {
      MassOfConcat(run, rest, SameKey, One, ks[j]);
      MassOfRun(run, ks[j]);
    }
  }

  /** The as-written sizes misalign as soon as a group's rows are not consecutive: for
      two different keys in the row order A, B, A the ranker is told that the first query
      has two rows, and those two rows belong to different groups; the run lengths give
      three one-row queries instead. */
  lemma GroupSizesMisalign(a: GroupKey, b: GroupKey)
    requires a != b && Complete(a) && Complete(b)
    ensures GroupSizesAsWritten([a, b, a]) == [2, 1]
    ensures Chunks([a, b, a], GroupSizesAsWritten([a, b, a]))[0] == [a, b]
    ensures !Homogeneous(Chunks([a, b, a], GroupSizesAsWritten([a, b, a]))[0])
    ensures RunLengths([a, b, a]) == [1, 1, 1]
  {
    AsWrittenSizesOfSplitGroup(a, b);
    RunLengthsOfSplitGroup(a, b);
    var keys := [a, b, a];
    assert Chunks(keys, [2, 1])[0] == keys[..2];
    assert keys[..2] == [a, b];
  }

  lemma AsWrittenSizesOfSplitGroup(a: GroupKey, b: GroupKey)
    requires a != b && Complete(a) && Complete(b)
    ensures GroupSizesAsWritten([a, b, a]) == [2, 1]
  {
    var keys := [a, b, a];
    assert keys[1..] == [b, a] && [b, a][1..] == [a] && [a][1..] == [];
    assert Filter(keys, Complete) == keys;
    assert SameKey(a) == a && SameKey(b) == b;
    var seen1: set<GroupKey> := {} + {a};
    var seen2 := seen1 + {b};
    assert a in seen2 && b !in seen1;
    assert KeysFrom([a], SameKey, seen2) == [];
    assert KeysFrom([b, a], SameKey, seen1) == [b];
    assert Keys(keys, SameKey) == [a, b];
    assert MassOf([a], SameKey, One, a) == 1 && MassOf([a], SameKey, One, b) == 0;
    assert MassOf([b, a], SameKey, One, a) == 1 && MassOf([b, a], SameKey, One, b) == 1;
    assert MassOf(keys, SameKey, One, a) == 2 && MassOf(keys, SameKey, One, b) == 1;
  }

  lemma RunLengthsOfSplitGroup(a: GroupKey, b: GroupKey)
    requires a != b
    ensures RunLengths([a, b, a]) == [1, 1, 1]
  {
    var keys := [a, b, a];
    assert keys[1..] == [b, a] && [b, a][1..] == [a] && [a][1..] == [];
    assert RunOf(keys) == 1 && RunOf([b, a]) == 1 && RunOf([a]) == 1;
    assert RunLengths([a]) == [1];
    assert RunLengths([b, a]) == [1] + RunLengths([a]);
  }
}
