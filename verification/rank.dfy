/** Online ranking of candidate items for one user: one feature row per candidate
    (user fields, then item fields, then request context, then derived fields and
    placeholders for the offline aggregates), the shared one-hot encoding aligned on the
    saved feature schema, an opaque scorer, and the candidates by descending score. */
module Rank {
  import opened Wrappers
  import opened Errors
  import opened Seqs
  import opened Sorting
  import opened Frames
  import opened Records
  import opened Encoding
  import TrainLtr
  import ContextFeatures

  /** The offline aggregates, not available online, each defaulted to 0.0. */
  const AggregatePlaceholders: seq<string> := [
    "u_watch_mins_30d", "u_plays_30d", "u_clicks_30d", "u_play_rate_30d",
    "i_watch_mins_30d", "i_plays_30d", "i_clicks_30d", "i_play_rate_30d"]

  const ContextNames: seq<string> := ["device", "hour", "day_of_week", "is_prime_time", "is_weekend"]

  /** `int(context.get(name, default))`. */
  function ContextInt(ctx: Dict, name: string, default: int): Result<int, Error>
  {
    PyInt(Get(ctx, name, Int(default)))
  }

  /** `1 if 19 <= hour <= 23 else 0`. */
  function PrimeTimeOnline(hour: int): (v: Value)
    ensures v == Int(1) <==> 19 <= hour <= 23
    ensures v == Int(0) || v == Int(1)
  {
    if 19 <= hour <= 23 then Int(1) else Int(0)
  }

  /** `1 if day_of_week in [5, 6] else 0`. */
  function WeekendOnline(dow: int): (v: Value)
    ensures v == Int(1) <==> dow == 5 || dow == 6
    ensures v == Int(0) || v == Int(1)
  {
    if dow in [5, 6] then Int(1) else Int(0)
  }

  /** The flags derived online are the flags derived offline from a timestamp: for the
      hour and weekday of any instant both paths give the same cells. */
  lemma OnlineFlagsMatchOffline(ts: int)
    ensures PrimeTimeOnline(ContextFeatures.HourOf(ts)) == ContextFeatures.PrimeTimeOffline(ContextFeatures.HourOf(ts))
    ensures WeekendOnline(ContextFeatures.DayOfWeek(ts)) == ContextFeatures.WeekendOffline(ContextFeatures.DayOfWeek(ts))
    ensures PrimeTimeOnline(ContextFeatures.HourOf(ts)) == Int(1) <==> 19 <= ContextFeatures.HourOf(ts) <= 23
    ensures WeekendOnline(ContextFeatures.DayOfWeek(ts)) == Int(1) <==>
      ContextFeatures.DayOfWeek(ts) == 5 || ContextFeatures.DayOfWeek(ts) == 6
  {
  }

  const ContextColumns: set<Column> :=
    {Plain("device"), Plain("hour"), Plain("day_of_week"), Plain("is_prime_time"), Plain("is_weekend")}

  const DerivedColumns: set<Column> := {Plain("item_age"), Plain("is_kids_content"), Plain("kids_mismatch")}

  /** The context block of a row: device, hour, weekday and the two flags. */
  function ContextBlock(device: Value, hour: int, dow: int): (d: Dict)
    ensures Valid(d)
    ensures d.cells.Keys == ContextColumns
    ensures d.cells[Plain("device")] == device
    ensures d.cells[Plain("hour")] == Int(hour) && d.cells[Plain("day_of_week")] == Int(dow)
    ensures d.cells[Plain("is_prime_time")] == PrimeTimeOnline(hour)
    ensures d.cells[Plain("is_weekend")] == WeekendOnline(dow)
  {
    var order := [Plain("device"), Plain("hour"), Plain("day_of_week"), Plain("is_prime_time"), Plain("is_weekend")];
    assert NoDups(order) by {
      assert |"device"| == 6 && |"hour"| == 4 && |"day_of_week"| == 11;
      assert |"is_prime_time"| == 13 && |"is_weekend"| == 10;
    }
    Dict(order, map[Plain("device") := device, Plain("hour") := Int(hour), Plain("day_of_week") := Int(dow),
                    Plain("is_prime_time") := PrimeTimeOnline(hour), Plain("is_weekend") := WeekendOnline(dow)])
  }

  function SetDefaults(d: Dict, names: seq<string>, v: Value): (r: Dict)
    ensures r.cells.Keys == d.cells.Keys + ColumnSet(PlainColumns(names))
    ensures forall c :: c in d.cells ==> r.cells[c] == d.cells[c]
    ensures forall c :: c in r.cells && c !in d.cells ==> r.cells[c] == v
    ensures Valid(d) ==> Valid(r)
    decreases |names|
  {
    if |names| == 0 then d
    else
      var r := SetDefaults(SetDefault(d, names[0], v), names[1..], v);
      assert ColumnSet(PlainColumns(names)) == {Plain(names[0])} + ColumnSet(PlainColumns(names[1..]));
      r
  }

  /** `row.update(user_row); row.update(it); row.update({...context...})`. */
  function MergedRow(user: Dict, item: Dict, block: Dict): (r: Dict)
    ensures r.cells.Keys == user.cells.Keys + item.cells.Keys + block.cells.Keys
    ensures forall c :: c in block.cells ==> r.cells[c] == block.cells[c]
    ensures forall c :: c in item.cells && c !in block.cells ==> r.cells[c] == item.cells[c]
    ensures forall c :: c in user.cells && c !in item.cells && c !in block.cells ==> r.cells[c] == user.cells[c]
    ensures Valid(user) && Valid(item) && Valid(block) ==> Valid(r)
  {
    assert Valid(EmptyDict);
    Update(Update(Update(EmptyDict, user), item), block)
  }

  /** The three derived cells, in the order the row receives them. */
  function DerivedBlock(age: Value, genre: Value, profile: int): (d: Dict)
    ensures Valid(d)
    ensures d.cells.Keys == DerivedColumns
    ensures d.cells[Plain("item_age")] == age
    ensures d.cells[Plain("is_kids_content")] == TrainLtr.KidsContent(genre)
    ensures d.cells[Plain("kids_mismatch")] == TrainLtr.KidsMismatch(profile, genre)
  {
    var order := [Plain("item_age"), Plain("is_kids_content"), Plain("kids_mismatch")];
    assert NoDups(order) by {
      assert |"item_age"| == 8 && |"is_kids_content"| == 15 && |"kids_mismatch"| == 13;
    }
    Dict(order, map[Plain("item_age") := age, Plain("is_kids_content") := TrainLtr.KidsContent(genre),
                    Plain("kids_mismatch") := TrainLtr.KidsMismatch(profile, genre)])
  }

  /** `row["item_age"] = ...; row["is_kids_content"] = ...; row["kids_mismatch"] = ...`. */
  function WithDerived(row: Dict, age: Value, genre: Value, profile: int): (r: Dict)
    ensures r.cells.Keys == row.cells.Keys + DerivedColumns
    ensures r.cells[Plain("item_age")] == age
    ensures r.cells[Plain("is_kids_content")] == TrainLtr.KidsContent(genre)
    ensures r.cells[Plain("kids_mismatch")] == TrainLtr.KidsMismatch(profile, genre)
    ensures forall c :: c in row.cells && c !in DerivedColumns ==> r.cells[c] == row.cells[c]
    ensures Valid(row) ==> Valid(r)
  {
    Update(row, DerivedBlock(age, genre, profile))
  }

  /** The placeholders and the session id, set only where absent. */
  function WithDefaults(row: Dict, placeholders: seq<string>, session: Value): (r: Dict)
    requires "session_id" !in placeholders
    ensures r.cells.Keys == row.cells.Keys + ColumnSet(PlainColumns(placeholders)) + {Plain("session_id")}
    ensures forall c :: c in row.cells ==> r.cells[c] == row.cells[c]
    ensures forall n :: n in placeholders && Plain(n) !in row.cells ==> r.cells[Plain(n)] == Real(0.0)
    ensures Plain("session_id") !in row.cells ==> r.cells[Plain("session_id")] == session
    ensures Valid(row) ==> Valid(r)
  {
    var filled := SetDefaults(row, placeholders, Real(0.0));
    assert Plain("session_id") !in row.cells ==> Plain("session_id") !in filled.cells;
    SetDefault(filled, "session_id", session)
  }

  /** `int(current_year) - int(release_year)`: the item's age in years, failing where `int()`
      fails on the release year. */
  function ItemAge(year: int, release: Value): (r: Result<Value, Error>)
    ensures r.Success? <==> PyInt(release).Success?
    ensures release.Int? ==> r == Success(Int(year - release.i))
  {
    var y :- PyInt(release);
    Success(Int(year - y))
  }

  /** Lines 42-51 on a row that already holds the user, item and context fields: the
      derived cells and the defaults. Fails where `int()` does, on the release year or
      the kids-profile flag. */
  function CompleteRow(row: Dict, year: int, session: Value, placeholders: seq<string>): (r: Result<Dict, Error>)
    requires "session_id" !in placeholders
    requires forall n :: n in placeholders ==> Plain(n) !in DerivedColumns
    ensures r.Success? <==>
      PyInt(Get(row, "release_year", Int(2020))).Success? && PyInt(Get(row, "is_kids_profile", Int(0))).Success?
    ensures r.Failure? ==> r.error == NotAnInteger
    ensures r.Success? ==> DerivedColumns <= r.value.cells.Keys
    ensures r.Success? ==> ItemAge(year, Get(row, "release_year", Int(2020))) == Success(r.value.cells[Plain("item_age")])
    ensures r.Success? ==> r.value.cells[Plain("is_kids_content")] == TrainLtr.KidsContent(Get(row, "genre", Null))
    ensures r.Success? ==>
      r.value.cells[Plain("kids_mismatch")] ==
        TrainLtr.KidsMismatch(PyInt(Get(row, "is_kids_profile", Int(0))).value, Get(row, "genre", Null))
    ensures r.Success? ==>
      !(r.value.cells[Plain("is_kids_content")] == Int(1) && r.value.cells[Plain("kids_mismatch")] == Int(1))
    ensures r.Success? ==>
      forall c :: c in row.cells && c !in DerivedColumns ==> c in r.value.cells && r.value.cells[c] == row.cells[c]
    ensures r.Success? ==>
      forall n :: n in placeholders && Plain(n) !in row.cells ==>
        Plain(n) in r.value.cells && r.value.cells[Plain(n)] == Real(0.0)
    ensures r.Success? && Plain("session_id") !in row.cells ==>
      Plain("session_id") in r.value.cells && r.value.cells[Plain("session_id")] == session
    ensures r.Success? && Valid(row) ==> Valid(r.value)
  {
    var age := ItemAge(year, Get(row, "release_year", Int(2020)));
    var profile := PyInt(Get(row, "is_kids_profile", Int(0)));
    if age.Failure? || profile.Failure? then Failure(NotAnInteger)
    else
      TrainLtr.KidsFlagsExclusive(profile.value, Get(row, "genre", Null));
      Success(Completed(row, age.value, Get(row, "genre", Null), profile.value, placeholders, session))
  }

  /** The derived cells, then the defaults, which fill only absent cells: the derived
      cells and every other cell of the row survive them. */
  function Completed(row: Dict, age: Value, genre: Value, profile: int, placeholders: seq<string>,
                     session: Value): (out: Dict)
    requires "session_id" !in placeholders
    requires forall n :: n in placeholders ==> Plain(n) !in DerivedColumns
    ensures DerivedColumns <= out.cells.Keys
    ensures out.cells[Plain("item_age")] == age
    ensures out.cells[Plain("is_kids_content")] == TrainLtr.KidsContent(genre)
    ensures out.cells[Plain("kids_mismatch")] == TrainLtr.KidsMismatch(profile, genre)
    ensures forall c :: c in row.cells && c !in DerivedColumns ==> c in out.cells && out.cells[c] == row.cells[c]
    ensures forall n :: n in placeholders && Plain(n) !in row.cells ==>
      Plain(n) in out.cells && out.cells[Plain(n)] == Real(0.0)
    ensures Plain("session_id") !in row.cells ==>
      Plain("session_id") in out.cells && out.cells[Plain("session_id")] == session
    ensures Valid(row) ==> Valid(out)
  {
    var derived := WithDerived(row, age, genre, profile);
    var out := WithDefaults(derived, placeholders, session);
    SessionIsNotDerived();
    assert out.cells[Plain("item_age")] == derived.cells[Plain("item_age")];
    assert out.cells[Plain("is_kids_content")] == derived.cells[Plain("is_kids_content")];
    assert out.cells[Plain("kids_mismatch")] == derived.cells[Plain("kids_mismatch")];
    out
  }

  /** Names usable as placeholders: not the session id, and neither a derived nor a
      context cell, so the defaults never shadow a computed value. */
  predicate Placeholders(ps: seq<string>)
  {
    && "session_id" !in ps
    && (forall n :: n in ps ==> Plain(n) !in DerivedColumns && Plain(n) !in ContextColumns)
  }

  /** The aggregate placeholders of the online path qualify. */
  lemma StandardPlaceholders()
    ensures Placeholders(AggregatePlaceholders)
  {
    forall i | 0 <= i < |AggregatePlaceholders|
      ensures |AggregatePlaceholders[i]| > 10 && AggregatePlaceholders[i][1] == '_'
    {
    }
    assert |"session_id"| == 10;
    assert "is_kids_content"[1] == 's' && "is_prime_time"[1] == 's' && "is_weekend"[1] == 's';
    assert |"device"| == 6 && |"hour"| == 4 && "day_of_week"[1] == 'a';
    assert |"item_age"| == 8 && |"kids_mismatch"| == 13;
  }

  /** The session id is not a derived cell. */
  lemma SessionIsNotDerived()
    ensures Plain("session_id") !in DerivedColumns
  {
    assert |"session_id"| == 10 && |"item_age"| == 8 && |"is_kids_content"| == 15 && |"kids_mismatch"| == 13;
  }

  /** The feature row of one candidate (lines 31-51): the user's fields, overridden by the
      item's, overridden by the request context, then the derived cells and the defaults.
      Fails where Python's `int()` would: on a context hour, weekday or year, the release
      year or the kids-profile flag that is text or NaN. */
  function CandidateRow(user: Dict, item: Dict, ctx: Dict, ps: seq<string>): (r: Result<Dict, Error>)
    requires Placeholders(ps)
    ensures r.Failure? ==> r.error == NotAnInteger
    ensures r.Success? ==>
      && ContextInt(ctx, "hour", 20).Success? && ContextInt(ctx, "day_of_week", 2).Success?
      && ContextInt(ctx, "current_year", 2026).Success?
    ensures r.Success? && Valid(user) && Valid(item) ==> Valid(r.value)
  {
    var hour :- ContextInt(ctx, "hour", 20);
    var dow :- ContextInt(ctx, "day_of_week", 2);
    var year :- ContextInt(ctx, "current_year", 2026);
    CompleteRow(MergedRow(user, item, ContextBlock(Get(ctx, "device", Text("tv")), hour, dow)), year,
                Get(ctx, "session_id", Text("s_online")), ps)
  }

  /** A successful candidate row is the completion of the merged user, item and context
      fields, with the request's hour, weekday and year. */
  lemma CandidateRowUnfolds(user: Dict, item: Dict, ctx: Dict, ps: seq<string>)
    requires Placeholders(ps)
    requires CandidateRow(user, item, ctx, ps).Success?
    ensures ContextInt(ctx, "hour", 20).Success? && ContextInt(ctx, "day_of_week", 2).Success?
    ensures ContextInt(ctx, "current_year", 2026).Success?
    ensures CandidateRow(user, item, ctx, ps) ==
      CompleteRow(MergedRow(user, item, ContextBlock(Get(ctx, "device", Text("tv")),
                    ContextInt(ctx, "hour", 20).value, ContextInt(ctx, "day_of_week", 2).value)),
                  ContextInt(ctx, "current_year", 2026).value, Get(ctx, "session_id", Text("s_online")), ps)
  {
  }

  /** The context cells: the request's device (default "tv"), hour (default 20) and weekday
      (default 2), whatever the user or item rows hold, and flags computed from them. */
  lemma CandidateRowContext(user: Dict, item: Dict, ctx: Dict, ps: seq<string>)
    requires Placeholders(ps)
    requires CandidateRow(user, item, ctx, ps).Success?
    ensures var row := CandidateRow(user, item, ctx, ps).value.cells;
      var hour := ContextInt(ctx, "hour", 20).value;
      var dow := ContextInt(ctx, "day_of_week", 2).value;
      && ContextColumns <= row.Keys
      && row[Plain("device")] == Get(ctx, "device", Text("tv"))
      && row[Plain("hour")] == Int(hour) && row[Plain("day_of_week")] == Int(dow)
      && row[Plain("is_prime_time")] == PrimeTimeOnline(hour)
      && row[Plain("is_weekend")] == WeekendOnline(dow)
  {
    CandidateRowUnfolds(user, item, ctx, ps);
    ContextIsNotDerived();
    var block := ContextBlock(Get(ctx, "device", Text("tv")),
      ContextInt(ctx, "hour", 20).value, ContextInt(ctx, "day_of_week", 2).value);
    MergedBlockKept(user, item, block, ContextInt(ctx, "current_year", 2026).value, Get(ctx, "session_id", Text("s_online")), ps);
  }

  /** The cells of a block merged last survive the completion unless they are derived. */
  lemma MergedBlockKept(user: Dict, item: Dict, block: Dict, year: int, session: Value, placeholders: seq<string>)
    requires "session_id" !in placeholders
    requires forall n :: n in placeholders ==> Plain(n) !in DerivedColumns
    requires CompleteRow(MergedRow(user, item, block), year, session, placeholders).Success?
    requires block.cells.Keys !! DerivedColumns
    ensures var row := CompleteRow(MergedRow(user, item, block), year, session, placeholders).value.cells;
      && block.cells.Keys <= row.Keys
      && forall c :: c in block.cells ==> row[c] == block.cells[c]
  {
  }

  /** Item fields override user fields of the same name; fields the online path does not
      write are carried over unchanged. */
  lemma CandidateRowPrecedence(user: Dict, item: Dict, ctx: Dict, ps: seq<string>)
    requires Placeholders(ps)
    requires CandidateRow(user, item, ctx, ps).Success?
    ensures var row := CandidateRow(user, item, ctx, ps).value.cells;
      && (forall c :: c in item.cells && c !in ContextColumns && c !in DerivedColumns ==>
            c in row && row[c] == item.cells[c])
      && (forall c :: c in user.cells && c !in item.cells && c !in ContextColumns && c !in DerivedColumns ==>
            c in row && row[c] == user.cells[c])
  {
    CandidateRowUnfolds(user, item, ctx, ps);
  }

  /** The derived cells: the item age from the request year (default 2026) and the
      release year of the item (else the user row, else 2020); never both kids flags. */
  lemma CandidateRowDerived(user: Dict, item: Dict, ctx: Dict, ps: seq<string>)
    requires Placeholders(ps)
    requires CandidateRow(user, item, ctx, ps).Success?
    ensures var row := CandidateRow(user, item, ctx, ps).value.cells;
      var year := ContextInt(ctx, "current_year", 2026).value;
      && DerivedColumns <= row.Keys
      && !(row[Plain("is_kids_content")] == Int(1) && row[Plain("kids_mismatch")] == Int(1))
      && (Plain("release_year") in item.cells ==>
            ItemAge(year, item.cells[Plain("release_year")]) == Success(row[Plain("item_age")]))
      && (Plain("release_year") !in item.cells && Plain("release_year") !in user.cells ==>
            row[Plain("item_age")] == Int(year - 2020))
  {
    CandidateRowUnfolds(user, item, ctx, ps);
    ContextIsNotDerived();
    var block := ContextBlock(Get(ctx, "device", Text("tv")),
      ContextInt(ctx, "hour", 20).value, ContextInt(ctx, "day_of_week", 2).value);
    MergedItemAge(user, item, block, ContextInt(ctx, "current_year", 2026).value, Get(ctx, "session_id", Text("s_online")), ps);
  }

  /** The item age of a completed row, in terms of the user and item fields. */
  lemma MergedItemAge(user: Dict, item: Dict, block: Dict, year: int, session: Value, placeholders: seq<string>)
    requires "session_id" !in placeholders
    requires forall n :: n in placeholders ==> Plain(n) !in DerivedColumns
    requires CompleteRow(MergedRow(user, item, block), year, session, placeholders).Success?
    requires Plain("release_year") !in block.cells
    ensures var row := CompleteRow(MergedRow(user, item, block), year, session, placeholders).value.cells;
      && (Plain("release_year") in item.cells ==>
            ItemAge(year, item.cells[Plain("release_year")]) == Success(row[Plain("item_age")]))
      && (Plain("release_year") !in item.cells && Plain("release_year") !in user.cells ==>
            row[Plain("item_age")] == Int(year - 2020))
  {
    var merged := MergedRow(user, item, block);
    var release := Get(merged, "release_year", Int(2020));
    if Plain("release_year") in item.cells {
      assert release == item.cells[Plain("release_year")];
    } else if Plain("release_year") !in user.cells {
      assert release == Int(2020);
    }
  }

  /** The placeholders: a value the item row carries is kept, one neither row carries is 0.0. */
  lemma CandidateRowPlaceholders(user: Dict, item: Dict, ctx: Dict, ps: seq<string>)
    requires Placeholders(ps)
    requires CandidateRow(user, item, ctx, ps).Success?
    ensures var row := CandidateRow(user, item, ctx, ps).value.cells;
      forall n :: n in ps ==>
        && Plain(n) in row
        && (Plain(n) in item.cells ==> row[Plain(n)] == item.cells[Plain(n)])
        && (Plain(n) !in item.cells && Plain(n) !in user.cells ==> row[Plain(n)] == Real(0.0))
  {
    CandidateRowUnfolds(user, item, ctx, ps);
    ContextIsNotDerived();
  }

  /** The context block, the derived cells, the placeholders and the session id are
      distinct labels. */
  lemma ContextIsNotDerived()
    ensures ContextColumns !! DerivedColumns
    ensures Plain("release_year") !in ContextColumns
    ensures Plain("session_id") !in ContextColumns
  {
    assert |"device"| == 6 && |"hour"| == 4 && |"day_of_week"| == 11;
    assert |"is_prime_time"| == 13 && |"is_weekend"| == 10 && |"release_year"| == 12 && |"session_id"| == 10;
    assert |"item_age"| == 8 && |"is_kids_content"| == 15 && |"kids_mismatch"| == 13;
    assert "is_prime_time"[3] == 'p' && "kids_mismatch"[3] == 's' && "day_of_week"[1] == 'a';
  }

  // ---------------------------------------------------------------------------
  // Scoring and ordering (lines 54-63)

  /** The categorical fields the online path one-hot encodes. */
  const CatCols: seq<string> := ["user_id", "session_id", "item_id", "age_bucket", "country", "genre", "maturity", "device"]

  /** One output record: `df[["user_id", "item_id", "score"]]`. */
  datatype Ranked = Ranked(userId: Value, itemId: Value, score: real)

  /** The feature rows of all candidates, in input order; the first candidate whose row
      cannot be built makes the whole request fail. */
  function CandidateRows(user: Dict, items: seq<Dict>, ctx: Dict, ps: seq<string>): (r: Result<seq<Dict>, Error>)
    requires Placeholders(ps)
    ensures r.Success? <==> forall i :: 0 <= i < |items| ==> CandidateRow(user, items[i], ctx, ps).Success?
    ensures r.Failure? ==> r.error == NotAnInteger
    ensures r.Success? ==> |r.value| == |items|
    ensures r.Success? ==> forall i :: 0 <= i < |items| ==> r.value[i] == CandidateRow(user, items[i], ctx, ps).value
  {
    MapAll(items, item => CandidateRow(user, item, ctx, ps))
  }

  /** `sort_values("score", ascending=False)`. */
  function HigherFirst(a: Ranked, b: Ranked): bool
  {
    a.score >= b.score
  }

  lemma HigherFirstIsTotalPreorder()
    ensures TotalPreorder(HigherFirst)
  {
  }

  /** The three output cells of each frame row, with the score the model gives the
      aligned row in the same position. */
  function ScoredRecords(df: Frame, x: Frame, scorer: Row -> real): (r: seq<Ranked>)
    requires |x.rows| == |df.rows|
    ensures |r| == |df.rows|
    ensures forall i :: 0 <= i < |df.rows| ==>
      r[i].userId == Cell(df.rows[i], Plain("user_id")) && r[i].itemId == Cell(df.rows[i], Plain("item_id"))
      && r[i].score == scorer(x.rows[i])
  {
    seq(|df.rows|, i requires 0 <= i < |df.rows| =>
      Ranked(Cell(df.rows[i], Plain("user_id")), Cell(df.rows[i], Plain("item_id")), scorer(x.rows[i])))
  }

  /** Lines 54-60: the feature rows, the frame, the aligned encoding on the saved schema
      and one score per row from the opaque `scorer`, as unsorted records. Fails when a
      row cannot be built or when a categorical field is absent from every row (pandas'
      KeyError), in particular for no candidates. */
  function CandidateRecords(user: Dict, items: seq<Dict>, ctx: Dict, ps: seq<string>, cats: seq<string>,
                            schema: seq<Column>, scorer: Row -> real): (r: Result<seq<Ranked>, Error>)
    requires Placeholders(ps) && "user_id" in cats
    ensures CandidateRows(user, items, ctx, ps).Failure? ==> r == Failure(NotAnInteger)
    ensures r.Success? <==>
      && CandidateRows(user, items, ctx, ps).Success?
      && EncodeAligned(FromRecords(CandidateRows(user, items, ctx, ps).value), cats, schema).Success?
    ensures |items| == 0 ==> r.Failure?
    ensures r.Success? ==> |r.value| == |items|
    ensures r.Success? ==> forall i :: 0 <= i < |items| ==>
      r.value[i].score == scorer(EncodeAligned(FromRecords(CandidateRows(user, items, ctx, ps).value), cats, schema).value.rows[i])
  {
    var rows :- CandidateRows(user, items, ctx, ps);
    var df := FromRecords(rows);
    var x :- EncodeAligned(df, cats, schema);
    assert |items| == 0 ==> Plain("user_id") !in df.columns;
    Success(ScoredRecords(df, x, scorer))
  }

  /** `rank_candidates` after the model is loaded: the scored records by descending score,
      each candidate's record exactly once. */
  function RankCandidates(user: Dict, items: seq<Dict>, ctx: Dict, schema: seq<Column>, scorer: Row -> real)
    : (r: Result<seq<Ranked>, Error>)
    ensures "user_id" in CatCols && Placeholders(AggregatePlaceholders)
    ensures r.Success? <==> CandidateRecords(user, items, ctx, AggregatePlaceholders, CatCols, schema, scorer).Success?
    ensures r.Success? ==> multiset(r.value) == multiset(CandidateRecords(user, items, ctx, AggregatePlaceholders, CatCols, schema, scorer).value)
    ensures r.Success? ==> SortedBy(r.value, HigherFirst)
  {
    assert CatCols[0] == "user_id";
    StandardPlaceholders();
    var records :- CandidateRecords(user, items, ctx, AggregatePlaceholders, CatCols, schema, scorer);
    HigherFirstIsTotalPreorder();
    SortIsSorted(records, HigherFirst);
    Success(Sort(records, HigherFirst))
  }

  /** The online path never writes `item_id` or `user_id` itself. */
  lemma IdsAreNotWritten()
    ensures Plain("item_id") !in ContextColumns && Plain("item_id") !in DerivedColumns
    ensures Plain("user_id") !in ContextColumns && Plain("user_id") !in DerivedColumns
  {
    assert |"item_id"| == 7 && |"user_id"| == 7 && |"item_age"| == 8 && "is_weekend"[1] == 's';
  }

  lemma CandidateRowsValid(user: Dict, items: seq<Dict>, ctx: Dict, ps: seq<string>)
    requires Placeholders(ps)
    requires CandidateRows(user, items, ctx, ps).Success?
    requires Valid(user) && forall j :: 0 <= j < |items| ==> Valid(items[j])
    ensures forall j :: 0 <= j < |items| ==> Valid(CandidateRows(user, items, ctx, ps).value[j])
  {
    forall j | 0 <= j < |items| ensures Valid(CandidateRows(user, items, ctx, ps).value[j]) {
      assert CandidateRows(user, items, ctx, ps).value[j] == CandidateRow(user, items[j], ctx, ps).value;
    }
  }

  /** The record of a candidate carries the id cells of that candidate's feature row. */
  lemma RecordOfRow(user: Dict, items: seq<Dict>, ctx: Dict, ps: seq<string>, cats: seq<string>,
                    schema: seq<Column>, scorer: Row -> real, i: int)
    requires Placeholders(ps) && "user_id" in cats
    requires CandidateRecords(user, items, ctx, ps, cats, schema, scorer).Success?
    requires Valid(user) && forall j :: 0 <= j < |items| ==> Valid(items[j])
    requires 0 <= i < |items|
    ensures CandidateRow(user, items[i], ctx, ps).Success?
    ensures var rec := CandidateRecords(user, items, ctx, ps, cats, schema, scorer).value[i];
      var row := CandidateRow(user, items[i], ctx, ps).value;
      rec.itemId == Get(row, "item_id", Null) && rec.userId == Get(row, "user_id", Null)
  {
    var rows := CandidateRows(user, items, ctx, ps).value;
    CandidateRowsValid(user, items, ctx, ps);
    var x := EncodeAligned(FromRecords(rows), cats, schema).value;
    assert CandidateRecords(user, items, ctx, ps, cats, schema, scorer).value == ScoredRecords(FromRecords(rows), x, scorer);
    ScoredRecordIds(rows, x, scorer, i);
  }

  /** Scoring the frame of valid records keeps each record's id cells in its position. */
  lemma ScoredRecordIds(rows: seq<Dict>, x: Frame, scorer: Row -> real, i: int)
    requires forall j :: 0 <= j < |rows| ==> Valid(rows[j])
    requires |x.rows| == |rows| && 0 <= i < |rows|
    ensures var rec := ScoredRecords(FromRecords(rows), x, scorer)[i];
      rec.itemId == Get(rows[i], "item_id", Null) && rec.userId == Get(rows[i], "user_id", Null)
  {
    var df := FromRecords(rows);
    assert Cell(df.rows[i], Plain("item_id")) == Cell(rows[i].cells, Plain("item_id"));
    assert Cell(df.rows[i], Plain("user_id")) == Cell(rows[i].cells, Plain("user_id"));
  }

  /** The record of a candidate carries the candidate's own item id, and the item's
      `user_id` if it has one, else the user's. */
  lemma CandidateRecordIds(user: Dict, items: seq<Dict>, ctx: Dict, ps: seq<string>, cats: seq<string>,
                    schema: seq<Column>, scorer: Row -> real, i: int)
    requires Placeholders(ps) && "user_id" in cats
    requires CandidateRecords(user, items, ctx, ps, cats, schema, scorer).Success?
    requires Valid(user) && forall j :: 0 <= j < |items| ==> Valid(items[j])
    requires 0 <= i < |items|
    requires Plain("item_id") in items[i].cells && Plain("user_id") in user.cells
    ensures var rec := CandidateRecords(user, items, ctx, ps, cats, schema, scorer).value[i];
      && rec.itemId == items[i].cells[Plain("item_id")]
      && rec.userId == Get(items[i], "user_id", user.cells[Plain("user_id")])
  {
    RecordOfRow(user, items, ctx, ps, cats, schema, scorer, i);
    RowIds(user, items[i], ctx, ps);
  }

  /** A candidate's feature row keeps the item's id, and the item's `user_id` if it has
      one, else the user's. */
  lemma RowIds(user: Dict, item: Dict, ctx: Dict, ps: seq<string>)
    requires Placeholders(ps)
    requires CandidateRow(user, item, ctx, ps).Success?
    requires Plain("item_id") in item.cells && Plain("user_id") in user.cells
    ensures var row := CandidateRow(user, item, ctx, ps).value;
      && Get(row, "item_id", Null) == item.cells[Plain("item_id")]
      && Get(row, "user_id", Null) == Get(item, "user_id", user.cells[Plain("user_id")])
  {
    IdsAreNotWritten();
    CandidateRowPrecedence(user, item, ctx, ps);
  }

  /** The ranked records are the candidates' records reordered: each names the item id of
      some candidate row, and each candidate row's item id is named by some record. */
  lemma RankedIds(user: Dict, items: seq<Dict>, ctx: Dict, schema: seq<Column>, scorer: Row -> real)
    requires RankCandidates(user, items, ctx, schema, scorer).Success?
    requires Valid(user) && Plain("user_id") in user.cells
    requires forall j :: 0 <= j < |items| ==> Valid(items[j]) && Plain("item_id") in items[j].cells
    ensures var ranked := RankCandidates(user, items, ctx, schema, scorer).value;
      && (forall rec :: rec in ranked ==> exists i :: 0 <= i < |items| && rec.itemId == Get(items[i], "item_id", Null))
      && (forall i :: 0 <= i < |items| ==> exists rec :: rec in ranked && rec.itemId == Get(items[i], "item_id", Null))
  {
    StandardPlaceholders();
    assert CatCols[0] == "user_id";
    RecordsCarryItemIds(user, items, ctx, schema, scorer);
    PermutedRecordIds(RankCandidates(user, items, ctx, schema, scorer).value,
      CandidateRecords(user, items, ctx, AggregatePlaceholders, CatCols, schema, scorer).value, items);
  }

  /** Every candidate's unsorted record carries that candidate's item id. */
  lemma RecordsCarryItemIds(user: Dict, items: seq<Dict>, ctx: Dict, schema: seq<Column>, scorer: Row -> real)
    requires Placeholders(AggregatePlaceholders) && "user_id" in CatCols
    requires CandidateRecords(user, items, ctx, AggregatePlaceholders, CatCols, schema, scorer).Success?
    requires Valid(user) && Plain("user_id") in user.cells
    requires forall j :: 0 <= j < |items| ==> Valid(items[j]) && Plain("item_id") in items[j].cells
    ensures var recs := CandidateRecords(user, items, ctx, AggregatePlaceholders, CatCols, schema, scorer).value;
      |recs| == |items| && forall i :: 0 <= i < |items| ==> recs[i].itemId == Get(items[i], "item_id", Null)
  {
    forall i | 0 <= i < |items|
      ensures CandidateRecords(user, items, ctx, AggregatePlaceholders, CatCols, schema, scorer).value[i].itemId
        == Get(items[i], "item_id", Null)
    {
      CandidateRecordIds(user, items, ctx, AggregatePlaceholders, CatCols, schema, scorer, i);
    }
  }

  /** Reordering records keeps the set of item ids they name. */
  lemma PermutedRecordIds(ranked: seq<Ranked>, recs: seq<Ranked>, items: seq<Dict>)
    requires multiset(ranked) == multiset(recs) && |recs| == |items|
    requires forall i :: 0 <= i < |items| ==> recs[i].itemId == Get(items[i], "item_id", Null)
    ensures forall rec :: rec in ranked ==> exists i :: 0 <= i < |items| && rec.itemId == Get(items[i], "item_id", Null)
    ensures forall i :: 0 <= i < |items| ==> exists rec :: rec in ranked && rec.itemId == Get(items[i], "item_id", Null)
  {
    forall rec | rec in ranked ensures exists i :: 0 <= i < |items| && rec.itemId == Get(items[i], "item_id", Null) {
      assert rec in multiset(recs);
      var i :| 0 <= i < |recs| && recs[i] == rec;
    }
    forall i | 0 <= i < |items| ensures exists rec :: rec in ranked && rec.itemId == Get(items[i], "item_id", Null) {
      assert recs[i] in multiset(ranked);
    }
  }
}
