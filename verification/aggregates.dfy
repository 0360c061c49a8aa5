/** The offline feature-store aggregates: per user (or per item) watch minutes, plays
    and clicks over the last `days` days of the interaction log, and the play rate.
    The window is global: it ends at the newest event of the whole log, not at each
    row's own time. User and item aggregates are the same computation keyed on a
    different column, so they share one definition here. */
module WindowAggregates {
  import opened Wrappers
  import opened Errors
  import opened Seqs
  import opened Frames
  import opened Interactions

  const SecondsPerDay := 86400

  /** `interactions["timestamp"].max()`. */
  function MaxTimestamp(events: seq<Event>): (m: int)
    requires |events| > 0
    ensures forall i :: 0 <= i < |events| ==> events[i].timestamp <= m
    ensures exists i :: 0 <= i < |events| && events[i].timestamp == m
  {
    var last := events[|events| - 1].timestamp;
    if |events| == 1 then last
    else
      var m := MaxTimestamp(events[..|events| - 1]);
      assert forall i :: 0 <= i < |events| - 1 ==> events[..|events| - 1][i] == events[i];
      if m >= last then m else last
  }

  /** `max_ts - pd.Timedelta(days=window_days)`. */
  function Cutoff(events: seq<Event>, days: int): int
    requires |events| > 0
  {
    MaxTimestamp(events) - days * SecondsPerDay
  }

  function InWindow(cutoff: int): Event -> bool
  {
    (e: Event) => e.timestamp >= cutoff
  }

  /** `interactions[interactions["timestamp"] >= cutoff]`: the cutoff itself is inside
      the window; an empty log has no maximum and keeps nothing. */
  function Recent(events: seq<Event>, days: int): (r: seq<Event>)
    ensures |events| == 0 ==> r == []
    ensures |events| > 0 ==> forall e :: e in r <==> e in events && e.timestamp >= Cutoff(events, days)
  {
    if |events| == 0 then [] else Filter(events, InWindow(Cutoff(events, days)))
  }

  function WatchOf(e: Event): int
  {
    e.watchMinutes
  }

  /** `(s >= 2).sum()` counts plays, `(s >= 1).sum()` counts clicks. */
  function PlayOf(e: Event): int
  {
    if e.grade >= 2 then 1 else 0
  }

  function ClickOf(e: Event): int
  {
    if e.grade >= 1 then 1 else 0
  }

  datatype Aggregates = Aggregates(watch: int, plays: int, clicks: int)

  const NoActivity := Aggregates(0, 0, 0)

  /** The three group sums of one key over the windowed events. A key with no windowed
      event gets zeros, which is what the left merge followed by `fillna(0.0)` gives. */
  function AggregatesOf(recent: seq<Event>, key: Event -> string, k: string): (a: Aggregates)
    ensures 0 <= a.plays <= a.clicks
    ensures (forall i :: 0 <= i < |recent| ==> key(recent[i]) != k) ==> a == NoActivity
  {
    MassOfNonNegative(recent, key, PlayOf, k);
    MassOfMonotone(recent, key, PlayOf, ClickOf, k);
    assert (forall i :: 0 <= i < |recent| ==> key(recent[i]) != k) ==>
      MassOf(recent, key, WatchOf, k) == 0 && MassOf(recent, key, PlayOf, k) == 0
      && MassOf(recent, key, ClickOf, k) == 0 by {
      if forall i :: 0 <= i < |recent| ==> key(recent[i]) != k {
        MassOfAbsentKey(recent, key, WatchOf, k);
        MassOfAbsentKey(recent, key, PlayOf, k);
        MassOfAbsentKey(recent, key, ClickOf, k);
      }
    }
    Aggregates(MassOf(recent, key, WatchOf, k), MassOf(recent, key, PlayOf, k), MassOf(recent, key, ClickOf, k))
  }

  /** `plays / (clicks + 1.0)`: never reaches 1, because plays never exceed clicks. */
  function PlayRate(a: Aggregates): (r: real)
    requires 0 <= a.plays <= a.clicks
    ensures 0.0 <= r < 1.0
    ensures a.plays == 0 ==> r == 0.0
  {
    a.plays as real / (a.clicks as real + 1.0)
  }

  /** The merge key column and the four output columns. */
  datatype AggNames = AggNames(key: string, watch: string, plays: string, clicks: string, rate: string)

  const UserNames := AggNames("user_id", "u_watch_mins_30d", "u_plays_30d", "u_clicks_30d", "u_play_rate_30d")
  const ItemNames := AggNames("item_id", "i_watch_mins_30d", "i_plays_30d", "i_clicks_30d", "i_play_rate_30d")

  function OutputNames(n: AggNames): seq<string>
  {
    [n.watch, n.plays, n.clicks, n.rate]
  }

  /** The key column is not overwritten and the outputs are four different columns. */
  predicate DistinctNames(n: AggNames)
  {
    && n.key != n.watch && n.key != n.plays && n.key != n.clicks && n.key != n.rate
    && n.watch != n.plays && n.watch != n.clicks && n.watch != n.rate
    && n.plays != n.clicks && n.plays != n.rate
    && n.clicks != n.rate
  }

  lemma StandardNamesDistinct()
    ensures DistinctNames(UserNames) && DistinctNames(ItemNames)
  {
    assert "user_id"[1] == 's' && "u_watch_mins_30d"[2] == 'w' && "u_plays_30d"[4] == 'a';
    assert "u_clicks_30d"[2] == 'c' && "u_play_rate_30d"[6] == '_' && "u_plays_30d"[6] == 's';
    assert "item_id"[1] == 't' && "i_watch_mins_30d"[2] == 'w' && "i_plays_30d"[4] == 'a';
    assert "i_clicks_30d"[2] == 'c' && "i_play_rate_30d"[6] == '_' && "i_plays_30d"[6] == 's';
  }

  function OutputColumns(n: AggNames): set<Column>
  {
    {Plain(n.watch), Plain(n.plays), Plain(n.clicks), Plain(n.rate)}
  }

  /** The aggregates a row's key cell joins to: only a text id can match a group key. */
  function LookUp(recent: seq<Event>, key: Event -> string, cell: Value): (a: Aggregates)
    ensures 0 <= a.plays <= a.clicks
    ensures !cell.Text? ==> a == NoActivity
  {
    if cell.Text? then AggregatesOf(recent, key, cell.s) else NoActivity
  }

  /** One output row: the three merged sums (as floats, after `fillna(0.0)`) and the rate. */
  function WithAggregates(row: Row, n: AggNames, a: Aggregates): (r: Row)
    requires DistinctNames(n)
    requires 0 <= a.plays <= a.clicks
    ensures r.Keys == row.Keys + OutputColumns(n)
    ensures r[Plain(n.watch)] == Real(a.watch as real)
    ensures r[Plain(n.plays)] == Real(a.plays as real)
    ensures r[Plain(n.clicks)] == Real(a.clicks as real)
    ensures r[Plain(n.rate)] == Real(PlayRate(a))
    ensures forall c :: c in row && c !in OutputColumns(n) ==> r[c] == row[c]
  {
    row[Plain(n.watch) := Real(a.watch as real)]
       [Plain(n.plays) := Real(a.plays as real)]
       [Plain(n.clicks) := Real(a.clicks as real)]
       [Plain(n.rate) := Real(PlayRate(a))]
  }

  function KeyCell(row: Row, n: AggNames): Value
  {
    if Plain(n.key) in row then row[Plain(n.key)] else Null
  }

  function AggregateRows(rows: seq<Row>, recent: seq<Event>, key: Event -> string, n: AggNames): (r: seq<Row>)
    requires DistinctNames(n)
    ensures |r| == |rows|
    ensures forall i :: 0 <= i < |rows| ==>
      r[i] == WithAggregates(rows[i], n, LookUp(recent, key, KeyCell(rows[i], n)))
  {
    if |rows| == 0 then []
    else
      var head := WithAggregates(rows[0], n, LookUp(recent, key, KeyCell(rows[0], n)));
      [head] + AggregateRows(rows[1..], recent, key, n)
  }

  lemma OutputColumnSet(n: AggNames)
    ensures ColumnSet(PlainColumns(OutputNames(n))) == OutputColumns(n)
  {
    forall x ensures x in ColumnSet(PlainColumns(OutputNames(n))) <==> x in OutputColumns(n) {
      OutputColumnMember(n, x);
    }
  }

  lemma OutputColumnMember(n: AggNames, x: Column)
    ensures x in PlainColumns(OutputNames(n)) <==> x in OutputColumns(n)
  {
    var names := OutputNames(n);
    if x.Plain? {
      assert x in PlainColumns(names) <==> x.name in names;
      assert x.name in names <==> x.name == n.watch || x.name == n.plays || x.name == n.clicks || x.name == n.rate;
    }
  }

  lemma FourNamesDistinct(n: AggNames)
    requires DistinctNames(n)
    ensures NoDups(OutputNames(n))
  {
    var s := OutputNames(n);
    forall i, j | 0 <= i < j < 4 ensures s[i] != s[j] {
    }
  }

  lemma AggregateFrameWellFormed(f: Frame, rows: seq<Row>, n: AggNames)
    requires WellFormed(f) && DistinctNames(n)
    requires |rows| == |f.rows|
    requires forall i :: 0 <= i < |rows| ==> rows[i].Keys == f.rows[i].Keys + OutputColumns(n)
    ensures WellFormed(Frame(AppendMissing(f.columns, OutputNames(n)), rows))
  {
    var cols := AppendMissing(f.columns, OutputNames(n));
    OutputColumnsAppended(f.columns, n);
    forall i | 0 <= i < |rows| ensures rows[i].Keys == ColumnSet(cols) {
      assert f.rows[i].Keys == ColumnSet(f.columns);
    }
  }

  lemma OutputColumnsAppended(cols: seq<Column>, n: AggNames)
    requires DistinctNames(n) && NoDups(cols)
    ensures NoDups(AppendMissing(cols, OutputNames(n)))
    ensures ColumnSet(AppendMissing(cols, OutputNames(n))) == ColumnSet(cols) + OutputColumns(n)
  {
    OutputColumnSet(n);
    FourNamesDistinct(n);
  }

  /** The three left merges on the key column, `fillna(0.0)` and the rate column. The
      merge raises when the frame has no key column; otherwise every row is kept, in
      order, with exactly one match or none, because the group keys are distinct. */
  function AddAggregates(f: Frame, events: seq<Event>, days: int, n: AggNames, key: Event -> string)
    : (r: Result<Frame, Error>)
    requires DistinctNames(n)
    ensures r.Failure? <==> Plain(n.key) !in f.columns
    ensures r.Success? ==> |r.value.rows| == |f.rows|
    ensures r.Success? ==> |r.value.columns| >= |f.columns| && r.value.columns[..|f.columns|] == f.columns
    ensures r.Success? ==> forall i :: 0 <= i < |f.rows| ==>
      r.value.rows[i] == WithAggregates(f.rows[i], n, LookUp(Recent(events, days), key, KeyCell(f.rows[i], n)))
    ensures r.Success? && WellFormed(f) ==> WellFormed(r.value)
  {
    if Plain(n.key) !in f.columns then Failure(MissingColumn(n.key))
    else
      var rows := AggregateRows(f.rows, Recent(events, days), key, n);
      if WellFormed(f) then
        AggregateFrameWellFormed(f, rows, n);
        Success(Frame(AppendMissing(f.columns, OutputNames(n)), rows))
      else Success(Frame(AppendMissing(f.columns, OutputNames(n)), rows))
  }

  function UserOf(e: Event): string
  {
    e.userId
  }

  function ItemOf(e: Event): string
  {
    e.itemId
  }

  /** `add_user_aggregate_features`: each row gains its user's windowed watch minutes,
      plays, clicks and play rate, and keeps its other cells. */
  function AddUserAggregates(f: Frame, events: seq<Event>, days: int): (r: Result<Frame, Error>)
    ensures r.Failure? <==> Plain("user_id") !in f.columns
    ensures r.Success? ==> |r.value.rows| == |f.rows|
    ensures r.Success? ==> forall i :: 0 <= i < |f.rows| ==>
      var a := LookUp(Recent(events, days), UserOf, KeyCell(f.rows[i], UserNames));
      && r.value.rows[i].Keys == f.rows[i].Keys + OutputColumns(UserNames)
      && r.value.rows[i][Plain("u_watch_mins_30d")] == Real(a.watch as real)
      && r.value.rows[i][Plain("u_clicks_30d")] == Real(a.clicks as real)
      && r.value.rows[i][Plain("u_plays_30d")] == Real(a.plays as real)
      && 0 <= a.plays <= a.clicks
      && r.value.rows[i][Plain("u_play_rate_30d")] == Real(PlayRate(a))
    ensures r.Success? ==> forall i, c :: 0 <= i < |f.rows| && c in f.rows[i] && c !in OutputColumns(UserNames) ==>
      c in r.value.rows[i] && r.value.rows[i][c] == f.rows[i][c]
    ensures r.Success? ==> |r.value.columns| >= |f.columns| && r.value.columns[..|f.columns|] == f.columns
    ensures r.Success? && WellFormed(f) ==> WellFormed(r.value)
  {
    StandardNamesDistinct();
    AddAggregates(f, events, days, UserNames, UserOf)
  }

  /** `add_item_aggregate_features`: each row gains its item's windowed watch minutes,
      plays, clicks and play rate, and keeps its other cells. */
  function AddItemAggregates(f: Frame, events: seq<Event>, days: int): (r: Result<Frame, Error>)
    ensures r.Failure? <==> Plain("item_id") !in f.columns
    ensures r.Success? ==> |r.value.rows| == |f.rows|
    ensures r.Success? ==> forall i :: 0 <= i < |f.rows| ==>
      var a := LookUp(Recent(events, days), ItemOf, KeyCell(f.rows[i], ItemNames));
      && r.value.rows[i].Keys == f.rows[i].Keys + OutputColumns(ItemNames)
      && r.value.rows[i][Plain("i_watch_mins_30d")] == Real(a.watch as real)
      && r.value.rows[i][Plain("i_clicks_30d")] == Real(a.clicks as real)
      && r.value.rows[i][Plain("i_plays_30d")] == Real(a.plays as real)
      && 0 <= a.plays <= a.clicks
      && r.value.rows[i][Plain("i_play_rate_30d")] == Real(PlayRate(a))
    ensures r.Success? ==> forall i, c :: 0 <= i < |f.rows| && c in f.rows[i] && c !in OutputColumns(ItemNames) ==>
      c in r.value.rows[i] && r.value.rows[i][c] == f.rows[i][c]
    ensures r.Success? ==> |r.value.columns| >= |f.columns| && r.value.columns[..|f.columns|] == f.columns
    ensures r.Success? && WellFormed(f) ==> WellFormed(r.value)
  {
    StandardNamesDistinct();
    AddAggregates(f, events, days, ItemNames, ItemOf)
  }

  /** An event older than the window changes nothing: appending it leaves the maximum
      timestamp, the cutoff and the windowed events as they were. */
  lemma StaleEventIgnored(events: seq<Event>, e: Event, days: int)
    requires |events| > 0 && days >= 0
    requires e.timestamp < Cutoff(events, days)
    ensures Recent(events + [e], days) == Recent(events, days)
  {
    var cut := Cutoff(events, days);
    MaxOfAppend(events, e);
    assert Cutoff(events + [e], days) == cut;
    FilterConcat(events, [e], InWindow(cut));
    FilterRejected(e, InWindow(cut));
  }

  lemma MaxOfAppend(events: seq<Event>, e: Event)
    requires |events| > 0
    ensures MaxTimestamp(events + [e]) == if MaxTimestamp(events) >= e.timestamp then MaxTimestamp(events) else e.timestamp
  {
    var all := events + [e];
    assert all[..|all| - 1] == events;
    assert all[|all| - 1] == e;
  }

  lemma FilterRejected(e: Event, p: Event -> bool)
    requires !p(e)
    ensures Filter([e], p) == []
  {
    assert [e][1..] == [];
  }

  /** Summed over the distinct ids of the window, the per-id clicks, plays and watch
      minutes give the window's totals: the group-by neither loses nor double-counts an
      event. */
  lemma AggregatesPartitionWindow(events: seq<Event>, days: int, key: Event -> string)
    ensures SumMass(Keys(Recent(events, days), key), Recent(events, days), key, ClickOf)
         == SumInt(Recent(events, days), ClickOf)
    ensures SumMass(Keys(Recent(events, days), key), Recent(events, days), key, PlayOf)
         == SumInt(Recent(events, days), PlayOf)
    ensures SumMass(Keys(Recent(events, days), key), Recent(events, days), key, WatchOf)
         == SumInt(Recent(events, days), WatchOf)
  {
    GroupMassesSumToTotal(Recent(events, days), key, ClickOf);
    GroupMassesSumToTotal(Recent(events, days), key, PlayOf);
    GroupMassesSumToTotal(Recent(events, days), key, WatchOf);
  }
}
