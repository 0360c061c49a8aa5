/** Request-time context derived from an event's timestamp: hour of day, day of week
    (0 = Monday) and the prime-time and weekend flags. Timestamps are whole seconds
    since 1970-01-01 00:00 UTC, which was a Thursday. */
module ContextFeatures {
  import opened Wrappers
  import opened Errors
  import opened Seqs
  import opened Frames

  const SecondsPerHour := 3600
  const SecondsPerDay := 86400

  /** `.dt.hour`: flooring division, so instants before 1970 get the right hour too. */
  function HourOf(ts: int): (h: int)
    ensures 0 <= h < 24
  {
    (ts / SecondsPerHour) % 24
  }

  /** `.dt.dayofweek`, Monday = 0; day 0 of the epoch was a Thursday (3). */
  function DayOfWeek(ts: int): (d: int)
    ensures 0 <= d < 7
  {
    (ts / SecondsPerDay + 3) % 7
  }

  /** `Series.between(lo, hi)`: both ends inclusive. */
  predicate Between(x: int, lo: int, hi: int)
  {
    lo <= x <= hi
  }

  function PrimeTimeOffline(hour: int): Value
  {
    Flag(Between(hour, 19, 23))
  }

  function WeekendOffline(dow: int): Value
  {
    Flag(dow in [5, 6])
  }

  /** A day later the hour is the same and the weekday is the next one. */
  lemma NextDay(ts: int)
    ensures HourOf(ts + SecondsPerDay) == HourOf(ts)
    ensures DayOfWeek(ts + SecondsPerDay) == (DayOfWeek(ts) + 1) % 7
  {
    assert (ts + SecondsPerDay) / SecondsPerHour == ts / SecondsPerHour + 24;
    assert (ts + SecondsPerDay) / SecondsPerDay == ts / SecondsPerDay + 1;
  }

  /** A week later the weekday repeats. */
  lemma NextWeek(ts: int)
    ensures DayOfWeek(ts + 7 * SecondsPerDay) == DayOfWeek(ts)
  {
    assert (ts + 7 * SecondsPerDay) / SecondsPerDay == ts / SecondsPerDay + 7;
  }

  /** Saturday 1970-01-03 and Sunday 1970-01-04 are weekend days; Monday 1970-01-05
      starts the week. */
  lemma EpochWeek()
    ensures DayOfWeek(0) == 3
    ensures DayOfWeek(2 * SecondsPerDay) == 5 && DayOfWeek(3 * SecondsPerDay) == 6
    ensures DayOfWeek(4 * SecondsPerDay) == 0
  {
  }

  /** `pd.to_datetime(out["timestamp"])`: each cell must hold a time. */
  function Timestamps(f: Frame): (r: Result<seq<int>, Error>)
    ensures Plain("timestamp") !in f.columns ==> r == Failure(MissingColumn("timestamp"))
    ensures r.Success? ==> |r.value| == |f.rows|
    ensures r.Success? && WellFormed(f) ==> forall i :: 0 <= i < |f.rows| ==>
      Plain("timestamp") in f.rows[i] && f.rows[i][Plain("timestamp")] == Int(r.value[i])
    ensures WellFormed(f) && Plain("timestamp") in f.columns ==>
      (r.Success? <==> forall i :: 0 <= i < |f.rows| ==> f.rows[i][Plain("timestamp")].Int?)
  {
    var cells :- GetColumn(f, "timestamp");
    if WellFormed(f) then
      assert forall i :: 0 <= i < |f.rows| ==> Plain("timestamp") in f.rows[i];
      Times(cells)
    else Times(cells)
  }

  function Times(cells: seq<Value>): (r: Result<seq<int>, Error>)
    ensures r.Success? <==> forall i :: 0 <= i < |cells| ==> cells[i].Int?
    ensures r.Failure? ==> r.error == NotATimestamp
    ensures r.Success? ==> |r.value| == |cells| && forall i :: 0 <= i < |cells| ==> cells[i] == Int(r.value[i])
  {
    if |cells| == 0 then Success([])
    else if !cells[0].Int? then Failure(NotATimestamp)
    else
      var rest :- Times(cells[1..]);
      assert forall i :: 1 <= i < |cells| ==> cells[i] == cells[1..][i - 1];
      Success([cells[0].i] + rest)
  }

  const ContextNames: seq<string> := ["hour", "day_of_week", "is_prime_time", "is_weekend"]

  const ContextColumns: set<Column> :=
    {Plain("hour"), Plain("day_of_week"), Plain("is_prime_time"), Plain("is_weekend")}

  lemma ContextColumnSet()
    ensures ColumnSet(PlainColumns(ContextNames)) == ContextColumns
  {
    NamedContextColumns();
  }

  lemma NamedContextColumns()
    ensures forall c :: c in ContextColumns <==> c.Plain? && c.name in ContextNames
  {
    forall c ensures c in ContextColumns <==> c.Plain? && c.name in ContextNames {
      if c.Plain? {
        assert c.name in ContextNames <==>
          c.name == "hour" || c.name == "day_of_week" || c.name == "is_prime_time" || c.name == "is_weekend";
      }
    }
  }

  /** The four context cells of one row, set from its timestamp. */
  function WithContext(row: Row, ts: int): (r: Row)
    ensures r.Keys == row.Keys + ContextColumns
    ensures r[Plain("hour")] == Int(HourOf(ts))
    ensures r[Plain("day_of_week")] == Int(DayOfWeek(ts))
    ensures r[Plain("is_prime_time")] == Int(1) <==> 19 <= HourOf(ts) <= 23
    ensures r[Plain("is_weekend")] == Int(1) <==> DayOfWeek(ts) == 5 || DayOfWeek(ts) == 6
    ensures forall c :: c in row && c !in ContextColumns ==> r[c] == row[c]
  {
    row[Plain("hour") := Int(HourOf(ts))]
       [Plain("day_of_week") := Int(DayOfWeek(ts))]
       [Plain("is_prime_time") := PrimeTimeOffline(HourOf(ts))]
       [Plain("is_weekend") := WeekendOffline(DayOfWeek(ts))]
  }

  lemma ContextNamesDistinct()
    ensures NoDups(ContextNames)
  {
    assert "hour"[0] == 'h' && "day_of_week"[0] == 'd';
    assert "is_prime_time"[3] == 'p' && "is_weekend"[3] == 'w';
  }

  function ContextFrame(f: Frame, ts: seq<int>): (r: Frame)
    requires |ts| == |f.rows|
    ensures |r.rows| == |f.rows|
    ensures forall i :: 0 <= i < |f.rows| ==> r.rows[i] == WithContext(f.rows[i], ts[i])
    ensures r.columns == AppendMissing(f.columns, ContextNames)
  {
    Frame(AppendMissing(f.columns, ContextNames), ContextRows(f.rows, ts))
  }

  function ContextRows(rows: seq<Row>, ts: seq<int>): (r: seq<Row>)
    requires |ts| == |rows|
    ensures |r| == |rows|
    ensures forall i :: 0 <= i < |rows| ==> r[i] == WithContext(rows[i], ts[i])
  {
    if |rows| == 0 then [] else [WithContext(rows[0], ts[0])] + ContextRows(rows[1..], ts[1..])
  }

  lemma ContextFrameWellFormed(f: Frame, ts: seq<int>)
    requires |ts| == |f.rows|
    requires WellFormed(f)
    ensures WellFormed(ContextFrame(f, ts))
  {
    var r := ContextFrame(f, ts);
    ContextColumnSet();
    ContextNamesDistinct();
    assert ColumnSet(r.columns) == ColumnSet(f.columns) + ContextColumns;
    forall i | 0 <= i < |r.rows| ensures r.rows[i].Keys == ColumnSet(r.columns) {
      assert f.rows[i].Keys == ColumnSet(f.columns);
    }
  }

  /** `add_context_features`: a copy of the frame with the four context columns set
      from each row's own timestamp; every other cell is unchanged. */
  function AddContextFeatures(f: Frame): (r: Result<Frame, Error>)
    ensures Plain("timestamp") !in f.columns ==> r.Failure?
    ensures WellFormed(f) && Plain("timestamp") in f.columns ==>
      (r.Success? <==> forall i :: 0 <= i < |f.rows| ==> f.rows[i][Plain("timestamp")].Int?)
    ensures r.Success? ==> |r.value.rows| == |f.rows|
    ensures r.Success? ==> |r.value.columns| >= |f.columns| && r.value.columns[..|f.columns|] == f.columns
    ensures r.Success? && WellFormed(f) ==> WellFormed(r.value)
    ensures r.Success? && WellFormed(f) ==> forall i :: 0 <= i < |f.rows| ==>
      r.value.rows[i] == WithContext(f.rows[i], f.rows[i][Plain("timestamp")].i)
    ensures r.Success? ==> forall i, c :: 0 <= i < |f.rows| && c in f.rows[i] && c !in ContextColumns ==>
      c in r.value.rows[i] && r.value.rows[i][c] == f.rows[i][c]
  {
    var ts :- Timestamps(f);
    if WellFormed(f) then
      ContextFrameWellFormed(f, ts);
      Success(ContextFrame(f, ts))
    else Success(ContextFrame(f, ts))
  }
}
