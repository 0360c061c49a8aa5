/** `pd.get_dummies(df, columns=cats, dummy_na=True)` followed by
    `reindex(columns=schema, fill_value=0)`: the categorical encoding shared by training
    and online serving. Each categorical column is replaced by one indicator column per
    distinct non-missing value (in sorted order) plus one indicator for a missing value;
    the other columns stay in front, in their order. */
module Encoding {
  import opened Wrappers
  import opened Errors
  import opened Seqs
  import opened Sorting
  import opened Frames

  /** The categorical columns of the ranking model, one-hot encoded in training and serving. */
  const CategoricalFields: seq<string> :=
    ["user_id", "session_id", "item_id", "age_bucket", "country", "genre", "maturity", "device"]

  function KindRank(v: Value): nat
  {
    match v
    case Int(_) => 0
    case Real(_) => 1
    case Text(_) => 2
    case Null => 3
  }

  /** The order of dummy levels: by value within one kind of cell. */
  predicate ValueLe(a: Value, b: Value)
  {
    if KindRank(a) != KindRank(b) then KindRank(a) < KindRank(b)
    else match a
      case Int(x) => x <= b.i
      case Real(x) => x <= b.r
      case Text(s) => StrLe(s, b.s)
      case Null => true
  }

  lemma ValueLeIsTotalPreorder()
    ensures TotalPreorder(ValueLe)
  {
    forall a, b ensures ValueLe(a, b) || ValueLe(b, a) {
      if a.Text? && b.Text? {
        StrLeTotal(a.s, b.s);
      }
    }
    forall a, b, c | ValueLe(a, b) && ValueLe(b, c) ensures ValueLe(a, c) {
      if a.Text? && b.Text? && c.Text? {
        StrLeTransitive(a.s, b.s, c.s);
      }
    }
  }

  /** One column's cells, row by row. */
  function Cells(rows: seq<Row>, c: Column): (vs: seq<Value>)
    ensures |vs| == |rows|
    ensures forall i :: 0 <= i < |rows| ==> vs[i] == Cell(rows[i], c)
  {
    if |rows| == 0 then [] else [Cell(rows[0], c)] + Cells(rows[1..], c)
  }

  predicate Present(v: Value)
  {
    !v.Null?
  }

  /** The dummy levels of one field: every distinct non-missing value of the column,
      once each, in ascending order. */
  function Levels(rows: seq<Row>, field: string): (ls: seq<Value>)
    ensures forall v :: v in ls <==> v != Null && v in Cells(rows, Plain(field))
    ensures NoDups(ls)
    ensures SortedBy(ls, ValueLe)
  {
    var present := Distinct(Filter(Cells(rows, Plain(field)), Present));
    NoDupsPermutation(present, Sort(present, ValueLe));
    SortKeepsMembers(present, ValueLe);
    ValueLeIsTotalPreorder();
    SortIsSorted(present, ValueLe);
    Sort(present, ValueLe)
  }

  /** The indicator columns of one field: one per level, then the missing-value one. */
  function DummyColumns(field: string, levels: seq<Value>): (cs: seq<Column>)
    ensures |cs| == |levels| + 1
    ensures forall c :: c in cs <==> c.Dummy? && c.field == field && (c.level == Null || c.level in levels)
    ensures Null !in levels && NoDups(levels) ==> NoDups(cs)
  {
    if |levels| == 0 then [Dummy(field, Null)]
    else
      var rest := DummyColumns(field, levels[1..]);
      assert forall v :: v in levels <==> v == levels[0] || v in levels[1..];
      [Dummy(field, levels[0])] + rest
  }

  /** The indicator columns of every categorical field, field after field. */
  function AllDummies(rows: seq<Row>, cats: seq<string>): (cs: seq<Column>)
    ensures forall c :: c in cs <==>
      c.Dummy? && c.field in cats && (c.level == Null || c.level in Levels(rows, c.field))
    ensures NoDups(cats) ==> NoDups(cs)
  {
    if |cats| == 0 then []
    else
      var head := DummyColumns(cats[0], Levels(rows, cats[0]));
      var rest := AllDummies(rows, cats[1..]);
      assert forall n :: n in cats <==> n == cats[0] || n in cats[1..];
      assert NoDups(cats) ==> NoDups(head + rest) by {
        if NoDups(cats) {
          assert cats[0] !in cats[1..];
          NoDupsConcat(head, rest);
        }
      }
      head + rest
  }

  function NonCategorical(cats: seq<string>): Column -> bool
  {
    (c: Column) => !(c.Plain? && c.name in cats)
  }

  /** The columns after encoding: the kept columns in order, then the indicators. */
  function EncodedColumns(f: Frame, cats: seq<string>): seq<Column>
  {
    Filter(f.columns, NonCategorical(cats)) + AllDummies(f.rows, cats)
  }

  /** One encoded cell: an indicator compares the row's value of its field with its level
      (the missing-value indicator is set exactly for a missing value); any other column
      keeps the row's cell. */
  function EncodeCell(row: Row, cats: seq<string>, c: Column): Value
  {
    if c.Dummy? && c.field in cats then Flag(Cell(row, Plain(c.field)) == c.level)
    else Cell(row, c)
  }

  function EncodeRow(row: Row, cats: seq<string>, cols: seq<Column>): (r: Row)
    ensures r.Keys == ColumnSet(cols)
    ensures forall c :: c in cols ==> r[c] == EncodeCell(row, cats, c)
  {
    map c | c in ColumnSet(cols) :: EncodeCell(row, cats, c)
  }

  function EncodeRows(rows: seq<Row>, cats: seq<string>, cols: seq<Column>): (r: seq<Row>)
    ensures |r| == |rows|
    ensures forall i :: 0 <= i < |rows| ==> r[i] == EncodeRow(rows[i], cats, cols)
  {
    if |rows| == 0 then [] else [EncodeRow(rows[0], cats, cols)] + EncodeRows(rows[1..], cats, cols)
  }

  function FirstAbsent(cats: seq<string>, f: Frame): (r: Option<string>)
    ensures r.None? <==> forall n :: n in cats ==> Plain(n) in f.columns
    ensures r.Some? ==> r.value in cats && Plain(r.value) !in f.columns
  {
    if |cats| == 0 then None
    else if Plain(cats[0]) !in f.columns then Some(cats[0])
    else FirstAbsent(cats[1..], f)
  }

  /** The frame has plain column labels only, as one read from a file or built from
      records has. */
  predicate PlainOnly(cols: seq<Column>)
  {
    forall i :: 0 <= i < |cols| ==> cols[i].Plain?
  }

  /** `pd.get_dummies(df, columns=cats, dummy_na=True)`; a KeyError when one of the
      categorical columns is absent. */
  function OneHot(f: Frame, cats: seq<string>): (r: Result<Frame, Error>)
    ensures r.Failure? <==> exists n :: n in cats && Plain(n) !in f.columns
    ensures r.Success? ==> |r.value.rows| == |f.rows|
    ensures r.Success? ==> forall n :: Plain(n) in r.value.columns <==> Plain(n) in f.columns && n !in cats
    ensures r.Success? && PlainOnly(f.columns) ==> forall c :: c in r.value.columns && c.Dummy? && c.field in cats ==>
      c.level == Null || exists i :: 0 <= i < |f.rows| && Cell(f.rows[i], Plain(c.field)) == c.level
    ensures r.Success? ==> forall n :: n in cats ==> Dummy(n, Null) in r.value.columns
    ensures r.Success? ==> forall i :: 0 <= i < |f.rows| ==> r.value.rows[i].Keys == ColumnSet(r.value.columns)
    ensures r.Success? && NoDups(f.columns) && NoDups(cats) && PlainOnly(f.columns) ==> WellFormed(r.value)
  {
    var missing := FirstAbsent(cats, f);
    if missing.Some? then Failure(MissingColumn(missing.value))
    else
      var cols := EncodedColumns(f, cats);
      EncodedPlainColumns(f, cats);
      EncodedDummyColumns(f, cats);
      assert NoDups(f.columns) && NoDups(cats) && PlainOnly(f.columns) ==> NoDups(cols) by {
        if NoDups(f.columns) && NoDups(cats) && PlainOnly(f.columns) {
          EncodedColumnsDistinct(f, cats);
        }
      }
      Success(Frame(cols, EncodeRows(f.rows, cats, cols)))
  }

  lemma EncodedPlainColumns(f: Frame, cats: seq<string>)
    ensures forall n :: Plain(n) in EncodedColumns(f, cats) <==> Plain(n) in f.columns && n !in cats
  {
  }

  lemma EncodedDummyColumns(f: Frame, cats: seq<string>)
    ensures PlainOnly(f.columns) ==> forall c :: c in EncodedColumns(f, cats) && c.Dummy? && c.field in cats ==>
      c.level == Null || exists i :: 0 <= i < |f.rows| && Cell(f.rows[i], Plain(c.field)) == c.level
    ensures forall n :: n in cats ==> Dummy(n, Null) in EncodedColumns(f, cats)
  {
    if PlainOnly(f.columns) {
      forall c | c in EncodedColumns(f, cats) && c.Dummy? && c.field in cats && c.level != Null
        ensures exists i :: 0 <= i < |f.rows| && Cell(f.rows[i], Plain(c.field)) == c.level
      {
        DummyIsNotKept(f, cats, c);
        LevelOccurs(f.rows, c.field, c.level);
      }
    }
  }

  lemma DummyIsNotKept(f: Frame, cats: seq<string>, c: Column)
    requires PlainOnly(f.columns) && c.Dummy?
    ensures c in EncodedColumns(f, cats) ==> c in AllDummies(f.rows, cats)
  {
    assert c !in f.columns;
  }

  lemma LevelOccurs(rows: seq<Row>, field: string, v: Value)
    requires v in Levels(rows, field)
    ensures exists i :: 0 <= i < |rows| && Cell(rows[i], Plain(field)) == v
  {
    var cs := Cells(rows, Plain(field));
    var i :| 0 <= i < |cs| && cs[i] == v;
  }

  lemma EncodedColumnsDistinct(f: Frame, cats: seq<string>)
    requires NoDups(f.columns) && NoDups(cats) && PlainOnly(f.columns)
    ensures NoDups(EncodedColumns(f, cats))
  {
    FilterKeepsNoDups(f.columns, NonCategorical(cats));
    NoDupsConcat(Filter(f.columns, NonCategorical(cats)), AllDummies(f.rows, cats));
  }

  /** With `dummy_na=True` every row sets exactly one indicator of each categorical
      field: the one for its own value, which exists even when that value is missing. */
  lemma ExactlyOneIndicator(f: Frame, cats: seq<string>, i: int, n: string)
    requires OneHot(f, cats).Success?
    requires 0 <= i < |f.rows| && n in cats
    ensures Dummy(n, Cell(f.rows[i], Plain(n))) in OneHot(f, cats).value.columns
    ensures forall lv :: Dummy(n, lv) in OneHot(f, cats).value.columns ==>
      (OneHot(f, cats).value.rows[i][Dummy(n, lv)] == Int(1) <==> lv == Cell(f.rows[i], Plain(n)))
  {
    OneHotUnfolds(f, cats);
    IndicatorColumnPresent(f, cats, i, n);
    IndicatorCells(f, cats, i, n);
  }

  lemma IndicatorColumnPresent(f: Frame, cats: seq<string>, i: int, n: string)
    requires 0 <= i < |f.rows| && n in cats
    ensures Dummy(n, Cell(f.rows[i], Plain(n))) in EncodedColumns(f, cats)
  {
    var v := Cell(f.rows[i], Plain(n));
    var cs := Cells(f.rows, Plain(n));
    assert cs[i] == v;
    assert v != Null ==> v in Levels(f.rows, n);
    assert Dummy(n, v) in AllDummies(f.rows, cats);
  }

  lemma IndicatorCells(f: Frame, cats: seq<string>, i: int, n: string)
    requires OneHot(f, cats).Success?
    requires 0 <= i < |f.rows| && n in cats
    ensures forall lv :: Dummy(n, lv) in EncodedColumns(f, cats) ==>
      Dummy(n, lv) in OneHot(f, cats).value.rows[i] &&
      OneHot(f, cats).value.rows[i][Dummy(n, lv)] == Flag(Cell(f.rows[i], Plain(n)) == lv)
  {
    var cols := EncodedColumns(f, cats);
    OneHotUnfolds(f, cats);
    assert OneHot(f, cats).value.rows[i] == EncodeRow(f.rows[i], cats, cols);
  }

  /** A successful encoding is the encoded rows under the encoded columns. */
  lemma OneHotUnfolds(f: Frame, cats: seq<string>)
    requires OneHot(f, cats).Success?
    ensures OneHot(f, cats).value.columns == EncodedColumns(f, cats)
    ensures OneHot(f, cats).value.rows == EncodeRows(f.rows, cats, EncodedColumns(f, cats))
  {
  }

  /** The value an aligned, encoded row holds in a schema column, computed from that row
      alone: an indicator of a categorical field compares the row's value with the level,
      a raw categorical column is gone (0), any other column keeps the row's cell or is
      filled with 0. */
  function ServeCell(row: Row, cats: seq<string>, c: Column): Value
  {
    if c.Dummy? && c.field in cats then Flag(Cell(row, Plain(c.field)) == c.level)
    else if c.Plain? && c.name in cats then Int(0)
    else if c in row then row[c]
    else Int(0)
  }

  /** `_one_hot_from_meta` and the split alignment: encode, then `reindex` onto a fixed
      column list. Indicators for levels the schema does not know are dropped, schema
      columns the frame lacks are 0. */
  function EncodeAligned(f: Frame, cats: seq<string>, schema: seq<Column>): (r: Result<Frame, Error>)
    ensures r.Failure? <==> exists n :: n in cats && Plain(n) !in f.columns
    ensures r.Success? ==> r.value.columns == schema && |r.value.rows| == |f.rows|
    ensures r.Success? ==> forall i :: 0 <= i < |f.rows| ==> r.value.rows[i].Keys == ColumnSet(schema)
    ensures r.Success? && WellFormed(f) ==> forall i, c :: 0 <= i < |f.rows| && c in schema ==>
      c in r.value.rows[i] && r.value.rows[i][c] == ServeCell(f.rows[i], cats, c)
  {
    var x := OneHot(f, cats);
    if x.Failure? then Failure(x.error)
    else
      AlignedCells(f, cats, schema);
      Success(Reindex(x.value, schema))
  }

  lemma AlignedCells(f: Frame, cats: seq<string>, schema: seq<Column>)
    requires OneHot(f, cats).Success?
    ensures WellFormed(f) ==> forall i, c :: 0 <= i < |f.rows| && c in schema ==>
      Reindex(OneHot(f, cats).value, schema).rows[i][c] == ServeCell(f.rows[i], cats, c)
  {
    if WellFormed(f) {
      forall i, c | 0 <= i < |f.rows| && c in schema
        ensures Reindex(OneHot(f, cats).value, schema).rows[i][c] == ServeCell(f.rows[i], cats, c)
      {
        AlignedCell(f, cats, schema, i, c);
      }
    }
  }

  lemma AlignedCell(f: Frame, cats: seq<string>, schema: seq<Column>, i: int, c: Column)
    requires OneHot(f, cats).Success? && WellFormed(f)
    requires 0 <= i < |f.rows| && c in schema
    ensures Reindex(OneHot(f, cats).value, schema).rows[i][c] == ServeCell(f.rows[i], cats, c)
  {
    var x := OneHot(f, cats).value;
    var row := f.rows[i];
    assert x.rows[i] == EncodeRow(row, cats, EncodedColumns(f, cats));
    EncodedPlainColumns(f, cats);
    EncodedDummyColumns(f, cats);
    assert row.Keys == ColumnSet(f.columns);
    if c.Dummy? && c.field in cats {
      if c !in x.rows[i] {
        assert c.level != Null;
        var cs := Cells(f.rows, Plain(c.field));
        assert cs[i] == Cell(row, Plain(c.field));
        assert c.level !in Levels(f.rows, c.field);
      }
    } else if !(c.Plain? && c.name in cats) {
      assert c in x.rows[i] <==> c in f.columns;
    }
  }

  /** Train/serve consistency: a row encoded and aligned inside one frame (the training
      batch) gets the same features as the same row encoded and aligned inside another
      (the online candidates), whatever else either frame holds. */
  lemma TrainServeConsistent(f: Frame, g: Frame, cats: seq<string>, schema: seq<Column>, i: int, j: int)
    requires EncodeAligned(f, cats, schema).Success? && EncodeAligned(g, cats, schema).Success?
    requires WellFormed(f) && WellFormed(g)
    requires 0 <= i < |f.rows| && 0 <= j < |g.rows| && f.rows[i] == g.rows[j]
    ensures EncodeAligned(f, cats, schema).value.rows[i] == EncodeAligned(g, cats, schema).value.rows[j]
  {
    var a := EncodeAligned(f, cats, schema).value.rows[i];
    var b := EncodeAligned(g, cats, schema).value.rows[j];
    assert a.Keys == b.Keys;
    forall c | c in a.Keys ensures a[c] == b[c] {
      assert c in schema;
    }
  }
}
