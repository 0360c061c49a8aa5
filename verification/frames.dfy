/** A pandas DataFrame as an ordered list of column labels and a sequence of rows,
    each row a map from column label to cell value; plus the frame operations the
    pipeline uses: column assignment, `drop(columns=...)`, `reindex(columns=...,
    fill_value=0)` and a left `merge` with a static attribute table. */
module Frames {
  import opened Wrappers
  import opened Errors
  import opened Seqs
  import opened PyOps

  /** One cell. `Null` is pandas' NaN / missing value. */
  datatype Value = Int(i: int) | Real(r: real) | Text(s: string) | Null

  /** A column label: a plain name, or an indicator column made by `get_dummies` for
      one level of a categorical field (the level `Null` labels the NaN indicator). */
  datatype Column = Plain(name: string) | Dummy(field: string, level: Value)

  type Row = map<Column, Value>

  datatype Frame = Frame(columns: seq<Column>, rows: seq<Row>)

  function ColumnSet(cols: seq<Column>): set<Column>
  {
    set c | c in cols
  }

  /** Distinct column labels, and every row has a cell for exactly those columns. */
  predicate WellFormed(f: Frame)
  {
    && NoDups(f.columns)
    && forall i :: 0 <= i < |f.rows| ==> f.rows[i].Keys == ColumnSet(f.columns)
  }

  /** The cell of a column in a row, NaN where the row has none. */
  function Cell(row: Row, c: Column): Value
  {
    if c in row then row[c] else Null
  }

  /** Python's `int(v)` on one cell: floats truncate toward zero; NaN and text raise. */
  function PyInt(v: Value): (r: Result<int, Error>)
    ensures v.Int? ==> r == Success(v.i)
    ensures v.Real? && 0.0 <= v.r ==> r.Success? && 0 <= r.value && r.value as real <= v.r < r.value as real + 1.0
    ensures v.Real? && v.r < 0.0 ==> r.Success? && r.value <= 0 && r.value as real - 1.0 < v.r <= r.value as real
    ensures (v.Text? || v.Null?) <==> r.Failure?
  {
    match v
    case Int(i) => Success(i)
    case Real(x) => Success(Trunc(x))
    case _ => Failure(NotAnInteger)
  }

  /** The labels of plain columns with these names. */
  function PlainColumns(names: seq<string>): (cols: seq<Column>)
    ensures |cols| == |names|
    ensures forall i :: 0 <= i < |names| ==> cols[i] == Plain(names[i])
    ensures forall n :: Plain(n) in cols <==> n in names
    ensures forall c :: c in cols ==> c.Plain?
  {
    if |names| == 0 then [] else [Plain(names[0])] + PlainColumns(names[1..])
  }

  function NotIn(cols: seq<Column>): Column -> bool
  {
    (c: Column) => c !in cols
  }

  /** Insertion-ordered keys after adding `more`: a key already present keeps its place,
      a new one is appended in the order given (Python dicts and DataFrame columns alike). */
  function Extend(cols: seq<Column>, more: seq<Column>): (r: seq<Column>)
    ensures ColumnSet(r) == ColumnSet(cols) + ColumnSet(more)
    ensures NoDups(cols) && NoDups(more) ==> NoDups(r)
    ensures |r| >= |cols| && r[..|cols|] == cols
  {
    var extra := Filter(more, NotIn(cols));
    assert NoDups(more) ==> NoDups(extra) by {
      if NoDups(more) {
        FilterKeepsNoDups(more, NotIn(cols));
      }
    }
    assert (cols + extra)[..|cols|] == cols;
    assert NoDups(cols) && NoDups(more) ==> NoDups(cols + extra) by {
      if NoDups(cols) && NoDups(more) {
        NoDupsConcat(cols, extra);
      }
    }
    cols + extra
  }

  /** The columns after assigning `df[name] = ...` for each of several names. */
  function AppendMissing(cols: seq<Column>, names: seq<string>): (r: seq<Column>)
    ensures ColumnSet(r) == ColumnSet(cols) + ColumnSet(PlainColumns(names))
    ensures NoDups(cols) && NoDups(names) ==> NoDups(r)
    ensures |r| >= |cols| && r[..|cols|] == cols
  {
    var pcs := PlainColumns(names);
    assert NoDups(names) ==> NoDups(pcs);
    Extend(cols, pcs)
  }

  function Flag(b: bool): Value
  {
    if b then Int(1) else Int(0)
  }

  /** The values of column `name`, or pandas' KeyError when the frame has no such column. */
  function GetColumn(f: Frame, name: string): (r: Result<seq<Value>, Error>)
    ensures Plain(name) !in f.columns <==> r.Failure?
    ensures r.Success? ==> |r.value| == |f.rows|
    ensures r.Success? ==> forall i :: 0 <= i < |f.rows| && Plain(name) in f.rows[i] ==> r.value[i] == f.rows[i][Plain(name)]
  {
    if Plain(name) !in f.columns then Failure(MissingColumn(name))
    else Success(seq(|f.rows|, i requires 0 <= i < |f.rows| =>
      if Plain(name) in f.rows[i] then f.rows[i][Plain(name)] else Null))
  }

  /** `df[name] = vals`: overwrites the column in place, or appends it at the end. */
  function SetColumn(f: Frame, name: string, vals: seq<Value>): (r: Frame)
    requires |vals| == |f.rows|
    ensures |r.rows| == |f.rows|
    ensures Plain(name) in f.columns ==> r.columns == f.columns
    ensures Plain(name) !in f.columns ==> r.columns == f.columns + [Plain(name)]
    ensures forall i :: 0 <= i < |f.rows| ==> Plain(name) in r.rows[i] && r.rows[i][Plain(name)] == vals[i]
    ensures forall i, c :: 0 <= i < |f.rows| && c != Plain(name) && c in f.rows[i] ==> c in r.rows[i] && r.rows[i][c] == f.rows[i][c]
    ensures WellFormed(f) ==> WellFormed(r)
  {
    var cols := if Plain(name) in f.columns then f.columns else f.columns + [Plain(name)];
    var rows := seq(|f.rows|, i requires 0 <= i < |f.rows| => f.rows[i][Plain(name) := vals[i]]);
    assert WellFormed(f) ==> NoDups(cols);
    assert ColumnSet(cols) == ColumnSet(f.columns) + {Plain(name)};
    Frame(cols, rows)
  }

  /** `df.drop(columns=names)`: KeyError when one of them is not a column. */
  function DropColumns(f: Frame, names: seq<string>): (r: Result<Frame, Error>)
    ensures r.Failure? <==> exists n :: n in names && Plain(n) !in f.columns
    ensures r.Success? ==> |r.value.rows| == |f.rows|
    ensures r.Success? ==> forall n :: n in names ==> Plain(n) !in r.value.columns
    ensures r.Success? ==> forall c :: c in r.value.columns <==> c in f.columns && !(c.Plain? && c.name in names)
    ensures r.Success? ==> forall i :: 0 <= i < |f.rows| ==>
      forall c :: c in r.value.rows[i] <==> c in f.rows[i] && !(c.Plain? && c.name in names)
    ensures r.Success? && WellFormed(f) ==> WellFormed(r.value)
  {
    var missing := FirstMissing(names, f.columns);
    if missing.Some? then Failure(MissingColumn(missing.value))
    else
      var dropped := set n | n in names :: Plain(n);
      var cols := Filter(f.columns, (c: Column) => !(c.Plain? && c.name in names));
      var rows := seq(|f.rows|, i requires 0 <= i < |f.rows| => f.rows[i] - dropped);
      assert WellFormed(f) ==> NoDups(cols) by {
        if WellFormed(f) {
          FilterKeepsNoDups(f.columns, (c: Column) => !(c.Plain? && c.name in names));
        }
      }
      Success(Frame(cols, rows))
  }

  /** The first of `names` that is not a plain column of `cols`, if any. */
  function FirstMissing(names: seq<string>, cols: seq<Column>): (r: Option<string>)
    ensures r.None? <==> forall n :: n in names ==> Plain(n) in cols
    ensures r.Some? ==> r.value in names && Plain(r.value) !in cols
  {
    if |names| == 0 then None
    else if Plain(names[0]) !in cols then Some(names[0])
    else FirstMissing(names[1..], cols)
  }

  /** One row re-expressed over `cols`: present cells copied, absent ones 0, the rest dropped. */
  function ReindexRow(row: Row, cols: seq<Column>): (r: Row)
    ensures r.Keys == ColumnSet(cols)
    ensures forall c :: c in cols ==> c in r && r[c] == (if c in row then row[c] else Int(0))
  {
    map c | c in ColumnSet(cols) :: if c in row then row[c] else Int(0)
  }

  /** `df.reindex(columns=cols, fill_value=0)`. */
  function Reindex(f: Frame, cols: seq<Column>): (r: Frame)
    ensures r.columns == cols
    ensures |r.rows| == |f.rows|
    ensures NoDups(cols) ==> WellFormed(r)
    ensures forall i :: 0 <= i < |f.rows| ==> r.rows[i].Keys == ColumnSet(cols)
    ensures forall i, c :: 0 <= i < |f.rows| && c in cols && c in f.rows[i] ==> c in r.rows[i] && r.rows[i][c] == f.rows[i][c]
    ensures forall i, c :: 0 <= i < |f.rows| && c in cols && c !in f.rows[i] ==> c in r.rows[i] && r.rows[i][c] == Int(0)
  {
    var rows := seq(|f.rows|, i requires 0 <= i < |f.rows| => ReindexRow(f.rows[i], cols));
    assert forall i :: 0 <= i < |f.rows| ==> rows[i] == ReindexRow(f.rows[i], cols);
    Frame(cols, rows)
  }

  /** Re-aligning an already aligned frame changes nothing. */
  lemma ReindexIdempotent(f: Frame, cols: seq<Column>)
    ensures Reindex(Reindex(f, cols), cols) == Reindex(f, cols)
  {
    var once := Reindex(f, cols);
    var twice := Reindex(once, cols);
    assert forall i :: 0 <= i < |f.rows| ==> twice.rows[i] == once.rows[i];
  }

  /** Aligning a well-formed frame to its own columns changes nothing. */
  lemma ReindexToOwnColumns(f: Frame)
    requires WellFormed(f)
    ensures Reindex(f, f.columns) == f
  {
    var r := Reindex(f, f.columns);
    assert forall i :: 0 <= i < |f.rows| ==> r.rows[i] == f.rows[i];
  }

  /** A static attribute table keyed by a string id (users.csv, items.csv): each entry's
      `attrs` holds its non-key columns. */
  datatype Entry = Entry(id: string, attrs: Row)
  datatype Catalog = Catalog(keyName: string, attrColumns: seq<Column>, entries: seq<Entry>)

  function Ids(es: seq<Entry>): (ids: seq<string>)
    ensures |ids| == |es|
    ensures forall i :: 0 <= i < |es| ==> ids[i] == es[i].id
  {
    if |es| == 0 then [] else [es[0].id] + Ids(es[1..])
  }

  /** The entries whose id equals the cell `v`, in table order. */
  function MatchingEntries(es: seq<Entry>, v: Value): (r: seq<Entry>)
    ensures forall e :: e in r <==> e in es && Text(e.id) == v
    ensures |r| <= |es|
    ensures (forall e :: e in es ==> Text(e.id) != v) ==> r == []
  {
    if |es| == 0 then []
    else (if Text(es[0].id) == v then [es[0]] else []) + MatchingEntries(es[1..], v)
  }

  lemma {:induction false} UniqueIdMatches(es: seq<Entry>, v: Value)
    requires NoDups(Ids(es))
    ensures |MatchingEntries(es, v)| <= 1
  {
    if |es| > 0 {
      UniqueIdMatches(es[1..], v);
      assert Ids(es[1..]) == Ids(es)[1..];
      if Text(es[0].id) == v {
        forall j | 0 <= j < |es[1..]|
          ensures Text(es[1..][j].id) != v
        {
          assert Ids(es)[j + 1] == es[1..][j].id;
        }
        assert forall e :: e in es[1..] ==> Text(e.id) != v;
        assert MatchingEntries(es[1..], v) == [];
      }
    }
  }

  /** NaN for every attribute column: what a left merge gives a row without a match. */
  function NullAttrs(cols: seq<Column>): (r: Row)
    ensures r.Keys == ColumnSet(cols)
  {
    map c | c in ColumnSet(cols) :: Null
  }

  /** The cell a left row is joined on; a row without the key column matches nothing. */
  function MergeKey(row: Row, c: Catalog): Value
  {
    if Plain(c.keyName) in row then row[Plain(c.keyName)] else Null
  }

  /** The merged rows for one left row: one per matching entry, carrying that entry's
      attributes, or, when nothing matches, one row whose attribute columns are NaN. On
      a clash of column names the left row's cell is kept. */
  function MergeOne(row: Row, c: Catalog): (r: seq<Row>)
    ensures |r| >= 1
    ensures forall j, k :: 0 <= j < |r| && k in row ==> k in r[j] && r[j][k] == row[k]
    ensures var ms := MatchingEntries(c.entries, MergeKey(row, c));
      && (|ms| > 0 ==> |r| == |ms| && forall j, k :: 0 <= j < |ms| && k in ms[j].attrs && k !in row ==>
            k in r[j] && r[j][k] == ms[j].attrs[k])
      && (|ms| > 0 ==> forall j, k :: 0 <= j < |ms| && k in r[j] ==> k in row || k in ms[j].attrs)
      && (|ms| == 0 ==> |r| == 1 && forall k :: k in ColumnSet(c.attrColumns) && k !in row ==>
            k in r[0] && r[0][k] == Null)
      && (|ms| == 0 ==> forall k :: k in r[0] ==> k in row || k in ColumnSet(c.attrColumns))
  {
    var ms := MatchingEntries(c.entries, MergeKey(row, c));
    if |ms| == 0 then [NullAttrs(c.attrColumns) + row]
    else seq(|ms|, j requires 0 <= j < |ms| => ms[j].attrs + row)
  }

  function MergeRows(rows: seq<Row>, c: Catalog): (r: seq<Row>)
    ensures |r| >= |rows|
  {
    if |rows| == 0 then [] else MergeOne(rows[0], c) + MergeRows(rows[1..], c)
  }

  /** With distinct catalog ids, each left row has exactly one merged row, at its own
      position. */
  lemma {:induction false} MergeRowsUnique(rows: seq<Row>, c: Catalog)
    requires NoDups(Ids(c.entries))
    ensures |MergeRows(rows, c)| == |rows|
    ensures forall i :: 0 <= i < |rows| ==> MergeRows(rows, c)[i] == MergeOne(rows[i], c)[0]
  {
    if |rows| > 0 {
      MergeRowsUnique(rows[1..], c);
      MergeOneUnique(rows[0], c);
      var head, rest := MergeOne(rows[0], c), MergeRows(rows[1..], c);
      assert MergeRows(rows, c) == head + rest;
      forall i | 1 <= i < |rows| ensures MergeRows(rows, c)[i] == MergeOne(rows[i], c)[0] {
        assert (head + rest)[i] == rest[i - 1];
        assert rows[1..][i - 1] == rows[i];
      }
    }
  }

  /** With distinct catalog ids, a left row has exactly one merged row. */
  lemma MergeOneUnique(row: Row, c: Catalog)
    requires NoDups(Ids(c.entries))
    ensures |MergeOne(row, c)| == 1
  {
    UniqueIdMatches(c.entries, MergeKey(row, c));
  }

  /** `df.merge(catalog, on=key, how="left")`: every left row survives, in order, and
      keeps its own cells; it appears once per matching catalog entry (once, NaN-filled,
      when nothing matches). KeyError when the left frame has no key column. */
  function LeftMerge(f: Frame, c: Catalog): (r: Result<Frame, Error>)
    ensures r.Failure? <==> Plain(c.keyName) !in f.columns
    ensures r.Success? ==> |r.value.rows| >= |f.rows|
    ensures r.Success? && NoDups(Ids(c.entries)) ==> |r.value.rows| == |f.rows|
    ensures r.Success? && NoDups(Ids(c.entries)) ==>
      forall i, k :: 0 <= i < |f.rows| && k in f.rows[i] ==> k in r.value.rows[i] && r.value.rows[i][k] == f.rows[i][k]
    ensures r.Success? ==> forall k :: k in f.columns ==> k in r.value.columns
    ensures r.Success? && NoDups(Ids(c.entries)) ==>
      forall i :: 0 <= i < |f.rows| ==> r.value.rows[i] == MergeOne(f.rows[i], c)[0]
    ensures r.Success? && NoDups(Ids(c.entries)) ==> forall i :: 0 <= i < |f.rows| ==>
      var ms := MatchingEntries(c.entries, MergeKey(f.rows[i], c));
      && (|ms| == 1 ==> forall k :: k in ms[0].attrs && k !in f.rows[i] ==>
            k in r.value.rows[i] && r.value.rows[i][k] == ms[0].attrs[k])
      && (|ms| == 0 ==> forall k :: k in ColumnSet(c.attrColumns) && k !in f.rows[i] ==>
            k in r.value.rows[i] && r.value.rows[i][k] == Null)
  {
    if Plain(c.keyName) !in f.columns then Failure(MissingColumn(c.keyName))
    else
      var extra := Filter(c.attrColumns, (k: Column) => k !in f.columns);
      if NoDups(Ids(c.entries)) then
        MergeRowsUnique(f.rows, c);
        Success(Frame(f.columns + extra, MergeRows(f.rows, c)))
      else Success(Frame(f.columns + extra, MergeRows(f.rows, c)))
  }
}
