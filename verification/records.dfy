/** Python dicts with insertion-ordered keys, as the online path builds its feature rows,
    and `pd.DataFrame(records)`, which turns a list of them into a frame. */
module Records {
  import opened Seqs
  import opened Frames

  /** A dict: its keys in insertion order, and its cells. */
  datatype Dict = Dict(order: seq<Column>, cells: Row)

  predicate Valid(d: Dict)
  {
    NoDups(d.order) && ColumnSet(d.order) == d.cells.Keys
  }

  const EmptyDict := Dict([], map[])

  /** `d.get(name, default)`. */
  function Get(d: Dict, name: string, default: Value): Value
  {
    if Plain(name) in d.cells then d.cells[Plain(name)] else default
  }

  /** `d.update(e)`: the cells of `e` win; keys new to `d` are appended in `e`'s order. */
  function Update(d: Dict, e: Dict): (r: Dict)
    ensures r.cells.Keys == d.cells.Keys + e.cells.Keys
    ensures forall c :: c in e.cells ==> r.cells[c] == e.cells[c]
    ensures forall c :: c in d.cells && c !in e.cells ==> r.cells[c] == d.cells[c]
    ensures |r.order| >= |d.order| && r.order[..|d.order|] == d.order
    ensures Valid(d) && Valid(e) ==> Valid(r)
  {
    Dict(Extend(d.order, e.order), d.cells + e.cells)
  }

  function Single(name: string, v: Value): (d: Dict)
    ensures Valid(d)
  {
    Dict([Plain(name)], map[Plain(name) := v])
  }

  /** `d[name] = v`. */
  function Put(d: Dict, name: string, v: Value): (r: Dict)
    ensures r.cells == d.cells[Plain(name) := v]
    ensures Valid(d) ==> Valid(r)
  {
    Update(d, Single(name, v))
  }

  /** `d.setdefault(name, v)`: only an absent key is set. */
  function SetDefault(d: Dict, name: string, v: Value): (r: Dict)
    ensures Plain(name) in d.cells ==> r == d
    ensures Plain(name) !in d.cells ==> r.cells == d.cells[Plain(name) := v]
    ensures Valid(d) ==> Valid(r)
  {
    if Plain(name) in d.cells then d else Put(d, name, v)
  }

  /** The frame's columns: every key of every record, in order of first appearance. */
  function RecordColumns(rs: seq<Dict>, acc: seq<Column>): (cols: seq<Column>)
    ensures forall c :: c in acc ==> c in cols
    ensures forall i, c :: 0 <= i < |rs| && c in rs[i].order ==> c in cols
    ensures forall c :: c in cols ==> c in acc || exists i :: 0 <= i < |rs| && c in rs[i].order
    ensures NoDups(acc) && (forall i :: 0 <= i < |rs| ==> NoDups(rs[i].order)) ==> NoDups(cols)
  {
    if |rs| == 0 then acc
    else
      var next := Extend(acc, rs[0].order);
      assert forall c :: c in next <==> c in acc || c in rs[0].order;
      var cols := RecordColumns(rs[1..], next);
      assert forall i :: 1 <= i < |rs| ==> rs[i] == rs[1..][i - 1];
      cols
  }

  /** One frame row: the record's cells, NaN in the columns it lacks. */
  function Pad(cells: Row, cols: seq<Column>): (r: Row)
    ensures r.Keys == ColumnSet(cols)
    ensures forall c :: c in cols ==> r[c] == Cell(cells, c)
  {
    map c | c in ColumnSet(cols) :: Cell(cells, c)
  }

  function PadAll(rs: seq<Dict>, cols: seq<Column>): (r: seq<Row>)
    ensures |r| == |rs|
    ensures forall i :: 0 <= i < |rs| ==> r[i] == Pad(rs[i].cells, cols)
  {
    if |rs| == 0 then [] else [Pad(rs[0].cells, cols)] + PadAll(rs[1..], cols)
  }

  /** `pd.DataFrame(records)`: one row per record, every cell of every record kept, NaN
      where a record has no value for a column. */
  function FromRecords(rs: seq<Dict>): (f: Frame)
    ensures |f.rows| == |rs|
    ensures (forall i :: 0 <= i < |rs| ==> Valid(rs[i])) ==> WellFormed(f)
    ensures (forall i :: 0 <= i < |rs| ==> Valid(rs[i])) ==>
      forall i, c :: 0 <= i < |rs| ==> Cell(f.rows[i], c) == Cell(rs[i].cells, c)
    ensures (forall i :: 0 <= i < |rs| ==> Valid(rs[i])) ==>
      forall i, c :: 0 <= i < |rs| && c in rs[i].cells ==> c in f.columns
  {
    var cols := RecordColumns(rs, []);
    var f := Frame(cols, PadAll(rs, cols));
    assert (forall i :: 0 <= i < |rs| ==> Valid(rs[i])) ==>
      forall i, c :: 0 <= i < |rs| ==> Cell(f.rows[i], c) == Cell(rs[i].cells, c) by {
      if forall i :: 0 <= i < |rs| ==> Valid(rs[i]) {
        forall i, c | 0 <= i < |rs| ensures Cell(f.rows[i], c) == Cell(rs[i].cells, c) {
          if c in rs[i].cells {
            assert c in rs[i].order;
          }
        }
      }
    }
    f
  }
}
