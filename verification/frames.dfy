/**
 * Result tables, modelled abstractly: an ordered list of distinct column
 * names and rows of cells aligned with it. The operations are the four
 * table steps of combining per-station downloads: diagonal concatenation,
 * sorting by a two-column key, dropping a column and renaming columns.
 */
module Frames {
  import opened Wrappers
  import opened Cells

  type Row = seq<Cell>

  datatype Frame = Frame(columns: seq<string>, rows: seq<Row>)

  predicate Distinct(s: seq<string>) {
    forall i, j :: 0 <= i < j < |s| ==> s[i] != s[j]
  }

  /** Every row has one cell per column. */
  predicate Rectangular(f: Frame) {
    forall i :: 0 <= i < |f.rows| ==> |f.rows[i]| == |f.columns|
  }

  /** A data frame: rectangular, with unique column names. */
  type Table = f: Frame | Rectangular(f) && Distinct(f.columns) witness Frame([], [])

  function IndexOf(s: seq<string>, x: string): (i: nat)
    requires x in s
    ensures i < |s| && s[i] == x
    ensures forall j :: 0 <= j < i ==> s[j] != x
  {
    if s[0] == x then 0 else 1 + IndexOf(s[1..], x)
  }

  lemma IndexOfDistinct(s: seq<string>, i: int)
    requires Distinct(s) && 0 <= i < |s|
    ensures IndexOf(s, s[i]) == i
  {
  }

  // ---------------------------------------------------------------------
  // Diagonal concatenation
  // ---------------------------------------------------------------------

  /** `acc` followed by the columns of `cols` it does not already hold, in order. */
  function AppendNew(acc: seq<string>, cols: seq<string>): (r: seq<string>)
    requires Distinct(acc) && Distinct(cols)
    ensures Distinct(r)
    ensures |acc| <= |r| && r[..|acc|] == acc
    ensures forall c :: c in r <==> c in acc || c in cols
    decreases |cols|
  {
    if cols == [] then acc
    else if cols[0] in acc then AppendNew(acc, cols[1..])
    else AppendNew(acc + [cols[0]], cols[1..])
  }

  /**
   * The columns of a diagonal concatenation: every column of every table,
   * once each (built in first-appearance order; the contract states only
   * the column set and its uniqueness).
   */
  function UnionColumns(ts: seq<Table>): (cols: seq<string>)
    ensures Distinct(cols)
    ensures forall c :: c in cols <==> exists k :: 0 <= k < |ts| && c in ts[k].columns
    decreases |ts|
  {
    if ts == [] then []
    else
      var prev := UnionColumns(ts[..|ts| - 1]);
      assert forall k :: 0 <= k < |ts| - 1 ==> ts[..|ts| - 1][k] == ts[k];
      AppendNew(prev, ts[|ts| - 1].columns)
  }

  /** A row of a table with columns `from`, widened to columns `to`: absent columns are null. */
  function Realign(r: Row, from: seq<string>, to: seq<string>): (out: Row)
    requires |r| == |from|
    ensures |out| == |to|
  {
    seq(|to|, i requires 0 <= i < |to| => if to[i] in from then r[IndexOf(from, to[i])] else None)
  }

  function TotalRows(ts: seq<Table>): nat
    decreases |ts|
  {
    if ts == [] then 0 else |ts[0].rows| + TotalRows(ts[1..])
  }

  /** Output row `out` is row `j` of table `k`, widened to `cols`. */
  predicate RowOf(ts: seq<Table>, cols: seq<string>, out: Row, k: int, j: int) {
    && 0 <= k < |ts|
    && 0 <= j < |ts[k].rows|
    && out == Realign(ts[k].rows[j], ts[k].columns, cols)
  }

  function ConcatRows(ts: seq<Table>, cols: seq<string>): (rows: seq<Row>)
    ensures |rows| == TotalRows(ts)
    ensures forall i :: 0 <= i < |rows| ==> |rows[i]| == |cols|
    ensures forall out :: out in rows ==> exists k, j :: RowOf(ts, cols, out, k, j)
    ensures forall k, j :: 0 <= k < |ts| && 0 <= j < |ts[k].rows| ==>
      Realign(ts[k].rows[j], ts[k].columns, cols) in rows
    decreases |ts|
  {
    if ts == [] then []
    else
      var t := ts[0];
      var here := seq(|t.rows|, j requires 0 <= j < |t.rows| => Realign(t.rows[j], t.columns, cols));
      var rest := ConcatRows(ts[1..], cols);
      assert forall out :: out in here ==> RowOf(ts, cols, out, 0, IndexOfRow(here, out));
      assert forall out, k, j :: RowOf(ts[1..], cols, out, k, j) ==> RowOf(ts, cols, out, k + 1, j);
      forall k, j | 1 <= k < |ts| && 0 <= j < |ts[k].rows|
        ensures Realign(ts[k].rows[j], ts[k].columns, cols) in rest
      {
        assert ts[k] == ts[1..][k - 1];
      }
      assert forall j :: 0 <= j < |t.rows| ==> here[j] == Realign(ts[0].rows[j], ts[0].columns, cols);
      here + rest
  }

  /** The number of rows of the tables before table `k`. */
  function Offset(ts: seq<Table>, k: nat): nat
    requires k <= |ts|
  {
    TotalRows(ts[..k])
  }

  /** Row `j` of table `k`, widened to `cols`, is at position `Offset(ts, k) + j` of `rows`. */
  predicate PlacedAt(ts: seq<Table>, rows: seq<Row>, cols: seq<string>, k: int, j: int)
    requires 0 <= k < |ts| && 0 <= j < |ts[k].rows|
  {
    Offset(ts, k) + j < |rows| && rows[Offset(ts, k) + j] == Realign(ts[k].rows[j], ts[k].columns, cols)
  }

  lemma {:induction false} ConcatRowsAt(ts: seq<Table>, cols: seq<string>, k: nat, j: nat)
    requires k < |ts| && j < |ts[k].rows|
    ensures PlacedAt(ts, ConcatRows(ts, cols), cols, k, j)
    decreases k
  {
    ConcatRowsSplit(ts, cols);
    if k > 0 {
      ConcatRowsAt(ts[1..], cols, k - 1, j);
      OffsetStep(ts, k);
      assert ts[k] == ts[1..][k - 1];
    }
  }

  /** The concatenated rows are the first table's rows followed by the rest's. */
  lemma ConcatRowsSplit(ts: seq<Table>, cols: seq<string>)
    requires ts != []
    ensures var all := ConcatRows(ts, cols); var rest := ConcatRows(ts[1..], cols);
      && |all| == |ts[0].rows| + |rest|
      && (forall j :: 0 <= j < |ts[0].rows| ==> all[j] == Realign(ts[0].rows[j], ts[0].columns, cols))
      && (forall i :: |ts[0].rows| <= i < |all| ==> all[i] == rest[i - |ts[0].rows|])
  {
  }

  lemma OffsetStep(ts: seq<Table>, k: nat)
    requires 0 < k <= |ts|
    ensures Offset(ts, k) == |ts[0].rows| + Offset(ts[1..], k - 1)
  {
    assert ts[..k][1..] == ts[1..][..k - 1];
  }

  function IndexOfRow(rows: seq<Row>, r: Row): (i: nat)
    requires r in rows
    ensures i < |rows| && rows[i] == r
  {
    if rows[0] == r then 0 else 1 + IndexOfRow(rows[1..], r)
  }

  /**
   * Diagonal concatenation: the columns are the union of all tables'
   * columns, and the rows are every table's rows, table after table and in
   * each table's own order, with nulls in the columns that table lacks.
   * Row `j` of table `k` lands at position `j` after all rows of the
   * earlier tables.
   */
  function DiagonalConcat(ts: seq<Table>): (r: Table)
    ensures forall c :: c in r.columns <==> exists k :: 0 <= k < |ts| && c in ts[k].columns
    ensures |r.rows| == TotalRows(ts)
    ensures forall out :: out in r.rows ==> exists k, j :: RowOf(ts, r.columns, out, k, j)
    ensures forall k, j :: 0 <= k < |ts| && 0 <= j < |ts[k].rows| ==>
      Realign(ts[k].rows[j], ts[k].columns, r.columns) in r.rows
    ensures forall k, j :: 0 <= k < |ts| && 0 <= j < |ts[k].rows| ==> PlacedAt(ts, r.rows, r.columns, k, j)
  {
    var cols := UnionColumns(ts);
    var rows := ConcatRows(ts, cols);
    forall k, j | 0 <= k < |ts| && 0 <= j < |ts[k].rows|
      ensures PlacedAt(ts, rows, cols, k, j)
    {
      ConcatRowsAt(ts, cols, k, j);
    }
    Frame(cols, rows)
  }

  /**
   * Every cell of a concatenated row is the source table's cell for that
   * column, or null where the source table lacks the column.
   */
  lemma RealignCells(r: Row, from: seq<string>, to: seq<string>, c: string)
    requires |r| == |from| && Distinct(from) && c in to
    ensures c !in from ==> Realign(r, from, to)[IndexOf(to, c)] == None
    ensures c in from ==> Realign(r, from, to)[IndexOf(to, c)] == r[IndexOf(from, c)]
  {
  }

  // ---------------------------------------------------------------------
  // Sorting by (primary, secondary) columns
  // ---------------------------------------------------------------------

  predicate Fits(rows: seq<Row>, ti: nat, si: nat) {
    forall i :: 0 <= i < |rows| ==> ti < |rows[i]| && si < |rows[i]|
  }

  function Key(r: Row, ti: nat, si: nat): (Cell, Cell)
    requires ti < |r| && si < |r|
  {
    (r[ti], r[si])
  }

  /** Rows ascend by the key in columns `ti` then `si`. */
  predicate SortedBy(rows: seq<Row>, ti: nat, si: nat)
    requires Fits(rows, ti, si)
  {
    forall i, j :: 0 <= i < j < |rows| ==> KeyLe(Key(rows[i], ti, si), Key(rows[j], ti, si))
  }

  /** Insert `x` into the sorted rows `s`, keeping them sorted. */
  function Insert(x: Row, s: seq<Row>, ti: nat, si: nat): (r: seq<Row>)
    requires ti < |x| && si < |x| && Fits(s, ti, si) && SortedBy(s, ti, si)
    ensures multiset(r) == multiset(s) + multiset{x}
    ensures Fits(r, ti, si) && SortedBy(r, ti, si)
    decreases |s|
  {
    if s == [] then [x]
    else if KeyLe(Key(x, ti, si), Key(s[0], ti, si)) then
      InsertFrontSorted(x, s, ti, si);
      [x] + s
    else
      KeyLeTotal(Key(x, ti, si), Key(s[0], ti, si));
      var rest := Insert(x, s[1..], ti, si);
      assert s == [s[0]] + s[1..];
      HeadBelowRest(s[0], x, s[1..], rest, ti, si);
      [s[0]] + rest
  }

  lemma InsertFrontSorted(x: Row, s: seq<Row>, ti: nat, si: nat)
    requires ti < |x| && si < |x| && Fits(s, ti, si) && SortedBy(s, ti, si) && s != []
    requires KeyLe(Key(x, ti, si), Key(s[0], ti, si))
    ensures Fits([x] + s, ti, si) && SortedBy([x] + s, ti, si)
  {
    var r := [x] + s;
    forall i, j | 0 <= i < j < |r|
      ensures KeyLe(Key(r[i], ti, si), Key(r[j], ti, si))
    {
      if i == 0 && j > 1 {
        KeyLeTransitive(Key(x, ti, si), Key(s[0], ti, si), Key(s[j - 1], ti, si));
      }
    }
  }

  lemma HeadBelowRest(h: Row, x: Row, tail: seq<Row>, rest: seq<Row>, ti: nat, si: nat)
    requires ti < |h| && si < |h| && ti < |x| && si < |x|
    requires Fits(tail, ti, si) && Fits(rest, ti, si) && SortedBy(rest, ti, si)
    requires Fits([h] + tail, ti, si) && SortedBy([h] + tail, ti, si)
    requires KeyLe(Key(h, ti, si), Key(x, ti, si))
    requires multiset(rest) == multiset(tail) + multiset{x}
    ensures Fits([h] + rest, ti, si) && SortedBy([h] + rest, ti, si)
  {
    var r := [h] + rest;
    forall j | 0 < j < |r|
      ensures KeyLe(Key(h, ti, si), Key(r[j], ti, si))
    {
      assert r[j] in multiset(rest);
      if r[j] != x {
        assert r[j] in multiset(tail);
        var m :| 0 <= m < |tail| && tail[m] == r[j];
        assert ([h] + tail)[m + 1] == r[j];
        assert ([h] + tail)[0] == h;
      }
    }
  }

  /**
   * Sorting by a primary then a secondary column: an ascending permutation
   * of the rows (rows with equal keys may come out in any order, as the
   * sort is not stable).
   */
  function SortRows(s: seq<Row>, ti: nat, si: nat): (r: seq<Row>)
    requires Fits(s, ti, si)
    ensures multiset(r) == multiset(s)
    ensures Fits(r, ti, si) && SortedBy(r, ti, si)
    decreases |s|
  {
    if s == [] then []
    else
      assert s == [s[0]] + s[1..];
      Insert(s[0], SortRows(s[1..], ti, si), ti, si)
  }

  // ---------------------------------------------------------------------
  // Dropping and renaming columns
  // ---------------------------------------------------------------------

  function RemoveAt<T>(s: seq<T>, k: nat): (r: seq<T>)
    requires k < |s|
    ensures |r| == |s| - 1
    ensures forall i :: 0 <= i < k ==> r[i] == s[i]
    ensures forall i :: k <= i < |r| ==> r[i] == s[i + 1]
  {
    s[..k] + s[k + 1..]
  }

  /** Removing one name from distinct names keeps the others in their relative order. */
  lemma RemoveAtKeepsOrder(s: seq<string>, k: nat)
    requires Distinct(s) && k < |s|
    ensures forall i, j :: 0 <= i < j < |RemoveAt(s, k)| ==>
      RemoveAt(s, k)[i] in s && RemoveAt(s, k)[j] in s
      && IndexOf(s, RemoveAt(s, k)[i]) < IndexOf(s, RemoveAt(s, k)[j])
  {
    var r := RemoveAt(s, k);
    forall i, j | 0 <= i < j < |r|
      ensures r[i] in s && r[j] in s && IndexOf(s, r[i]) < IndexOf(s, r[j])
    {
      var a := if i < k then i else i + 1;
      var b := if j < k then j else j + 1;
      assert r[i] == s[a] && r[j] == s[b];
      IndexOfDistinct(s, a);
      IndexOfDistinct(s, b);
    }
  }

  /** Removing position `k` from a row and its column names keeps every other column's cell. */
  lemma RemoveAtCell(cols: seq<string>, row: Row, k: nat, c: string)
    requires Distinct(cols) && |row| == |cols| && k < |cols| && c in RemoveAt(cols, k)
    ensures c in cols
    ensures RemoveAt(row, k)[IndexOf(RemoveAt(cols, k), c)] == row[IndexOf(cols, c)]
  {
    var m := IndexOf(RemoveAt(cols, k), c);
    if m < k {
      IndexOfDistinct(cols, m);
    } else {
      IndexOfDistinct(cols, m + 1);
    }
  }

  /**
   * Dropping a column: the column is gone, every other column keeps its
   * relative order and its cells.
   */
  function DropColumn(t: Table, name: string): (r: Table)
    requires name in t.columns
    ensures forall c :: c in r.columns <==> c in t.columns && c != name
    ensures |r.rows| == |t.rows|
    ensures forall i, c :: 0 <= i < |t.rows| && c in r.columns ==>
      c in t.columns && r.rows[i][IndexOf(r.columns, c)] == t.rows[i][IndexOf(t.columns, c)]
    ensures forall i, j :: 0 <= i < j < |r.columns| ==>
      r.columns[i] in t.columns && r.columns[j] in t.columns
      && IndexOf(t.columns, r.columns[i]) < IndexOf(t.columns, r.columns[j])
  {
    var k := IndexOf(t.columns, name);
    var cols := RemoveAt(t.columns, k);
    RemoveAtKeepsOrder(t.columns, k);
    var rows := seq(|t.rows|, i requires 0 <= i < |t.rows| => RemoveAt(t.rows[i], k));
    assert Distinct(cols);
    forall i, c | 0 <= i < |t.rows| && c in cols
      ensures rows[i][IndexOf(cols, c)] == t.rows[i][IndexOf(t.columns, c)]
    {
      RemoveAtCell(t.columns, t.rows[i], k, c);
    }
    Frame(cols, rows)
  }

  /**
   * Rename columns by `names`: a column whose name is a key of `names`
   * takes the mapped name, every other column keeps its name, and no cell
   * changes.
   */
  function RenameColumns(f: Frame, names: map<string, string>): (r: Frame)
    requires Rectangular(f)
    ensures Rectangular(r) && r.rows == f.rows && |r.columns| == |f.columns|
    ensures forall i :: 0 <= i < |f.columns| && f.columns[i] in names ==> r.columns[i] == names[f.columns[i]]
    ensures forall i :: 0 <= i < |f.columns| && f.columns[i] !in names ==> r.columns[i] == f.columns[i]
  {
    Frame(seq(|f.columns|, i requires 0 <= i < |f.columns| =>
            if f.columns[i] in names then names[f.columns[i]] else f.columns[i]),
          f.rows)
  }
}
