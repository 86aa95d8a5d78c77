/**
 * The tabular layer the parser is written against: a table is a sequence of
 * column names and a sequence of rows, each row holding its index label and a
 * map from column name to cell. A missing cell is `None`.
 */
module Frames {

  datatype Option<+T> = None | Some(value: T)

  datatype Result<+T, +E> = Success(value: T) | Failure(error: E) {
    predicate IsFailure() { Failure? }

    function PropagateFailure<U>(): Result<U, E>
      requires Failure?
    {
      Failure(error)
    }

    function Extract(): T
      requires Success?
    {
      value
    }
  }

  /** A cell value. Numbers read as floats are carried along but never computed with. */
  datatype Value = Str(s: string) | Bool(b: bool) | Int(i: int) | Num(x: real)

  type Cell = Option<Value>

  datatype Row = Row(index: Cell, cells: map<string, Cell>)

  datatype Frame = Frame(columns: seq<string>, rows: seq<Row>)

  /** Every row has a cell for exactly the table's columns. */
  predicate WellFormed(f: Frame) {
    forall i | 0 <= i < |f.rows| :: f.rows[i].cells.Keys == set c | c in f.columns
  }

  type Table = f: Frame | WellFormed(f) witness Frame([], [])

  /** The failures the parser can raise. */
  datatype Error =
    | KeyError(missing: seq<string>)   // a column that was asked for is absent
    | TypeError(column: string)        // `+ 0` applied to a column holding a string
    | LookupError(column: string)      // a value with no entry in a code mapping

  /** The elements of `xs` that do not occur in `ys`, in their order in `xs`. */
  function Without(xs: seq<string>, ys: seq<string>): (r: seq<string>)
    ensures forall x :: x in r <==> x in xs && x !in ys
    ensures |r| <= |xs|
    ensures (forall x | x in xs :: x !in ys) ==> r == xs
  {
    if xs == [] then []
    else (if xs[0] in ys then [] else [xs[0]]) + Without(xs[1..], ys)
  }

  /** The cells of `row` for the columns `names`. */
  function Project(row: Row, names: seq<string>): Row {
    Row(row.index, map n | n in names && n in row.cells :: row.cells[n])
  }

  /**
   * `t[names]`: the table restricted to the columns `names`, in that order
   * (a repeated name gives a repeated column), every row kept in its place.
   * Fails naming the absent columns when any of `names` is not a column.
   */
  function Select(t: Table, names: seq<string>): (r: Result<Table, Error>)
    ensures r.Success? <==> forall n | n in names :: n in t.columns
    ensures r.Failure? ==> r.error == KeyError(Without(names, t.columns)) && r.error.missing != []
    ensures r.Success? ==> r.value.columns == names && |r.value.rows| == |t.rows|
    ensures r.Success? ==> forall i | 0 <= i < |t.rows| ::
              && r.value.rows[i].index == t.rows[i].index
              && forall n | n in names :: r.value.rows[i].cells[n] == t.rows[i].cells[n]
  {
    var missing := Without(names, t.columns);
    if missing != [] then
      assert missing[0] in names && missing[0] !in t.columns;
      Failure(KeyError(missing))
    else
      var rows := seq(|t.rows|, i requires 0 <= i < |t.rows| => Project(t.rows[i], names));
      assert forall i | 0 <= i < |rows| :: rows[i].cells.Keys == set c | c in names;
      Success(Frame(names, rows))
  }

  /** The set of names listed in `names`. */
  function NameSet(names: seq<string>): set<string> {
    set n | n in names
  }

  /** `row` with the cell of column `col` replaced by `v`. */
  function SetCell(row: Row, col: string, v: Cell): Row {
    Row(row.index, row.cells[col := v])
  }

  /** The cells of column `col`, one per row, in row order. */
  function Column(t: Table, col: string): (r: seq<Cell>)
    requires col in t.columns
    ensures |r| == |t.rows|
    ensures forall i | 0 <= i < |t.rows| :: r[i] == t.rows[i].cells[col]
  {
    seq(|t.rows|, i requires 0 <= i < |t.rows| => t.rows[i].cells[col])
  }

  /** `t[col].tolist()`: fails when `col` is not a column. */
  function ColumnList(t: Table, col: string): (r: Result<seq<Cell>, Error>)
    ensures r.Success? <==> col in t.columns
    ensures r.Failure? ==> r.error == KeyError([col])
    ensures r.Success? ==> |r.value| == |t.rows| && forall i | 0 <= i < |t.rows| :: r.value[i] == t.rows[i].cells[col]
  {
    if col in t.columns then Success(Column(t, col)) else Failure(KeyError([col]))
  }

  /**
   * `t.drop(names, axis=1)`: every column named in `names` goes (all of its
   * copies), the others keep their order and their cells. Fails naming the
   * absent ones when some name is not a column.
   */
  function Drop(t: Table, names: seq<string>): (r: Result<Table, Error>)
    ensures r.Success? <==> forall n | n in names :: n in t.columns
    ensures r.Failure? ==> r.error == KeyError(Without(names, t.columns)) && r.error.missing != []
    ensures r.Success? ==> r.value.columns == Without(t.columns, names) && |r.value.rows| == |t.rows|
    ensures r.Success? ==> forall i | 0 <= i < |t.rows| ::
              && r.value.rows[i].index == t.rows[i].index
              && forall c | c in r.value.columns :: r.value.rows[i].cells[c] == t.rows[i].cells[c]
  {
    var missing := Without(names, t.columns);
    if missing != [] then
      assert missing[0] in names && missing[0] !in t.columns;
      Failure(KeyError(missing))
    else
      var columns := Without(t.columns, names);
      var rows := seq(|t.rows|, i requires 0 <= i < |t.rows| => Row(t.rows[i].index, t.rows[i].cells - NameSet(names)));
      assert forall i | 0 <= i < |rows| :: rows[i].cells.Keys == set c | c in columns by {
        forall i | 0 <= i < |rows|
          ensures rows[i].cells.Keys == set c | c in columns
        {
          DropKeys(t.rows[i].cells, t.columns, names);
        }
      }
      Success(Frame(columns, rows))
  }

  /** Removing the cells named in `names` leaves exactly the cells of the remaining columns. */
  lemma DropKeys(cells: map<string, Cell>, columns: seq<string>, names: seq<string>)
    requires cells.Keys == set c | c in columns
    ensures (cells - NameSet(names)).Keys == set c | c in Without(columns, names)
  {
  }

  predicate IsText(c: Cell) {
    c.Some? && c.value.Str?
  }

  /** No cell of column `col` holds text. */
  predicate NoText(t: Table, col: string)
    requires col in t.columns
  {
    forall i | 0 <= i < |t.rows| :: !IsText(t.rows[i].cells[col])
  }

  /**
   * One cell plus the integer 0: a boolean becomes 0 or 1; numbers and
   * missing cells stay. (`AddZero` never applies it to text, which fails.)
   */
  function PlusZero(c: Cell): (r: Cell)
    ensures c == Some(Bool(false)) ==> r == Some(Int(0))
    ensures c == Some(Bool(true)) ==> r == Some(Int(1))
    ensures !(c.Some? && c.value.Bool?) ==> r == c
  {
    match c
    case Some(Bool(b)) => Some(Int(if b then 1 else 0))
    case _ => c
  }

  /**
   * `t[col] += 0`: fails when `col` is absent, and with a type error when a
   * cell of the column holds text; otherwise only that column changes.
   */
  function AddZero(t: Table, col: string): (r: Result<Table, Error>)
    ensures col !in t.columns ==> r == Failure(KeyError([col]))
    ensures r.Success? <==> col in t.columns && NoText(t, col)
    ensures col in t.columns && r.Failure? ==> r.error == TypeError(col)
    ensures r.Success? ==> r.value.columns == t.columns && |r.value.rows| == |t.rows|
    ensures r.Success? ==> forall i | 0 <= i < |t.rows| ::
              && r.value.rows[i].index == t.rows[i].index
              && r.value.rows[i].cells[col] == PlusZero(t.rows[i].cells[col])
              && forall c | c in t.columns && c != col :: r.value.rows[i].cells[c] == t.rows[i].cells[c]
  {
    if col !in t.columns then Failure(KeyError([col]))
    else if !NoText(t, col) then Failure(TypeError(col))
    else
      var rows := seq(|t.rows|, i requires 0 <= i < |t.rows| => SetCell(t.rows[i], col, PlusZero(t.rows[i].cells[col])));
      assert forall i | 0 <= i < |rows| :: rows[i].cells.Keys == set c | c in t.columns;
      Success(Frame(t.columns, rows))
  }

  /**
   * `t[col] = t[col].map(lambda x: codes[x])`: every cell of the column
   * replaced by its code. Fails when `col` is absent, or when a cell has no
   * code (the lookup's own key error).
   */
  function Recode(t: Table, col: string, codes: map<Cell, int>): (r: Result<Table, Error>)
    ensures col !in t.columns ==> r == Failure(KeyError([col]))
    ensures r.Success? <==> col in t.columns && forall i | 0 <= i < |t.rows| :: t.rows[i].cells[col] in codes
    ensures col in t.columns && r.Failure? ==> r.error == LookupError(col)
    ensures r.Success? ==> r.value.columns == t.columns && |r.value.rows| == |t.rows|
    ensures r.Success? ==> forall i | 0 <= i < |t.rows| ::
              && r.value.rows[i].index == t.rows[i].index
              && r.value.rows[i].cells[col] == Some(Int(codes[t.rows[i].cells[col]]))
              && forall c | c in t.columns && c != col :: r.value.rows[i].cells[c] == t.rows[i].cells[c]
  {
    if col !in t.columns then Failure(KeyError([col]))
    else if exists i | 0 <= i < |t.rows| :: t.rows[i].cells[col] !in codes then Failure(LookupError(col))
    else
      var rows := seq(|t.rows|, i requires 0 <= i < |t.rows| =>
        SetCell(t.rows[i], col, Some(Int(codes[t.rows[i].cells[col]]))));
      assert forall i | 0 <= i < |rows| :: rows[i].cells.Keys == set c | c in t.columns;
      Success(Frame(t.columns, rows))
  }

  /** A row with no missing cell. */
  predicate Complete(row: Row) {
    forall c | c in row.cells :: row.cells[c].Some?
  }

  /** The complete rows, in their order. */
  function KeepComplete(rows: seq<Row>): (r: seq<Row>)
    ensures forall x :: x in r <==> x in rows && Complete(x)
    ensures |r| <= |rows|
    ensures (forall i | 0 <= i < |rows| :: Complete(rows[i])) ==> r == rows
  {
    if rows == [] then []
    else (if Complete(rows[0]) then [rows[0]] else []) + KeepComplete(rows[1..])
  }

  /** Filtering a concatenation filters each part: the kept rows stay in their order. */
  lemma {:induction false} KeepCompleteAppend(a: seq<Row>, b: seq<Row>)
    ensures KeepComplete(a + b) == KeepComplete(a) + KeepComplete(b)
  {
    if a != [] {
      assert (a + b)[0] == a[0];
      assert (a + b)[1..] == a[1..] + b;
      KeepCompleteAppend(a[1..], b);
    } else {
      assert a + b == b;
    }
  }

  /** `t.dropna()`: the rows with a missing cell go, the rest keep their order. */
  function DropNA(t: Table): (r: Table)
    ensures r.columns == t.columns
    ensures forall x :: x in r.rows <==> x in t.rows && Complete(x)
    ensures forall i | 0 <= i < |r.rows| :: Complete(r.rows[i])
  {
    var rows := KeepComplete(t.rows);
    assert forall i | 0 <= i < |rows| :: rows[i].cells.Keys == set c | c in t.columns by {
      forall i | 0 <= i < |rows|
        ensures rows[i].cells.Keys == set c | c in t.columns
      {
        assert rows[i] in t.rows;
      }
    }
    Frame(t.columns, rows)
  }
}
