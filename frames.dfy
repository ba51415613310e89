/**
  The part of pandas the dashboard relies on to pick chart data: a table with
  named columns and possibly empty cells, `df[[a, b]].dropna()`,
  `df[c].dropna()` and `sort_values` on a count column.
*/
module Frames {
  import opened Wrappers
  import opened Subsequences

  /** A non-empty spreadsheet cell. An empty one is `None`. */
  datatype Cell = Num(value: real) | Text(text: string)

  type Row = seq<Option<Cell>>

  datatype Table = Table(headers: seq<string>, rows: seq<Row>)

  /** The tables `pd.read_excel` produces: the headers are distinct (a
      repeated header gets a `.1`, `.2`, ... suffix) and every row has one
      cell per header. */
  predicate WellFormed(t: Table)
  {
    && (forall i, j :: 0 <= i < j < |t.headers| ==> t.headers[i] != t.headers[j])
    && (forall k :: 0 <= k < |t.rows| ==> |t.rows[k]| == |t.headers|)
  }

  /** The position of a header. */
  function IndexOf(headers: seq<string>, name: string): (j: nat)
    requires name in headers
    ensures j < |headers| && headers[j] == name
    ensures forall k :: 0 <= k < j ==> headers[k] != name
  {
    if headers[0] == name then 0 else 1 + IndexOf(headers[1..], name)
  }

  /** `df[name]`: the cells of one column, top to bottom; the cell of row `k`
      is the one at the position of the header `name`. */
  function Column(t: Table, name: string): (c: seq<Option<Cell>>)
    requires WellFormed(t) && name in t.headers
    ensures |c| == |t.rows|
    ensures forall j, k :: 0 <= j < |t.headers| && t.headers[j] == name && 0 <= k < |c| ==> c[k] == t.rows[k][j]
  {
    var j := IndexOf(t.headers, name);
    seq(|t.rows|, k requires 0 <= k < |t.rows| => t.rows[k][j])
  }

  /** `df[[a, b]]`: the two cells of each row. */
  function Pairs(t: Table, a: string, b: string): (p: seq<(Option<Cell>, Option<Cell>)>)
    requires WellFormed(t) && a in t.headers && b in t.headers
    ensures |p| == |t.rows|
    ensures forall ja, jb, k ::
              (0 <= ja < |t.headers| && t.headers[ja] == a && 0 <= jb < |t.headers| && t.headers[jb] == b &&
               0 <= k < |p|) ==> p[k] == (t.rows[k][ja], t.rows[k][jb])
  {
    var ca, cb := Column(t, a), Column(t, b);
    seq(|t.rows|, k requires 0 <= k < |t.rows| => (ca[k], cb[k]))
  }

  predicate BothPresent(x: (Option<Cell>, Option<Cell>)) { x.0.Some? && x.1.Some? }

  predicate IsPresent(x: Option<Cell>) { x.Some? }

  /** `.dropna()` on a two-column frame. */
  function DropNa(xs: seq<(Option<Cell>, Option<Cell>)>): (r: seq<(Cell, Cell)>)
    ensures |r| <= |xs|
    ensures forall i :: 0 <= i < |r| ==> (Some(r[i].0), Some(r[i].1)) in xs
  {
    if xs == [] then []
    else if BothPresent(xs[0]) then [(xs[0].0.value, xs[0].1.value)] + DropNa(xs[1..])
    else DropNa(xs[1..])
  }

  /** `.dropna()` on one column. */
  function DropNulls(xs: seq<Option<Cell>>): (r: seq<Cell>)
    ensures |r| <= |xs|
    ensures forall i :: 0 <= i < |r| ==> Some(r[i]) in xs
  {
    if xs == [] then []
    else if xs[0].Some? then [xs[0].value] + DropNulls(xs[1..])
    else DropNulls(xs[1..])
  }

  /** Rows of a dropped frame seen again as rows of cells that may be empty. */
  function Lift(r: seq<(Cell, Cell)>): seq<(Option<Cell>, Option<Cell>)>
  {
    seq(|r|, k requires 0 <= k < |r| => (Some(r[k].0), Some(r[k].1)))
  }

  function Lift1(r: seq<Cell>): seq<Option<Cell>>
  {
    seq(|r|, k requires 0 <= k < |r| => Some(r[k]))
  }

  /** Lifting a dropped frame row by row. */
  lemma LiftCons(x: (Cell, Cell), r: seq<(Cell, Cell)>)
    ensures Lift([x] + r) == [(Some(x.0), Some(x.1))] + Lift(r)
  {
    assert forall k :: 1 <= k < |r| + 1 ==> ([x] + r)[k] == r[k - 1];
  }

  /** `dropna` keeps exactly the rows in which both cells are present, in their
      original order, each as often as it occurs (Keep's exactness lemmas). */
  lemma {:induction false} DropNaKeepsCompleteRows(xs: seq<(Option<Cell>, Option<Cell>)>)
    ensures Lift(DropNa(xs)) == Keep(xs, BothPresent)
    ensures IsSelectionOf(Lift(DropNa(xs)), xs, BothPresent)
  {
    if xs != [] {
      DropNaKeepsCompleteRows(xs[1..]);
      if BothPresent(xs[0]) {
        var x := (xs[0].0.value, xs[0].1.value);
        assert xs[0] == (Some(x.0), Some(x.1));
        assert DropNa(xs) == [x] + DropNa(xs[1..]);
        LiftCons(x, DropNa(xs[1..]));
      }
    }
    KeepIsSelection(xs, BothPresent);
  }

  /** `dropna` on one column keeps exactly its non-empty cells, in order. */
  lemma {:induction false} DropNullsKeepsPresentCells(xs: seq<Option<Cell>>)
    ensures Lift1(DropNulls(xs)) == Keep(xs, IsPresent)
    ensures IsSelectionOf(Lift1(DropNulls(xs)), xs, IsPresent)
  {
    if xs != [] {
      DropNullsKeepsPresentCells(xs[1..]);
      if xs[0].Some? {
        assert Lift1(DropNulls(xs)) == [xs[0]] + Lift1(DropNulls(xs[1..]));
      }
    }
    KeepIsSelection(xs, IsPresent);
  }

  /** The paired frame is empty iff no row has both cells. */
  lemma {:induction false} DropNaEmpty(xs: seq<(Option<Cell>, Option<Cell>)>)
    ensures DropNa(xs) == [] <==> forall k :: 0 <= k < |xs| ==> !BothPresent(xs[k])
  {
    DropNaKeepsCompleteRows(xs);
    KeepEmpty(xs, BothPresent);
  }

  /** A column with its empty cells dropped is empty iff every cell is empty. */
  lemma {:induction false} DropNullsEmpty(xs: seq<Option<Cell>>)
    ensures DropNulls(xs) == [] <==> forall k :: 0 <= k < |xs| ==> xs[k].None?
  {
    DropNullsKeepsPresentCells(xs);
    KeepEmpty(xs, IsPresent);
  }

  /** Some row has a cell in column `a` and a cell in column `b`. */
  predicate HasCompleteRow(t: Table, a: string, b: string)
    requires WellFormed(t) && a in t.headers && b in t.headers
  {
    exists k :: 0 <= k < |t.rows| &&
      t.rows[k][IndexOf(t.headers, a)].Some? && t.rows[k][IndexOf(t.headers, b)].Some?
  }

  /** `df[[a, b]].dropna()`: non-empty iff some row has both cells. */
  function Selection(t: Table, a: string, b: string): (r: seq<(Cell, Cell)>)
    requires WellFormed(t) && a in t.headers && b in t.headers
    ensures r != [] <==> HasCompleteRow(t, a, b)
  {
    DropNaEmpty(Pairs(t, a, b));
    assert forall k :: 0 <= k < |t.rows| ==>
      Pairs(t, a, b)[k] == (t.rows[k][IndexOf(t.headers, a)], t.rows[k][IndexOf(t.headers, b)]);
    DropNa(Pairs(t, a, b))
  }

  /** `df[[a, b]].dropna()` keeps exactly the rows of the table, in table
      order, that have a cell in both columns, as the pair of those cells. */
  lemma {:induction false} SelectionKeepsCompleteRows(t: Table, a: string, b: string)
    requires WellFormed(t) && a in t.headers && b in t.headers
    ensures forall k :: 0 <= k < |t.rows| ==>
              Pairs(t, a, b)[k] == (t.rows[k][IndexOf(t.headers, a)], t.rows[k][IndexOf(t.headers, b)])
    ensures IsSelectionOf(Lift(Selection(t, a, b)), Pairs(t, a, b), BothPresent)
  {
    DropNaKeepsCompleteRows(Pairs(t, a, b));
  }

  /** The counts of a dropped frame as numbers; `None` when some count is text,
      where pandas' sort would raise a `TypeError` comparing text with numbers. */
  function NumericCounts(rows: seq<(Cell, Cell)>): (r: Option<seq<(Cell, real)>>)
    ensures r.None? <==> exists k :: 0 <= k < |rows| && rows[k].1.Text?
    ensures r.Some? ==> |r.value| == |rows| &&
                        forall k :: 0 <= k < |rows| ==> rows[k] == (r.value[k].0, Num(r.value[k].1))
  {
    if exists k :: 0 <= k < |rows| && rows[k].1.Text? then None
    else Some(seq(|rows|, k requires 0 <= k < |rows| => (rows[k].0, rows[k].1.value)))
  }

  predicate InOrder(x: real, y: real, ascending: bool)
  {
    if ascending then x <= y else x >= y
  }

  /** Ordered by count, ascending or descending. */
  predicate SortedBy(rows: seq<(Cell, real)>, ascending: bool)
  {
    forall i, j :: 0 <= i < j < |rows| ==> InOrder(rows[i].1, rows[j].1, ascending)
  }

  /** Puts one row into a list already ordered by count. */
  function Insert(x: (Cell, real), rows: seq<(Cell, real)>, ascending: bool): seq<(Cell, real)>
  {
    if rows == [] || InOrder(x.1, rows[0].1, ascending) then [x] + rows
    else [rows[0]] + Insert(x, rows[1..], ascending)
  }

  /** Inserting adds exactly the one row. */
  lemma {:induction false} InsertAddsRow(x: (Cell, real), rows: seq<(Cell, real)>, ascending: bool)
    ensures multiset(Insert(x, rows, ascending)) == multiset(rows) + multiset{x}
  {
    if rows == [] || InOrder(x.1, rows[0].1, ascending) {
      assert multiset([x] + rows) == multiset{x} + multiset(rows);
    } else {
      InsertAddsRow(x, rows[1..], ascending);
      assert rows == [rows[0]] + rows[1..];
      assert multiset([rows[0]] + Insert(x, rows[1..], ascending)) ==
             multiset{rows[0]} + multiset(Insert(x, rows[1..], ascending));
    }
  }

  /** Inserting into an ordered list keeps it ordered and adds exactly the one row. */
  lemma {:induction false} InsertKeepsOrder(x: (Cell, real), rows: seq<(Cell, real)>, ascending: bool)
    requires SortedBy(rows, ascending)
    ensures SortedBy(Insert(x, rows, ascending), ascending)
    ensures multiset(Insert(x, rows, ascending)) == multiset(rows) + multiset{x}
  {
    InsertAddsRow(x, rows, ascending);
    if rows != [] && !InOrder(x.1, rows[0].1, ascending) {
      var rest := Insert(x, rows[1..], ascending);
      InsertKeepsOrder(x, rows[1..], ascending);
      forall j | 0 <= j < |rest|
        ensures InOrder(rows[0].1, rest[j].1, ascending)
      {
        assert rest[j] in multiset(rest);
        if rest[j] != x {
          assert rest[j] in multiset(rows[1..]);
          assert rest[j] in rows[1..];
        }
      }
      assert Insert(x, rows, ascending) == [rows[0]] + rest;
    }
  }

  /** `sort_values(count, ascending=...)`: ordered by count and a permutation
      of the input. Which of two rows with equal counts comes first is not
      specified (pandas' default sort is not stable). */
  function SortByCount(rows: seq<(Cell, real)>, ascending: bool): (r: seq<(Cell, real)>)
    ensures SortedBy(r, ascending)
    ensures multiset(r) == multiset(rows)
  {
    if rows == [] then []
    else
      var sorted := SortByCount(rows[1..], ascending);
      InsertKeepsOrder(rows[0], sorted, ascending);
      assert rows == [rows[0]] + rows[1..];
      Insert(rows[0], sorted, ascending)
  }
}
