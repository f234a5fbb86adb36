/** Cell values, rows and grids of one sheet, and the growth rule of a
    single-cell write. A cell holds an optional string (its string value);
    a row is the list of its cells, a grid the list of its rows. Rows may
    have different lengths: a cell beyond the end of its row is blank. */
module Grids {

  datatype Option<T> = None | Some(value: T)

  type Row = seq<Option<string>>
  type Grid = seq<Row>

  /** Index of the first element satisfying `p` (the `find`/`indexOf` of
      the source's runtime), or None when there is none. */
  function FirstWhere<T>(s: seq<T>, p: T -> bool): (r: Option<nat>)
    ensures r.Some? ==> r.value < |s| && p(s[r.value])
    ensures r.Some? ==> forall k :: 0 <= k < r.value ==> !p(s[k])
    ensures r.None? <==> forall k :: 0 <= k < |s| ==> !p(s[k])
  {
    if |s| == 0 then None
    else if p(s[0]) then Some(0)
    else match FirstWhere(s[1..], p)
      case None => None
      case Some(k) => Some(k + 1)
  }

  /** The value of row `i`, column `j`; blank outside the stored extent. */
  function CellAt(g: Grid, i: nat, j: nat): Option<string>
  {
    if i < |g| && j < |g[i]| then g[i][j] else None
  }

  function RowCell(row: Row, j: nat): Option<string>
  {
    if j < |row| then row[j] else None
  }

  /** Sets column `j` of `row` to `v`, padding the row with blanks first. */
  function Put(row: Row, j: nat, v: string): (r: Row)
    ensures |r| == if j < |row| then |row| else j + 1
    ensures forall c: nat :: RowCell(r, c) == if c == j then Some(v) else RowCell(row, c)
  {
    var padded := if j < |row| then row else row + seq(j + 1 - |row|, _ => None);
    padded[j := Some(v)]
  }

  /** A write at the first free column of a row appends one cell. */
  lemma PutAtEnd(row: Row, v: string)
    ensures Put(row, |row|, v) == row + [Some(v)]
  {
    var r := Put(row, |row|, v);
    forall c | 0 <= c < |r| ensures r[c] == (row + [Some(v)])[c] {
      assert RowCell(r, c) == r[c];
    }
  }

  /** The remote grid after one cell update: the grid grows (with empty rows
      and blank cells) to cover row `i`, column `j`, that cell is set to
      `v` and every other cell keeps its value. */
  function SetCell(g: Grid, i: nat, j: nat, v: string): (r: Grid)
    ensures |r| == if i < |g| then |g| else i + 1
    ensures forall i': nat, j': nat ::
      CellAt(r, i', j') == if i' == i && j' == j then Some(v) else CellAt(g, i', j')
    ensures forall k :: 0 <= k < |r| && k != i ==> r[k] == if k < |g| then g[k] else []
    ensures r[i] == Put(if i < |g| then g[i] else [], j, v)
    ensures i < |g| ==> r == g[i := Put(g[i], j, v)]
    ensures i == |g| ==> r == g + [Put([], j, v)]
  {
    var grown := if i < |g| then g else g + seq(i + 1 - |g|, _ => []);
    assert forall k :: 0 <= k < |grown| ==> grown[k] == if k < |g| then g[k] else [];
    var r := grown[i := Put(grown[i], j, v)];
    assert forall i': nat, j': nat ::
      CellAt(r, i', j') == if i' == i then RowCell(Put(grown[i], j, v), j') else CellAt(g, i', j');
    r
  }

  /** A write just past the end of row `i` appends one cell to that row. */
  lemma AppendToRow(g: Grid, i: nat, v: string)
    requires i < |g|
    ensures SetCell(g, i, |g[i]|, v) == g[i := g[i] + [Some(v)]]
  {
    PutAtEnd(g[i], v);
  }
}
