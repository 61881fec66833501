/** Worksheet rows and the two row operations of the report: copying every source
    row one row lower (server.js:51-62) and inserting a row (server.js:65). */
module Sheet {
  import opened Options
  import JsText

  /** A cell's formatting, kept opaque: `Styled` carries the serialised style the
      copy clones, `NoStyle` is a cell without one. */
  datatype Style = NoStyle | Styled(blob: string)

  datatype Cell = Cell(value: JsText.Value, style: Style)

  /** A destination row: its cells by 1-based column, and its height once one is set. */
  datatype Row = Row(cells: map<int, Cell>, height: Option<real>)

  const EmptyRow := Row(map[], None)

  /** A source sheet as the copy enumerates it, empty rows and cells included: row r
      is element r - 1, and its cell in column c is element c - 1 of that row. */
  type SourceSheet = seq<seq<Cell>>

  /** The cell the copy leaves in a destination cell whose style was `existing`: the
      source value, and the source style cloned through a serialise-and-parse round
      trip (`cloneStyle`) when the source has one and the clone succeeds. A failed
      clone is swallowed and leaves the destination's style as it was. */
  function CopyCell(existing: Style, src: Cell, cloneStyle: string -> Option<string>): (c: Cell)
    ensures c.value == src.value
    ensures src.style.Styled? && cloneStyle(src.style.blob).Some? ==> c.style == Styled(cloneStyle(src.style.blob).value)
    ensures !(src.style.Styled? && cloneStyle(src.style.blob).Some?) ==> c.style == existing
  {
    var style :=
      if src.style.Styled? then
        match cloneStyle(src.style.blob)
        case Some(b) => Styled(b)
        case None => existing
      else existing;
    Cell(src.value, style)
  }

  function StyleAt(row: Row, c: int): Style {
    if c in row.cells then row.cells[c].style else NoStyle
  }

  /** `row` after its cells 1..|src| were written from `src` in column order. */
  function OverlayRow(row: Row, src: seq<Cell>, cloneStyle: string -> Option<string>): Row {
    if src == [] then row
    else
      var prev := OverlayRow(row, src[..|src| - 1], cloneStyle);
      var c := |src|;
      prev.(cells := prev.cells[c := CopyCell(StyleAt(prev, c), src[c - 1], cloneStyle)])
  }

  /** Overlaying writes the source value into every column 1..|src| and leaves the
      other columns and the height as they were. */
  lemma {:induction false} OverlayRowCells(row: Row, src: seq<Cell>, cloneStyle: string -> Option<string>)
    ensures OverlayRow(row, src, cloneStyle).height == row.height
    ensures forall c :: 1 <= c <= |src| ==>
      c in OverlayRow(row, src, cloneStyle).cells && OverlayRow(row, src, cloneStyle).cells[c].value == src[c - 1].value
    ensures forall c :: (c < 1 || |src| < c) ==>
      (c in OverlayRow(row, src, cloneStyle).cells <==> c in row.cells)
    ensures forall c :: (c < 1 || |src| < c) && c in row.cells ==>
      OverlayRow(row, src, cloneStyle).cells[c] == row.cells[c]
  {
    if src != [] {
      var init := src[..|src| - 1];
      OverlayRowCells(row, init, cloneStyle);
      assert forall k :: 0 <= k < |init| ==> init[k] == src[k];
    }
  }

  /** The rows after `getRow(n)`: row n exists, new rows are empty. */
  function Pad(rows: seq<Row>, n: nat): seq<Row> {
    if |rows| < n then rows + seq(n - |rows|, _ => EmptyRow) else rows
  }

  /** The destination rows after the copy loop: for each source row r, in order,
      destination row r + 1 is fetched (created if missing) and overlaid with it. */
  function CopyRows(dst: seq<Row>, src: SourceSheet, cloneStyle: string -> Option<string>): seq<Row> {
    if src == [] then dst
    else
      var r := |src|;
      var prev := Pad(CopyRows(dst, src[..r - 1], cloneStyle), r + 1);
      prev[r := OverlayRow(prev[r], src[r - 1], cloneStyle)]
  }

  function Max(a: int, b: int): int {
    if a < b then b else a
  }

  /** Source row r (1-based) ends up as destination row r + 1 (element r), overlaid
      on whatever that row held; every other row keeps its content, and rows the copy
      creates without writing to them are empty. */
  lemma {:induction false} CopyRowsShift(dst: seq<Row>, src: SourceSheet, cloneStyle: string -> Option<string>)
    ensures |CopyRows(dst, src, cloneStyle)| == if src == [] then |dst| else Max(|dst|, |src| + 1)
    ensures forall r :: 1 <= r <= |src| ==>
      CopyRows(dst, src, cloneStyle)[r] == OverlayRow(if r < |dst| then dst[r] else EmptyRow, src[r - 1], cloneStyle)
    ensures forall i :: 0 <= i < |dst| && (i == 0 || |src| < i) ==> CopyRows(dst, src, cloneStyle)[i] == dst[i]
    ensures src != [] && dst == [] ==> CopyRows(dst, src, cloneStyle)[0] == EmptyRow
  {
    if src != [] {
      var r := |src|;
      var init := src[..r - 1];
      CopyRowsShift(dst, init, cloneStyle);
      var prev := Pad(CopyRows(dst, init, cloneStyle), r + 1);
      assert forall k :: 0 <= k < |init| ==> init[k] == src[k];
      assert forall k :: 0 <= k < |prev| && k >= |CopyRows(dst, init, cloneStyle)| ==> prev[k] == EmptyRow;
      assert forall k :: 0 <= k < |CopyRows(dst, init, cloneStyle)| ==> prev[k] == CopyRows(dst, init, cloneStyle)[k];
    }
  }

  /** The copy writes every source value into its own column one row lower:
      destination row r + 1 holds source row r's values. */
  lemma CopyRowsValues(dst: seq<Row>, src: SourceSheet, cloneStyle: string -> Option<string>, r: int, c: int)
    requires 1 <= r <= |src| && 1 <= c <= |src[r - 1]|
    ensures r < |CopyRows(dst, src, cloneStyle)|
    ensures c in CopyRows(dst, src, cloneStyle)[r].cells
    ensures CopyRows(dst, src, cloneStyle)[r].cells[c].value == src[r - 1][c - 1].value
  {
    CopyRowsShift(dst, src, cloneStyle);
    OverlayRowCells(if r < |dst| then dst[r] else EmptyRow, src[r - 1], cloneStyle);
  }

  /** `spliceRows(at, 0, row)`: the new row becomes row `at`, and every row from
      `at` on moves down by one. */
  function InsertRow(rows: seq<Row>, at: int, row: Row): (r: seq<Row>)
    requires 1 <= at <= |rows| + 1
    ensures |r| == |rows| + 1 && r[at - 1] == row
    ensures forall i :: 0 <= i < at - 1 ==> r[i] == rows[i]
    ensures forall i :: at - 1 <= i < |rows| ==> r[i + 1] == rows[i]
  {
    rows[..at - 1] + [row] + rows[at - 1..]
  }

  /** The row that a values array makes: value k in column k + 1, unstyled; an
      `undefined` entry leaves its cell out. */
  function ValuesRow(values: seq<JsText.Value>): Row {
    Row(map k | 0 <= k < |values| && values[k] != JsText.Undefined :: k + 1 := Cell(values[k], NoStyle), None)
  }
}
