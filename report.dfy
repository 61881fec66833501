/** The `/generate-report` handler (server.js:16-150) over an in-memory workbook:
    the input check, the copy of the template sheet one row lower, the title row,
    the identifier index and the screenshot loop, ending in the response. The
    destination workbook and sheet are classes whose methods update them in place,
    as the ExcelJS objects are. */
module Report {
  import opened Options
  import JsText
  import opened Sheet
  import opened IdIndex
  import opened ImageData
  import opened Geometry
  import opened Placement

  /** The template worksheet's name, trailing space included. */
  const SheetName := "V1.4_DMI_Functional_testcase "
  const OutputName := "Updated_DMI-Testcases-Excelsheet.xlsx"
  const Title := "Screenshot Report"
  const TitleHeight: real := 30.0
  const NoScreenshotsError := "No screenshot data received"
  const SheetNotFoundError := "Worksheet 'V1.4_DMI_Functional_testcase ' not found"

  /** The forced widths of columns A to I; I, the screenshot column, is 40 wide. */
  const ColumnWidths: seq<Option<real>> :=
    [Some(10.0), Some(35.0), Some(45.0), Some(45.0), Some(35.0), Some(45.0), Some(40.0), Some(45.0), Some(40.0)]

  /** The destination workbook: the images registered with it. */
  class Workbook {
    var media: seq<Media>

    constructor()
      ensures media == []
    {
      media := [];
    }

    /** Registers an image and returns its id, its position in the workbook. */
    method AddImage(m: Media) returns (id: nat)
      modifies this
      ensures id == |old(media)| && media == old(media) + [m]
    {
      id := |media|;
      media := media + [m];
    }
  }

  /** The destination worksheet: its rows (row n is element n - 1), its column
      widths (column c is element c - 1) and the images anchored on it. */
  class Worksheet {
    const name: string
    var rows: seq<Row>
    var widths: seq<Option<real>>
    var anchors: seq<Anchor>

    constructor(name: string)
      ensures this.name == name && rows == [] && widths == [] && anchors == []
    {
      this.name := name;
      rows := [];
      widths := [];
      anchors := [];
    }

    method SetColumnWidths(ws: seq<Option<real>>)
      modifies this
      ensures widths == ws && rows == old(rows) && anchors == old(anchors)
    {
      widths := ws;
    }

    /** The copy loop (server.js:51-62): every source row r, empty rows and cells
        included, is written cell by cell into destination row r + 1. */
    method CopyFrom(src: SourceSheet, cloneStyle: string -> Option<string>)
      modifies this
      ensures rows == CopyRows(old(rows), src, cloneStyle)
      ensures widths == old(widths) && anchors == old(anchors)
    {
      for r := 1 to |src| + 1
        invariant rows == CopyRows(old(rows), src[..r - 1], cloneStyle)
        invariant widths == old(widths) && anchors == old(anchors)
      {
        rows := Pad(rows, r + 1);
        CopyRowCells(r, src[r - 1], cloneStyle);
        assert src[..r][..r - 1] == src[..r - 1];
      }
      assert src[..|src|] == src;
    }

    /** The inner copy loop (server.js:53-60): every cell of the source row, empty
        ones included, is written in column order into 0-based row `r`. */
    method CopyRowCells(r: nat, line: seq<Cell>, cloneStyle: string -> Option<string>)
      requires r < |rows|
      modifies this
      ensures rows == old(rows)[r := OverlayRow(old(rows)[r], line, cloneStyle)]
      ensures widths == old(widths) && anchors == old(anchors)
    {
      for c := 1 to |line| + 1
        invariant |rows| == |old(rows)|
        invariant rows == old(rows)[r := OverlayRow(old(rows)[r], line[..c - 1], cloneStyle)]
        invariant widths == old(widths) && anchors == old(anchors)
      {
        var row := rows[r];
        row := row.(cells := row.cells[c := CopyCell(StyleAt(row, c), line[c - 1], cloneStyle)]);
        rows := rows[r := row];
        assert line[..c][..c - 1] == line[..c - 1];
      }
      assert line[..|line|] == line;
    }

    /** `spliceRows(at, 0, values)`: a row made from `values` is inserted at row `at`. */
    method SpliceRows(at: int, values: seq<JsText.Value>)
      requires 1 <= at <= |rows| + 1
      modifies this
      ensures rows == InsertRow(old(rows), at, ValuesRow(values))
      ensures widths == old(widths) && anchors == old(anchors)
    {
      rows := InsertRow(rows, at, ValuesRow(values));
    }

    /** `getRow(n).height = h`: row n is created if missing. */
    method SetRowHeight(n: int, h: real)
      requires n >= 1
      modifies this
      ensures rows == WithHeight(old(rows), n, h)
      ensures widths == old(widths) && anchors == old(anchors)
    {
      rows := Pad(rows, n);
      rows := rows[n - 1 := rows[n - 1].(height := Some(h))];
    }

    method AddAnchor(a: Anchor)
      modifies this
      ensures anchors == old(anchors) + [a]
      ensures rows == old(rows) && widths == old(widths)
    {
      anchors := anchors + [a];
    }

    /** The index build (server.js:79-88): the rows are scanned in order, skipping
        row 1 and rows without values, and each row with a key overwrites the
        entry for that key with its row number. */
    method BuildIndex() returns (index: map<string, int>)
      ensures index == IndexOf(rows)
    {
      ghost var keys := ScanKeys(rows);
      index := map[];
      for i := 0 to |rows|
        invariant index == IndexFrom(keys, i)
      {
        ScanKeyAt(rows, i);
        var key := None;
        if i != 0 && HasValues(rows[i]) {
          key := RowKey(rows[i]);
        }
        assert key == keys[i];
        IndexFromNext(keys, i);
        if key.Some? {
          index := index[key.value := i + 1];
        }
      }
    }

    /** One placement (server.js:115-137): the image is registered with the
        workbook, the target row gets the clamped height, and the image is anchored
        in the screenshot column of that row, as tall as the row. */
    method Embed(wb: Workbook, targetRow: int, image: Media) returns (imageId: nat)
      requires targetRow >= 1
      modifies this, wb
      ensures imageId == |old(wb.media)| && wb.media == old(wb.media) + [image]
      ensures rows == WithHeight(old(rows), targetRow, ImageBox(ImageColumnWidth(widths)).rowHeight)
      ensures anchors == old(anchors) + [Anchor(imageId, ImageColumn, targetRow - 1,
        ImageBox(ImageColumnWidth(widths)).width, ImageBox(ImageColumnWidth(widths)).height)]
      ensures widths == old(widths)
    {
      imageId := wb.AddImage(image);
      var box := ImageBox(ImageColumnWidth(widths));
      SetRowHeight(targetRow, box.rowHeight);
      var heightPx := rows[targetRow - 1].height.value * PixelsPerHeightUnit;
      AddAnchor(Anchor(imageId, ImageColumn, targetRow - 1, box.width, heightPx));
    }

    /** The state of the workbook and sheet after the images `placed` were
        embedded, starting from media `media0`, anchors `anchors0` and rows `rows0`. */
    ghost predicate EmbeddedAll(wb: Workbook, placed: seq<Placed>, media0: seq<Media>, anchors0: seq<Anchor>, rows0: seq<Row>)
      reads this, wb
    {
      Embedded(wb.media, anchors, rows, ImageBox(ImageColumnWidth(widths)), placed, media0, anchors0, rows0)
    }

    /** Embedding one more image keeps the state in step with the images placed. */
    method EmbedNext(wb: Workbook, p: Placed, ghost placed: seq<Placed>,
                     ghost media0: seq<Media>, ghost anchors0: seq<Anchor>, ghost rows0: seq<Row>)
      requires p.row >= 1 && EmbeddedAll(wb, placed, media0, anchors0, rows0)
      modifies this, wb
      ensures EmbeddedAll(wb, placed + [p], media0, anchors0, rows0)
      ensures widths == old(widths)
    {
      ghost var box := ImageBox(ImageColumnWidth(widths));
      ghost var media, anchors1, rows1 := wb.media, anchors, rows;
      var imageId := Embed(wb, p.row, Media(p.payload, p.format));
      EmbeddedAppend(media, anchors1, rows1, box, placed, p, media0, anchors0, rows0, wb.media, anchors, rows);
    }

    /** One pass of the screenshot loop body (server.js:99-137): the entry is
        decided, and an entry that places is embedded on its row; a skipped or
        throwing entry changes nothing. */
    method PlaceEntry(wb: Workbook, entry: Entry, index: map<string, int>, decodedLength: string -> nat,
                      ghost placed: seq<Placed>, ghost media0: seq<Media>, ghost anchors0: seq<Anchor>, ghost rows0: seq<Row>)
      returns (decision: Decision)
      requires forall k :: k in index ==> index[k] >= 1
      requires EmbeddedAll(wb, placed, media0, anchors0, rows0)
      modifies this, wb
      ensures decision == Decide(entry, index, decodedLength)
      ensures !decision.Place? ==> EmbeddedAll(wb, placed, media0, anchors0, rows0)
      ensures decision.Place? ==>
        EmbeddedAll(wb, placed + [Placed(decision.row, decision.format, decision.payload)], media0, anchors0, rows0)
      ensures widths == old(widths)
    {
      decision := Decide(entry, index, decodedLength);
      if decision.Place? {
        PlacedRowIsIndexed(entry, index, decodedLength);
        EmbedNext(wb, Placed(decision.row, decision.format, decision.payload), placed, media0, anchors0, rows0);
      }
    }

    /** The screenshot loop (server.js:97-138): each entry is decided in turn
        (`Decide` models the checks of server.js:99-113). The loop stops at the
        first entry that throws and reports it through `completed`; images placed
        before then stay in the workbook. */
    method PlaceScreenshots(wb: Workbook, entries: seq<Entry>, index: map<string, int>, decodedLength: string -> nat)
      returns (completed: bool, added: nat)
      requires forall k :: k in index ==> index[k] >= 1
      modifies this, wb
      ensures completed == Run(entries, index, decodedLength).completed
      ensures added == |Run(entries, index, decodedLength).placed|
      ensures EmbeddedAll(wb, Run(entries, index, decodedLength).placed, old(wb.media), old(anchors), old(rows))
      ensures widths == old(widths)
    {
      ghost var ds := Decisions(entries, index, decodedLength);
      ghost var placed: seq<Placed> := [];
      added := 0;
      for i := 0 to |entries|
        invariant RunOf(ds[..i]) == RunResult(placed, true)
        invariant added == |placed|
        invariant EmbeddedAll(wb, placed, old(wb.media), old(anchors), old(rows))
        invariant widths == old(widths)
      {
        var decision := PlaceEntry(wb, entries[i], index, decodedLength, placed, old(wb.media), old(anchors), old(rows));
        assert decision == ds[i];
        RunOfPrefixStep(ds, i);
        if decision.Throw? {
          RunOfStopsAtThrow(ds, i);
          return false, added;
        } else if decision.Place? {
          added := added + 1;
          placed := placed + [Placed(decision.row, decision.format, decision.payload)];
        }
      }
      assert ds[..|entries|] == ds;
      completed := true;
    }
  }

  /** The media, anchors and rows after the images `placed` were embedded with
      extent `box`, starting from `media0`, `anchors0` and `rows0`. */
  ghost predicate Embedded(media: seq<Media>, anchors: seq<Anchor>, rows: seq<Row>, box: Box,
                           placed: seq<Placed>, media0: seq<Media>, anchors0: seq<Anchor>, rows0: seq<Row>)
  {
    && (forall j :: 0 <= j < |placed| ==> placed[j].row >= 1)
    && media == media0 + MediaOf(placed)
    && anchors == anchors0 + AnchorsOf(placed, |media0|, box)
    && rows == WithHeights(rows0, TargetRows(placed), box.rowHeight)
  }

  /** One more placement: the image is appended to the media, its anchor (whose id
      is the image's position) to the anchors, and its row gets the clamped height. */
  lemma EmbeddedAppend(media: seq<Media>, anchors: seq<Anchor>, rows: seq<Row>, box: Box,
                       placed: seq<Placed>, p: Placed, media0: seq<Media>, anchors0: seq<Anchor>, rows0: seq<Row>,
                       media': seq<Media>, anchors': seq<Anchor>, rows': seq<Row>)
    requires p.row >= 1 && Embedded(media, anchors, rows, box, placed, media0, anchors0, rows0)
    requires media' == media + [Media(p.payload, p.format)]
    requires anchors' == anchors + [Anchor(|media|, ImageColumn, p.row - 1, box.width, box.height)]
    requires rows' == WithHeight(rows, p.row, box.rowHeight)
    ensures Embedded(media', anchors', rows', box, placed + [p], media0, anchors0, rows0)
  {
    MediaOfAppend(placed, p);
    var m := Media(p.payload, p.format);
    AppendAssoc(media0, MediaOf(placed), [m]);
    var a := Anchor(|media|, ImageColumn, p.row - 1, box.width, box.height);
    var before := AnchorsOf(placed, |media0|, box);
    AnchorsOfAppend(placed, p, |media0|, box);
    assert |media0| + |placed| == |media|;
    assert AnchorsOf(placed + [p], |media0|, box) == before + [a];
    AppendAssoc(anchors0, before, [a]);
    TargetRowsAppend(placed, p);
    WithHeightsAppend(rows0, TargetRows(placed), p.row, box.rowHeight);
    assert forall j :: 0 <= j < |placed + [p]| ==> (placed + [p])[j].row >= 1;
  }

  lemma AppendAssoc<T>(a: seq<T>, b: seq<T>, c: seq<T>)
    ensures a + b + c == a + (b + c)
  {
  }

  /** The request body: `screenshots` is an array of entries, or anything else. */
  datatype Body = NotAnArray | Screenshots(screenshots: seq<Entry>)

  datatype Response =
    | BadRequest(error: string)
    | NotFound(error: string)
    | ServerError
    | Generated(file: string, added: nat)

  /** What the written workbook holds. */
  datatype Snapshot = Snapshot(rows: seq<Row>, media: seq<Media>, anchors: seq<Anchor>)

  /** The destination rows before the screenshots: the template copied one row
      lower, a title row inserted on top and given its height. */
  function Prepared(src: SourceSheet, cloneStyle: string -> Option<string>): seq<Row> {
    WithHeight(InsertRow(CopyRows([], src, cloneStyle), 1, ValuesRow([JsText.Str(Title)])), 1, TitleHeight)
  }

  /** The screenshot box for the configured column widths. */
  function ConfiguredImageBox(): Box {
    ImageBox(ImageColumnWidth(ColumnWidths))
  }

  /** The response and the saved workbook, as functions of the request, the
      template workbook's sheets by name, and the two library behaviours. */
  function ReportSpec(body: Body, template: map<string, SourceSheet>,
                      cloneStyle: string -> Option<string>, decodedLength: string -> nat): (Response, Option<Snapshot>)
  {
    if !body.Screenshots? || body.screenshots == [] then (BadRequest(NoScreenshotsError), None)
    else if SheetName !in template then (NotFound(SheetNotFoundError), None)
    else
      var prepared := Prepared(template[SheetName], cloneStyle);
      var index := IndexOf(prepared);
      var run := Run(body.screenshots, index, decodedLength);
      if !run.completed then (ServerError, None)
      else
        IndexTargetsInRange(prepared);
        RunPlacesOnIndexedRows(body.screenshots, index, decodedLength);
        var rows := WithHeights(prepared, TargetRows(run.placed), ConfiguredImageBox().rowHeight);
        (Generated(OutputName, |run.placed|), Some(Snapshot(rows, MediaOf(run.placed), AnchorsOf(run.placed, 0, ConfiguredImageBox()))))
  }

  // ---------------------------------------------------------------- end to end

  /** The title row as inserted and given its height. */
  const TitleRow := ValuesRow([JsText.Str(Title)]).(height := Some(TitleHeight))

  /** Whether the index scan visits a copied source row: some cell holds a value. */
  predicate SourceHasValues(cells: seq<Cell>) {
    exists c :: 0 <= c < |cells| && cells[c].value != JsText.Undefined
  }

  /** The key a copied source row is indexed under: that of its second cell. */
  function SourceKey(cells: seq<Cell>): Option<string> {
    CellKey(if |cells| >= 2 then cells[1].value else JsText.Undefined)
  }

  /** A source row copied onto a fresh row has values, and a key, exactly as the
      source row does. */
  lemma CopiedRowKey(cells: seq<Cell>, cloneStyle: string -> Option<string>)
    ensures HasValues(OverlayRow(EmptyRow, cells, cloneStyle)) <==> SourceHasValues(cells)
    ensures RowKey(OverlayRow(EmptyRow, cells, cloneStyle)) == SourceKey(cells)
  {
    var row := OverlayRow(EmptyRow, cells, cloneStyle);
    OverlayRowCells(EmptyRow, cells, cloneStyle);
    if SourceHasValues(cells) {
      var c :| 0 <= c < |cells| && cells[c].value != JsText.Undefined;
      assert c + 1 in row.cells && row.cells[c + 1].value != JsText.Undefined;
    }
    if HasValues(row) {
      var c :| c in row.cells && row.cells[c].value != JsText.Undefined;
      assert 1 <= c <= |cells|;
      assert cells[c - 1].value != JsText.Undefined;
    }
    assert 2 in row.cells <==> |cells| >= 2;
  }

  /** The prepared destination: the title row on top, an empty row 2, and source
      row r as destination row r + 2. */
  lemma PreparedLayout(src: SourceSheet, cloneStyle: string -> Option<string>)
    ensures |Prepared(src, cloneStyle)| == if src == [] then 1 else |src| + 2
    ensures Prepared(src, cloneStyle)[0] == TitleRow
    ensures src != [] ==> Prepared(src, cloneStyle)[1] == EmptyRow
    ensures forall i :: 2 <= i <= |src| + 1 ==>
      Prepared(src, cloneStyle)[i] == OverlayRow(EmptyRow, src[i - 2], cloneStyle)
  {
    CopyRowsShift([], src, cloneStyle);
    var copied := CopyRows([], src, cloneStyle);
    var inserted := InsertRow(copied, 1, ValuesRow([JsText.Str(Title)]));
    var prepared := WithHeight(inserted, 1, TitleHeight);
    assert prepared == Prepared(src, cloneStyle);
    forall i | 2 <= i <= |src| + 1
      ensures prepared[i] == OverlayRow(EmptyRow, src[i - 2], cloneStyle)
    {
      assert prepared[i] == inserted[i] == copied[i - 1];
    }
    if src != [] {
      assert prepared[1] == inserted[1] == copied[0];
    }
  }

  /** The index sees the shifted rows: destination row n is indexed under k
      exactly when it is source row n - 2 and that row has values and key k. The
      title row and the empty row 2 are never targets. */
  lemma IndexSeesShiftedRows(src: SourceSheet, cloneStyle: string -> Option<string>, n: int, k: string)
    ensures Indexed(Prepared(src, cloneStyle), n, k) <==>
      3 <= n <= |src| + 2 && SourceHasValues(src[n - 3]) && SourceKey(src[n - 3]) == Some(k)
  {
    var prepared := Prepared(src, cloneStyle);
    PreparedLayout(src, cloneStyle);
    if 3 <= n <= |src| + 2 {
      assert prepared[n - 1] == OverlayRow(EmptyRow, src[n - 3], cloneStyle);
      CopiedRowKey(src[n - 3], cloneStyle);
    } else if n == 2 && src != [] {
      assert prepared[n - 1] == EmptyRow;
      assert !HasValues(EmptyRow);
    } else {
      assert !(2 <= n <= |prepared|) || n == 2;
    }
  }

  /** The values of source row r, column c, are found in the saved sheet at row
      r + 2, column c: the copy moves them down one row and the title row one
      more, and placing images changes heights only. */
  lemma SavedValuesShifted(body: Body, template: map<string, SourceSheet>, cloneStyle: string -> Option<string>,
                           decodedLength: string -> nat, r: int, c: int)
    requires ReportSpec(body, template, cloneStyle, decodedLength).0.Generated?
    requires SheetName in template && 1 <= r <= |template[SheetName]| && 1 <= c <= |template[SheetName][r - 1]|
    ensures r + 1 < |ReportSpec(body, template, cloneStyle, decodedLength).1.value.rows|
    ensures c in ReportSpec(body, template, cloneStyle, decodedLength).1.value.rows[r + 1].cells
    ensures ReportSpec(body, template, cloneStyle, decodedLength).1.value.rows[r + 1].cells[c].value
         == template[SheetName][r - 1][c - 1].value
  {
    var snapshot := ReportSpec(body, template, cloneStyle, decodedLength).1.value;
    GeneratedSnapshot(body, template, cloneStyle, decodedLength, snapshot);
    var src := template[SheetName];
    var prepared := Prepared(src, cloneStyle);
    var run := Run(body.screenshots, IndexOf(prepared), decodedLength);
    PreparedCell(src, cloneStyle, r, c);
    WithHeightsKeepsCells(prepared, TargetRows(run.placed), ConfiguredImageBox().rowHeight);
    assert snapshot.rows[r + 1].cells == prepared[r + 1].cells;
  }

  /** Before the screenshots, source cell (r, c) sits at row r + 2, column c. */
  lemma {:induction false} PreparedCell(src: SourceSheet, cloneStyle: string -> Option<string>, r: int, c: int)
    requires 1 <= r <= |src| && 1 <= c <= |src[r - 1]|
    ensures r + 1 < |Prepared(src, cloneStyle)|
    ensures c in Prepared(src, cloneStyle)[r + 1].cells
    ensures Prepared(src, cloneStyle)[r + 1].cells[c].value == src[r - 1][c - 1].value
  {
    PreparedLayout(src, cloneStyle);
    assert Prepared(src, cloneStyle)[r + 1] == OverlayRow(EmptyRow, src[r - 1], cloneStyle);
    OverlayRowCells(EmptyRow, src[r - 1], cloneStyle);
  }

  /** The screenshot column is 40 wide, so every image is 300 by 90 pixels on a row
      120 high. */
  lemma ConfiguredImageBoxIs()
    ensures ConfiguredImageBox() == Box(120.0, 300.0, 90.0)
  {
    Geometry.ConfiguredBox();
  }

  /** A row number the index maps to is the copy of a source row (row n holds
      source row n - 2) that has values and a key, and no later source row has the
      same key. */
  lemma IndexTargetIsLastSourceRow(src: SourceSheet, cloneStyle: string -> Option<string>, n: int)
    requires n in IndexOf(Prepared(src, cloneStyle)).Values
    ensures 3 <= n <= |src| + 2
    ensures SourceHasValues(src[n - 3]) && SourceKey(src[n - 3]).Some?
    ensures forall m :: n - 3 < m < |src| && SourceHasValues(src[m]) ==> SourceKey(src[m]) != SourceKey(src[n - 3])
  {
    var prepared := Prepared(src, cloneStyle);
    var index := IndexOf(prepared);
    var k :| k in index && index[k] == n;
    IndexLastWriteWins(prepared, k);
    IndexSeesShiftedRows(src, cloneStyle, n, k);
    forall m | n - 3 < m < |src| && SourceHasValues(src[m])
      ensures SourceKey(src[m]) != Some(k)
    {
      LaterRowNotIndexed(src, cloneStyle, n, k, m);
    }
  }

  lemma LaterRowNotIndexed(src: SourceSheet, cloneStyle: string -> Option<string>, n: int, k: string, m: int)
    requires k in IndexOf(Prepared(src, cloneStyle)) && IndexOf(Prepared(src, cloneStyle))[k] == n
    requires 0 <= m < |src| && n - 3 < m && SourceHasValues(src[m])
    ensures SourceKey(src[m]) != Some(k)
  {
    var prepared := Prepared(src, cloneStyle);
    IndexLastWriteWins(prepared, k);
    var b := Indexed(prepared, m + 3, k);
    assert !b;
    IndexSeesShiftedRows(src, cloneStyle, m + 3, k);
  }

  /** The saved workbook of a generated report, in terms of the run. */
  lemma GeneratedSnapshot(body: Body, template: map<string, SourceSheet>, cloneStyle: string -> Option<string>,
                          decodedLength: string -> nat, snapshot: Snapshot)
    requires ReportSpec(body, template, cloneStyle, decodedLength).1 == Some(snapshot)
    ensures body.Screenshots? && SheetName in template
    ensures Run(body.screenshots, IndexOf(Prepared(template[SheetName], cloneStyle)), decodedLength).completed
    ensures forall j :: 0 <= j < |Run(body.screenshots, IndexOf(Prepared(template[SheetName], cloneStyle)), decodedLength).placed| ==>
      Run(body.screenshots, IndexOf(Prepared(template[SheetName], cloneStyle)), decodedLength).placed[j].row
        in IndexOf(Prepared(template[SheetName], cloneStyle)).Values
    ensures forall j :: 0 <= j < |Run(body.screenshots, IndexOf(Prepared(template[SheetName], cloneStyle)), decodedLength).placed| ==>
      Run(body.screenshots, IndexOf(Prepared(template[SheetName], cloneStyle)), decodedLength).placed[j].row >= 2
    ensures snapshot.rows == WithHeights(Prepared(template[SheetName], cloneStyle),
      TargetRows(Run(body.screenshots, IndexOf(Prepared(template[SheetName], cloneStyle)), decodedLength).placed),
      ConfiguredImageBox().rowHeight)
    ensures snapshot.anchors == AnchorsOf(Run(body.screenshots, IndexOf(Prepared(template[SheetName], cloneStyle)), decodedLength).placed, 0, ConfiguredImageBox())
    ensures snapshot.media == MediaOf(Run(body.screenshots, IndexOf(Prepared(template[SheetName], cloneStyle)), decodedLength).placed)
  {
    var prepared := Prepared(template[SheetName], cloneStyle);
    IndexTargetsInRange(prepared);
    RunPlacesOnIndexedRows(body.screenshots, IndexOf(prepared), decodedLength);
  }

  /** Which row the run puts image j on: a row the index maps to, which is the
      last copy of a source row with values and a key. */
  lemma RunRowFacts(src: SourceSheet, cloneStyle: string -> Option<string>, entries: seq<Entry>,
                    decodedLength: string -> nat, j: int)
    requires 0 <= j < |Run(entries, IndexOf(Prepared(src, cloneStyle)), decodedLength).placed|
    ensures var placed := Run(entries, IndexOf(Prepared(src, cloneStyle)), decodedLength).placed;
      && (forall i :: 0 <= i < |placed| ==> placed[i].row >= 1)
      && placed[j].row in IndexOf(Prepared(src, cloneStyle)).Values
      && 3 <= placed[j].row <= |src| + 2
      && SourceHasValues(src[placed[j].row - 3]) && SourceKey(src[placed[j].row - 3]).Some?
      && forall m :: placed[j].row - 3 < m < |src| && SourceHasValues(src[m]) ==> SourceKey(src[m]) != SourceKey(src[placed[j].row - 3])
  {
    var prepared := Prepared(src, cloneStyle);
    var index := IndexOf(prepared);
    IndexTargetsInRange(prepared);
    RunPlacesOnIndexedRows(entries, index, decodedLength);
    var placed := Run(entries, index, decodedLength).placed;
    IndexTargetIsLastSourceRow(src, cloneStyle, placed[j].row);
  }

  /** With the configured widths, image j of `placed` is image j of the workbook,
      300 by 90 pixels in column I of its row, and that row is 120 high. */
  lemma ConfiguredPlacement(rows: seq<Row>, placed: seq<Placed>, j: int)
    requires forall i :: 0 <= i < |placed| ==> placed[i].row >= 1
    requires 0 <= j < |placed|
    ensures AnchorsOf(placed, 0, ConfiguredImageBox())[j] == Anchor(j, 8, placed[j].row - 1, 300.0, 90.0)
    ensures placed[j].row - 1 < |WithHeights(rows, TargetRows(placed), ConfiguredImageBox().rowHeight)|
    ensures WithHeights(rows, TargetRows(placed), ConfiguredImageBox().rowHeight)[placed[j].row - 1].height == Some(120.0)
  {
    ConfiguredImageBoxIs();
    var targets := TargetRows(placed);
    assert targets[j] == placed[j].row;
    WithHeightsSetsTargets(rows, targets, ConfiguredImageBox().rowHeight);
  }

  /** Where a generated report puts its images: image j is the j-th image of the
      workbook, anchored in column I (0-based column 8) of destination row n =
      anchor row + 1, 300 by 90 pixels, and that row is 120 high. Row n is the copy
      of source row n - 2, which has values and a key, and no later source row has
      the same key. */
  lemma GeneratedAnchors(body: Body, template: map<string, SourceSheet>, cloneStyle: string -> Option<string>,
                         decodedLength: string -> nat, snapshot: Snapshot, j: int)
    requires ReportSpec(body, template, cloneStyle, decodedLength).1 == Some(snapshot)
    requires 0 <= j < |snapshot.anchors|
    ensures SheetName in template
    ensures snapshot.anchors[j] == Anchor(j, 8, snapshot.anchors[j].row, 300.0, 90.0)
    ensures 2 <= snapshot.anchors[j].row <= |template[SheetName]| + 1
    ensures snapshot.anchors[j].row < |snapshot.rows| && snapshot.rows[snapshot.anchors[j].row].height == Some(120.0)
    ensures SourceHasValues(template[SheetName][snapshot.anchors[j].row - 2])
    ensures SourceKey(template[SheetName][snapshot.anchors[j].row - 2]).Some?
    ensures forall m :: snapshot.anchors[j].row - 2 < m < |template[SheetName]| && SourceHasValues(template[SheetName][m]) ==>
      SourceKey(template[SheetName][m]) != SourceKey(template[SheetName][snapshot.anchors[j].row - 2])
  {
    GeneratedSnapshot(body, template, cloneStyle, decodedLength, snapshot);
    var src := template[SheetName];
    var placed := Run(body.screenshots, IndexOf(Prepared(src, cloneStyle)), decodedLength).placed;
    RunRowFacts(src, cloneStyle, body.screenshots, decodedLength, j);
    ConfiguredPlacement(Prepared(src, cloneStyle), placed, j);
    var n := placed[j].row;
    assert snapshot.anchors[j].row == n - 1;
    assert snapshot.anchors[j].row - 2 == n - 3;
    assert SourceHasValues(src[n - 3]);
  }

  /** The input check comes first: the request is rejected exactly when
      `screenshots` is not a non-empty array. A valid request finds no sheet exactly
      when the template lacks it, and fails with a server error exactly when the
      sheet is there and some entry throws. A workbook is saved exactly when the
      report is generated; the count it reports is the number of images the
      workbook holds, one per entry that reaches the embed step. */
  lemma ReportSpecOutcomes(body: Body, template: map<string, SourceSheet>,
                           cloneStyle: string -> Option<string>, decodedLength: string -> nat)
    ensures ReportSpec(body, template, cloneStyle, decodedLength).0.BadRequest? <==>
      !body.Screenshots? || body.screenshots == []
    ensures ReportSpec(body, template, cloneStyle, decodedLength).0.NotFound? <==>
      body.Screenshots? && body.screenshots != [] && SheetName !in template
    ensures ReportSpec(body, template, cloneStyle, decodedLength).0.ServerError? <==>
      && body.Screenshots? && body.screenshots != [] && SheetName in template
      && exists i :: 0 <= i < |body.screenshots| &&
           Decide(body.screenshots[i], IndexOf(Prepared(template[SheetName], cloneStyle)), decodedLength) == Throw
    ensures ReportSpec(body, template, cloneStyle, decodedLength).1.Some? <==>
      ReportSpec(body, template, cloneStyle, decodedLength).0.Generated?
    ensures ReportSpec(body, template, cloneStyle, decodedLength).0.Generated? ==>
      && ReportSpec(body, template, cloneStyle, decodedLength).0.file == OutputName
      && ReportSpec(body, template, cloneStyle, decodedLength).0.added <= |body.screenshots|
      && ReportSpec(body, template, cloneStyle, decodedLength).0.added == |ReportSpec(body, template, cloneStyle, decodedLength).1.value.media|
      && ReportSpec(body, template, cloneStyle, decodedLength).0.added ==
           CountPlacing(Decisions(body.screenshots, IndexOf(Prepared(template[SheetName], cloneStyle)), decodedLength))
  {
    if body.Screenshots? && body.screenshots != [] && SheetName in template {
      var ds := Decisions(body.screenshots, IndexOf(Prepared(template[SheetName], cloneStyle)), decodedLength);
      RunCompletedIff(body.screenshots, IndexOf(Prepared(template[SheetName], cloneStyle)), decodedLength);
      if RunOf(ds).completed {
        RunCountsPlacing(ds);
      }
    }
  }

  /** The handler. */
  method GenerateReport(body: Body, template: map<string, SourceSheet>,
                        cloneStyle: string -> Option<string>, decodedLength: string -> nat)
    returns (response: Response, saved: Option<Snapshot>)
    ensures (response, saved) == ReportSpec(body, template, cloneStyle, decodedLength)
    ensures response.BadRequest? <==> !body.Screenshots? || body.screenshots == []
    ensures saved.Some? <==> response.Generated?
    ensures response.Generated? ==> response.file == OutputName && response.added <= |body.screenshots|
    ensures response.Generated? ==> saved.Some? && response.added == |saved.value.media|
  {
    ReportSpecOutcomes(body, template, cloneStyle, decodedLength);
    if !body.Screenshots? || body.screenshots == [] {
      return BadRequest(NoScreenshotsError), None;
    }
    if SheetName !in template {
      return NotFound(SheetNotFoundError), None;
    }
    var completed, added, written := FillWorkbook(template[SheetName], body.screenshots, cloneStyle, decodedLength);
    ReportSpecAfterLoop(body, template, cloneStyle, decodedLength);
    if !completed {
      return ServerError, None;
    }
    response := Generated(OutputName, added);
    saved := Some(written);
  }

  /** The work between the sheet lookup and the save (server.js:34-138): a new
      workbook and sheet, the widths, the copy, the title row, the index and the
      screenshot loop. Returns whether the loop finished, its count, and what the
      workbook then holds. */
  method FillWorkbook(src: SourceSheet, entries: seq<Entry>,
                      cloneStyle: string -> Option<string>, decodedLength: string -> nat)
    returns (completed: bool, added: nat, written: Snapshot)
    ensures completed == Run(entries, IndexOf(Prepared(src, cloneStyle)), decodedLength).completed
    ensures added == |Run(entries, IndexOf(Prepared(src, cloneStyle)), decodedLength).placed|
    ensures forall j :: 0 <= j < |TargetRows(Run(entries, IndexOf(Prepared(src, cloneStyle)), decodedLength).placed)| ==>
      TargetRows(Run(entries, IndexOf(Prepared(src, cloneStyle)), decodedLength).placed)[j] >= 1
    ensures written.rows == WithHeights(Prepared(src, cloneStyle),
      TargetRows(Run(entries, IndexOf(Prepared(src, cloneStyle)), decodedLength).placed), ConfiguredImageBox().rowHeight)
    ensures written.media == MediaOf(Run(entries, IndexOf(Prepared(src, cloneStyle)), decodedLength).placed)
    ensures written.anchors == AnchorsOf(Run(entries, IndexOf(Prepared(src, cloneStyle)), decodedLength).placed, 0, ConfiguredImageBox())
  {
    var wb, sheet := PrepareSheet(src, cloneStyle);
    var index := sheet.BuildIndex();
    IndexTargetsInRange(sheet.rows);
    ghost var run := Run(entries, index, decodedLength);
    completed, added := sheet.PlaceScreenshots(wb, entries, index, decodedLength);
    EmbeddedFromEmpty(wb.media, sheet.anchors, sheet.rows, ImageBox(ImageColumnWidth(sheet.widths)), run.placed, Prepared(src, cloneStyle));
    written := Snapshot(sheet.rows, wb.media, sheet.anchors);
  }

  /** The destination workbook and sheet before the screenshots (server.js:34-67):
      a new workbook without images, and a sheet with the forced widths, the copied
      rows and the title row, without anchors. */
  method PrepareSheet(src: SourceSheet, cloneStyle: string -> Option<string>) returns (wb: Workbook, sheet: Worksheet)
    ensures fresh(wb) && fresh(sheet)
    ensures wb.media == [] && sheet.anchors == []
    ensures sheet.widths == ColumnWidths && sheet.rows == Prepared(src, cloneStyle)
  {
    wb := new Workbook();
    sheet := new Worksheet(SheetName);
    sheet.SetColumnWidths(ColumnWidths);
    sheet.CopyFrom(src, cloneStyle);
    sheet.SpliceRows(1, [JsText.Str(Title)]);
    sheet.SetRowHeight(1, TitleHeight);
  }

  /** Starting from no images and no anchors, the state is exactly that of the
      images placed. */
  lemma EmbeddedFromEmpty(media: seq<Media>, anchors: seq<Anchor>, rows: seq<Row>, box: Box,
                          placed: seq<Placed>, rows0: seq<Row>)
    requires Embedded(media, anchors, rows, box, placed, [], [], rows0)
    ensures forall j :: 0 <= j < |TargetRows(placed)| ==> TargetRows(placed)[j] >= 1
    ensures media == MediaOf(placed)
    ensures anchors == AnchorsOf(placed, 0, box)
    ensures rows == WithHeights(rows0, TargetRows(placed), box.rowHeight)
  {
    assert [] + MediaOf(placed) == MediaOf(placed);
    assert [] + AnchorsOf(placed, 0, box) == AnchorsOf(placed, 0, box);
  }

  /** What the specification answers once the input check and the sheet lookup
      have passed: a server error when the loop stopped at a throw, otherwise the
      generated report with the rows, media and anchors of the run. */
  lemma {:induction false} ReportSpecAfterLoop(body: Body, template: map<string, SourceSheet>,
                            cloneStyle: string -> Option<string>, decodedLength: string -> nat)
    requires body.Screenshots? && body.screenshots != [] && SheetName in template
    ensures var prepared := Prepared(template[SheetName], cloneStyle);
            var run := Run(body.screenshots, IndexOf(prepared), decodedLength);
            && (!run.completed ==> ReportSpec(body, template, cloneStyle, decodedLength) == (ServerError, None))
            && (run.completed ==>
                  && (forall j :: 0 <= j < |TargetRows(run.placed)| ==> TargetRows(run.placed)[j] >= 1)
                  && ReportSpec(body, template, cloneStyle, decodedLength) ==
                       (Generated(OutputName, |run.placed|),
                        Some(Snapshot(WithHeights(prepared, TargetRows(run.placed), ConfiguredImageBox().rowHeight),
                                      MediaOf(run.placed), AnchorsOf(run.placed, 0, ConfiguredImageBox())))))
  {
    var prepared := Prepared(template[SheetName], cloneStyle);
    IndexTargetsInRange(prepared);
    RunPlacesOnIndexedRows(body.screenshots, IndexOf(prepared), decodedLength);
  }
}
