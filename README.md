# DMI screenshot report: a Dafny model of `/generate-report`

The server takes a JSON body `{ screenshots: [{ id, base64 }, ...] }` and fills a
copy of the test-case workbook's sheet `V1.4_DMI_Functional_testcase ` (trailing
space included) with screenshots. This project models that handler in Dafny:

- **Input check.** A missing, non-array or empty `screenshots` is rejected with
  400 before any workbook is touched.
- **Sheet copy with a row shift.**
  - Every source row `r`, empty rows and cells included, is written cell by cell
    into destination row `r + 1`. The value is copied, and the style is cloned
    when the clone succeeds.
  - Then a title row "Screenshot Report", 30 high, is inserted at row 1.
  - So source row `r` ends up as destination row `r + 2`. In the model,
    destination row 2 is an empty row (see "## Left out" for the column headers).
- **Identifier index.**
  - Every row except row 1 that has a value is scanned, in order.
  - Its column-B value is used: rich text is joined from its fragments, and a
    falsy value is ignored.
  - The value is turned into text, trimmed and upper-cased into a key.
  - The key is mapped to the row number. A later row with the same key
    overwrites an earlier one.
- **Screenshot loop.** For each entry in order:
  - It is skipped when `id` or `base64` is falsy, or when its key is not in the
    index.
  - The format is sniffed from the raw text: `png` for the PNG signature,
    otherwise `jpeg`.
  - One leading `data:image/<word>;base64,` header (a data URI, RFC 2397) is
    stripped, then every whitespace character.
  - The result is decoded. An image under 100 bytes is skipped.
  - Otherwise the image is registered with the workbook.
  - The target row's height is set to the clamped value
    `max(45, min(w·7.5/(4/3)/0.75, 120))`, where `w` is the width of column I.
  - The image is anchored at 0-based column 8, row `target - 1`. It is `w·7.5`
    pixels wide and `height·0.75` pixels high.
  - The image is counted.
- **Response.**
  - A `null` entry, or a matched entry whose payload is not a string, throws.
    The request then ends with 500 and nothing is saved.
  - Otherwise the workbook is saved as `Updated_DMI-Testcases-Excelsheet.xlsx`
    and the count is returned.

## Layout

| file | module | contents |
|---|---|---|
| `options.dfy` | `Options` | `Option` |
| `js_text.dfy` | `JsText` | the JavaScript semantics used: truthiness, `toString`, `trim` and the ECMAScript whitespace set, ASCII `toUpperCase`, `join("")`, and integer `toString` with its round trip |
| `sheet.dfy` | `Sheet` | rows and cells, the copy loop as a function (`CopyRows`), and `spliceRows` (`InsertRow`) |
| `id_index.dfy` | `IdIndex` | keys of column-B values, the index as a function of the rows (`IndexOf`), and last-write-wins |
| `image_data.dfy` | `ImageData` | format sniffing, the data-URI regular expression (greedy `\w+`), and whitespace removal |
| `geometry.dfy` | `Geometry` | the image box, in exact `real` arithmetic |
| `placement.dfy` | `Placement` | the decision for one entry (`Decide`), the run over all entries (`Run`), and its effects on media, anchors and row heights |
| `report.dfy` | `Report` | the classes below, the request-level specification `ReportSpec`, the end-to-end lemmas, and the handler method `GenerateReport` |

`report.dfy` holds two classes:
- `Workbook` holds the registered images.
- `Worksheet` holds the rows, column widths and anchors. Its methods update them in
  place: the copy loop, splice, `getRow().height`, the index scan and the screenshot
  loop. Each method is proved against the functions of the other modules.

Two library behaviours are parameters:
- `cloneStyle` stands for the style round trip through `JSON.stringify` and
  `JSON.parse`. `None` means the clone threw, and that error is swallowed.
- `decodedLength` stands for the byte length of `Buffer.from(text, "base64")`.

Source row `r` lands on destination row `r + 2`. The copy writes it to
`getRow(r + 1)` (server.js:52), and the title insert at row 1 (server.js:65)
moves it down once more. `Report.PreparedLayout` and `Report.SavedValuesShifted`
state it.

## Model

| member | source | states |
|---|---|---|
| JsText.IsTruthy | server.js:84-118 | no ensures; definition of JavaScript truthiness used by the falsy tests at server.js:84, 87, 100 and 104 and by the `||` at server.js:118 |
| JsText.IsWhitespace | server.js:87-111 | no ensures; definition of the ECMAScript whitespace set that `trim` (server.js:87, 102) and `\s` (server.js:111) use |
| JsText.ToString | server.js:87 | `toString` of a truthy value: a string is itself, an integer is its decimal text, `true` is `"true"`, and an object is `"[object Object]"` |
| JsText.Trim | server.js:87 | the trimmed text is no longer than the input, and neither starts nor ends with whitespace |
| JsText.TrimIsEndOfStart | server.js:87 | trimming both ends is trimming the start, then the end |
| JsText.TrimIgnoresPadding | server.js:87 | whitespace added around a text never changes what `trim` returns |
| JsText.TrimKeepsSlice | server.js:87 | `trim` keeps one contiguous slice of the input; everything it drops on either side is whitespace |
| JsText.UpperChar | server.js:87 | a lower-case ASCII letter becomes the capital at the same place in the alphabet; no lower-case ASCII letter remains and no other character changes |
| JsText.ToUpper | server.js:87 | upper-casing keeps the length and upper-cases every character in its place |
| JsText.NormalizeKey | server.js:87 | a key has no surrounding whitespace and no lower-case ASCII letter, and is no longer than its text |
| JsText.NormalizedIsFixpoint | server.js:87 | a text is its own key exactly when it is already normalized |
| JsText.NormalizeKeyIdempotent | server.js:102 | normalizing a key again changes nothing |
| JsText.NormalizeKeyIgnoresPadding | server.js:102 | whitespace around an identifier never changes its key |
| JsText.NormalizeKeyIgnoresCase | server.js:102 | texts that differ only in ASCII letter case have the same key |
| JsText.DecimalString | server.js:87 | an integer's text is non-empty, has no whitespace and is already a key |
| JsText.NatStringRoundTrip | server.js:87 | the digits `toString` prints read back as the number printed |
| JsText.NumberKeyIsVerbatim | server.js:102 | a number's text is its own key |
| JsText.Concat | server.js:85 | no ensures; characterised by `JsText.ConcatAppend` and `JsText.ConcatEmptyIff` |
| JsText.ConcatAppend | server.js:85 | joining concatenated fragment lists is concatenating the joins, so fragments are joined in order |
| JsText.ConcatEmptyIff | server.js:85 | joined rich text is empty, and so not indexed, exactly when every fragment is empty |
| Sheet.CopyCell | server.js:53-58 | a copied cell gets the source value; the style is cloned when the source has one and the clone succeeds, otherwise the destination style is kept |
| Sheet.OverlayRow | server.js:53-60 | no ensures; characterised by `Sheet.OverlayRowCells` |
| Sheet.OverlayRowCells | server.js:53-60 | copying a row writes the source value into every column 1..n and leaves the other columns and the height unchanged |
| Sheet.CopyRows | server.js:51-62 | no ensures; characterised by `Sheet.CopyRowsShift` and `Sheet.CopyRowsValues` |
| Sheet.CopyRowsShift | server.js:51-62 | source row r becomes destination row r + 1; other rows keep their content; rows the copy creates without writing are empty |
| Sheet.CopyRowsValues | server.js:51-54 | the value of source cell (r, c) is found at destination cell (r + 1, c) |
| Sheet.Pad | server.js:52-126 | no ensures; definition of `getRow(n)` creating the missing rows up to n as empty rows (server.js:52, 126) |
| Sheet.ValuesRow | server.js:65 | no ensures; definition of the row a values array given to `spliceRows` makes |
| Sheet.InsertRow | server.js:65 | the inserted row becomes row `at`; rows above it are unchanged and every later row moves down by one |
| IdIndex.Flatten | server.js:84-85 | a flattened value is never rich text; what it becomes is stated by `IdIndex.CellKey` and `IdIndex.RichTextKeyedAsJoinedText` |
| IdIndex.HasValues | server.js:80 | no ensures; definition of the rows `eachRow` visits without `includeEmpty`: some cell holds a value |
| IdIndex.CellKey | server.js:83-87 | a column-B value yields a key exactly when its flattened value is truthy; the key is that of the joined fragment texts for rich text and of `toString` otherwise, trimmed and upper-cased, so it is normalized |
| IdIndex.RichTextKeyedAsJoinedText | server.js:84-87 | a rich-text cell has the key of the string its fragments join to, in order |
| IdIndex.ColumnB | server.js:82-83 | no ensures; definition of `row.getCell(2).value`: the column-B value, or `undefined` for a missing cell |
| IdIndex.RowKey | server.js:82-87 | no ensures; definition of a row's key: `IdIndex.CellKey` of its column-B value |
| IdIndex.ScanKeys | server.js:80-87 | one entry per row, in row order; characterised by `IdIndex.ScanKeysIndexed` |
| IdIndex.ScanKeysIndexed | server.js:80-87 | the scan takes key k from row n exactly when n is not the title row, the row has a value, and its column-B key is k |
| IdIndex.IndexFrom | server.js:80-87 | no ensures; characterised by `IdIndex.IndexFromNext`, `IdIndex.IndexFromSound` and `IdIndex.IndexFromComplete` |
| IdIndex.IndexFromNext | server.js:87 | scanning one more row writes its key, if any, with that row's number over any earlier entry, and changes nothing else |
| IdIndex.IndexFromSound | server.js:80-87 | a row the index holds for k was scanned with key k, and no later scanned row has key k |
| IdIndex.IndexFromComplete | server.js:80-87 | every scanned key is in the index |
| IdIndex.IndexOf | server.js:79-88 | no ensures; characterised by `IdIndex.IndexLastWriteWins` and `IdIndex.IndexTargetsInRange` |
| IdIndex.IndexLastWriteWins | server.js:79-88 | k is in the index exactly when some row is indexed under k, and then it maps to the last such row |
| IdIndex.IndexTargetsInRange | server.js:80-87 | every target is an existing row other than row 1, and every key is normalized |
| ImageData.DetectFormat | server.js:107-109 | the format is png exactly when the raw text starts with `iVBORw0KGgo` |
| ImageData.JpegSignatureIsJpeg | server.js:109 | a text starting with `/9j/` is tagged jpeg |
| ImageData.WordRun | server.js:111 | the greedy `\w+` run is the longest prefix of word characters |
| ImageData.DataUriPrefixLength | server.js:111 | a match sits at position 0 and is `data:image/`, a non-empty word, then `;base64,` |
| ImageData.DataUri | server.js:111 | no ensures; definition of the header the pattern matches for a format word: `data:image/`, the word, then `;base64,` |
| ImageData.StripDataUri | server.js:111 | the result is a suffix of the text; characterised by `ImageData.DataUriPrefixLength`, `ImageData.StripMatchingHeader`, `ImageData.StripRemovesOneHeader` and `ImageData.StripNeedsHeaderAtStart` |
| ImageData.StripMatchingHeader | server.js:111 | a well-formed header in front of a payload is removed, leaving exactly the payload |
| ImageData.StripRemovesOneHeader | server.js:111 | of two headers in a row only the first is removed |
| ImageData.StripNeedsHeaderAtStart | server.js:111 | a text not starting with `d` is left as it is, even if a header follows later |
| ImageData.RemoveWhitespace | server.js:111 | no whitespace remains and the text does not grow |
| ImageData.RemoveWhitespaceAppend | server.js:111 | whitespace removal works piece by piece: removal from a concatenation is the concatenation of removals |
| ImageData.RemoveWhitespaceFixes | server.js:111 | removal leaves a text unchanged exactly when it has no whitespace, so removing twice is removing once |
| ImageData.Clean | server.js:111 | the decoded text has no whitespace and is no longer than the raw text |
| ImageData.CleanDataUri | server.js:111 | a payload behind one header is decoded from the payload alone, less its whitespace |
| ImageData.DataUriHasNoWhitespace | server.js:111 | whitespace removal leaves a header intact |
| ImageData.LeadingWhitespaceKeepsHeader | server.js:111 | one leading whitespace character blocks the header strip, and the header is decoded as part of the payload |
| ImageData.DataUriPngTaggedJpeg | server.js:107-111 | a PNG sent as a data URI is tagged jpeg, although the text decoded starts with the PNG signature |
| Geometry.EffectiveWidth | server.js:118 | an unset or zero column width falls back to 40 (`FallbackColumnWidth`); any other width is kept |
| Geometry.ImageColumnWidth | server.js:118 | the width of column I is its set width when that is non-zero, and 40 when it is missing, unset or zero |
| Geometry.ImageBox | server.js:118-131 | the row height lies in [45, 120], the image height in [33.75, 90], and the image width is 7.5 pixels per width unit |
| Geometry.RowHeightRegimes | server.js:119-127 | the row height is 45 up to width 6, 7.5 per width unit between 6 and 16, and 120 from 16; the image height is 0.75 of it |
| Geometry.AspectKeptIffUnclamped | server.js:119-131 | the image keeps the 4:3 ratio exactly when the row height was not clamped |
| Geometry.ConfiguredBox | server.js:118-131 | at width 40 the row is 120 high and the image is 300 by 90 pixels |
| Placement.EntryKey | server.js:102 | an entry's key is normalized |
| Placement.ObjectIdKey | server.js:102 | a rich-text or other object identifier has the key of `"[object Object]"` |
| Placement.NumberEntryKey | server.js:102 | a non-zero numeric identifier's key is its decimal text |
| Placement.DecimalCellKey | server.js:83-87 | a column-B string holding a number's decimal text has that text as its key |
| Placement.Lookup | server.js:103-104 | an entry finds a row exactly when its key is in the index with a non-zero row, and then that row |
| Placement.Decide | server.js:99-113 | no ensures; characterised by `Placement.PlaceIff`, `Placement.SkipWhenUnmatched` and `Placement.ThrowIff` |
| Placement.Decisions | server.js:98-113 | one decision per entry, in order, each that of `Placement.Decide` on the entry |
| Placement.PlaceIff | server.js:99-115 | an entry places an image exactly when both fields are truthy, its key is indexed, the payload is a string and decodes to at least 100 bytes; the image goes to the indexed row, is png exactly when the raw text has the PNG signature, and is decoded from `Clean` of the raw text, which has no whitespace |
| Placement.SkipWhenUnmatched | server.js:99-104 | an entry with a falsy field or an unindexed key is skipped |
| Placement.ThrowIff | server.js:99-108 | an entry throws exactly when it is null, or when it matched a row and its payload is not a string |
| Placement.DecideDependsOnKey | server.js:102-104 | entries whose identifiers share a key are treated alike |
| Placement.DecideIgnoresIdPaddingAndCase | server.js:102-104 | an identifier is found regardless of surrounding whitespace and ASCII letter case |
| Placement.EntryKeyMatchesCellKey | server.js:83-103 | a string, number or boolean identifier has the key its column-B cell would have |
| Placement.NumericIdMatches | server.js:83-103 | a numeric identifier finds the row whose column B holds that number's text |
| Placement.RunOf | server.js:97-138 | at most one image per decision; characterised by `Placement.RunAppend` and `Placement.RunCompletedIff` |
| Placement.RunOfPrefixStep | server.js:98-138 | one more loop pass after a completed prefix: a skip changes nothing, a throw ends the run with the images so far, a placement appends its image |
| Placement.RunOfStopsAtThrow | server.js:98-138 | a throwing decision ends the run unfinished, with only the images placed before it |
| Placement.Run | server.js:97-138 | no ensures; characterised by `Placement.RunAppend`, `Placement.RunCompletedIff`, `Placement.RunStopsAtThrow` and `Placement.RunCountsPlacing` |
| Placement.RunAppend | server.js:98-138 | running two batches of entries in turn is running them together; a throw in the first ends the run |
| Placement.RunCompletedIff | server.js:98-138 | the loop finishes exactly when no entry throws |
| Placement.RunStopsAtThrow | server.js:98-138 | no entry after a throwing one is looked at |
| Placement.RunPlacesOnIndexedRows | server.js:103-126 | every image goes to a row the index maps some key to |
| Placement.SkippedEntryChangesNothing | server.js:99-113 | a skipped entry changes neither the images nor the count |
| Placement.PlacingEntryAppends | server.js:115-137 | a placing entry adds exactly its image, at the end, and the count grows by one |
| Placement.PlacedRowIsIndexed | server.js:103-104 | a placing entry's row is a row of the index |
| Placement.RepeatedEntryPlacesTwice | server.js:97-137 | a repeated entry places and counts its image again, on the same row |
| Placement.RunWithRepeat | server.js:97-137 | after a completed run, an entry that places, given twice, appends its image twice |
| Placement.RunCountsPlacing | server.js:97-137 | a finished loop counts exactly the entries that reach the embed step |
| Placement.CountPlacing | server.js:137 | no ensures; the number of placing decisions counted without the loop; `Placement.RunCountsPlacing` ties it to the count `addedCount` reaches |
| Placement.MediaOf | server.js:115 | one workbook image per placement, in order, holding its payload and format |
| Placement.AnchorsOf | server.js:132-135 | one anchor per placement, in order: image id `firstId + j`, column 8, row `target - 1`, and the box's width and height |
| Placement.TargetRows | server.js:126 | the target row of each placement, in order |
| Placement.WithHeight | server.js:126-128 | after `getRow(n).height = h` row n exists with height h; every other row is unchanged, and created rows are empty |
| Placement.WithHeights | server.js:126-127 | setting the heights of the target rows one by one keeps every old row and leaves every target row in the sheet |
| Placement.WithHeightsKeepsCells | server.js:126-128 | setting row heights never changes a cell |
| Placement.WithHeightsSetsTargets | server.js:126-127 | every target row gets the height |
| Placement.WithHeightsKeepsOthers | server.js:126-127 | a row that is not a target is unchanged |
| Report.Workbook.constructor | server.js:34 | a new workbook has no images |
| Report.Workbook.AddImage | server.js:115 | the image is appended, and its id is its position among the workbook's images |
| Report.Worksheet.constructor | server.js:35 | a new sheet has the given name and no rows, widths or anchors |
| Report.Worksheet.SetColumnWidths | server.js:38-48 | the widths are set; rows and anchors are unchanged |
| Report.Worksheet.CopyFrom | server.js:51-62 | the nested copy loops leave exactly the rows `CopyRows` describes; widths and anchors are unchanged |
| Report.Worksheet.CopyRowCells | server.js:53-60 | the inner copy loop overlays one source row on one destination row, as `OverlayRow` describes; widths and anchors are unchanged |
| Report.Worksheet.SpliceRows | server.js:65 | the rows become `InsertRow` of the old rows |
| Report.Worksheet.SetRowHeight | server.js:66-67 | the rows become `WithHeight` of the old rows |
| Report.Worksheet.AddAnchor | server.js:132-135 | the anchor is appended; rows and widths are unchanged |
| Report.Worksheet.BuildIndex | server.js:79-88 | the dictionary the scan loop builds is `IndexOf(rows)`, whose meaning `IdIndex.IndexLastWriteWins` states |
| Report.Worksheet.Embed | server.js:115-135 | one placement registers the image, gives the target row the clamped height, and anchors the image at column 8, row target - 1, with the width and a height of 0.75 times the row height |
| Report.Worksheet.EmbedNext | server.js:115-137 | embedding one more image keeps media, anchors and rows in step with the images placed |
| Report.Worksheet.PlaceEntry | server.js:99-137 | one loop pass makes the decision of `Placement.Decide`; a placing entry is embedded, and a skipped or throwing one changes nothing |
| Report.EmbeddedAppend | server.js:115-137 | one more placement appends one image and one anchor, whose id is the image's position, and sets one row height |
| Report.EmbeddedFromEmpty | server.js:34-137 | starting from a workbook with no images and a sheet with no anchors, the images and anchors are exactly those of the placements |
| Report.Worksheet.PlaceScreenshots | server.js:97-138 | the loop's completion flag and count are those of `Run`, and the media, anchors and row heights are those of the images `Run` places; widths are unchanged |
| Report.CopiedRowKey | server.js:51-87 | a copied source row has values, and a key, exactly as the source row does |
| Report.Prepared | server.js:51-67 | no ensures; characterised by `Report.PreparedLayout` |
| Report.PreparedLayout | server.js:51-67 | after the copy and the title insert, row 1 is the title row, row 2 is empty, and source row r is row r + 2 |
| Report.PreparedCell | server.js:51-67 | source cell (r, c) is at prepared row r + 2, column c, with its value |
| Report.PrepareSheet | server.js:34-67 | a fresh workbook with no images and a fresh sheet with the configured widths, no anchors and the rows `Prepared` describes |
| Report.IndexSeesShiftedRows | server.js:51-88 | destination row n is indexed under k exactly when source row n - 2 has values and key k; rows 1 and 2 are never targets |
| Report.SavedValuesShifted | server.js:51-142 | the saved sheet holds source cell (r, c) at row r + 2, column c, except I3, which the program overwrites with the column label (left out) |
| Report.ConfiguredImageBoxIs | server.js:38-131 | with column I forced to 40, every row holding an image is 120 high and every image is 300 by 90 pixels |
| Report.ConfiguredImageBox | server.js:38-131 | no ensures; the box for the configured widths, with column I at 40; characterised by `Report.ConfiguredImageBoxIs` |
| Report.IndexTargetIsLastSourceRow | server.js:79-88 | a row the index maps to is the copy of a source row with values and a key, and no later source row has that key |
| Report.GeneratedSnapshot | server.js:97-145 | a generated report's rows, media and anchors are those of the completed run on the prepared sheet, and every image row is an index target |
| Report.RunRowFacts | server.js:79-126 | image j goes to the copy of the last source row with its key |
| Report.ConfiguredPlacement | server.js:118-135 | with the configured widths, image j is the j-th workbook image, 300 by 90 pixels in column I of its row, and that row is 120 high |
| Report.GeneratedAnchors | server.js:51-145 | in a generated report, image j is anchored at column I of the row holding the last source row with its key; the image is 300 by 90 and the row is 120 high |
| Report.ReportSpec | server.js:16-150 | no ensures; characterised by `Report.ReportSpecOutcomes`, `Report.GeneratedSnapshot` and `Report.GeneratedAnchors` |
| Report.ReportSpecOutcomes | server.js:19-148 | the request is rejected with 400 exactly when `screenshots` is not a non-empty array; a valid request gets 404 exactly when the template has no such sheet, and 500 exactly when the sheet is there and some entry throws; a workbook is saved exactly when the report is generated; the count returned is the number of images the saved workbook holds, which is the number of entries that reach the embed step, and never exceeds the number of entries |
| Report.ReportSpecAfterLoop | server.js:97-145 | after the loop on the prepared sheet, an unfinished run gives 500 and saves nothing, and a finished run gives the saved sheet's rows, images and anchors with the count of images placed |
| Report.FillWorkbook | server.js:34-138 | preparing the sheet and running the loop yields the completion flag and count of `Run`, and rows, images and anchors those of the images it places |
| Report.GenerateReport | server.js:16-150 | the handler returns exactly the response and saved workbook of `ReportSpec`, and the outcomes of `Report.ReportSpecOutcomes`; a generated report counts exactly the images the saved workbook holds |

## Left out

- HTTP and I/O plumbing: the Express setup, CORS and body limits, the download route,
  and logging. Reading the template file and writing the output are modelled
  differently: the template's sheets are a parameter, and the saved workbook is a
  returned value.
  - A failure to read or write the file is not modelled. It would be a 500.
  - Races between concurrent requests on the shared output path are not modelled.
- ExcelJS styling and layout: fonts, fills, alignment, the `A1:I1` merge and the `I3`
  label.
  - The header values that setting `columns` writes into row 1 are left out.
    The model starts the destination sheet empty and keeps only the column widths.
  - The real sheet therefore has the letters A to I in row 2 after the insert, and
    its index also maps `B` to row 2.
- The style deep copy is opaque. `cloneStyle` returns `None` for a clone that throws.
- Base64 decoding is abstracted as `decodedLength` of the cleaned text. The bytes
  of an image are represented by that text (`Media.payload`).
- Floating point: the geometry uses exact reals.
- JavaScript values:
  - Numbers are integers only. NaN, fractions and exponent notation in `toString`
    are left out.
  - Arrays, Dates and functions as identifiers or cell values are left out. A
    non-rich-text object prints as `[object Object]`.
  - An identifier object with its own `toString` key is left out. JSON cannot
    hold a function, so there `id.toString()` throws and the request ends with
    500; the model prints every object identifier as `[object Object]`.
  - A primitive entry that is not null (a string, a number) is written as
    `Entry(Undefined, Undefined)`, because destructuring it yields no fields.
- JsText.UpperChar: upper-cases ASCII letters only; `toUpperCase` also maps other
  Unicode letters.
- The message of the 500 response: server.js:148 sends `err.message`, and the
  `ServerError` response drops it, because that text comes from the JavaScript
  engine, not from the program.
- Report.SavedValuesShifted: the label "Screenshot Image" that server.js:91-92
  writes into I3 is left out, so for source cell (1, 9) the saved sheet holds the
  label, not the copied value the lemma states.
- Report.Worksheet.PlaceScreenshots: a throwing entry is reported through
  `completed = false` instead of an exception; `GenerateReport` turns it into the
  500 response.
