/** What the screenshot loop (server.js:97-138) decides for each entry, and what a
    run over all entries places, as functions of the entries, the identifier
    index and the decoder. The loop itself is `Report.Worksheet.PlaceScreenshots`. */
module Placement {
  import opened Options
  import JsText
  import opened Sheet
  import IdIndex
  import opened ImageData
  import opened Geometry

  /** One element of the `screenshots` array: an object whose `id` and `base64`
      properties are read (a missing one is `Undefined`), or `null`/`undefined`,
      which cannot be destructured. */
  datatype Entry = Entry(id: JsText.Value, base64: JsText.Value) | NullEntry

  /** Decoded images shorter than this many bytes are skipped. */
  const MinImageBytes := 100

  /** What happens to one entry: it is skipped, it throws (which ends the request
      with a server error), or it places an image of the given format, decoded
      from `payload`, on the given 1-based row. */
  datatype Decision = Skip | Throw | Place(row: int, format: Format, payload: string)

  /** The key an entry's `id` is looked up under. */
  function EntryKey(id: JsText.Value): (k: string)
    requires JsText.IsTruthy(id)
    ensures JsText.IsNormalized(k)
  {
    JsText.NormalizeKey(JsText.ToString(id))
  }

  /** The lookup of a truthy id: the row, when the key is present with a truthy
      (non-zero) row number. */
  function Lookup(index: map<string, int>, id: JsText.Value): (row: Option<int>)
    requires JsText.IsTruthy(id)
    ensures row.Some? <==> EntryKey(id) in index && index[EntryKey(id)] != 0
    ensures row.Some? ==> row.value == index[EntryKey(id)]
  {
    var key := EntryKey(id);
    if key in index && index[key] != 0 then Some(index[key]) else None
  }

  /** The fate of one entry. `decodedLength` stands for the byte length of
      `Buffer.from(text, "base64")`. */
  function Decide(e: Entry, index: map<string, int>, decodedLength: string -> nat): Decision {
    match e
    case NullEntry => Throw
    case Entry(id, base64) =>
      if !JsText.IsTruthy(id) || !JsText.IsTruthy(base64) then Skip
      else
        match Lookup(index, id)
        case None => Skip
        case Some(row) =>
          if !base64.Str? then Throw
          else if decodedLength(Clean(base64.s)) < MinImageBytes then Skip
          else Place(row, DetectFormat(base64.s), Clean(base64.s))
  }

  /** An entry places an image exactly when both fields are truthy, its key is
      indexed, its payload is a string and decodes to at least 100 bytes; the image
      goes to the indexed row, in the format sniffed from the raw text, decoded from
      the cleaned text. */
  lemma PlaceIff(e: Entry, index: map<string, int>, decodedLength: string -> nat)
    ensures Decide(e, index, decodedLength).Place? <==>
      && e.Entry? && JsText.IsTruthy(e.id) && JsText.IsTruthy(e.base64)
      && EntryKey(e.id) in index && index[EntryKey(e.id)] != 0
      && e.base64.Str? && decodedLength(Clean(e.base64.s)) >= MinImageBytes
    ensures Decide(e, index, decodedLength).Place? ==>
      && Decide(e, index, decodedLength).row == index[EntryKey(e.id)]
      && (Decide(e, index, decodedLength).format == Png <==> PngSignature <= e.base64.s)
      && Decide(e, index, decodedLength).payload == Clean(e.base64.s)
      && JsText.NoWhitespace(Decide(e, index, decodedLength).payload)
  {
  }

  /** An entry with a missing or falsy field, or whose key is not indexed, is
      skipped without error. */
  lemma SkipWhenUnmatched(e: Entry, index: map<string, int>, decodedLength: string -> nat)
    requires e.Entry?
    requires !JsText.IsTruthy(e.id) || !JsText.IsTruthy(e.base64) || EntryKey(e.id) !in index
    ensures Decide(e, index, decodedLength) == Skip
  {
  }

  /** An entry throws exactly when it is `null`, or when it matches an indexed row
      but its payload is not a string (it has no `startsWith`). */
  lemma ThrowIff(e: Entry, index: map<string, int>, decodedLength: string -> nat)
    ensures Decide(e, index, decodedLength) == Throw <==>
      || e.NullEntry?
      || (&& JsText.IsTruthy(e.id) && JsText.IsTruthy(e.base64)
          && Lookup(index, e.id).Some? && !e.base64.Str?)
  {
  }

  /** Two entries with the same payload whose identifiers share a key are
      treated alike. */
  lemma DecideDependsOnKey(id1: JsText.Value, id2: JsText.Value, base64: JsText.Value,
                           index: map<string, int>, decodedLength: string -> nat)
    requires JsText.IsTruthy(id1) && JsText.IsTruthy(id2) && EntryKey(id1) == EntryKey(id2)
    ensures Decide(Entry(id1, base64), index, decodedLength) == Decide(Entry(id2, base64), index, decodedLength)
  {
    assert Lookup(index, id1) == Lookup(index, id2);
  }

  /** An identifier is looked up regardless of surrounding whitespace and of the
      case of its ASCII letters. */
  lemma DecideIgnoresIdPaddingAndCase(p: string, s: string, q: string, t: string,
                                     base64: JsText.Value, index: map<string, int>, decodedLength: string -> nat)
    requires JsText.AllWhitespace(p) && JsText.AllWhitespace(q)
    requires |s| == |t| && forall i :: 0 <= i < |s| ==> JsText.UpperChar(s[i]) == JsText.UpperChar(t[i])
    requires s != []
    ensures Decide(Entry(JsText.Str(p + s + q), base64), index, decodedLength)
         == Decide(Entry(JsText.Str(t), base64), index, decodedLength)
  {
    assert |p + s + q| >= |s|;
    JsText.NormalizeKeyIgnoresPadding(p, s, q);
    JsText.NormalizeKeyIgnoresCase(s, t);
    assert EntryKey(JsText.Str(p + s + q)) == EntryKey(JsText.Str(t));
    DecideDependsOnKey(JsText.Str(p + s + q), JsText.Str(t), base64, index, decodedLength);
  }

  /** A string, number or boolean identifier finds the row whose column-B cell
      holds the same value: entry keys and index keys are made alike. */
  lemma EntryKeyMatchesCellKey(v: JsText.Value)
    requires JsText.IsTruthy(v) && !v.RichText?
    ensures IdIndex.CellKey(v) == Some(EntryKey(v))
  {
  }

  /** An object identifier that is not rich text in a cell, such as a JSON object,
      prints as "[object Object]" and is looked up under that text's key. */
  lemma ObjectIdKey(id: JsText.Value)
    requires id.RichText? || id.OtherObject?
    ensures EntryKey(id) == JsText.NormalizeKey("[object Object]")
  {
  }

  /** A numeric identifier finds the cell holding that number, and the cell holding
      its decimal text. */
  lemma NumericIdMatches(n: int)
    requires n != 0
    ensures EntryKey(JsText.Num(n)) == JsText.DecimalString(n)
    ensures IdIndex.CellKey(JsText.Str(JsText.DecimalString(n))) == Some(EntryKey(JsText.Num(n)))
  {
    NumberEntryKey(n);
    DecimalCellKey(n);
  }

  lemma NumberEntryKey(n: int)
    requires n != 0
    ensures EntryKey(JsText.Num(n)) == JsText.DecimalString(n)
  {
    assert JsText.ToString(JsText.Num(n)) == JsText.DecimalString(n);
    JsText.NumberKeyIsVerbatim(n);
  }

  lemma DecimalCellKey(n: int)
    ensures IdIndex.CellKey(JsText.Str(JsText.DecimalString(n))) == Some(JsText.DecimalString(n))
  {
    var v := JsText.Str(JsText.DecimalString(n));
    assert JsText.IsTruthy(v);
    assert JsText.ToString(v) == JsText.DecimalString(n);
    JsText.NumberKeyIsVerbatim(n);
  }

  // ---------------------------------------------------------------- a run

  /** An image placed by the run, in the order the loop places them. */
  datatype Placed = Placed(row: int, format: Format, payload: string)

  /** The images placed, and whether the loop finished (`false`: an entry threw). */
  datatype RunResult = RunResult(placed: seq<Placed>, completed: bool)

  /** The decisions for the entries, in input order. */
  function Decisions(entries: seq<Entry>, index: map<string, int>, decodedLength: string -> nat): (ds: seq<Decision>)
    ensures |ds| == |entries|
    ensures forall i :: 0 <= i < |entries| ==> ds[i] == Decide(entries[i], index, decodedLength)
  {
    seq(|entries|, i requires 0 <= i < |entries| => Decide(entries[i], index, decodedLength))
  }

  /** The loop over a sequence of decisions: they are carried out in order until
      one throws. */
  function RunOf(ds: seq<Decision>): (r: RunResult)
    ensures |r.placed| <= |ds|
  {
    if ds == [] then RunResult([], true)
    else
      var prev := RunOf(ds[..|ds| - 1]);
      if !prev.completed then prev
      else
        match ds[|ds| - 1]
        case Skip => prev
        case Throw => RunResult(prev.placed, false)
        case Place(row, format, payload) => RunResult(prev.placed + [Placed(row, format, payload)], true)
  }

  /** The loop over `entries`. */
  function Run(entries: seq<Entry>, index: map<string, int>, decodedLength: string -> nat): RunResult {
    RunOf(Decisions(entries, index, decodedLength))
  }

  lemma DecisionsAppend(a: seq<Entry>, b: seq<Entry>, index: map<string, int>, decodedLength: string -> nat)
    ensures Decisions(a + b, index, decodedLength) == Decisions(a, index, decodedLength) + Decisions(b, index, decodedLength)
  {
  }

  /** Running two batches of decisions one after the other is running them
      together. */
  lemma {:induction false} RunOfAppend(a: seq<Decision>, b: seq<Decision>)
    ensures RunOf(a + b) ==
      if RunOf(a).completed then RunResult(RunOf(a).placed + RunOf(b).placed, RunOf(b).completed)
      else RunOf(a)
  {
    if b == [] {
      assert a + b == a;
    } else {
      var b' := b[..|b| - 1];
      assert (a + b)[..|a + b| - 1] == a + b';
      assert (a + b)[|a + b| - 1] == b[|b| - 1];
      RunOfAppend(a, b');
    }
  }

  /** Running two batches of entries one after the other is running them
      together. */
  lemma RunAppend(a: seq<Entry>, b: seq<Entry>, index: map<string, int>, decodedLength: string -> nat)
    ensures Run(a + b, index, decodedLength) ==
      if Run(a, index, decodedLength).completed
      then RunResult(Run(a, index, decodedLength).placed + Run(b, index, decodedLength).placed,
                     Run(b, index, decodedLength).completed)
      else Run(a, index, decodedLength)
  {
    DecisionsAppend(a, b, index, decodedLength);
    RunOfAppend(Decisions(a, index, decodedLength), Decisions(b, index, decodedLength));
  }

  lemma {:induction false} RunOfCompletedIff(ds: seq<Decision>)
    ensures RunOf(ds).completed <==> forall i :: 0 <= i < |ds| ==> ds[i] != Throw
  {
    if ds != [] {
      var init := ds[..|ds| - 1];
      RunOfCompletedIff(init);
      assert forall i :: 0 <= i < |init| ==> init[i] == ds[i];
    }
  }

  /** The run finishes exactly when no entry throws. */
  lemma RunCompletedIff(entries: seq<Entry>, index: map<string, int>, decodedLength: string -> nat)
    ensures Run(entries, index, decodedLength).completed <==>
      forall i :: 0 <= i < |entries| ==> Decide(entries[i], index, decodedLength) != Throw
  {
    RunOfCompletedIff(Decisions(entries, index, decodedLength));
  }

  /** Nothing after a throwing entry is looked at: the run is the run of the
      entries before it, marked unfinished. */
  lemma RunStopsAtThrow(entries: seq<Entry>, i: int, index: map<string, int>, decodedLength: string -> nat)
    requires 0 <= i < |entries| && Decide(entries[i], index, decodedLength) == Throw
    ensures !Run(entries, index, decodedLength).completed
    ensures Run(entries, index, decodedLength).placed == Run(entries[..i], index, decodedLength).placed
  {
    var ds := Decisions(entries, index, decodedLength);
    assert ds == ds[..i] + ([ds[i]] + ds[i + 1..]);
    RunOfAppend(ds[..i], [ds[i]] + ds[i + 1..]);
    RunOfAppend([ds[i]], ds[i + 1..]);
    assert [ds[i]][..0] == [];
    assert ds[..i] == Decisions(entries[..i], index, decodedLength);
  }

  /** One more decision after an unfinished prefix: a skip changes nothing, a throw
      ends the run, and a placement appends its image. */
  lemma {:induction false} RunOfPrefixStep(ds: seq<Decision>, i: int)
    requires 0 <= i < |ds| && RunOf(ds[..i]).completed
    ensures RunOf(ds[..i + 1]) ==
      match ds[i]
      case Skip => RunOf(ds[..i])
      case Throw => RunResult(RunOf(ds[..i]).placed, false)
      case Place(row, format, payload) => RunResult(RunOf(ds[..i]).placed + [Placed(row, format, payload)], true)
  {
    assert ds[..i + 1][..i] == ds[..i];
  }

  /** A throwing decision ends the run with what the decisions before it placed. */
  lemma {:induction false} RunOfStopsAtThrow(ds: seq<Decision>, i: int)
    requires 0 <= i < |ds| && ds[i] == Throw
    ensures !RunOf(ds).completed
    ensures RunOf(ds).placed == RunOf(ds[..i]).placed
  {
    assert ds == ds[..i] + ([ds[i]] + ds[i + 1..]);
    RunOfAppend(ds[..i], [ds[i]] + ds[i + 1..]);
    RunOfAppend([ds[i]], ds[i + 1..]);
    assert [ds[i]][..0] == [];
  }

  /** Every decision that places targets a row in `rows`. */
  predicate PlacesWithin(ds: seq<Decision>, rows: set<int>) {
    forall i :: 0 <= i < |ds| && ds[i].Place? ==> ds[i].row in rows
  }

  lemma {:induction false} RunOfPlacesWithin(ds: seq<Decision>, rows: set<int>)
    requires PlacesWithin(ds, rows)
    ensures forall j :: 0 <= j < |RunOf(ds).placed| ==> RunOf(ds).placed[j].row in rows
  {
    if ds != [] {
      var init := ds[..|ds| - 1];
      assert forall i :: 0 <= i < |init| ==> init[i] == ds[i];
      RunOfPlacesWithin(init, rows);
    }
  }

  /** Every image goes to a row the index maps some key to. */
  lemma RunPlacesOnIndexedRows(entries: seq<Entry>, index: map<string, int>, decodedLength: string -> nat)
    ensures forall j :: 0 <= j < |Run(entries, index, decodedLength).placed| ==>
      Run(entries, index, decodedLength).placed[j].row in index.Values
  {
    var ds := Decisions(entries, index, decodedLength);
    forall i | 0 <= i < |ds| && ds[i].Place? ensures ds[i].row in index.Values {
      PlaceIff(entries[i], index, decodedLength);
      assert index[EntryKey(entries[i].id)] in index.Values;
    }
    RunOfPlacesWithin(ds, index.Values);
  }

  /** An entry that is skipped changes nothing. */
  lemma SkippedEntryChangesNothing(entries: seq<Entry>, e: Entry, index: map<string, int>, decodedLength: string -> nat)
    requires Decide(e, index, decodedLength) == Skip
    ensures Run(entries + [e], index, decodedLength) == Run(entries, index, decodedLength)
  {
    var ds := Decisions(entries + [e], index, decodedLength);
    assert ds[..|entries|] == Decisions(entries, index, decodedLength);
  }

  /** An entry that places adds its image at the end of what the run placed. */
  lemma PlacingEntryAppends(entries: seq<Entry>, e: Entry, index: map<string, int>, decodedLength: string -> nat)
    requires Run(entries, index, decodedLength).completed
    requires Decide(e, index, decodedLength).Place?
    ensures Run(entries + [e], index, decodedLength) ==
      RunResult(Run(entries, index, decodedLength).placed +
                [Placed(Decide(e, index, decodedLength).row, Decide(e, index, decodedLength).format,
                        Decide(e, index, decodedLength).payload)], true)
  {
    var ds := Decisions(entries + [e], index, decodedLength);
    assert ds[..|entries|] == Decisions(entries, index, decodedLength);
  }

  /** A placing entry's row is a value of the index. */
  lemma PlacedRowIsIndexed(e: Entry, index: map<string, int>, decodedLength: string -> nat)
    requires Decide(e, index, decodedLength).Place?
    ensures Decide(e, index, decodedLength).row in index.Values
  {
    PlaceIff(e, index, decodedLength);
    assert index[EntryKey(e.id)] in index.Values;
  }

  lemma RunOfTwoPlacements(d: Decision)
    requires d.Place?
    ensures RunOf([d, d]) == RunResult([Placed(d.row, d.format, d.payload), Placed(d.row, d.format, d.payload)], true)
  {
    var p := Placed(d.row, d.format, d.payload);
    assert [d][..0] == [];
    assert RunOf([d]) == RunResult([] + [p], true);
    assert [d, d][..1] == [d];
    assert RunOf([d, d]) == RunResult([p] + [p], true);
  }

  /** Every entry that places counts: an entry repeated places its image again, on
      the same row. */
  lemma RepeatedEntryPlacesTwice(entries: seq<Entry>, e: Entry, index: map<string, int>, decodedLength: string -> nat)
    requires Run(entries, index, decodedLength).completed
    requires Decide(e, index, decodedLength).Place?
    ensures Run(entries + [e, e], index, decodedLength).completed
    ensures |Run(entries + [e, e], index, decodedLength).placed| == |Run(entries, index, decodedLength).placed| + 2
    ensures Run(entries + [e, e], index, decodedLength).placed[|Run(entries, index, decodedLength).placed|].row
         == Run(entries + [e, e], index, decodedLength).placed[|Run(entries, index, decodedLength).placed| + 1].row
  {
    var d := Decide(e, index, decodedLength);
    var p := Placed(d.row, d.format, d.payload);
    var before := Run(entries, index, decodedLength).placed;
    RunWithRepeat(entries, e, index, decodedLength, d);
    assert (before + [p, p])[|before|] == p && (before + [p, p])[|before| + 1] == p;
  }

  lemma {:induction false} RunWithRepeat(entries: seq<Entry>, e: Entry, index: map<string, int>, decodedLength: string -> nat, d: Decision)
    requires Run(entries, index, decodedLength).completed
    requires Decide(e, index, decodedLength) == d && d.Place?
    ensures Run(entries + [e, e], index, decodedLength) ==
      RunResult(Run(entries, index, decodedLength).placed + [Placed(d.row, d.format, d.payload), Placed(d.row, d.format, d.payload)], true)
  {
    RunAppend(entries, [e, e], index, decodedLength);
    assert Decisions([e, e], index, decodedLength) == [d, d];
    RunOfTwoPlacements(d);
  }

  /** Number of decisions that place an image, counted without the loop. */
  function CountPlacing(ds: seq<Decision>): nat {
    if ds == [] then 0 else (if ds[0].Place? then 1 else 0) + CountPlacing(ds[1..])
  }

  /** A finished run counts exactly the entries that reach the embed step. */
  lemma {:induction false} RunCountsPlacing(ds: seq<Decision>)
    requires RunOf(ds).completed
    ensures |RunOf(ds).placed| == CountPlacing(ds)
  {
    if ds != [] {
      var rest := ds[1..];
      assert ds == [ds[0]] + rest;
      RunOfAppend([ds[0]], rest);
      assert [ds[0]][..0] == [];
      RunCountsPlacing(rest);
    }
  }

  // ---------------------------------------------------------------- effects

  /** An image registered with the workbook: its bytes (given by the text they
      are decoded from) and its format. */
  datatype Media = Media(payload: string, format: Format)

  /** An image's anchor: workbook image id, 0-based top-left column and row, and
      its extent in pixels. */
  datatype Anchor = Anchor(imageId: int, col: int, row: int, width: real, height: real)

  function MediaOf(placed: seq<Placed>): (m: seq<Media>)
    ensures |m| == |placed|
    ensures forall j :: 0 <= j < |placed| ==> m[j] == Media(placed[j].payload, placed[j].format)
  {
    seq(|placed|, j requires 0 <= j < |placed| => Media(placed[j].payload, placed[j].format))
  }

  /** The anchors of the placed images, the first registered under `firstId`: each
      at the screenshot column of the row above its target in 0-based terms, that
      is on the target row itself. */
  function AnchorsOf(placed: seq<Placed>, firstId: int, box: Box): (a: seq<Anchor>)
    ensures |a| == |placed|
    ensures forall j :: 0 <= j < |placed| ==>
      a[j] == Anchor(firstId + j, ImageColumn, placed[j].row - 1, box.width, box.height)
  {
    seq(|placed|, j requires 0 <= j < |placed| => Anchor(firstId + j, ImageColumn, placed[j].row - 1, box.width, box.height))
  }

  lemma MediaOfAppend(placed: seq<Placed>, p: Placed)
    ensures MediaOf(placed + [p]) == MediaOf(placed) + [Media(p.payload, p.format)]
  {
  }

  lemma AnchorsOfAppend(placed: seq<Placed>, p: Placed, firstId: int, box: Box)
    ensures AnchorsOf(placed + [p], firstId, box) ==
      AnchorsOf(placed, firstId, box) + [Anchor(firstId + |placed|, ImageColumn, p.row - 1, box.width, box.height)]
  {
  }

  lemma TargetRowsAppend(placed: seq<Placed>, p: Placed)
    ensures TargetRows(placed + [p]) == TargetRows(placed) + [p.row]
  {
  }

  /** The rows after row `n` (1-based) was fetched and given height `h`. */
  function WithHeight(rows: seq<Row>, n: int, h: real): (r: seq<Row>)
    requires n >= 1
    ensures |r| == if |rows| < n then n else |rows|
    ensures r[n - 1] == (if n <= |rows| then rows[n - 1] else EmptyRow).(height := Some(h))
    ensures forall i :: 0 <= i < |r| && i != n - 1 ==> r[i] == if i < |rows| then rows[i] else EmptyRow
  {
    var padded := Pad(rows, n);
    padded[n - 1 := padded[n - 1].(height := Some(h))]
  }

  /** The target rows of the placed images, in placement order. */
  function TargetRows(placed: seq<Placed>): (t: seq<int>)
    ensures |t| == |placed| && forall j :: 0 <= j < |placed| ==> t[j] == placed[j].row
  {
    seq(|placed|, j requires 0 <= j < |placed| => placed[j].row)
  }

  /** The rows after each target row was given height `h`, in order. */
  function WithHeights(rows: seq<Row>, targets: seq<int>, h: real): (r: seq<Row>)
    requires forall j :: 0 <= j < |targets| ==> targets[j] >= 1
    ensures |rows| <= |r| && forall j :: 0 <= j < |targets| ==> targets[j] <= |r|
  {
    if targets == [] then rows
    else WithHeight(WithHeights(rows, targets[..|targets| - 1], h), targets[|targets| - 1], h)
  }

  /** One more target is one more `WithHeight`, after the others. */
  lemma WithHeightsAppend(rows: seq<Row>, targets: seq<int>, n: int, h: real)
    requires forall j :: 0 <= j < |targets| ==> targets[j] >= 1
    requires n >= 1
    ensures WithHeights(rows, targets + [n], h) == WithHeight(WithHeights(rows, targets, h), n, h)
  {
    assert (targets + [n])[..|targets|] == targets;
  }

  /** Setting heights never touches a cell: existing rows keep their cells and
      rows the lookup creates are empty. */
  lemma {:induction false} WithHeightsKeepsCells(rows: seq<Row>, targets: seq<int>, h: real)
    requires forall j :: 0 <= j < |targets| ==> targets[j] >= 1
    ensures forall i :: 0 <= i < |rows| ==> WithHeights(rows, targets, h)[i].cells == rows[i].cells
    ensures forall i :: |rows| <= i < |WithHeights(rows, targets, h)| ==> WithHeights(rows, targets, h)[i].cells == map[]
  {
    if targets != [] {
      var init := targets[..|targets| - 1];
      assert forall j :: 0 <= j < |init| ==> init[j] == targets[j];
      WithHeightsKeepsCells(rows, init, h);
    }
  }

  /** Every target row gets height `h`. */
  lemma {:induction false} WithHeightsSetsTargets(rows: seq<Row>, targets: seq<int>, h: real)
    requires forall j :: 0 <= j < |targets| ==> targets[j] >= 1
    ensures forall j :: 0 <= j < |targets| ==> WithHeights(rows, targets, h)[targets[j] - 1].height == Some(h)
  {
    if targets != [] {
      var init := targets[..|targets| - 1];
      assert forall j :: 0 <= j < |init| ==> init[j] == targets[j];
      WithHeightsSetsTargets(rows, init, h);
      var prev := WithHeights(rows, init, h);
      var n := targets[|targets| - 1];
      forall j | 0 <= j < |targets| ensures WithHeight(prev, n, h)[targets[j] - 1].height == Some(h) {
        if targets[j] != n {
          assert targets[j] == init[j];
        }
      }
    }
  }

  /** A row that is not a target is kept as it was. */
  lemma {:induction false} WithHeightsKeepsOthers(rows: seq<Row>, targets: seq<int>, h: real, i: int)
    requires forall j :: 0 <= j < |targets| ==> targets[j] >= 1
    requires 0 <= i < |rows| && i + 1 !in targets
    ensures WithHeights(rows, targets, h)[i] == rows[i]
  {
    if targets != [] {
      var init := targets[..|targets| - 1];
      assert i + 1 !in init by {
        assert forall j :: 0 <= j < |init| ==> init[j] == targets[j];
      }
      WithHeightsKeepsOthers(rows, init, h, i);
    }
  }
}
