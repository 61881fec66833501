/** The identifier index: test-case identifier (column B) to row number, built by
    scanning the destination sheet after the title row was inserted
    (server.js:79-88). */
module IdIndex {
  import opened Options
  import JsText
  import opened Sheet

  /** Whether a row enumeration without empty rows visits the row: some cell
      holds a value. */
  predicate HasValues(row: Row) {
    exists c :: c in row.cells && row.cells[c].value != JsText.Undefined
  }

  /** A rich-text value replaced by the concatenation of its fragments' texts;
      any other value as it is. */
  function Flatten(v: JsText.Value): (f: JsText.Value)
    ensures !f.RichText?
  {
    if v.RichText? then JsText.Str(JsText.Concat(v.fragments)) else v
  }

  /** The key a column-B value is indexed under, if any: the flattened value, when
      truthy, as text, trimmed and upper-cased. */
  function CellKey(v: JsText.Value): (k: Option<string>)
    ensures k.Some? <==> JsText.IsTruthy(Flatten(v))
    ensures k.Some? ==> JsText.IsNormalized(k.value)
    ensures k.Some? && v.RichText? ==> k.value == JsText.NormalizeKey(JsText.Concat(v.fragments))
    ensures k.Some? && !v.RichText? ==> k.value == JsText.NormalizeKey(JsText.ToString(v))
  {
    var flat := Flatten(v);
    if JsText.IsTruthy(flat) then Some(JsText.NormalizeKey(JsText.ToString(flat))) else None
  }

  /** Rich text is keyed as the string its fragments' texts join to, in order. */
  lemma RichTextKeyedAsJoinedText(fragments: seq<string>)
    ensures CellKey(JsText.RichText(fragments)) == CellKey(JsText.Str(JsText.Concat(fragments)))
  {
  }

  function ColumnB(row: Row): JsText.Value {
    if 2 in row.cells then row.cells[2].value else JsText.Undefined
  }

  function RowKey(row: Row): Option<string> {
    CellKey(ColumnB(row))
  }

  /** Row n (1-based) puts key k into the index: it is not the title row, it has a
      value somewhere, and its column-B value normalizes to k. */
  predicate Indexed(rows: seq<Row>, n: int, k: string) {
    2 <= n <= |rows| && HasValues(rows[n - 1]) && RowKey(rows[n - 1]) == Some(k)
  }

  /** What the scan takes from each row, in row order: nothing from the title row
      (row 1) or from a row without values, otherwise the row's key, if any. */
  function ScanKeys(rows: seq<Row>): (keys: seq<Option<string>>)
    ensures |keys| == |rows|
  {
    seq(|rows|, i requires 0 <= i < |rows| => if i == 0 || !HasValues(rows[i]) then None else RowKey(rows[i]))
  }

  lemma ScanKeyAt(rows: seq<Row>, i: int)
    requires 0 <= i < |rows|
    ensures ScanKeys(rows)[i] == if i == 0 || !HasValues(rows[i]) then None else RowKey(rows[i])
  {
  }

  /** The scan takes key k from row n exactly when row n is indexed under k. */
  lemma ScanKeysIndexed(rows: seq<Row>)
    ensures forall i, k :: 0 <= i < |rows| ==> (ScanKeys(rows)[i] == Some(k) <==> Indexed(rows, i + 1, k))
  {
  }

  /** The dictionary after the scan has seen the first n keys, each seen key
      overwriting the entry for that key with its row number. */
  function IndexFrom(keys: seq<Option<string>>, n: nat): map<string, int>
    requires n <= |keys|
  {
    if n == 0 then map[]
    else
      var m := IndexFrom(keys, n - 1);
      match keys[n - 1]
      case None => m
      case Some(k) => m[k := n]
  }

  /** One more scanned row: its key, if any, now maps to its row number. */
  lemma IndexFromNext(keys: seq<Option<string>>, i: nat)
    requires i < |keys|
    ensures IndexFrom(keys, i + 1) ==
      if keys[i].Some? then IndexFrom(keys, i)[keys[i].value := i + 1] else IndexFrom(keys, i)
  {
  }

  function IndexOf(rows: seq<Row>): map<string, int> {
    IndexFrom(ScanKeys(rows), |rows|)
  }

  lemma {:induction false} IndexFromSound(keys: seq<Option<string>>, n: nat, k: string)
    requires n <= |keys|
    requires k in IndexFrom(keys, n)
    ensures 1 <= IndexFrom(keys, n)[k] <= n && keys[IndexFrom(keys, n)[k] - 1] == Some(k)
    ensures forall i :: IndexFrom(keys, n)[k] <= i < n ==> keys[i] != Some(k)
  {
    if keys[n - 1] != Some(k) {
      IndexFromSound(keys, n - 1, k);
    }
  }

  lemma {:induction false} IndexFromComplete(keys: seq<Option<string>>, n: nat, m: nat, k: string)
    requires 1 <= m <= n <= |keys|
    requires keys[m - 1] == Some(k)
    ensures k in IndexFrom(keys, n)
  {
    if m < n {
      IndexFromComplete(keys, n - 1, m, k);
    }
  }

  /** The index holds key k exactly when some row other than the title row is
      indexed under k, and then it maps k to the LAST such row: for duplicate
      identifiers the highest row scanned wins. */
  lemma IndexLastWriteWins(rows: seq<Row>, k: string)
    ensures k in IndexOf(rows) <==> exists n :: Indexed(rows, n, k)
    ensures k in IndexOf(rows) ==>
      && Indexed(rows, IndexOf(rows)[k], k)
      && forall n :: Indexed(rows, n, k) ==> n <= IndexOf(rows)[k]
  {
    var keys := ScanKeys(rows);
    ScanKeysIndexed(rows);
    if k in IndexOf(rows) {
      IndexFromSound(keys, |rows|, k);
      var t := IndexOf(rows)[k];
      assert keys[t - 1] == Some(k);
      forall n | Indexed(rows, n, k) ensures n <= t {
        assert keys[n - 1] == Some(k);
      }
    }
    forall n | Indexed(rows, n, k) ensures k in IndexOf(rows) {
      assert keys[n - 1] == Some(k);
      IndexFromComplete(keys, |rows|, n, k);
    }
  }

  /** Every target is an existing row below the title row, and every key is in
      normal form (trimmed, no lower-case ASCII letter). */
  lemma IndexTargetsInRange(rows: seq<Row>)
    ensures forall k :: k in IndexOf(rows) ==> 2 <= IndexOf(rows)[k] <= |rows|
    ensures forall k :: k in IndexOf(rows) ==> JsText.IsNormalized(k)
  {
    forall k | k in IndexOf(rows)
      ensures 2 <= IndexOf(rows)[k] <= |rows| && JsText.IsNormalized(k)
    {
      IndexLastWriteWins(rows, k);
    }
  }
}
