/** The row construction of `appendRow`: which columns a new row has, what
    value each column gets, and what the tab looks like once the header write
    (when needed) and the append are done. */
module SheetAppend {
  import opened SheetCells
  import opened SheetRead

  /** The header installed on a tab that has none. */
  const DEFAULT_COLUMNS: seq<Cell> := [Str("id"), Str("category"), Str("title"), Str("content"), Str("date")]

  /** What the read of the tab's first row returns: the API leaves out the
      `values` array when that row is empty. */
  function FetchFirstRow(rows: Grid): Option<Grid> {
    if |rows| == 0 || rows[0] == [] then None else Some([rows[0]])
  }

  /** `(values && values[0]) || []`: the first fetched row, or no header. */
  function HeaderOf(values: Option<Grid>): seq<Cell> {
    match values
    case None => []
    case Some(fetched) => if |fetched| == 0 then [] else fetched[0]
  }

  /** The existing header, or the default columns when it is empty. */
  function Columns(header: seq<Cell>): (columns: seq<Cell>)
    ensures |columns| > 0
    ensures |header| > 0 ==> columns == header
    ensures |header| == 0 ==> columns == DEFAULT_COLUMNS
  {
    if |header| > 0 then header else DEFAULT_COLUMNS
  }

  /** `rowObj[key]`: the property, or `undefined` when the object lacks it. */
  function Lookup(rowObj: map<string, Cell>, key: string): Cell {
    if key in rowObj then rowObj[key] else Undefined
  }

  /** `rowObj[key] ?? ""`: only a null or undefined property becomes the
      empty text; `0`, `false` and `""` are kept. */
  function Given(rowObj: map<string, Cell>, key: string): (v: Cell)
    ensures !v.Nullish()
    ensures key in rowObj && !rowObj[key].Nullish() ==> v == rowObj[key]
    ensures v != Lookup(rowObj, key) ==> v == Str("")
  {
    var v := Lookup(rowObj, key);
    if v.Nullish() then Str("") else v
  }

  /** The falsy values `0`, `false` and `""` survive `??`; only null and
      undefined, and a missing property, become the empty text. */
  lemma GivenKeepsFalsyValues(rowObj: map<string, Cell>, key: string)
    ensures key in rowObj && rowObj[key] in {Num(0), Bool(false), Str("")} ==> Given(rowObj, key) == rowObj[key]
    ensures key !in rowObj || rowObj[key].Nullish() ==> Given(rowObj, key) == Str("")
  {
  }

  /** The value the `columns.map` callback gives column c: the timestamp for
      an `id` column, the ISO date text for a `date` column, otherwise the
      object's property of that name. */
  function ValueFor(c: Cell, rowObj: map<string, Cell>, now: int, isoDate: string): (v: Cell)
    ensures !v.Nullish()
    ensures c.Str? && c.s == "id" ==> v == Num(now)
    ensures c.Str? && c.s == "date" ==> v == Str(isoDate)
    ensures c != Str("id") && c != Str("date") ==>
              (KeyOf(c) in rowObj && !rowObj[KeyOf(c)].Nullish() ==> v == rowObj[KeyOf(c)])
    ensures c != Str("id") && c != Str("date") && Lookup(rowObj, KeyOf(c)).Nullish() ==> v == Str("")
  {
    if c == Str("id") then Num(now)
    else if c == Str("date") then Str(isoDate)
    else Given(rowObj, KeyOf(c))
  }

  /** The new row: one value per column, in column order. */
  function RowFor(columns: seq<Cell>, rowObj: map<string, Cell>, now: int, isoDate: string): (values: seq<Cell>)
    ensures |values| == |columns|
    ensures forall i :: 0 <= i < |columns| && columns[i] == Str("id") ==> values[i] == Num(now)
    ensures forall i :: 0 <= i < |columns| && columns[i] == Str("date") ==> values[i] == Str(isoDate)
    ensures forall i :: 0 <= i < |columns| && columns[i] != Str("id") && columns[i] != Str("date") ==>
              if Lookup(rowObj, KeyOf(columns[i])).Nullish() then values[i] == Str("")
              else values[i] == Lookup(rowObj, KeyOf(columns[i]))
    ensures forall i :: 0 <= i < |values| ==> !values[i].Nullish()
  {
    seq(|columns|, i requires 0 <= i < |columns| => ValueFor(columns[i], rowObj, now, isoDate))
  }

  /** The tab after the header write at A1: row 0 becomes the given columns. */
  function WithHeader(rows: Grid, columns: seq<Cell>): Grid {
    if |rows| == 0 then [columns] else [columns] + rows[1..]
  }

  /** The tab just before the append: the default header installed when the
      tab had none, the tab as it was otherwise. */
  function Prepared(rows: Grid): Grid {
    var header := HeaderOf(FetchFirstRow(rows));
    if |header| == 0 then WithHeader(rows, Columns(header)) else rows
  }

  /** The tab after `appendRow`: the new row follows the last row of the
      prepared tab. */
  function AppendedRows(rows: Grid, rowObj: map<string, Cell>, now: int, isoDate: string): (after: Grid)
    ensures |after| == if |rows| == 0 then 2 else |rows| + 1
    ensures after[0] == Columns(HeaderOf(FetchFirstRow(rows))) && after[0] != []
    ensures |after[|after| - 1]| == |after[0]|
    ensures forall k :: 1 <= k < |rows| ==> after[k] == rows[k]
  {
    var columns := Columns(HeaderOf(FetchFirstRow(rows)));
    Prepared(rows) + [RowFor(columns, rowObj, now, isoDate)]
  }

  /** The header `appendRow` aligns its row to: row 0 when it is non-empty,
      the default columns otherwise; never empty. */
  lemma ColumnsUsed(rows: Grid)
    ensures |rows| > 0 && rows[0] != [] ==> Columns(HeaderOf(FetchFirstRow(rows))) == rows[0]
    ensures |rows| == 0 || rows[0] == [] ==> Columns(HeaderOf(FetchFirstRow(rows))) == DEFAULT_COLUMNS
    ensures |Columns(HeaderOf(FetchFirstRow(rows)))| > 0
  {
  }

  /** On a tab with a header, `appendRow` leaves every existing row, the
      header included, as it was, and adds one row aligned to that header. */
  lemma AppendKeepsHeader(rows: Grid, rowObj: map<string, Cell>, now: int, isoDate: string)
    requires |rows| > 0 && rows[0] != []
    ensures AppendedRows(rows, rowObj, now, isoDate) == rows + [RowFor(rows[0], rowObj, now, isoDate)]
  {
  }

  /** On a tab without a header, `appendRow` writes the default header into
      row 0, keeps every later row, and adds one row aligned to the default
      header. */
  lemma AppendInstallsHeader(rows: Grid, rowObj: map<string, Cell>, now: int, isoDate: string)
    requires |rows| == 0 || rows[0] == []
    ensures var after := AppendedRows(rows, rowObj, now, isoDate);
            && |after| == (if |rows| == 0 then 2 else |rows| + 1)
            && after[0] == DEFAULT_COLUMNS
            && (forall k :: 1 <= k < |rows| ==> after[k] == rows[k])
            && after[|after| - 1] == RowFor(DEFAULT_COLUMNS, rowObj, now, isoDate)
  {
  }

  /** There is no idempotency guard: repeating a call with the same object,
      timestamp and date adds the same row a second time, and the header is
      written at most once. */
  lemma RetryDuplicatesRow(rows: Grid, rowObj: map<string, Cell>, now: int, isoDate: string)
    ensures var once := AppendedRows(rows, rowObj, now, isoDate);
            AppendedRows(once, rowObj, now, isoDate) == once + [once[|once| - 1]]
  {
  }

  /** Reading the tab back after `appendRow` gives the records of the
      prepared tab followed by one record built from the new row. */
  lemma ReadAfterAppend(rows: Grid, rowObj: map<string, Cell>, now: int, isoDate: string)
    ensures var columns := Columns(HeaderOf(FetchFirstRow(rows)));
            AllRecords(FetchAll(AppendedRows(rows, rowObj, now, isoDate)))
              == AllRecords(FetchAll(Prepared(rows))) + [RecordOf(columns, RowFor(columns, rowObj, now, isoDate))]
  {
  }

  /** The record a five-cell row becomes under the default header. */
  lemma DefaultHeaderRecord(values: seq<Cell>)
    requires |values| == 5
    ensures RecordOf(DEFAULT_COLUMNS, values)
              == map["id" := values[0], "category" := values[1], "title" := values[2],
                     "content" := values[3], "date" := values[4]]
  {
    var h1 := [Str("id")];
    var h2 := h1 + [Str("category")];
    var h3 := h2 + [Str("title")];
    var h4 := h3 + [Str("content")];
    assert h1[..0] == [] && h2[..1] == h1 && h3[..2] == h2 && h4[..3] == h3 && DEFAULT_COLUMNS[..4] == h4;
    var r1 := RecordOf(h1, values);
    assert r1 == map["id" := values[0]];
    var r2 := RecordOf(h2, values);
    assert r2 == r1["category" := values[1]];
    var r3 := RecordOf(h3, values);
    assert r3 == r2["title" := values[2]];
    var r4 := RecordOf(h4, values);
    assert r4 == r3["content" := values[3]];
    assert RecordOf(DEFAULT_COLUMNS, values) == r4["date" := values[4]];
  }

  /** The record read back for a row appended to a tab without a header:
      `id` holds the timestamp, `date` the ISO date text, and `category`,
      `title` and `content` the object's values, null or undefined ones
      replaced by the empty text. */
  lemma ReadBackOnNewTab(rows: Grid, rowObj: map<string, Cell>, now: int, isoDate: string)
    requires |rows| == 0 || rows[0] == []
    ensures var data := AllRecords(FetchAll(AppendedRows(rows, rowObj, now, isoDate)));
            && |data| > 0
            && data[|data| - 1]
                 == map["id" := Num(now), "category" := Given(rowObj, "category"),
                        "title" := Given(rowObj, "title"), "content" := Given(rowObj, "content"),
                        "date" := Str(isoDate)]
  {
    var columns := Columns(HeaderOf(FetchFirstRow(rows)));
    assert columns == DEFAULT_COLUMNS;
    var row := RowFor(DEFAULT_COLUMNS, rowObj, now, isoDate);
    assert row == [Num(now), Given(rowObj, "category"), Given(rowObj, "title"),
                   Given(rowObj, "content"), Str(isoDate)];
    DefaultHeaderRecord(row);
    ReadAfterAppend(rows, rowObj, now, isoDate);
  }

  /** The record read back for a row appended under an existing header: the
      name of every column that is last with its name holds the value
      `appendRow` built for that column. */
  lemma ReadBackOnExistingHeader(rows: Grid, rowObj: map<string, Cell>, now: int, isoDate: string, i: nat)
    requires |rows| > 0 && i < |rows[0]| && LastOfName(rows[0], i)
    ensures var data := AllRecords(FetchAll(AppendedRows(rows, rowObj, now, isoDate)));
            && |data| == |rows|
            && data[|data| - 1][KeyOf(rows[0][i])] == ValueFor(rows[0][i], rowObj, now, isoDate)
  {
    ReadAfterAppend(rows, rowObj, now, isoDate);
    RecordOfLastWins(rows[0], RowFor(rows[0], rowObj, now, isoDate), i);
  }
}
