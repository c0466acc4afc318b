/** The record construction of `readSheet`: the fetched grid of a tab becomes
    one object per data row, keyed by the header row, cut to `limit`. */
module SheetRead {
  import opened SheetCells

  /** The default `limit` of `readSheet`. */
  const DEFAULT_LIMIT: int := 200

  /** What the range read of a whole tab returns: the API leaves out the
      `values` array when the tab holds no rows. */
  function FetchAll(rows: Grid): Option<Grid> {
    if |rows| == 0 then None else Some(rows)
  }

  /** The property names a header row defines. */
  ghost function HeaderKeys(header: seq<Cell>): set<string> {
    set h | h in header :: KeyOf(h)
  }

  /** Column i is the last column of the header with its name. */
  ghost predicate LastOfName(header: seq<Cell>, i: nat)
    requires i < |header|
  {
    forall j :: i < j < |header| ==> KeyOf(header[j]) != KeyOf(header[i])
  }

  /** No two columns of the header share a name. */
  ghost predicate DistinctNames(header: seq<Cell>) {
    forall i, j :: 0 <= i < j < |header| ==> KeyOf(header[i]) != KeyOf(header[j])
  }

  /** The object built from one data row: starting from `{}`, each header
      column in turn assigns the row's cell at its position to its name. */
  function RecordOf(header: seq<Cell>, row: seq<Cell>): (obj: Record)
    ensures obj.Keys == HeaderKeys(header)
    decreases |header|
  {
    if |header| == 0 then map[]
    else
      var n := |header| - 1;
      assert header == header[..n] + [header[n]];
      RecordOf(header[..n], row)[KeyOf(header[n]) := CellAt(row, n)]
  }

  /** The `forEach` loop that fills one record, assignment by assignment. */
  method BuildRecord(header: seq<Cell>, row: seq<Cell>) returns (obj: Record)
    ensures obj == RecordOf(header, row)
  {
    obj := map[];
    var i := 0;
    while i < |header|
      invariant 0 <= i <= |header|
      invariant obj == RecordOf(header[..i], row)
    {
      assert header[..i + 1][..i] == header[..i];
      obj := obj[KeyOf(header[i]) := CellAt(row, i)];
      i := i + 1;
    }
    assert header[..i] == header;
  }

  /** The name of the last column with a given name holds that column's cell;
      an earlier column with the same name is overwritten. */
  lemma {:induction false} RecordOfLastWins(header: seq<Cell>, row: seq<Cell>, i: nat)
    requires i < |header| && LastOfName(header, i)
    ensures RecordOf(header, row)[KeyOf(header[i])] == CellAt(row, i)
    decreases |header|
  {
    var n := |header| - 1;
    if i < n {
      LastOfNamePrefix(header, i);
      RecordOfLastWins(header[..n], row, i);
    }
  }

  /** Dropping the header's final column keeps an earlier last column last,
      and its name differs from the dropped column's. */
  lemma LastOfNamePrefix(header: seq<Cell>, i: nat)
    requires i < |header| - 1 && LastOfName(header, i)
    ensures header[..|header| - 1][i] == header[i]
    ensures KeyOf(header[|header| - 1]) != KeyOf(header[i])
    ensures LastOfName(header[..|header| - 1], i)
  {
  }

  /** Every property of a record comes from some column: the last column with
      that name, whose cell it holds. */
  lemma {:induction false} RecordOfFrom(header: seq<Cell>, row: seq<Cell>, k: string)
    requires k in RecordOf(header, row)
    ensures exists i :: 0 <= i < |header| && KeyOf(header[i]) == k && LastOfName(header, i)
                        && RecordOf(header, row)[k] == CellAt(row, i)
    decreases |header|
  {
    var n := |header| - 1;
    if KeyOf(header[n]) == k {
      RecordOfLastWins(header, row, n);
    } else {
      RecordOfFrom(header[..n], row, k);
      var i :| 0 <= i < n && KeyOf(header[..n][i]) == k && LastOfName(header[..n], i)
               && RecordOf(header[..n], row)[k] == CellAt(row, i);
      LastOfNameExtend(header, i);
    }
  }

  /** A column that is last with its name before the final column, and whose
      name differs from the final column's, is last in the whole header. */
  lemma LastOfNameExtend(header: seq<Cell>, i: nat)
    requires i < |header| - 1 && LastOfName(header[..|header| - 1], i)
    requires KeyOf(header[|header| - 1]) != KeyOf(header[..|header| - 1][i])
    ensures header[..|header| - 1][i] == header[i]
    ensures LastOfName(header, i)
  {
  }

  /** With no repeated names, column i's name holds the cell at position i of
      the row, or `undefined` when the row is shorter than the header. */
  lemma RecordOfDistinct(header: seq<Cell>, row: seq<Cell>, i: nat)
    requires DistinctNames(header) && i < |header|
    ensures RecordOf(header, row)[KeyOf(header[i])] == CellAt(row, i)
    ensures |row| <= i ==> RecordOf(header, row)[KeyOf(header[i])] == Undefined
  {
    RecordOfLastWins(header, row, i);
  }

  /** Cells to the right of the header's last column are dropped. */
  lemma {:induction false} RecordOfIgnoresExtraCells(header: seq<Cell>, row: seq<Cell>, extra: seq<Cell>)
    requires |header| <= |row|
    ensures RecordOf(header, row + extra) == RecordOf(header, row)
    decreases |header|
  {
    if |header| > 0 {
      var n := |header| - 1;
      RecordOfIgnoresExtraCells(header[..n], row, extra);
      assert CellAt(row + extra, n) == CellAt(row, n);
    }
  }

  /** A numeric header cell and a text header cell holding its decimal form
      name the same property, so the later column's cell is the only value
      kept for both. */
  lemma NumberAndTextShareKey(n: int, row: seq<Cell>)
    ensures RecordOf([Num(n), Str(KeyOf(Num(n)))], row) == map[KeyOf(Num(n)) := CellAt(row, 1)]
  {
    var h := [Num(n), Str(KeyOf(Num(n)))];
    assert h[..1] == [Num(n)];
    assert [Num(n)][..0] == [];
  }

  /** The records of a fetched range before `limit` applies: one per row
      after the header, in sheet order. */
  function AllRecords(values: Option<Grid>): (data: seq<Record>)
    ensures values.None? || values == Some([]) ==> data == []
    ensures values.Some? && |values.value| > 0 ==> |data| == |values.value| - 1
    ensures forall k :: 0 <= k < |data| ==>
              values.Some? && k + 1 < |values.value|
              && data[k] == RecordOf(values.value[0], values.value[k + 1])
  {
    match values
    case None => []
    case Some(rows) =>
      if |rows| == 0 then []
      else seq(|rows| - 1, k requires 0 <= k < |rows| - 1 => RecordOf(rows[0], rows[k + 1]))
  }

  /** The end index `Array.prototype.slice(0, end)` uses on an array of
      length n: a negative end counts back from the array's end. */
  function SliceEnd(n: nat, end: int): (e: nat)
    ensures e <= n
    ensures 0 <= end ==> e == Min(n, end)
    ensures end < 0 ==> e == Max(0, n + end)
  {
    if end < 0 then (if n + end < 0 then 0 else n + end)
    else if end < n then end
    else n
  }

  /** The value `readSheet` resolves to for a fetched range and a limit. */
  function ReadRecords(values: Option<Grid>, limit: int): (data: seq<Record>)
    ensures |data| <= |AllRecords(values)|
    ensures data == AllRecords(values)[..|data|]
    ensures 0 <= limit ==> |data| == Min(|AllRecords(values)|, limit)
    ensures limit < 0 ==> |data| == Max(0, |AllRecords(values)| + limit)
  {
    var all := AllRecords(values);
    all[..SliceEnd(|all|, limit)]
  }

  function Min(a: int, b: int): int {
    if a < b then a else b
  }

  function Max(a: int, b: int): int {
    if a < b then b else a
  }

  /** An empty tab, or a read that returns no `values`, gives no records. */
  lemma EmptyTabNoRecords(rows: Grid, limit: int)
    requires |rows| == 0
    ensures ReadRecords(FetchAll(rows), limit) == []
    ensures ReadRecords(Some(rows), limit) == []
  {
  }

  /** A tab holding only its header row gives no records. */
  lemma HeaderOnlyNoRecords(header: seq<Cell>, limit: int)
    ensures ReadRecords(FetchAll([header]), limit) == []
  {
  }

  /** The field a record returned by `readSheet` holds: record k comes from
      sheet row k + 1, and the name of header column i holds that row's cell
      i when column i is the last with its name. */
  lemma ReadRecordsField(rows: Grid, limit: int, k: nat, i: nat)
    requires k < |ReadRecords(FetchAll(rows), limit)|
    requires |rows| > 0 && i < |rows[0]| && LastOfName(rows[0], i)
    ensures k + 1 < |rows|
    ensures ReadRecords(FetchAll(rows), limit)[k][KeyOf(rows[0][i])] == CellAt(rows[k + 1], i)
  {
    RecordOfLastWins(rows[0], rows[k + 1], i);
  }

  /** A smaller non-negative limit gives a prefix of what a larger one gives. */
  lemma ReadRecordsMonotone(values: Option<Grid>, small: int, large: int)
    requires 0 <= small <= large
    ensures ReadRecords(values, small) == ReadRecords(values, large)[..|ReadRecords(values, small)|]
  {
  }
}
