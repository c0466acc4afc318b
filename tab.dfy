/** A tab of the remote spreadsheet, seen through the three range calls the
    code makes on it, and the two operations the code exports. */
module SheetTab {
  import opened SheetCells
  import opened SheetRead
  import opened SheetAppend

  /** The acknowledgement `appendRow` resolves to. */
  datatype Ack = Ack(ok: bool)

  /** One tab: the rows of columns A to Z as the remote store holds them. */
  class Tab {
    var rows: Grid

    constructor (rows: Grid)
      ensures this.rows == rows
    {
      this.rows := rows;
    }

    /** `readSheet`: fetch the whole tab, build one record per row after the
        header (the `map` over the rows), and cut the list to `limit`. */
    method ReadSheet(limit: int) returns (data: seq<Record>)
      ensures data == ReadRecords(FetchAll(rows), limit)
      ensures |data| < |rows| || (rows == [] && data == [])
      ensures 0 <= limit ==> |data| <= limit
    {
      var values := FetchAll(rows);
      if values.None? || |values.value| == 0 {
        return [];
      }
      var fetched := values.value;
      var header := fetched[0];
      var all: seq<Record> := [];
      var k := 1;
      while k < |fetched|
        invariant 1 <= k <= |fetched|
        invariant all == AllRecords(values)[..k - 1]
      {
        var obj := BuildRecord(header, fetched[k]);
        all := all + [obj];
        k := k + 1;
      }
      data := all[..SliceEnd(|all|, limit)];
    }

    /** `readSheet(sheetName)` with the default limit of 200 records, as the
        per-category endpoints call it. */
    method ReadSheetDefault() returns (data: seq<Record>)
      ensures data == ReadRecords(FetchAll(rows), DEFAULT_LIMIT)
      ensures |data| <= 200
    {
      data := ReadSheet(DEFAULT_LIMIT);
    }

    /** The read of range A1:Z1: the header row, or no header. */
    method FetchHeader() returns (header: seq<Cell>)
      ensures |rows| > 0 ==> header == rows[0]
      ensures |rows| == 0 ==> header == []
    {
      header := HeaderOf(FetchFirstRow(rows));
    }

    /** The write of `[columns]` at A1 on a tab whose first row is empty. */
    method UpdateHeader(columns: seq<Cell>)
      requires |rows| == 0 || rows[0] == []
      modifies this
      ensures rows == WithHeader(old(rows), columns)
    {
      rows := WithHeader(rows, columns);
    }

    /** The append with row insertion: the values land after the last row. */
    method AppendValues(values: seq<Cell>)
      modifies this
      ensures rows == old(rows) + [values]
    {
      rows := rows + [values];
    }

    /** `appendRow`: read the header, choose the columns, build the row, write
        the default header when there was none, then append the row. */
    method AppendRow(rowObj: map<string, Cell>, now: int, isoDate: string) returns (res: Ack)
      modifies this
      ensures res.ok
      ensures rows == AppendedRows(old(rows), rowObj, now, isoDate)
      ensures |old(rows)| > 0 && old(rows)[0] != [] ==> rows[..|old(rows)|] == old(rows)
      ensures |old(rows)| == 0 || old(rows)[0] == [] ==> rows[0] == DEFAULT_COLUMNS
      ensures |rows| == if |old(rows)| == 0 then 2 else |old(rows)| + 1
    {
      var header := FetchHeader();
      var columns := Columns(header);
      var values := RowFor(columns, rowObj, now, isoDate);
      if |header| == 0 {
        UpdateHeader(columns);
      }
      AppendValues(values);
      res := Ack(true);
    }
  }
}
