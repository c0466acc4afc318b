# Sheet-backed records: a Dafny model of `sheet.js`

The backend serves a spreadsheet as a makeshift database. Each tab is a table:
row 0 is the header that names the columns, and every later row is one record.
`sheet.js` has two operations over a tab:

- `readSheet(sheetName, limit)` fetches the tab (columns A to Z). It treats the
  first row as the header and turns each later row into a JavaScript object: a
  `forEach` over the header assigns `obj[header[i]] = row[i]`. The resulting
  list is then cut with `slice(0, limit)`.
- `appendRow(sheetName, rowObj)` reads the tab's first row. It aligns a new row
  to that header, or to the default header `id, category, title, content, date`
  when the first row is empty. An `id` column gets the current timestamp and a
  `date` column gets the current ISO date text. Every other column gets
  `rowObj[column] ?? ""`. The default header is written to row 1 only when the
  tab had none. The row is then appended after the tab's last row.

The model has four modules:

- `SheetCells` (`cells.dfy`) holds cell values. They are the values the
  spreadsheet API delivers, plus JavaScript's `undefined` and `null`. Records
  are `map<string, Cell>`. `KeyOf` is the ToString conversion JavaScript applies
  when a header cell is used as a property name. Numbers are written in decimal,
  so the number `1` and the text `"1"` name the same property.
- `SheetRead` (`read.dfy`) holds the pure transform of `readSheet`. `RecordOf`
  is the fold the `forEach` performs. `BuildRecord` is that loop itself, proved
  equal to the fold. `AllRecords` maps over the rows and `ReadRecords` applies
  the limit, following the rule of JavaScript's `slice` for negative ends.
- `SheetAppend` (`append.dfy`) holds the column choice, the row values and
  `AppendedRows`. `AppendedRows` is the state of the tab after `appendRow`.
  This module also holds the lemmas that relate appending to reading back.
- `SheetTab` (`tab.dfy`) holds the class `Tab`. Its field `rows` stands for the
  remote tab. `ReadSheet` and `AppendRow` are its methods, and they are proved
  against the functions above. The three remote calls are `values.get`,
  `values.update` and `values.append`. They become reads of `rows`
  (`FetchAll`, `FetchHeader`) and two updates of it (`UpdateHeader`,
  `AppendValues`).

The clock and the date formatter are parameters of `AppendRow`: `now` is the
value of `Date.now()`, and `isoDate` is the text of `toISOString()`.

Two behaviours of the code worth noting:

- A header column past the end of a shorter row maps to `undefined`, not to an
  empty value.
- `??` replaces a property that is null as well as one that is missing. Falsy
  values such as `0`, `false` and `""` are kept.

## Model

| member | source | states |
|---|---|---|
| `SheetCells.DecimalRoundTrip` | sheet.js:49 | the decimal digits of a non-negative number read back as that number |
| `SheetCells.NumberKeyRoundTrip` | sheet.js:49 | the property name of any numeric header cell, negative ones included, reads back as that number when read as a signed decimal integer |
| `SheetCells.NumberKeysInjective` | sheet.js:49 | two numeric header cells name the same record property only when they are equal numbers |
| `SheetCells.KeyOf` | sheet.js:49 | the property name `obj[h]` uses for a header cell: text as is, integers in decimal with a leading minus sign when negative, `true`/`false`, `null`, `undefined`; it carries no contract of its own, and the lemmas `NumberKeySign`, `NumberKeyRoundTrip`, `NumberKeysInjective` and `NumberAndTextShareKey` state its properties |
| `SheetCells.NumberKeySign` | sheet.js:49 | the name of a numeric header cell is non-empty and starts with a minus sign exactly when the number is negative |
| `SheetRead.NumberAndTextShareKey` | sheet.js:49 | for every integer n, a header holding n and then the text of n yields a record with that one property, holding the later column's cell |
| `SheetRead.RecordOf` | sheet.js:48-50 | the properties of a record are exactly the names of the header's columns |
| `SheetRead.BuildRecord` | sheet.js:48-50 | the `forEach` loop of assignments yields exactly the header-order fold `RecordOf` |
| `SheetRead.RecordOfLastWins` | sheet.js:49 | the name of the last column with a given name holds that column's cell, so a repeated name keeps the value of its last column |
| `SheetRead.RecordOfFrom` | sheet.js:49 | every property of a record holds the cell of the last column with that name |
| `SheetRead.RecordOfDistinct` | sheet.js:49 | with distinct names, column i's name holds row cell i, or `undefined` when the row is shorter than the header |
| `SheetRead.RecordOfIgnoresExtraCells` | sheet.js:49 | cells to the right of the header's last column do not affect the record |
| `SheetRead.AllRecords` | sheet.js:42-51 | a missing or empty `values` gives no records; otherwise there is one record per row after the header, and record k is built from row k + 1 |
| `SheetRead.SliceEnd` | sheet.js:53 | the end index `slice(0, end)` uses is never past the array's end: min(n, end) for end >= 0, and max(0, n + end) for a negative end |
| `SheetRead.ReadRecords` | sheet.js:53 | the result is a prefix of all records, of length min(count, limit) for limit >= 0 and of length max(0, count + limit) for a negative limit |
| `SheetRead.EmptyTabNoRecords` | sheet.js:42-43 | an empty tab, or a read without `values`, yields no records |
| `SheetRead.HeaderOnlyNoRecords` | sheet.js:46-47 | a tab holding only its header row yields no records |
| `SheetRead.ReadRecordsField` | sheet.js:46-53 | in returned record k, the name of header column i (last with its name) holds cell i of sheet row k + 1 |
| `SheetRead.ReadRecordsMonotone` | sheet.js:53 | for limits 0 <= a <= b, the records for a are a prefix of the records for b |
| `SheetAppend.Columns` | sheet.js:68-71 | the columns are never empty: the header when it is non-empty, the default five columns otherwise |
| `SheetAppend.Given` | sheet.js:77 | `rowObj[key] ?? ""` is never null or undefined, keeps every value of the object that is not null or undefined, and otherwise is `""` |
| `SheetAppend.ValueFor` | sheet.js:74-78 | the value for one column is never null or undefined: the timestamp for `id`, the date text for `date`, and for any other column the object's value whenever that value is not null or undefined, and `""` otherwise |
| `SheetAppend.GivenKeepsFalsyValues` | sheet.js:77 | `0`, `false` and `""` are kept; only a missing, null or undefined property becomes `""` |
| `SheetAppend.RowFor` | sheet.js:74-78 | the row has one value per column, in column order: the timestamp under `id`, the date text under `date`, the object's value or `""` elsewhere; no value is null or undefined |
| `SheetAppend.ColumnsUsed` | sheet.js:65-71 | the columns are row 0 when it is non-empty and the default five columns otherwise, and they are never empty |
| `SheetAppend.AppendedRows` | sheet.js:81-97 | the tab after `appendRow`: row 0 is the (non-empty) column list the row was built for, the new last row has exactly as many values as that header, every row after the header is kept in place, and the tab grows by one row (by two when it was empty) |
| `SheetAppend.AppendKeepsHeader` | sheet.js:81-97 | on a tab with a header, the tab afterwards is the old tab followed by exactly one row aligned to that header |
| `SheetAppend.AppendInstallsHeader` | sheet.js:68-97 | on a tab without a header, row 0 becomes the default columns, later rows are kept, and one row aligned to the default columns ends the tab |
| `SheetAppend.RetryDuplicatesRow` | sheet.js:56-99 | repeating a call with the same inputs appends the same row again and does not rewrite the header |
| `SheetAppend.ReadAfterAppend` | sheet.js:91-97 | reading the tab after the append gives the prepared tab's records followed by the record of the new row |
| `SheetAppend.DefaultHeaderRecord` | sheet.js:71 | under the default header, a five-cell row becomes the record with properties `id`, `category`, `title`, `content` and `date` holding the cells in order |
| `SheetAppend.ReadBackOnNewTab` | sheet.js:68-97 | after an append to a tab without a header, the last record read back holds the timestamp under `id`, the date text under `date`, and the object's values (or `""`) under `category`, `title` and `content` |
| `SheetAppend.ReadBackOnExistingHeader` | sheet.js:74-97 | after an append under an existing header, the record count equals the old row count, and the last record holds under each column's name the value built for that column |
| `SheetTab.Tab.ReadSheet` | sheet.js:33-54 | the records of the fetched tab cut to the limit: fewer records than rows, none for an empty tab, and at most `limit` of them |
| `SheetTab.Tab.ReadSheetDefault` | sheet.js:33 | `readSheet` without a limit uses 200: the records of the tab cut to at most 200 |
| `SheetTab.Tab.FetchHeader` | sheet.js:60-65 | the header read is row 0, or empty for an empty tab |
| `SheetTab.Tab.UpdateHeader` | sheet.js:81-88 | on a tab whose first row is empty (the only case the code writes a header), the header write puts the columns into row 0, or creates row 0 on an empty tab |
| `SheetTab.Tab.AppendValues` | sheet.js:91-97 | the append adds the row after the last row and changes nothing else |
| `SheetTab.Tab.AppendRow` | sheet.js:56-99 | resolves to `{ok: true}`; an existing header and every existing row are untouched; a missing header becomes the default columns; exactly one data row is added |

## Left out

- `getSheetsClient` (credentials from the environment, JSON parsing, JWT and client construction) is configuration and library code. All of `server.js` (routing, CORS, JSON responses, query defaults) is HTTP plumbing and is not part of this model.
- Remote failures are left out: missing credentials, an unknown tab and network errors all propagate as exceptions. In the model every remote call succeeds.
- `async`/`await` and concurrent calls are left out. With no coordination in the code, two appends can interleave in the remote store. The model has one caller.
- The remote calls are modelled abstractly. The model's `rows` are the tab's columns A to Z; cells beyond column Z are left out. The append with row insertion is assumed to place the row right after the last row of `rows`. That is an assumption about the remote store, not something this code guarantees.
- `SheetTab.Tab.FetchHeader`: the header read in `appendRow` asks for formatted values, so a numeric header cell arrives as display text. The model uses the stored cell.
- `SheetCells.KeyOf` and `SheetCells.NumberKeyRoundTrip` match JavaScript only for integers of magnitude up to 2^53. JavaScript holds a number as a double. Above 2^53 not every integer exists, and its ToString writes the shortest digits that read back to the same double, padded with zeros. The header cell 2^60, for example, names the property "1152921504606847000", where `KeyOf` writes all the digits of the exact integer. Fractional numbers, and numbers of 10^21 or more (which JavaScript writes with an exponent), are not modelled either: cells are integers. `NumberKeysInjective` and `NumberAndTextShareKey` also hold of JavaScript's conversion.
- `SheetRead.ReadRecords`: the limit is an integer. A `NaN`, infinite or fractional limit is not modelled. `slice` treats `NaN` as 0, `Infinity` as the array's length, `-Infinity` as 0 (giving `[]`), and a fraction as the limit truncated toward zero.
- `SheetAppend.RowFor`: inherited object properties are left out. A column named after a property every JavaScript object has, such as `constructor`, would read a function there; the model treats such a property as missing.
- `SheetRead.RecordOf`: a header cell `"__proto__"` is modelled as an ordinary property. In JavaScript, `obj["__proto__"] = value` runs the prototype setter of `Object.prototype`, which ignores a text, number, boolean or `undefined` value, so no such property is created. The model's record does hold it.
- `SheetTab.Tab.AppendRow`: `Date.now()` and `new Date()` are evaluated once per `id` or `date` column. A header with two `id` columns can therefore receive two different timestamps. The model passes one `now` and one `isoDate` per call, so every such column gets the same value.
- `SheetAppend.ReadAfterAppend`, `SheetAppend.ReadBackOnExistingHeader` and `SheetAppend.ReadBackOnNewTab` assume the store returns exactly the values written, `""` cells included. The values API stores a written `""` as an empty cell and leaves trailing empty cells out of a read. So a built value `""` in the last columns reads back as `undefined`, where these lemmas give `""`.
- The order in which a record's properties are enumerated, which shows in the JSON output, is not modelled: records are maps.
