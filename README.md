# Spreadsheet mirror and submission reconciler

This project models the core of a small service that takes HTTP form
submissions and appends them as rows of one sheet of a remote spreadsheet
document. The core has two parts:

- **The mirror** (`SpreadsheetMirror.Spreadsheet`, after the `Spreadsheet` class
  of `src/structs/spreadsheet.ts`). It caches one sheet of a remote document:
  the fetched document, the sheet whose title matches the configured one, that
  sheet's rows, and the header row (row 0). `Update` re-fetches and replaces
  every cached field. It fails when the fetch fails or when no sheet has the
  configured title. `Write` turns a cell address into a one-cell range,
  sends one cell update, then calls `Update` again. `Empty` is the `empty`
  getter.
- **The reconciler** (`PostHandler.Submit`, the body of the `/users` POST
  handler in `src/index.ts`). It handles a submission of key/value pairs in
  three phases, each a loop of single-cell writes:
  1. On an empty sheet, it writes the keys as the header row (`WriteHeaderRow`).
  2. It appends each key that is not a header yet, just past the last header
     (`AppendMissingHeaders`).
  3. It counts the rows once. It then writes every value into that new row,
     under the first header equal to its key (`WriteValues`).

The remote service is an in-memory stand-in, `SheetsService.FakeSheets`. It
holds documents by id (each an ordered list of sheets with an id, a title and
optional row data) and a request quota. Every request uses one unit of quota.
Once the quota is spent every request fails, which gives the model both
failure paths of the source: an update that is refused, and a fetch that
fails. A cell update grows the grid with empty rows and blank cells until the
addressed cell exists, sets that cell and leaves every other cell alone
(`Grids.SetCell`).

The handler's cell record (`Cells.Cell`, from `src/types/cell.ts`) keeps the
source's naming: `Cell.row` is the position along the header row, so it becomes
the grid column, and `Cell.column` is the data-row number, so it becomes the
grid row. `SpreadsheetMirror.RangeOf` keeps this swap.

The document id and the sheet title are constructor parameters of the mirror.
Errors that make the source log and end the process (`raise`) are failure
outcomes: `FetchFailed` and `SheetNotFound`. `UpdateFailed` is the rejected
update that the source passes back to its caller.

The row count that fixes the target row is taken once, after all header
writes (`src/index.ts:82`), so a non-empty submission on an empty sheet
creates the header row and one data row. Header names stay unique only if
they were unique before the submission: `PostHandler.NewHeadersUnique` has
that as a precondition.

A write changes nothing but the data of the configured sheet.
`SheetsService.OnlySheetChanged` states this: the two states are equal once
that sheet's data is blanked out. `SheetsService.OnlySheetChangedMeans` spells
out what follows: the same documents, the same sheets in the same order, and
every other sheet and document as it was. `Write`, each loop of the handler
and `Submit` promise it, whatever their outcome.

## Model

| member | source | states |
|---|---|---|
| `SpreadsheetMirror.Spreadsheet.constructor` | src/structs/spreadsheet.ts:43-45 | a new mirror has the given client, document id and title, and nothing cached |
| `SpreadsheetMirror.Spreadsheet.Empty` | src/structs/spreadsheet.ts:51-53 | `empty` is true exactly when no rows are cached; in a consistent mirror, exactly when there is no header row |
| `SpreadsheetMirror.Spreadsheet.Update` | src/structs/spreadsheet.ts:60-84 | a failed fetch changes nothing and is fatal; a missing title is fatal after caching the document; otherwise the cache holds the first sheet with the configured title, its rows, and row 0 as headers (absent when there are no rows), with nothing kept from before |
| `SpreadsheetMirror.Spreadsheet.Write` | src/structs/spreadsheet.ts:90-126 | a refused update changes neither the remote nor any cached field; an accepted update gives the configured remote sheet exactly the addressed cell (grid row `cell.column`, grid column `cell.row`) set to the content, and changes no other sheet or document; a successful refresh then leaves the cached document equal to the remote one and the cached rows equal to the remote sheet, with every other cell unchanged; it succeeds exactly when two requests are left |
| `SpreadsheetMirror.RefreshTwice` | src/structs/spreadsheet.ts:63-81 | two successful refreshes with no write between them cache the same rows and headers |
| `SpreadsheetMirror.RangeOf` | src/structs/spreadsheet.ts:95-100 | the range covers exactly one cell, with end = start + 1 on both axes, at grid row `cell.column` and grid column `cell.row` |
| `SpreadsheetMirror.SourceRangeMissesConfiguredSheet` | src/structs/spreadsheet.ts:100-121 | when the configured sheet's id is not 0, an update through the source's range never changes that sheet |
| `SpreadsheetMirror.SourceRangeCounterexample` | src/structs/spreadsheet.ts:100-121 | with sheets "Sheet1" (id 0) and "Users" (id 7), writing the first header for "Users" lands in "Sheet1", and "Users" stays empty |
| `SpreadsheetMirror.RangeOfHitsConfiguredSheet` | src/structs/spreadsheet.ts:95-121 | a range that names the configured sheet's id changes exactly the addressed cell of that sheet, and the sheet keeps its title position |
| `SpreadsheetMirror.RangeOfKeepsOtherSheets` | src/structs/spreadsheet.ts:95-121 | among all documents of the service, the update through the corrected range sets the configured sheet's data to the grown grid and changes nothing else |
| `SheetsService.OnlySheetChangedMeans` | src/structs/spreadsheet.ts:24-27 | two states that differ only in the data of the configured sheet (the sheet the mirror updates) have the same documents, the same layout of that document, the same sheet under the title, and every other sheet and document equal |
| `SheetsService.SheetTitled` | src/structs/spreadsheet.ts:67 | `find` by title returns the first sheet with the configured title, or none exactly when no sheet has it |
| `SheetsService.ApplyUpdate` | src/structs/spreadsheet.ts:105-121 | an `updateCells` request of a string value succeeds exactly for a one-cell range on an existing sheet id; it sets the covered cell, keeps every other cell and every other sheet, and keeps ids and titles |
| `SheetsService.FakeSheets.Get` | src/structs/spreadsheet.ts:63 | a fetch returns the whole document when quota is left and the id exists, and uses one unit of quota |
| `SheetsService.FakeSheets.BatchUpdate` | src/structs/spreadsheet.ts:112-121 | an update request succeeds exactly when quota is left and the update applies; only then does the document change |
| `Grids.FirstWhere` | src/index.ts:87 | the search behind `indexOf` returns the first position whose element satisfies the predicate, or none exactly when no element does |
| `Grids.SetCell` | src/structs/spreadsheet.ts:110-117 | a one-cell write grows the grid to cover the cell, sets that cell, and leaves every other cell and row unchanged |
| `PostHandler.Submit` | src/index.ts:44-88 | an empty submission succeeds with no write and no change; otherwise the submission succeeds exactly when the quota covers two requests per write, and then the cache is consistent, holds `Reconciled` of the old grid and the remote document, and exactly two requests per write are spent; a refused update leaves the cache consistent; whatever the outcome, nothing but the configured sheet's data changes |
| `PostHandler.WriteHeaderRow` | src/index.ts:54-63 | on an empty sheet, key `i` is written at grid row 0, column `i`, so the grid becomes the single header row of the keys; only the configured sheet's data changes |
| `PostHandler.BootstrapStep` | src/index.ts:61-63 | each bootstrap write appends the next key to the header row |
| `PostHandler.AppendMissingHeaders` | src/index.ts:72-77 | the header row becomes the old header row followed by the absent keys in key order; other rows are untouched; only the configured sheet's data changes |
| `PostHandler.AppendHeader` | src/index.ts:73-76 | a key that is already a header writes nothing and changes nothing; otherwise it is written just past the last header, at the cost of one update and one refresh |
| `PostHandler.HeaderStep` | src/index.ts:72-76 | a key is appended at column `headers.length` exactly when it was not among the starting headers; earlier appended keys never change that test |
| `PostHandler.WriteValues` | src/index.ts:82-88 | all values go to the one row counted before the first value write, which becomes the value row of the header row; on success the cached document is the remote one; only the configured sheet's data changes |
| `PostHandler.WriteValue` | src/index.ts:86-88 | one value goes under the first header equal to its key, in the counted row, extending the value row by that one cell |
| `PostHandler.MissingCells` | src/index.ts:72-77 | the appended header cells are exactly the submitted keys absent from the header row, at most one per key |
| `PostHandler.NewHeaders` | src/index.ts:54-77 | after the header writes every key is a header; on an empty sheet the header row is exactly the keys; otherwise the old headers are a prefix and the appended part holds exactly the absent keys |
| `PostHandler.NewHeadersUnique` | src/index.ts:72-77 | with distinct keys and unique old headers, the new header row has no name twice |
| `PostHandler.ColumnOf` | src/index.ts:87 | `indexOf` finds the first header equal to the key; it is found exactly when the key is a header |
| `PostHandler.ValueRowCells` | src/index.ts:86-88 | each value is in its key's header column, and every column that is no key's header is blank |
| `PostHandler.Reconciled` | src/index.ts:54-88 | the reconciled grid has the new header row, keeps every old data row, and has exactly one more data row |
| `PostHandler.SubmissionRow` | src/index.ts:82-88 | every value of the submission is in the last row under the first header equal to its key; every other cell of that row is blank |
| `PostHandler.PhasesCompose` | src/index.ts:54-88 | the grid after the header phases, extended by the value row, is the reconciled grid |
| `PostHandler.BootstrapExample` | src/index.ts:54-88 | from an empty sheet, {name: Alice, age: 30} gives row 0 [name, age] and row 1 [Alice, 30] |
| `PostHandler.AppendExample` | src/index.ts:72-88 | headers [name, age] with one data row and {name: Bob, city: Lyon} give headers [name, age, city] and the row [Bob, blank, Lyon] |

## Left out

- OAuth authorization, the token file and the console prompt (`src/structs/client.ts`): pure I/O. The mirror receives an already authorized client.
- Configuration loading and file paths (`src/structs/config.ts`, `src/util/paths.ts`, `src/types/config.ts`): the document id and sheet title are constructor parameters.
- Logging (`src/structs/logger.ts`, the backup and success log lines at `src/index.ts:49` and `src/index.ts:90`): they do not change the grid.
- `raise` (`src/util/raise.ts`) ends the process. Here it is the failure outcomes `FetchFailed` and `SheetNotFound`, which callers return at once. Nothing is claimed about the state after them.
- `src/util/read.ts` is dead code: it builds a range and sends no request.
- Express, helmet, HTTP status codes and `app.listen`. Concurrent submissions, and their race on new header columns, are not modelled: submissions run one after another.
- Query values that are arrays or nested objects: values are strings. Query keys are distinct, as the keys of an object are.
- Cell values other than strings. The string a cell shows (`effectiveValue`) is taken to be the string written (`userEnteredValue`).
- A row that the service sends without a cell list is the same as an empty row here, so the `headers!` assertion of the handler cannot fail in the model.
- Edits to the document by anyone other than the mirror: `Write` and `Submit` require the cache to match the remote sheet.
- Timeouts and hung requests: every request of the stand-in answers at once.
- PostHandler.Submit: on a failure it states only that the failure is a refused update or a failed fetch, and that the cache still matches the remote after a refused update. It does not say which cells the earlier writes of the submission left behind.
- SpreadsheetMirror.Spreadsheet.Write: it sends the configured sheet's id in the range, unlike the source (see Findings). The source's range is `RangeOf(0, cell)`, since the service reads a missing sheet id as 0.

## Findings

| source | as written | input that shows it | evidently intended | confidence | as-written member | corrected member |
|---|---|---|---|---|---|---|
| src/structs/spreadsheet.ts:100 | the update range names no sheet id, and the service reads a missing id as 0, so every write goes to the sheet with id 0 rather than the sheet with the configured title | sheets "Sheet1" (id 0) and "Users" (id 7), configured title "Users", first header write at `Cell(row 0, column 0)`: "name" lands in "Sheet1" and "Users" stays empty, so the next `headers!` is undefined | the range carries the configured sheet's id, so the write reaches the sheet the mirror reads back | medium: relies on the service reading an absent sheet id as 0; not executed | `SpreadsheetMirror.SourceRangeCounterexample` | `SpreadsheetMirror.RangeOfHitsConfiguredSheet` |
