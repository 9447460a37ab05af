# Table extraction service — functional model

A Dafny model of the two pieces of logic in the table-extraction service that
are more than calls into cloud SDKs:

* **The job back end** (`table-extract-backend/main.py`), in module `Backend`.
  It keeps a ledger of jobs: a map from job id to `Job(status, filename)`. It
  also has two blob containers, uploaded inputs and produced outputs, and each
  one is modelled as the set of blob names present in it. The model covers the
  ledger operations `create_job`, `update_status` and `get_job`, and the three
  endpoints. `POST /jobs` applies a case-insensitive `.pdf`/`.docx` gate, then
  stores the document, then records the job as `PENDING`. `GET /jobs/{id}`
  reports the stored status. `GET /jobs/{id}/result` runs a decision chain in
  a fixed order: 400 invalid format, 404 unknown job, 409 not `DONE`, 404
  missing artifact, otherwise a redirect to `{job_id}/tables.{format}`.
  Endpoints are pure functions from a `State` to a `Reply` and a new `State`.
  The fresh uuid is a parameter.
* **The synchronous extraction function**
  (`table-extract-function-app/ProcessDocument/__init__.py`), in modules
  `TableGrid` and `ProcessDocument`. The analysis service's result is an input
  datatype: a list of tables, each with a row count, a column count and a list
  of positioned cells. Each table becomes a dense `rowCount × columnCount`
  grid of strings. The grid starts as `""` everywhere, and every cell is then
  written at its position in list order, so the last write wins. The answer
  numbers the tables from 0 and reports `table_count`. A request without a
  file is refused with 400 before anything is stored or analysed. Any later
  exception becomes a 500.

Cell indices follow Python list indexing exactly. An index `i` into a list of
length `n` is accepted when `-n <= i < n`, and a negative index counts from
the end (`TableGrid.PyIndex`). Any other index raises `IndexError`, which the
handler turns into a 500. For indices in `0 <= i < n`, the range the
analysis service reports, a cell lands exactly at its own position.

The model follows the code, which does not enforce the
PENDING → PROCESSING → DONE/ERROR lifecycle and keeps no artifact invariant:

* No status discipline is enforced. `update_status` writes any string over
  any status, and `Backend.StatusReadsBackUpdate` holds for every old and new
  status. Neither `main.py` nor `ProcessDocument/__init__.py` writes
  `PROCESSING`, `DONE` or `ERROR`, and `main.py` never calls `update_status`.
* "Artifacts exist iff the status is `DONE`" is not an invariant of the code.
  This is why `download_result` has the "Result not found" branch.
* A failure in the extraction function is answered with a 500. It is not
  recorded as an `ERROR` status.
* In `POST /jobs` the input blob is uploaded before the ledger row is created.
  If the row key already existed, the table store would raise after the
  upload. The model keeps that order: the blob is stored and the reply is a
  500. With a fresh id this case does not arise.

Modules: `Outcomes` (Option/Result), `Text` (ASCII lower-casing and suffix
tests), `Backend`, `TableGrid`, `ProcessDocument`.

## Model

The blob-name helpers `Backend.InputBlobName` (main.py:51),
`Backend.OutputBlobName` (main.py:74) and `ProcessDocument.UploadBlobName`
(__init__.py:38) are covered by the rows of the endpoints that use them.

| member | source | states |
|---|---|---|
| `Backend.CreateJob` | table-extract-backend/main.py:23-29 | A new id gains exactly one row, with status PENDING and the given filename, and every existing row is kept. An id that is already present is refused. |
| `Backend.UpdateStatus` | table-extract-backend/main.py:32-35 | It fails exactly when the id is absent. Otherwise only that row's status changes: the filename, the set of ids and every other row stay the same. |
| `Backend.GetJob` | table-extract-backend/main.py:38-42 | It returns the stored row when the id is present, and a 404 "Job not found" otherwise. |
| `Backend.CreateJobEndpoint` | table-extract-backend/main.py:44-58 | The reply is 400 exactly when the gate rejects the name, and then nothing is written. An accepted name stores the input blob `{id}/{filename}`. With a fresh id it adds exactly the PENDING row and returns the id. On an id collision the blob is still stored and the reply is 500. |
| `Backend.IsSupportedUpload` | table-extract-backend/main.py:46-47 | The gate accepts a name exactly when its last 4 characters spell `.pdf`, or its last 5 spell `.docx`, in any mix of upper and lower case. |
| `Backend.UpperCaseExtensionsPass` | table-extract-backend/main.py:46-47 | `A.PDF` and `report.Docx` are accepted. |
| `Backend.NearMissesFail` | table-extract-backend/main.py:46-47 | `a.pdfx`, `a.doc` and `pdf` are rejected. |
| `Backend.GetStatus` | table-extract-backend/main.py:61-64 | A present id reports its stored status. An absent id gets 404. |
| `Backend.DownloadResult` | table-extract-backend/main.py:67-81 | It redirects exactly when the format is csv/json, the job exists, its status is DONE and the artifact is present. The redirect target is `output`/`{id}/tables.{format}`. Otherwise the first failing check decides the reply: 400, then 404, then 409, then 404. The format defaults to csv. |
| `Backend.InvalidFormatIgnoresJob` | table-extract-backend/main.py:68-70 | Any format other than csv/json gets 400 for every state and every job id. |
| `Backend.DownloadFollowsStatus` | table-extract-backend/main.py:32-81 | After a status update, a download gets 409 unless the new status is DONE. When it is DONE, the download redirects if the artifact exists and gets 404 if it does not. |
| `Backend.CreatedJobIsPendingAndIsolated` | table-extract-backend/main.py:44-73 | A freshly created job reads back as PENDING, and its result is "not ready" in both formats. Every other job answers both endpoints exactly as before. |
| `Backend.StatusReadsBackUpdate` | table-extract-backend/main.py:32-35 | Updating a present job to any status succeeds, and the status endpoint then reports that status. No transition is forbidden. |
| `Backend.UpdateStatusLastWins` | table-extract-backend/main.py:32-35 | Two updates of the same job give the same ledger as the second update alone. |
| `Backend.UpdateStatusToCurrentIsIdentity` | table-extract-backend/main.py:32-35 | Writing back a job's current status leaves the ledger unchanged. |
| `Backend.OutputBlobNamesDistinct` | table-extract-backend/main.py:74 | Two artifact names are equal only when they have the same job id and the same format. |
| `Text.LowerChar` | table-extract-backend/main.py:46 | An ASCII capital becomes its small letter; every other character is unchanged. |
| `Text.Lower` | table-extract-backend/main.py:46 | Lower-casing keeps the length and lowers each character in place. |
| `Text.EndsWithIgnoringCase` | table-extract-backend/main.py:46 | The lower-cased string ends with a lower-case pattern exactly when its tail spells the pattern in any mix of cases. |
| `TableGrid.PyIndex` | table-extract-function-app/ProcessDocument/__init__.py:66 | A Python list index is accepted exactly when `-n <= i < n`. It selects the slot congruent to it modulo `n`, which is the index itself when it is non-negative. |
| `TableGrid.Blank` | table-extract-function-app/ProcessDocument/__init__.py:61-63 | The initial grid has `rows` rows of `cols` entries each, all `""`. |
| `TableGrid.Write` | table-extract-function-app/ProcessDocument/__init__.py:66 | A write succeeds exactly when both indices are accepted. It keeps the shape and changes only the addressed entry. |
| `TableGrid.Fill` | table-extract-function-app/ProcessDocument/__init__.py:65-66 | Writing a list of cells succeeds exactly when every cell's indices are accepted, and it keeps the grid's shape. |
| `TableGrid.FillIsLastWrite` | table-extract-function-app/ProcessDocument/__init__.py:65-66 | After the fill, each position holds the text of the last cell in list order that names it, or its earlier content if no cell does. |
| `TableGrid.LastWriteFirst` | table-extract-function-app/ProcessDocument/__init__.py:65-66 | The first cell of the list only affects a position's result when no later cell names that position. |
| `TableGrid.LastWriteUnnamed` | table-extract-function-app/ProcessDocument/__init__.py:61-66 | A position that no cell names keeps its default. |
| `TableGrid.LastWriteNamed` | table-extract-function-app/ProcessDocument/__init__.py:65-66 | A position named by cell `k` and by no later cell holds cell `k`'s text. |
| `TableGrid.TableData` | table-extract-function-app/ProcessDocument/__init__.py:58-66 | A table's grid exists exactly when every cell lands inside it. The grid then has exactly `row_count` rows of `column_count` entries, and every entry is the last write aimed at it, or `""`. |
| `TableGrid.TableDataContents` | table-extract-function-app/ProcessDocument/__init__.py:61-66 | An unnamed position holds `""`. A position whose last naming cell is `k` holds cell `k`'s content. |
| `ProcessDocument.EffectiveName` | table-extract-function-app/ProcessDocument/__init__.py:31 | The reported name is never empty. A non-empty uploaded name is kept. An empty one is replaced by the fallback id followed by `.pdf`. |
| `ProcessDocument.Records` | table-extract-function-app/ProcessDocument/__init__.py:55-73 | There is one record per input table, in order. The i-th record has `table_index` equal to the start number plus i, the table's own counts and its grid. The result fails exactly when some table's grid fails. |
| `ProcessDocument.Handle` | table-extract-function-app/ProcessDocument/__init__.py:19-90 | A missing file gets 400 and nothing is stored. Success requires a file, a completed upload, a completed analysis and every table's cells in range. A success reports the effective filename, `table_count` equal to the number of tables, and records numbered 0.. that carry the input counts. Every other failure is a 500. |
| `ProcessDocument.ExtractedGridsAreDense` | table-extract-function-app/ProcessDocument/__init__.py:57-79 | Every grid in a successful answer has its table's exact shape. It holds `""` where no cell is written, and elsewhere the last cell written there. |
| `ProcessDocument.RowIndexPastEndFails` | table-extract-function-app/ProcessDocument/__init__.py:65-90 | A cell whose row index is at or past its table's row count turns the whole answer into a 500. |
| `ProcessDocument.SmallTableExample` | table-extract-function-app/ProcessDocument/__init__.py:61-66 | In a 2×2 table, a repeated position keeps the later text, index −1 addresses the last row, and untouched entries are `""`. |

## Left out

- Azure SDK calls are not modelled. This covers the blob, table and document-analysis clients, credentials and the analysis poller. Their effects appear only as map and set updates, as the `uploadSucceeds` flag, and as the `analysis` input, where `None` stands for any exception.
- uuid generation is not modelled. Job ids, blob ids and the fallback file id are parameters, and freshness is stated as `newId !in ledger` where a property needs it.
- File bytes, `await file.read()` and JSON serialisation are not modelled. A blob is modelled only by its name being present.
- Text.Lower, Text.LowerChar: lower-case ASCII letters only, where Python's `str.lower` covers all of Unicode. Non-ASCII capitals such as `À` are left unchanged. The upload gate's verdict is the same for every name. No non-ASCII character lowers into `.`, `p`, `d`, `f`, `o`, `c` or `x`. The one character whose lowering changes length (U+0130) becomes `i` plus a combining dot, which cannot complete `.pdf` or `.docx`.
- Backend.GetJob: only the absent-key failure is modelled. The source turns every exception from the table store into a 404, including network faults.
- The back end's other store calls are assumed not to fault. In the source, a fault in `upload_blob`, in `update_entity` or in `blob_client.exists()` escapes to FastAPI as a 500. So does a `create_entity` failure for a reason other than an existing key.
- Backend.DownloadResult: the redirect carries the container and blob name, not the storage account URL.
- A `None` filename on the upload endpoint would raise `AttributeError` in the source. The model takes the filename as a string.
- ProcessDocument.Handle: `if not file` is modelled as the file part being absent. The request library's own truthiness rule for a file object is not modelled. An empty filename stands for a missing one, as Python's `or` treats both alike.
- ProcessDocument.Handle: the 500 message omits the text of the exception, and logging is not modelled.
- TableGrid.AnalyzedTable: row and column counts are natural numbers. Negative counts from the analysis service are not modelled.
- Cell spans are ignored, as in the source: only the anchor position receives the text.
- Background processing, writing the CSV/JSON artifacts and any status state machine are not modelled. None of them appears in the modelled code.
- The Streamlit frontend is not modelled. It is a UI that polls and stops on DONE or ERROR.
