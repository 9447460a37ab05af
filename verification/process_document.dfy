/** The synchronous extraction function: it takes one uploaded file, stores a
    copy, has the analysis service lay the document out, and answers with every
    detected table as a dense grid.

    The blob container is a set of blob names; the two generated uuids, the
    outcome of the upload and the analysis result are parameters. */
module ProcessDocument {
  import opened Outcomes
  import opened TableGrid
  import opened Text

  /** The file part of a multipart request; an empty name stands for a missing one. */
  datatype FilePart = FilePart(filename: string)

  /** The request as far as the handler reads it. */
  datatype Request = Request(file: Option<FilePart>)

  /** What the layout analysis returns: its tables, in document order. */
  datatype AnalysisResult = AnalysisResult(tables: seq<AnalyzedTable>)

  /** One entry of the answer's "tables" list. */
  datatype TableRecord = TableRecord(tableIndex: nat, rowCount: nat, columnCount: nat, data: Grid)

  /** The HTTP answer: the extraction as JSON (status 200) or a plain-text failure. */
  datatype Response =
    | Extracted(fileName: string, tableCount: nat, tables: seq<TableRecord>)
    | Failed(statusCode: int, message: string)

  const MissingFile: Response := Failed(400, "Missing file in request")
  const InternalError: Response := Failed(500, "Internal server error")

  /** The i-th table's record, numbered from `first`; None as soon as one
      table's grid cannot be built. */
  function Records(tables: seq<AnalyzedTable>, first: nat): (r: Option<seq<TableRecord>>)
    ensures r.Some? <==> forall k :: 0 <= k < |tables| ==> TableData(tables[k]).Some?
    ensures r.Some? ==> |r.value| == |tables|
    ensures r.Some? ==> forall k :: 0 <= k < |tables| ==>
              r.value[k] == TableRecord(first + k, tables[k].rowCount, tables[k].columnCount,
                                        TableData(tables[k]).value)
    decreases |tables|
  {
    if |tables| == 0 then Some([])
    else match TableData(tables[0])
      case None => None
      case Some(data) =>
        assert forall k :: 0 < k < |tables| ==> tables[1..][k - 1] == tables[k];
        match Records(tables[1..], first + 1)
        case None => None
        case Some(rest) =>
          Some([TableRecord(first, tables[0].rowCount, tables[0].columnCount, data)] + rest)
  }

  /** The name the answer reports: the uploaded one, or a generated "<uuid>.pdf". */
  function EffectiveName(part: FilePart, fallbackId: string): (name: string)
    ensures name != ""
    ensures part.filename != "" ==> name == part.filename
    ensures part.filename == "" ==>
              |name| == |fallbackId| + 4 && name[..|fallbackId|] == fallbackId && EndsWith(name, ".pdf")
  {
    if part.filename != "" then part.filename else fallbackId + ".pdf"
  }

  /** Name of the stored copy inside the uploads container. */
  function UploadBlobName(blobId: string, filename: string): string
  {
    "uploads/" + blobId + "-" + filename
  }

  /** Handles one request. A missing file is refused before anything is stored
      or analysed; any exception after that (storage, analysis, a cell index out
      of range) becomes a 500. Returns the answer and the container's new contents. */
  function Handle(req: Request, uploads: set<string>, fallbackId: string, blobId: string,
                  uploadSucceeds: bool, analysis: Option<AnalysisResult>): (out: (Response, set<string>))
    ensures out.0 == MissingFile <==> req.file.None?
    ensures req.file.None? ==> out.1 == uploads
    ensures req.file.Some? && uploadSucceeds ==>
              out.1 == uploads + {UploadBlobName(blobId, EffectiveName(req.file.value, fallbackId))}
    ensures !uploadSucceeds ==> out.1 == uploads
    ensures out.0.Extracted? <==>
              req.file.Some? && uploadSucceeds && analysis.Some? &&
              forall k :: 0 <= k < |analysis.value.tables| ==> TableData(analysis.value.tables[k]).Some?
    ensures !out.0.Extracted? && req.file.Some? ==> out.0 == InternalError
    ensures out.0.Extracted? ==>
              var tables := analysis.value.tables;
              && out.0.fileName == EffectiveName(req.file.value, fallbackId)
              && out.0.tableCount == |out.0.tables| == |tables|
              && forall k :: 0 <= k < |tables| ==>
                   && out.0.tables[k].tableIndex == k
                   && out.0.tables[k].rowCount == tables[k].rowCount
                   && out.0.tables[k].columnCount == tables[k].columnCount
                   && out.0.tables[k].data == TableData(tables[k]).value
  {
    match req.file
    case None => (MissingFile, uploads)
    case Some(part) =>
      var filename := EffectiveName(part, fallbackId);
      if !uploadSucceeds then (InternalError, uploads)
      else
        var stored := uploads + {UploadBlobName(blobId, filename)};
        match analysis
        case None => (InternalError, stored)
        case Some(result) =>
          match Records(result.tables, 0)
          case None => (InternalError, stored)
          case Some(records) => (Extracted(filename, |records|, records), stored)
  }

  /** Every grid in a successful answer has exactly its table's shape, holds
      "" where no cell is written, and otherwise the last cell written there. */
  lemma ExtractedGridsAreDense(req: Request, uploads: set<string>, fallbackId: string, blobId: string,
                               uploadSucceeds: bool, analysis: Option<AnalysisResult>, k: nat)
    requires Handle(req, uploads, fallbackId, blobId, uploadSucceeds, analysis).0.Extracted?
    requires k < |analysis.value.tables|
    ensures var t := analysis.value.tables[k];
            var rec := Handle(req, uploads, fallbackId, blobId, uploadSucceeds, analysis).0.tables[k];
            && HasShape(rec.data, t.rowCount, t.columnCount)
            && forall i, j :: 0 <= i < t.rowCount && 0 <= j < t.columnCount ==>
                 rec.data[i][j] == LastWrite(t.cells, t.rowCount, t.columnCount, i, j, "")
  {
  }

  /** A cell whose row index is past the end of its table aborts the whole
      request with a 500, whatever the other tables hold. */
  lemma RowIndexPastEndFails(req: Request, uploads: set<string>, fallbackId: string, blobId: string,
                             analysis: AnalysisResult, k: nat, m: nat)
    requires req.file.Some?
    requires k < |analysis.tables| && m < |analysis.tables[k].cells|
    requires analysis.tables[k].cells[m].rowIndex >= analysis.tables[k].rowCount
    ensures Handle(req, uploads, fallbackId, blobId, true, Some(analysis)).0 == InternalError
  {
  }

  /** A worked table: a repeated position keeps its later text, a negative
      index counts from the end, and the untouched positions stay empty. */
  lemma SmallTableExample()
    ensures TableData(AnalyzedTable(2, 2, [Cell(0, 0, "a"), Cell(0, 0, "b"), Cell(-1, 1, "c")])) ==
              Some([["b", ""], ["", "c"]])
  {
    var t := AnalyzedTable(2, 2, [Cell(0, 0, "a"), Cell(0, 0, "b"), Cell(-1, 1, "c")]);
    assert Slot(t.cells[0], 2, 2) == Some((0, 0));
    assert Slot(t.cells[1], 2, 2) == Some((0, 0));
    assert Slot(t.cells[2], 2, 2) == Some((1, 1));
    assert AllPlaced(t.cells, 2, 2);
    var g := TableData(t).value;
    assert t.cells[..2][..1] == [Cell(0, 0, "a")];
    assert LastWrite(t.cells, 2, 2, 0, 0, "") == "b";
    assert LastWrite(t.cells, 2, 2, 1, 1, "") == "c";
    TableDataContents(t, 0, 1);
    TableDataContents(t, 1, 0);
    assert g[0] == ["b", ""];
    assert g[1] == ["", "c"];
    assert g == [g[0], g[1]];
  }
}
