/** The job back end: a ledger of jobs keyed by job id, two blob containers
    (uploaded inputs, produced outputs), and the three HTTP endpoints that
    create a job, report its status and hand out its result.

    The table store is a finite map, each blob container a set of blob names,
    and a fresh job id is a parameter of the upload endpoint. */
module Backend {
  import opened Outcomes
  import opened Text

  const Pending: string := "PENDING"
  const Done: string := "DONE"

  const InputContainer: string := "input"
  const OutputContainer: string := "output"

  /** One row of the "jobs" partition: its mutable status and the uploaded file name. */
  datatype Job = Job(status: string, filename: string)

  /** The "jobs" partition, keyed by job id (the row key). */
  type Ledger = map<string, Job>

  /** Errors the table store raises. */
  datatype StoreError = EntityExists | EntityNotFound

  /** What an endpoint answers: a JSON body, a redirect, or an HTTP error. */
  datatype Reply =
    | JobCreated(jobId: string)
    | JobStatus(status: string)
    | RedirectTo(container: string, blob: string)
    | HttpError(code: int, detail: string)

  /** Everything the endpoints read or write. */
  datatype State = State(ledger: Ledger, inputBlobs: set<string>, outputBlobs: set<string>)

  // ---------------------------------------------------------------------------
  // Ledger operations
  // ---------------------------------------------------------------------------

  /** Inserts a new row with status PENDING; the table store refuses a row key
      that is already present. */
  function CreateJob(ledger: Ledger, jobId: string, filename: string): (r: Result<Ledger, StoreError>)
    ensures r.Failure? <==> jobId in ledger
    ensures r.Success? ==> r.value.Keys == ledger.Keys + {jobId}
    ensures r.Success? ==> r.value[jobId] == Job(Pending, filename)
    ensures r.Success? ==> forall id :: id in ledger ==> r.value[id] == ledger[id]
  {
    if jobId in ledger then Failure(EntityExists)
    else Success(ledger[jobId := Job(Pending, filename)])
  }

  /** Reads the row, replaces its status with any string, and writes it back;
      reading an absent row raises. */
  function UpdateStatus(ledger: Ledger, jobId: string, status: string): (r: Result<Ledger, StoreError>)
    ensures r.Failure? <==> jobId !in ledger
    ensures r.Success? ==> r.value.Keys == ledger.Keys
    ensures r.Success? ==> r.value[jobId] == Job(status, ledger[jobId].filename)
    ensures r.Success? ==> forall id :: id in ledger && id != jobId ==> r.value[id] == ledger[id]
  {
    if jobId !in ledger then Failure(EntityNotFound)
    else
      var entity := ledger[jobId];
      Success(ledger[jobId := entity.(status := status)])
  }

  const JobNotFound: Reply := HttpError(404, "Job not found")

  /** Looks a job up; any failure of the read becomes a 404 reply. */
  function GetJob(ledger: Ledger, jobId: string): (r: Result<Job, Reply>)
    ensures r.Success? <==> jobId in ledger
    ensures r.Success? ==> r.value == ledger[jobId]
    ensures r.Failure? ==> r.error == JobNotFound
  {
    if jobId in ledger then Success(ledger[jobId]) else Failure(JobNotFound)
  }

  // ---------------------------------------------------------------------------
  // POST /jobs
  // ---------------------------------------------------------------------------

  /** The upload gate: the lower-cased file name ends in ".pdf" or ".docx".
      It depends only on the last four or five characters: a name passes exactly
      when it ends in ".pdf" or ".docx" spelled in any mix of cases. */
  predicate IsSupportedUpload(filename: string)
    ensures IsSupportedUpload(filename) <==>
              (|filename| >= 4 && MatchesIgnoringCase(filename[|filename| - 4..], ".pdf")) ||
              (|filename| >= 5 && MatchesIgnoringCase(filename[|filename| - 5..], ".docx"))
  {
    EndsWithIgnoringCase(filename, ".pdf");
    EndsWithIgnoringCase(filename, ".docx");
    EndsWith(Lower(filename), ".pdf") || EndsWith(Lower(filename), ".docx")
  }

  /** Name of the uploaded document inside the input container. */
  function InputBlobName(jobId: string, filename: string): string
  {
    jobId + "/" + filename
  }

  const UnsupportedFileType: Reply := HttpError(400, "Unsupported file type")
  const InternalServerError: Reply := HttpError(500, "Internal Server Error")

  /** Checks the extension, stores the document under a fresh job id, then
      records the job as PENDING. An exception escaping the handler becomes a 500. */
  function CreateJobEndpoint(st: State, filename: string, newId: string): (out: (Reply, State))
    ensures out.0 == UnsupportedFileType <==> !IsSupportedUpload(filename)
    ensures !IsSupportedUpload(filename) ==> out.1 == st
    ensures IsSupportedUpload(filename) ==>
              out.1.inputBlobs == st.inputBlobs + {InputBlobName(newId, filename)} &&
              out.1.outputBlobs == st.outputBlobs
    ensures IsSupportedUpload(filename) && newId !in st.ledger ==>
              out.0 == JobCreated(newId) &&
              out.1.ledger == st.ledger[newId := Job(Pending, filename)]
    ensures IsSupportedUpload(filename) && newId in st.ledger ==>
              out.0 == InternalServerError && out.1.ledger == st.ledger
  {
    if !IsSupportedUpload(filename) then (UnsupportedFileType, st)
    else
      var inputs := st.inputBlobs + {InputBlobName(newId, filename)};
      match CreateJob(st.ledger, newId, filename)
      case Failure(_) => (InternalServerError, st.(inputBlobs := inputs))
      case Success(ledger) => (JobCreated(newId), State(ledger, inputs, st.outputBlobs))
  }

  // ---------------------------------------------------------------------------
  // GET /jobs/{job_id}
  // ---------------------------------------------------------------------------

  /** Reports the stored status of a job. */
  function GetStatus(st: State, jobId: string): (r: Reply)
    ensures jobId in st.ledger ==> r == JobStatus(st.ledger[jobId].status)
    ensures jobId !in st.ledger ==> r == JobNotFound
  {
    match GetJob(st.ledger, jobId)
    case Success(job) => JobStatus(job.status)
    case Failure(e) => e
  }

  // ---------------------------------------------------------------------------
  // GET /jobs/{job_id}/result
  // ---------------------------------------------------------------------------

  /** The result formats the download endpoint serves. */
  predicate IsResultFormat(format: string)
  {
    format == "csv" || format == "json"
  }

  /** Name of a produced artifact inside the output container. */
  function OutputBlobName(jobId: string, format: string): string
  {
    jobId + "/tables." + format
  }

  const InvalidFormat: Reply := HttpError(400, "Invalid format")
  const ResultNotReady: Reply := HttpError(409, "Result not ready")
  const ResultNotFound: Reply := HttpError(404, "Result not found")

  /** Redirects to a finished job's artifact, checking, in this order, the
      format, the job's existence, its status and the artifact's presence. */
  function DownloadResult(st: State, jobId: string, format: string := "csv"): (r: Reply)
    ensures r.RedirectTo? <==>
              IsResultFormat(format) && jobId in st.ledger && st.ledger[jobId].status == Done &&
              OutputBlobName(jobId, format) in st.outputBlobs
    ensures r.RedirectTo? ==> r == RedirectTo(OutputContainer, OutputBlobName(jobId, format))
    ensures !IsResultFormat(format) ==> r == InvalidFormat
    ensures IsResultFormat(format) && jobId !in st.ledger ==> r == JobNotFound
    ensures IsResultFormat(format) && jobId in st.ledger && st.ledger[jobId].status != Done ==>
              r == ResultNotReady
    ensures IsResultFormat(format) && jobId in st.ledger && st.ledger[jobId].status == Done &&
              OutputBlobName(jobId, format) !in st.outputBlobs ==>
              r == ResultNotFound
  {
    if !IsResultFormat(format) then InvalidFormat
    else match GetJob(st.ledger, jobId)
      case Failure(e) => e
      case Success(job) =>
        if job.status != Done then ResultNotReady
        else
          var blobName := OutputBlobName(jobId, format);
          if blobName !in st.outputBlobs then ResultNotFound
          else RedirectTo(OutputContainer, blobName)
  }

  // ---------------------------------------------------------------------------
  // Properties
  // ---------------------------------------------------------------------------

  /** Upper-case extensions pass. */
  lemma UpperCaseExtensionsPass()
    ensures IsSupportedUpload("A.PDF")
    ensures IsSupportedUpload("report.Docx")
  {
    assert "A.PDF"[1..] == ".PDF";
    assert "report.Docx"[6..] == ".Docx";
  }

  /** A longer or a shorter extension does not pass, nor does a bare "pdf". */
  lemma NearMissesFail()
    ensures !IsSupportedUpload("a.pdfx")
    ensures !IsSupportedUpload("a.doc")
    ensures !IsSupportedUpload("pdf")
  {
    assert "a.pdfx"[2..][0] != '.';
    assert "a.pdfx"[1..][0] != 'd';
    assert "a.doc"[1..][0] != 'p';
  }

  /** A job created under a fresh id is immediately visible as PENDING, its
      result is not ready in either format, and every other job answers both
      endpoints exactly as before. */
  lemma CreatedJobIsPendingAndIsolated(st: State, filename: string, newId: string, other: string, format: string)
    requires IsSupportedUpload(filename)
    requires newId !in st.ledger
    requires other != newId
    ensures GetStatus(CreateJobEndpoint(st, filename, newId).1, newId) == JobStatus(Pending)
    ensures IsResultFormat(format) ==>
              DownloadResult(CreateJobEndpoint(st, filename, newId).1, newId, format) == ResultNotReady
    ensures GetStatus(CreateJobEndpoint(st, filename, newId).1, other) == GetStatus(st, other)
    ensures DownloadResult(CreateJobEndpoint(st, filename, newId).1, other, format) ==
              DownloadResult(st, other, format)
  {
  }

  /** After a status update the status endpoint reports the new status, whatever
      the old one was: nothing restricts which status may follow which. */
  lemma StatusReadsBackUpdate(st: State, jobId: string, status: string)
    requires jobId in st.ledger
    ensures UpdateStatus(st.ledger, jobId, status).Success?
    ensures GetStatus(st.(ledger := UpdateStatus(st.ledger, jobId, status).value), jobId) == JobStatus(status)
  {
  }

  /** Two updates of the same job leave what the second alone would leave. */
  lemma UpdateStatusLastWins(ledger: Ledger, jobId: string, first: string, second: string)
    requires jobId in ledger
    ensures UpdateStatus(UpdateStatus(ledger, jobId, first).value, jobId, second) ==
              UpdateStatus(ledger, jobId, second)
  {
    var job := ledger[jobId];
    assert ledger[jobId := job.(status := first)][jobId := job.(status := second)] ==
           ledger[jobId := job.(status := second)];
  }

  /** Writing back a job's current status changes nothing. */
  lemma UpdateStatusToCurrentIsIdentity(ledger: Ledger, jobId: string)
    requires jobId in ledger
    ensures UpdateStatus(ledger, jobId, ledger[jobId].status) == Success(ledger)
  {
    var job := ledger[jobId];
    assert job.(status := job.status) == job;
    assert ledger[jobId := job] == ledger;
  }

  /** An unsupported format is refused before the job is looked at. */
  lemma InvalidFormatIgnoresJob(st1: State, jobId1: string, st2: State, jobId2: string, format: string)
    requires !IsResultFormat(format)
    ensures DownloadResult(st1, jobId1, format) == DownloadResult(st2, jobId2, format) == InvalidFormat
  {
  }

  /** Once a job is marked DONE its stored artifact is served; under any other
      status the download is refused as not ready, artifact or not. */
  lemma DownloadFollowsStatus(st: State, jobId: string, status: string, format: string)
    requires jobId in st.ledger
    requires IsResultFormat(format)
    ensures var st' := st.(ledger := UpdateStatus(st.ledger, jobId, status).value);
            DownloadResult(st', jobId, format) ==
              if status != Done then ResultNotReady
              else if OutputBlobName(jobId, format) in st.outputBlobs
              then RedirectTo(OutputContainer, OutputBlobName(jobId, format))
              else ResultNotFound
  {
  }

  /** Distinct (job, format) pairs name distinct artifacts, so a redirect
      never hands one job's result, or the other format, to a caller. */
  lemma {:induction false} OutputBlobNamesDistinct(jobId1: string, format1: string, jobId2: string, format2: string)
    requires IsResultFormat(format1) && IsResultFormat(format2)
    requires OutputBlobName(jobId1, format1) == OutputBlobName(jobId2, format2)
    ensures jobId1 == jobId2 && format1 == format2
  {
    var n1 := OutputBlobName(jobId1, format1);
    var n2 := OutputBlobName(jobId2, format2);
    assert n1[|n1| - 1] == format1[|format1| - 1];
    assert n2[|n2| - 1] == format2[|format2| - 1];
    assert format1 == format2;
    var tail := "/tables." + format1;
    assert n1 == jobId1 + tail && n2 == jobId2 + tail;
    assert jobId1 == n1[..|n1| - |tail|];
    assert jobId2 == n2[..|n2| - |tail|];
  }
}
