/**
 * The earlier single-file application (`AI_Planet_backend/main.py`): its
 * `POST /uploadfiles/`, which refuses an empty request, saves to the
 * upload directory only (no table, no session), and its HTTP middleware,
 * which turns any exception other than an `HTTPException` into a fixed
 * 500 response.
 */
module LegacyMain {
  import opened Common
  import opened Store
  import opened Tokens
  import opened Validation
  import opened UploadLoop

  const NO_FILES_PROVIDED: string := "No files were provided"
  const HTTP_500_INTERNAL_SERVER_ERROR: nat := 500
  const INTERNAL_ERROR: string := "An internal server error occurred"

  /**
   * `create_upload_files` of the earlier variant. An empty request is
   * refused before anything is drawn or written; otherwise the batch runs
   * without a session (`drawn` are the tokens of the saved names), nothing
   * is committed, the saved names are pairwise distinct, and the response
   * has no session id. `uploads` stands
   * for the upload directory; this variant has no table.
   */
  method CreateUploadFiles(files: seq<IncomingFile>, uploads: DocumentStore, uuids: UuidSource)
    returns (result: Handled<UploadBody>, ghost drawn: seq<string>)
    requires uuids.Valid()
    modifies uploads, uuids
    ensures uuids.Valid()
    ensures uuids.issued == old(uuids.issued) + drawn
    ensures uploads.records == old(uploads.records)
    ensures files == [] ==>
      && result == Raised(HttpException(HTTP_400_BAD_REQUEST, Detail(NO_FILES_PROVIDED)))
      && drawn == [] && uploads.blobs == old(uploads.blobs)
    ensures files != [] ==>
      && |drawn| == Passing(files)
      && var os := Outcomes(files, drawn, None);
      && uploads.blobs == old(uploads.blobs) + WrittenBlobs(os)
      && (SavedEntries(os) == [] ==>
            result == Raised(HttpException(HTTP_400_BAD_REQUEST, UploadFailure(NO_FILES_UPLOADED, ErrorEntries(os)))))
      && (SavedEntries(os) != [] ==>
            result == Returned(UploadBody(SavedEntries(os), ErrorsField(ErrorEntries(os)), None)))
    ensures result.Returned? ==> DistinctNames(result.response.files)
    ensures !CatchExceptions(result).InternalError?
  {
    if files == [] {
      result := Raised(HttpException(HTTP_400_BAD_REQUEST, Detail(NO_FILES_PROVIDED)));
      drawn := [];
      return;
    }
    var savedFiles, errors;
    savedFiles, errors, drawn := SaveBatch(files, None, uploads, uuids);
    NoRecordsWithoutSession(files, drawn);
    assert drawn == uuids.issued[|old(uuids.issued)|..];
    TokensFrom(uuids.count, |old(uuids.issued)|, drawn);
    SavedNamesDistinct(files, drawn, None, |old(uuids.issued)|);
    if savedFiles == [] {
      result := Raised(HttpException(HTTP_400_BAD_REQUEST, UploadFailure(NO_FILES_UPLOADED, errors)));
      return;
    }
    result := Returned(UploadBody(savedFiles, ErrorsField(errors), None));
  }

  // ---------------------------------------------------------------------
  // catch_exceptions_middleware

  /** What the middleware does with the route's outcome. */
  datatype MiddlewareResult<R> =
    | Pass(response: R)
    | Reraise(error: Exception)
    | InternalError(statusCode: nat, detail: string)

  /**
   * A response goes through; an `HTTPException` is raised again, as it
   * was; any other exception becomes a 500 whose detail is fixed and
   * says nothing about the exception.
   */
  function CatchExceptions<R>(outcome: Handled<R>): (r: MiddlewareResult<R>)
    ensures r.Pass? <==> outcome.Returned?
    ensures r.Pass? ==> r.response == outcome.response
    ensures r.Reraise? <==> outcome.Raised? && outcome.error.HttpException?
    ensures r.Reraise? ==> r.error == outcome.error
    ensures r.InternalError? <==> outcome.Raised? && outcome.error.Unhandled?
    ensures r.InternalError? ==> r.statusCode == HTTP_500_INTERNAL_SERVER_ERROR && r.detail == INTERNAL_ERROR
  {
    match outcome
    case Returned(response) => Pass(response)
    case Raised(e) =>
      if e.HttpException? then Reraise(e)
      else InternalError(HTTP_500_INTERNAL_SERVER_ERROR, INTERNAL_ERROR)
  }

  /** Two unexpected exceptions, whatever they say, produce the same response. */
  lemma InternalErrorsIndistinguishable<R>(a: string, b: string)
    ensures CatchExceptions<R>(Raised(Unhandled(a))) == CatchExceptions<R>(Raised(Unhandled(b)))
  {
  }
}
