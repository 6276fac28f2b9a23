/**
 * `POST /uploadfiles/` of the application package: validate and save
 * each file of the batch, record it under a session id minted for the
 * call, and authorize that session for a socket when at least one file
 * was saved.
 */
module UploadRoute {
  import opened Common
  import opened Store
  import opened Tokens
  import opened Registry
  import opened Validation
  import opened UploadLoop

  /**
   * `create_upload_files`. The first token drawn is the session id; each
   * file that passes the checks then draws the token of its saved name.
   * The new table and directory are the old ones plus what `Outcomes`
   * says the batch wrote; the session is authorized exactly when some
   * file was saved, and is then returned with the `files` list, whose
   * saved names are pairwise distinct.
   */
  method CreateUploadFiles(files: seq<IncomingFile>, db: DocumentStore, uuids: UuidSource, manager: ConnectionManager)
    returns (result: Handled<UploadBody>)
    requires uuids.Valid() && manager.Valid()
    modifies db, uuids, manager
    ensures uuids.Valid() && manager.Valid()
    ensures |uuids.issued| == |old(uuids.issued)| + 1 + Passing(files)
    ensures uuids.issued[..|old(uuids.issued)|] == old(uuids.issued)
    ensures uuids.issued[|old(uuids.issued)|] !in old(uuids.issued)
    ensures var sessionId := uuids.issued[|old(uuids.issued)|];
      var os := Outcomes(files, uuids.issued[|old(uuids.issued)| + 1..], Some(sessionId));
      && db.records == old(db.records) + StoredRecords(os)
      && db.blobs == old(db.blobs) + WrittenBlobs(os)
      && manager.activeConnections == old(manager.activeConnections)
      && manager.establishedSessions == old(manager.establishedSessions)
      && manager.events == old(manager.events)
      && (SavedEntries(os) == [] ==>
            && result == Raised(HttpException(HTTP_400_BAD_REQUEST, UploadFailure(NO_FILES_UPLOADED, ErrorEntries(os))))
            && manager.authorizedSessions == old(manager.authorizedSessions))
      && (SavedEntries(os) != [] ==>
            && result == Returned(UploadBody(SavedEntries(os), ErrorsField(ErrorEntries(os)), Some(sessionId)))
            && manager.authorizedSessions == old(manager.authorizedSessions) + {sessionId})
    ensures result.Returned? ==> DistinctNames(result.response.files)
  {
    var sessionId := uuids.Fresh();
    var savedFiles, errors, drawn := SaveBatch(files, Some(sessionId), db, uuids);
    assert uuids.issued == old(uuids.issued) + [sessionId] + drawn;
    assert uuids.issued[..|old(uuids.issued)|] == old(uuids.issued);
    assert uuids.issued[|old(uuids.issued)|] == sessionId;
    assert uuids.issued[|old(uuids.issued)| + 1..] == drawn;
    TokensFrom(uuids.count, |old(uuids.issued)| + 1, drawn);
    SavedNamesDistinct(files, drawn, Some(sessionId), |old(uuids.issued)| + 1);

    if savedFiles == [] {
      result := Raised(HttpException(HTTP_400_BAD_REQUEST, UploadFailure(NO_FILES_UPLOADED, errors)));
      return;
    }
    manager.Authorize(sessionId);
    result := Returned(UploadBody(savedFiles, ErrorsField(errors), Some(sessionId)));
  }
}
