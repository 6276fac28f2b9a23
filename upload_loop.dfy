/**
 * The per-file loop both upload endpoints run, as methods over the
 * document store and the token source. A file that fails a check draws
 * no token; any other file draws the token of its saved name, is written
 * to the upload directory and, when a session is given (the variant with
 * a database), has its record added and committed. What the loop leaves
 * behind is what `Outcomes` says for the tokens it drew.
 */
module UploadLoop {
  import opened Common
  import opened Store
  import opened Tokens
  import opened Validation

  /**
   * The loop over the batch: each file either fails its checks or draws
   * a token and is saved. `drawn` are the tokens drawn, in order; the
   * entries, blobs and records are those `Outcomes` gives for them.
   */
  method SaveBatch(files: seq<IncomingFile>, session: Option<string>, db: DocumentStore, uuids: UuidSource)
    returns (savedFiles: seq<SavedFile>, errors: seq<FileError>, ghost drawn: seq<string>)
    requires uuids.Valid()
    modifies db, uuids
    ensures uuids.Valid()
    ensures uuids.issued == old(uuids.issued) + drawn
    ensures |drawn| == Passing(files)
    ensures var os := Outcomes(files, drawn, session);
      && savedFiles == SavedEntries(os)
      && errors == ErrorEntries(os)
      && db.records == old(db.records) + StoredRecords(os)
      && db.blobs == old(db.blobs) + WrittenBlobs(os)
  {
    savedFiles := [];
    errors := [];
    drawn := [];
    ghost var os: seq<FileOutcome> := [];

    var i := 0;
    while i < |files|
      invariant 0 <= i <= |files|
      invariant uuids.Valid()
      invariant uuids.issued == old(uuids.issued) + drawn
      invariant |drawn| == Passing(files[..i])
      invariant os == Outcomes(files[..i], drawn, session)
      invariant savedFiles == SavedEntries(os) && errors == ErrorEntries(os)
      invariant db.records == old(db.records) + StoredRecords(os)
      invariant db.blobs == old(db.blobs) + WrittenBlobs(os)
    {
      savedFiles, errors, drawn, os := BatchTurn(files, i, session, db, uuids, old(uuids.issued), old(db.records), old(db.blobs),
                                                 savedFiles, errors, drawn, os);
      i := i + 1;
    }
    assert files[..i] == files;
  }

  /**
   * The `i`-th turn of the loop: from the state the loop invariant
   * describes before file `i` (relative to the tokens, records and blobs
   * there were before the loop) to the one it describes after it.
   */
  method BatchTurn(files: seq<IncomingFile>, i: nat, session: Option<string>, db: DocumentStore, uuids: UuidSource,
                   ghost issued0: seq<string>, ghost records0: seq<PdfRecord>, ghost blobs0: set<string>,
                   savedFiles: seq<SavedFile>, errors: seq<FileError>, ghost drawn: seq<string>, ghost os: seq<FileOutcome>)
    returns (savedFiles': seq<SavedFile>, errors': seq<FileError>, ghost drawn': seq<string>, ghost os': seq<FileOutcome>)
    requires i < |files| && uuids.Valid()
    requires uuids.issued == issued0 + drawn && |drawn| == Passing(files[..i])
    requires os == Outcomes(files[..i], drawn, session)
    requires savedFiles == SavedEntries(os) && errors == ErrorEntries(os)
    requires db.records == records0 + StoredRecords(os) && db.blobs == blobs0 + WrittenBlobs(os)
    modifies db, uuids
    ensures uuids.Valid()
    ensures uuids.issued == issued0 + drawn' && |drawn'| == Passing(files[..i + 1])
    ensures os' == Outcomes(files[..i + 1], drawn', session)
    ensures savedFiles' == SavedEntries(os') && errors' == ErrorEntries(os')
    ensures db.records == records0 + StoredRecords(os') && db.blobs == blobs0 + WrittenBlobs(os')
  {
    var file := files[i];
    ghost var records1, blobs1 := db.records, db.blobs;
    savedFiles', errors', drawn' := HandleFile(file, session, db, uuids, savedFiles, errors, issued0, drawn);
    ghost var outcome := LastOutcome(file, drawn', session);
    assert db.records == records1 + (if outcome.record.Some? then [outcome.record.value] else []);
    assert db.blobs == blobs1 + (if outcome.blob.Some? then {outcome.blob.value} else {});
    OutcomesExtend(files, i, drawn, drawn', session);
    os' := os + [outcome];
    AppendOutcome(os, outcome, savedFiles', errors', records0, blobs0, db.records, db.blobs);
  }

  /** The loop's lists, table and directory after one more outcome are the projections of the longer list. */
  lemma AppendOutcome(os: seq<FileOutcome>, o: FileOutcome, savedFiles: seq<SavedFile>, errors: seq<FileError>,
                      records0: seq<PdfRecord>, blobs0: set<string>, records: seq<PdfRecord>, blobs: set<string>)
    requires savedFiles == SavedEntries(os) + (if o.entry.Saved? then [o.entry.file] else [])
    requires errors == ErrorEntries(os) + (if o.entry.Failed? then [o.entry.error] else [])
    requires records == records0 + StoredRecords(os) + (if o.record.Some? then [o.record.value] else [])
    requires blobs == blobs0 + WrittenBlobs(os) + (if o.blob.Some? then {o.blob.value} else {})
    ensures savedFiles == SavedEntries(os + [o]) && errors == ErrorEntries(os + [o])
    ensures records == records0 + StoredRecords(os + [o]) && blobs == blobs0 + WrittenBlobs(os + [o])
  {
    ProjectionsSnoc(os, o);
  }

  /**
   * One turn of the loop: a file that fails a check is reported with the
   * failed check and draws no token; any other file draws the token of
   * its saved name and goes through `SaveFile`; its entry is appended to
   * `savedFiles` or `errors`. `drawn` are the tokens drawn before it; the
   * entry and what is written are those `LastOutcome` gives for the file.
   */
  method HandleFile(file: IncomingFile, session: Option<string>, db: DocumentStore, uuids: UuidSource,
                    savedFiles: seq<SavedFile>, errors: seq<FileError>, ghost issued0: seq<string>, ghost drawn: seq<string>)
    returns (savedFiles': seq<SavedFile>, errors': seq<FileError>, ghost drawn': seq<string>)
    requires uuids.Valid() && uuids.issued == issued0 + drawn
    modifies db, uuids
    ensures uuids.Valid() && uuids.issued == issued0 + drawn'
    ensures Precheck(file).Some? ==> drawn' == drawn
    ensures Precheck(file).None? ==> |drawn'| == |drawn| + 1 && drawn'[..|drawn|] == drawn
    ensures var o := LastOutcome(file, drawn', session);
      && savedFiles' == savedFiles + (if o.entry.Saved? then [o.entry.file] else [])
      && errors' == errors + (if o.entry.Failed? then [o.entry.error] else [])
      && db.blobs == old(db.blobs) + (if o.blob.Some? then {o.blob.value} else {})
      && db.records == old(db.records) + (if o.record.Some? then [o.record.value] else [])
  {
    var entry;
    match Precheck(file) {
    case Some(kind) =>
      entry := Failed(FileError(file.filename, kind));
      drawn' := drawn;
    case None =>
      var token := uuids.Fresh();
      entry := SaveFile(file, token, session, db);
      drawn' := drawn + [token];
      assert drawn'[..|drawn|] == drawn;
    }
    savedFiles', errors' := savedFiles, errors;
    match entry {
      case Saved(saved) => savedFiles' := savedFiles + [saved];
      case Failed(error) => errors' := errors + [error];
    }
  }

  /**
   * The steps after the checks for one file: write it under its saved
   * name (an `IOError` is reported as a save failure, and a failed write
   * leaves the created file behind), then, with a
   * session, add and commit its record (any other exception is reported
   * as unexpected).
   */
  method SaveFile(file: IncomingFile, token: string, session: Option<string>, db: DocumentStore) returns (entry: Entry)
    requires Precheck(file).None?
    modifies db
    ensures var o := ProcessFile(file, token, session);
      && entry == o.entry
      && db.blobs == old(db.blobs) + (if o.blob.Some? then {o.blob.value} else {})
      && db.records == old(db.records) + (if o.record.Some? then [o.record.value] else [])
  {
    var name := file.filename.value;
    var savedName := SavedName(name, token);
    if file.saveFault.Some? && file.saveFault.value.OpenFails? {
      return Failed(FileError(file.filename, SaveFailed(file.saveFault.value.reason)));
    }
    db.WriteBlob(savedName);
    if file.saveFault.Some? {
      // the write raised after the open created the file
      return Failed(FileError(file.filename, SaveFailed(file.saveFault.value.reason)));
    }
    if session.None? {
      return Saved(SavedFile(name, savedName));
    }
    if file.commitFault.Some? {
      return Failed(FileError(file.filename, Unexpected(file.commitFault.value)));
    }
    db.AddRecord(PdfRecord(name, savedName, file.size, session.value, file.contentType));
    return Saved(SavedFile(name, savedName));
  }
}
