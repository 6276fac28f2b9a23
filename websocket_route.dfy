/**
 * The socket route: `cleanup_session_pdf_files`, which removes a
 * session's blobs and records one file at a time, tolerating a failure
 * on any one of them, and `pdf_qa_websocket_endpoint`, which connects a
 * socket to an upload session, answers each question with a placeholder,
 * and on a client disconnect tears the session down for good.
 */
module WebSocketRoute {
  import opened Common
  import opened Store
  import opened Registry

  const PLACEHOLDER_RESPONSE: string :=
    "This is a placeholder response. The actual PDF-based Q&A will be implemented later."

  // ---------------------------------------------------------------------
  // Cleanup as functions

  /**
   * What goes wrong while one file is removed: checking or unlinking the
   * blob raises (so the record is not deleted either), or deleting the
   * record raises (after the blob is gone). Faults are keyed by the
   * record's saved filename, which the table keeps unique.
   */
  datatype CleanupFault = FilesystemFails | RecordDeleteFails

  type Faults = map<string, CleanupFault>

  /** The per-file step gets past the blob: its blob, if present, is unlinked. */
  predicate Unlinks(r: PdfRecord, faults: Faults)
  {
    r.savedFilename !in faults || faults[r.savedFilename] == RecordDeleteFails
  }

  /** The per-file step completes: its record is deleted. */
  predicate Deletes(r: PdfRecord, faults: Faults)
  {
    r.savedFilename !in faults
  }

  /** The rows of `rs` not in `drop`, in table order. */
  function Keep(rs: seq<PdfRecord>, drop: set<PdfRecord>): (r: seq<PdfRecord>)
    ensures forall x :: x in r <==> x in rs && x !in drop
  {
    if rs == [] then []
    else (if rs[0] in drop then [] else [rs[0]]) + Keep(rs[1..], drop)
  }

  /** The records the steps over `files` delete. */
  function DeletedRecords(files: seq<PdfRecord>, faults: Faults): set<PdfRecord>
  {
    if files == [] then {}
    else
      var r := files[|files| - 1];
      DeletedRecords(files[..|files| - 1], faults) + (if Deletes(r, faults) then {r} else {})
  }

  /** The blobs the steps over `files` unlink. */
  function UnlinkedBlobs(files: seq<PdfRecord>, faults: Faults): set<string>
  {
    if files == [] then {}
    else
      var r := files[|files| - 1];
      UnlinkedBlobs(files[..|files| - 1], faults) + (if Unlinks(r, faults) then {r.savedFilename} else {})
  }

  /** A record is deleted exactly when it is one of `files` and its step completes. */
  lemma {:induction false} DeletedRecordsMembers(files: seq<PdfRecord>, faults: Faults)
    ensures forall x :: x in DeletedRecords(files, faults) <==> x in files && Deletes(x, faults)
  {
    if files != [] {
      var init := files[..|files| - 1];
      DeletedRecordsMembers(init, faults);
      assert files == init + [files[|files| - 1]];
    }
  }

  /** A blob is unlinked exactly when it is named by one of `files` whose step gets past the blob. */
  lemma {:induction false} UnlinkedBlobsMembers(files: seq<PdfRecord>, faults: Faults)
    ensures forall x :: x in files && Unlinks(x, faults) ==> x.savedFilename in UnlinkedBlobs(files, faults)
    ensures forall n :: n in UnlinkedBlobs(files, faults) ==>
      exists x :: x in files && Unlinks(x, faults) && x.savedFilename == n
  {
    if files != [] {
      var init := files[..|files| - 1];
      UnlinkedBlobsMembers(init, faults);
      assert files == init + [files[|files| - 1]];
    }
  }

  /**
   * The table after a cleanup of `sessionId`: a record goes exactly when
   * it belongs to the session and its step did not fail; table order is
   * kept.
   */
  function KeptAfterCleanup(rs: seq<PdfRecord>, sessionId: string, faults: Faults): (r: seq<PdfRecord>)
    ensures forall x :: x in r <==> x in rs && (x.sessionId != sessionId || x.savedFilename in faults)
  {
    DeletedRecordsMembers(SessionRecords(rs, sessionId), faults);
    Keep(rs, DeletedRecords(SessionRecords(rs, sessionId), faults))
  }

  /** Filtering by no rows keeps the table. */
  lemma {:induction false} KeepNothing(rs: seq<PdfRecord>)
    ensures Keep(rs, {}) == rs
  {
    if rs != [] {
      KeepNothing(rs[1..]);
      assert [rs[0]] + rs[1..] == rs;
    }
  }

  /** Deleting one more row from a filtered table is filtering by one more row. */
  lemma {:induction false} KeepWithout(rs: seq<PdfRecord>, drop: set<PdfRecord>, x: PdfRecord)
    ensures Without(Keep(rs, drop), x) == Keep(rs, drop + {x})
  {
    if rs != [] {
      KeepWithout(rs[1..], drop, x);
      var head := if rs[0] in drop then [] else [rs[0]];
      var rest := Keep(rs[1..], drop);
      if head == [] {
        assert Keep(rs, drop) == rest;
      } else {
        assert (head + rest)[0] == rs[0];
        assert (head + rest)[1..] == rest;
      }
    }
  }

  /** Dropping rows of other sessions leaves a session's rows as they were, in order. */
  lemma {:induction false} KeepOtherSessions(rs: seq<PdfRecord>, drop: set<PdfRecord>, sessionId: string)
    requires forall x :: x in drop ==> x.sessionId != sessionId
    ensures SessionRecords(Keep(rs, drop), sessionId) == SessionRecords(rs, sessionId)
  {
    if rs != [] {
      KeepOtherSessions(rs[1..], drop, sessionId);
      var rest := Keep(rs[1..], drop);
      if rs[0] !in drop {
        assert ([rs[0]] + rest)[0] == rs[0];
        assert ([rs[0]] + rest)[1..] == rest;
      } else {
        assert Keep(rs, drop) == rest;
      }
    }
  }

  /** A cleanup of one session leaves every other session's records untouched and in order. */
  lemma OtherSessionsUntouched(rs: seq<PdfRecord>, sessionId: string, other: string, faults: Faults)
    requires other != sessionId
    ensures SessionRecords(KeptAfterCleanup(rs, sessionId, faults), other) == SessionRecords(rs, other)
  {
    DeletedRecordsMembers(SessionRecords(rs, sessionId), faults);
    KeepOtherSessions(rs, DeletedRecords(SessionRecords(rs, sessionId), faults), other);
  }

  /**
   * Without faults, a cleanup leaves no record of the session and none
   * of its blobs, whether or not each blob was still there.
   */
  lemma CleanupWithoutFaults(rs: seq<PdfRecord>, blobs: set<string>, sessionId: string)
    ensures SessionRecords(KeptAfterCleanup(rs, sessionId, map[]), sessionId) == []
    ensures forall x :: x in rs && x.sessionId == sessionId ==>
      x.savedFilename !in blobs - UnlinkedBlobs(SessionRecords(rs, sessionId), map[])
  {
    NoSessionRecords(KeptAfterCleanup(rs, sessionId, map[]), sessionId);
    UnlinkedBlobsMembers(SessionRecords(rs, sessionId), map[]);
  }

  /** A table without rows of the session yields none for it. */
  lemma {:induction false} NoSessionRecords(rs: seq<PdfRecord>, sessionId: string)
    requires forall x :: x in rs ==> x.sessionId != sessionId
    ensures SessionRecords(rs, sessionId) == []
  {
    if rs != [] {
      assert rs[0] in rs;
      NoSessionRecords(rs[1..], sessionId);
    }
  }

  // ---------------------------------------------------------------------
  // cleanup_session_pdf_files

  /**
   * Remove each of the session's files: unlink its blob if it exists,
   * then delete its record; an exception on one file is logged and the
   * next file is processed. The deletions are committed at the end.
   */
  method CleanupSessionPdfFiles(sessionId: string, db: DocumentStore, faults: Faults)
    modifies db
    ensures db.records == KeptAfterCleanup(old(db.records), sessionId, faults)
    ensures db.blobs == old(db.blobs) - UnlinkedBlobs(SessionRecords(old(db.records), sessionId), faults)
  {
    var files := SessionRecords(db.records, sessionId);
    KeepNothing(db.records);
    var i := 0;
    while i < |files|
      invariant 0 <= i <= |files|
      invariant db.records == Keep(old(db.records), DeletedRecords(files[..i], faults))
      invariant db.blobs == old(db.blobs) - UnlinkedBlobs(files[..i], faults)
    {
      RemoveSessionFile(files, i, db, faults, old(db.records), old(db.blobs));
      i := i + 1;
    }
    assert files[..i] == files;
  }

  /**
   * The body of the cleanup loop for `files[i]`: unlink its blob if it
   * exists, then delete its record, unless `faults` says one of the two
   * raises. The table and directory go from the state after `files[..i]`
   * to the state after `files[..i + 1]`.
   */
  method RemoveSessionFile(files: seq<PdfRecord>, i: nat, db: DocumentStore, faults: Faults,
                           ghost records0: seq<PdfRecord>, ghost blobs0: set<string>)
    requires i < |files|
    requires db.records == Keep(records0, DeletedRecords(files[..i], faults))
    requires db.blobs == blobs0 - UnlinkedBlobs(files[..i], faults)
    modifies db
    ensures db.records == Keep(records0, DeletedRecords(files[..i + 1], faults))
    ensures db.blobs == blobs0 - UnlinkedBlobs(files[..i + 1], faults)
  {
    var file := files[i];
    assert files[..i + 1][..i] == files[..i];
    ghost var deleted := DeletedRecords(files[..i], faults);
    ghost var unlinked := UnlinkedBlobs(files[..i], faults);
    if file.savedFilename in faults && faults[file.savedFilename] == FilesystemFails {
      // `exists()` or `unlink()` raised: nothing changes for this file
      assert DeletedRecords(files[..i + 1], faults) == deleted;
      assert UnlinkedBlobs(files[..i + 1], faults) == unlinked;
    } else {
      db.UnlinkIfExists(file.savedFilename);
      assert UnlinkedBlobs(files[..i + 1], faults) == unlinked + {file.savedFilename};
      if file.savedFilename !in faults {
        KeepWithout(records0, deleted, file);
        db.DeleteRecord(file);
        assert DeletedRecords(files[..i + 1], faults) == deleted + {file};
      } else {
        // `db.delete()` raised after the blob was unlinked
        assert DeletedRecords(files[..i + 1], faults) == deleted;
      }
    }
  }

  // ---------------------------------------------------------------------
  // pdf_qa_websocket_endpoint

  /** How the receive loop ends: the client disconnects, or some other exception is raised. */
  datatype Termination = ClientDisconnect | ServerError(description: string)

  /** The frames sent for `questions`: one placeholder answer each, in order. */
  function Replies(websocket: Handle, questions: seq<string>): (r: seq<TransportEvent>)
    ensures |r| == |questions|
    ensures forall k :: 0 <= k < |r| ==> r[k] == SentText(websocket, PLACEHOLDER_RESPONSE)
  {
    if questions == [] then []
    else Replies(websocket, questions[..|questions| - 1]) + [SentText(websocket, PLACEHOLDER_RESPONSE)]
  }

  /**
   * One run of the endpoint for `websocket` on `sessionId`. The client
   * sends `questions` and then the loop ends as `termination` says;
   * `faults` are the failures the cleanup meets. An unauthorized session
   * is refused and nothing else happens. Otherwise every question gets
   * one placeholder answer; a client disconnect then cleans the session
   * up and withdraws it from the established and authorized sets, while
   * any other exception skips the cleanup and leaves the endpoint
   * (`escaped`). Either way the session no longer holds a socket.
   */
  method PdfQaWebsocketEndpoint(manager: ConnectionManager, db: DocumentStore, websocket: Handle, sessionId: string,
                                questions: seq<string>, termination: Termination, faults: Faults)
    returns (escaped: Option<string>)
    requires manager.Valid()
    modifies manager, db
    ensures manager.Valid()
    ensures sessionId !in old(manager.authorizedSessions) ==>
      && manager.events == old(manager.events) + [Closed(websocket, POLICY_VIOLATION, UPLOAD_FIRST)]
      && manager.activeConnections == old(manager.activeConnections) - {sessionId}
      && manager.authorizedSessions == old(manager.authorizedSessions)
      && manager.establishedSessions == old(manager.establishedSessions)
      && db.records == old(db.records) && db.blobs == old(db.blobs)
      && escaped == None
    ensures sessionId in old(manager.authorizedSessions) ==>
      && manager.events == old(manager.events) + [Accepted(websocket)] + Replies(websocket, questions)
      && manager.activeConnections == old(manager.activeConnections) - {sessionId}
    ensures sessionId in old(manager.authorizedSessions) && termination == ClientDisconnect ==>
      && manager.authorizedSessions == old(manager.authorizedSessions) - {sessionId}
      && manager.establishedSessions == old(manager.establishedSessions) - {sessionId}
      && db.records == KeptAfterCleanup(old(db.records), sessionId, faults)
      && db.blobs == old(db.blobs) - UnlinkedBlobs(SessionRecords(old(db.records), sessionId), faults)
      && escaped == None
    ensures sessionId in old(manager.authorizedSessions) && termination.ServerError? ==>
      && manager.authorizedSessions == old(manager.authorizedSessions)
      && manager.establishedSessions == old(manager.establishedSessions) + {sessionId}
      && db.records == old(db.records) && db.blobs == old(db.blobs)
      && escaped == Some(termination.description)
  {
    var connected := manager.Connect(websocket, sessionId);
    if !connected {
      manager.Disconnect(sessionId);  // the `finally` clause
      return None;
    }

    AnswerQuestions(manager, websocket, sessionId, questions);

    match termination {
      case ClientDisconnect =>
        OnClientDisconnect(manager, db, sessionId, faults);
        escaped := None;
      case ServerError(description) =>
        escaped := Some(description);
    }
    manager.Disconnect(sessionId);  // the `finally` clause
  }

  /**
   * The receive loop: each question is answered with the placeholder on
   * the session's socket, which is `websocket` since the connect.
   */
  method AnswerQuestions(manager: ConnectionManager, websocket: Handle, sessionId: string, questions: seq<string>)
    requires manager.Valid()
    requires sessionId in manager.activeConnections && manager.activeConnections[sessionId] == websocket
    modifies manager`events
    ensures manager.events == old(manager.events) + Replies(websocket, questions)
  {
    var i := 0;
    while i < |questions|
      invariant 0 <= i <= |questions|
      invariant manager.events == old(manager.events) + Replies(websocket, questions[..i])
    {
      manager.Send(PLACEHOLDER_RESPONSE, sessionId);
      assert questions[..i + 1][..i] == questions[..i];
      i := i + 1;
    }
    assert questions[..i] == questions;
  }

  /**
   * The `WebSocketDisconnect` handler: unbind the socket and, if the
   * session had connected, clean it up and withdraw it from the
   * established and authorized sets. The invariant of the manager makes
   * the removal from the authorized set safe.
   */
  method OnClientDisconnect(manager: ConnectionManager, db: DocumentStore, sessionId: string, faults: Faults)
    requires manager.Valid()
    modifies manager, db
    ensures manager.Valid()
    ensures manager.activeConnections == old(manager.activeConnections) - {sessionId}
    ensures manager.events == old(manager.events)
    ensures sessionId in old(manager.establishedSessions) ==>
      && manager.authorizedSessions == old(manager.authorizedSessions) - {sessionId}
      && manager.establishedSessions == old(manager.establishedSessions) - {sessionId}
      && db.records == KeptAfterCleanup(old(db.records), sessionId, faults)
      && db.blobs == old(db.blobs) - UnlinkedBlobs(SessionRecords(old(db.records), sessionId), faults)
    ensures sessionId !in old(manager.establishedSessions) ==>
      && manager.authorizedSessions == old(manager.authorizedSessions)
      && manager.establishedSessions == old(manager.establishedSessions)
      && db.records == old(db.records) && db.blobs == old(db.blobs)
  {
    manager.Disconnect(sessionId);
    if sessionId in manager.establishedSessions {
      CleanupSessionPdfFiles(sessionId, db, faults);
      assert sessionId in manager.authorizedSessions;
      manager.establishedSessions := manager.establishedSessions - {sessionId};
      manager.authorizedSessions := manager.authorizedSessions - {sessionId};
    }
  }

  /**
   * Two runs on the same session, the first ended by the client: the
   * second is refused, so the session's files are cleaned up once and the
   * table and directory are left as the first run left them.
   */
  method CleanupHappensOnce(manager: ConnectionManager, db: DocumentStore, first: Handle, second: Handle,
                            sessionId: string, questions: seq<string>, later: seq<string>,
                            termination: Termination, faults: Faults, laterFaults: Faults)
    requires manager.Valid() && sessionId in manager.authorizedSessions
    modifies manager, db
    ensures manager.Valid()
    ensures sessionId !in manager.authorizedSessions && sessionId !in manager.establishedSessions
    ensures db.records == KeptAfterCleanup(old(db.records), sessionId, faults)
    ensures |manager.events| > 0 && manager.events[|manager.events| - 1] == Closed(second, POLICY_VIOLATION, UPLOAD_FIRST)
  {
    var _ := PdfQaWebsocketEndpoint(manager, db, first, sessionId, questions, ClientDisconnect, faults);
    var _ := PdfQaWebsocketEndpoint(manager, db, second, sessionId, later, termination, laterFaults);
  }
}
