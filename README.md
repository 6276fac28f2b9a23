# Upload sessions for PDF question answering — a Dafny model

This project models the session lifecycle of a small FastAPI service. A client uploads a batch of PDF files. The service checks each file, saves the accepted ones under unique names and records them in the `pdf_file_uploads` table. It then authorizes the batch's session id. With that id the client can open one WebSocket, ask questions and get answers. When the client disconnects, the session's files and records are removed and the session is withdrawn for good.

The modules follow the source:

- `Common`: `Option`.
- `Text`: the Python string operations the code relies on: `f"{i}"`, `str.join`, `str.strip`, `str.endswith`, `rfind`, and `pathlib`'s `stem` / `suffix`. It also defines `Split`, the inverse of `Join`, which is used to state the round-trip, and `DigitsValue`, which reads a numeral back.
- `Tokens`: `uuid.uuid4()` as a source of tokens that never repeat.
- `Registry`: `WebSocketConnectionManager`.
- `Store`: the upload directory and the `pdf_file_uploads` table.
- `Validation`: the per-file checks and the fate of a batch, as functions.
- `UploadLoop`: the per-file loop, shared by both upload endpoints.
- `UploadRoute`: `POST /uploadfiles/` of the application package.
- `LegacyMain`: the earlier single-file application and its error middleware.
- `WebSocketRoute`: session cleanup and the socket endpoint.
- `Retrieval`: `PDFProcessor`'s collection bookkeeping, text extraction, document ids and prompt.

State that the source changes in place is kept in classes, which are updated by methods with `modifies` clauses:
- `ConnectionManager`: `activeConnections`, `authorizedSessions`, `establishedSessions`, plus a log of what was done to sockets.
- `DocumentStore`: `records`, `blobs`.
- `UuidSource`: the tokens issued.
- `PdfProcessor`: `collections`, plus the vector-store client's collection names.

Each loop of the source is a method with invariants. It is proved against a specification function:
- the upload batch against `Outcomes`;
- the cleanup against `KeptAfterCleanup` and `UnlinkedBlobs`;
- the answer loop against `Replies`;
- text extraction against `ExtractedText`;
- `process_pdfs` against `Documents`.

Lemmas then state what the source promises about those functions.

Failures are inputs of the model:
- `IncomingFile` carries whether reading, saving or committing the file raises.
- `Faults` says which cleanup step raises for which file.
- `Termination` says how the socket loop ends.

The extracted page texts, the documents the vector store retrieves and the language model's reply are parameters, since these are foreign calls.

The model follows the code as written. In particular:
- A second connect for an already connected session replaces the bound socket. It is not refused.
- Cleanup runs only when the client disconnects (`WebSocketDisconnect`). Any other exception skips it.
- Cleanup does not call `PDFProcessor.cleanup_session`.
- Reading the file is a check of its own, made between the name check and the size check.
- `process_pdfs` on a session that already has a collection fails, because the store client refuses a name it already holds. It does not replace the old index.

## Model

| member | source | states |
|---|---|---|
| Text.StripTrims | app/services/pdf_processor.py:43 | `strip()` keeps an infix of the string that starts and ends with non-whitespace (or is empty), and everything it drops around it is whitespace |
| Text.StemSuffixSplit | app/api/routes/upload.py:104-105 | the `stem` and the `suffix` of a file name put back together give the name |
| Tokens.TokensDistinct | app/api/routes/upload.py:75 | no two of the issued tokens are equal |
| Tokens.UuidSource.Fresh | app/api/routes/upload.py:75 | `uuid4()` returns a token not issued before, and the token is appended to the issued ones |
| Registry.ConnectionManager.constructor | app/services/websocket_manager.py:17-20 | the manager starts with no sockets, no authorized and no established sessions |
| Registry.ConnectionManager.Connect | app/services/websocket_manager.py:35-43 | connects exactly when the session is authorized. It then accepts the socket, binds it (replacing any earlier one) and marks the session established. Otherwise it closes the socket with 1008 "Upload documents first" and changes nothing else. The invariant "bound ⊆ established ⊆ authorized" is kept |
| Registry.ConnectionManager.Disconnect | app/services/websocket_manager.py:45-47 | unbinds the session's socket if there is one, and nothing else changes |
| Registry.ConnectionManager.Send | app/services/websocket_manager.py:49-51 | one text frame to the bound socket, or nothing when the session has none |
| Registry.ConnectionManager.Authorize | app/services/websocket_manager.py:53-55 | adds the session to the authorized set, and nothing else changes |
| Store.DocumentStore.WriteBlob | app/api/routes/upload.py:109-111 | the upload directory gains the saved name |
| Store.DocumentStore.AddRecord | app/api/routes/upload.py:123-124 | the record is appended to the table |
| Store.DocumentStore.UnlinkIfExists | app/api/routes/websocket.py:21-22 | the blob is gone afterwards, whether or not it existed |
| Store.DocumentStore.DeleteRecord | app/api/routes/websocket.py:23 | the row is removed from the table, and the other rows keep their order |
| Store.SessionRecords | app/api/routes/websocket.py:15 | the query returns exactly the table's rows of that session |
| Validation.ErrorsField | app/api/routes/upload.py:142-144 | the `errors` key is present exactly when there are errors, and then holds them |
| Validation.InvalidTypeMessage | app/api/routes/upload.py:97-101 | the type error names itself as "Invalid file type" whatever type was declared |
| Validation.SmallestOversizeSize | app/api/routes/upload.py:89-94 | one byte over the 30 MiB cap is printed as "30.00" (two decimals, ties to even) |
| Validation.RoundHalfEvenNearest | app/api/routes/upload.py:93 | the `.2f` rounding is off by at most half a unit, and a value exactly halfway is rounded to the even neighbour |
| Validation.MegabytesTextValue | app/api/routes/upload.py:93 | for every size, the size text is a whole number, a point and exactly two digits, and it reads back as the size in hundredths of a MiB, rounded half-even |
| Validation.OversizeReportsAtLeastCap | app/api/routes/upload.py:89-94 | every rejected size is reported as at least 30.00 MB |
| Validation.ChecksRunInOrder | app/api/routes/upload.py:79-101 | a missing name is reported first, then a read failure, then the size, and the type error exactly when only the type check fails |
| Validation.PassesIffPdfWithinCap | app/api/routes/upload.py:79-101 | a file passes the checks iff it is named, readable, at most 30 MiB (the cap itself allowed), named `*.pdf` and declared `application/pdf` |
| Validation.SavedNameShape | app/api/routes/upload.py:104-106 | `x.pdf` is saved as `x_<token>.pdf`. The saved name keeps the `.pdf` extension and the original name is recoverable from it |
| Validation.EveryFileAccountedFor | app/api/routes/upload.py:77-140 | every file of the batch lands in exactly one of `files` and `errors` |
| Validation.OutcomeFacts | app/api/routes/upload.py:78-140 | one file is saved exactly when it is accepted, under its stem and suffix around its token. Otherwise its error is the expected one. A record exists exactly for a saved file with a database, and names the file, its size, type and session |
| Validation.OutcomeBlob | app/api/routes/upload.py:103-129 | a file leaves a blob under its saved name exactly when it passed the checks and the open did not fail, so also when the write or the commit failed afterwards. A saved file's name ends in `.pdf` |
| Validation.OutcomesMatchReference | app/api/routes/upload.py:77-140 | the response lists are the accepted names and the expected errors, in input order. The tokens decide only the saved names |
| Validation.RecordsFollowSavedFiles | app/api/routes/upload.py:116-129 | with a database, there is one committed record per `files` entry, in order, with the same names and the batch's session id |
| Validation.NoRecordsWithoutSession | AI_Planet_backend/main.py:107-122 | the earlier variant commits no record |
| Validation.SavedFilesWritten | app/api/routes/upload.py:109-129 | every file listed as saved is in the upload directory under its saved name |
| Validation.SavedNamesUseTokens | app/api/routes/upload.py:104-106 | every saved name comes from a `.pdf` name and is its stem and suffix around one of the batch's tokens |
| Validation.BarePdfSavedName | app/api/routes/upload.py:104-106 | a file named just `.pdf` has no suffix, so it is saved as `.pdf_<token>` |
| Validation.SavedNameInjective | app/api/routes/upload.py:104-106 | two `.pdf` names saved with different tokens get different saved names |
| Validation.SavedNamesDistinct | app/api/routes/upload.py:77-140 | when the batch draws consecutive tokens, no two of its `files` entries share a saved name |
| UploadLoop.SaveBatch | app/api/routes/upload.py:77-140 | the loop draws one token per passing file and never aborts. Its `files`/`errors` lists, the new table and the new directory are those that `Outcomes` gives for the drawn tokens |
| UploadLoop.HandleFile | app/api/routes/upload.py:78-140 | one file: a token is drawn only when the checks pass. The file's entry goes to exactly one list, and the store grows by the file's outcome |
| UploadLoop.SaveFile | app/api/routes/upload.py:103-129 | save, then commit a record naming the file, its size, type and session. A failed open writes nothing. A failed write leaves the created file behind and reports the save error. A failed commit leaves the blob behind and reports an unexpected error |
| UploadRoute.CreateUploadFiles | app/api/routes/upload.py:73-161 | the session id is a fresh token, drawn first. If nothing was saved, the call raises 400 with the message and the errors, and authorizes nothing. Otherwise it returns the lists and the session id and authorizes exactly that session. The returned saved names are pairwise distinct. Sockets are untouched |
| LegacyMain.CreateUploadFiles | AI_Planet_backend/main.py:67-148 | an empty request is refused with 400 "No files were provided" before any token is drawn or any file written. Otherwise the batch runs without a table, the returned saved names are pairwise distinct, and the response has no session id. The call never produces an internal error |
| LegacyMain.CatchExceptions | AI_Planet_backend/main.py:55-65 | a response passes through and an `HTTPException` is raised again unchanged. Exactly the other exceptions become a 500 with the fixed detail |
| LegacyMain.InternalErrorsIndistinguishable | AI_Planet_backend/main.py:62-65 | the 500 response does not depend on the exception |
| WebSocketRoute.DeletedRecordsMembers | app/api/routes/websocket.py:18-25 | a record is deleted exactly when it is one of the session's files and no step for it raised |
| WebSocketRoute.UnlinkedBlobsMembers | app/api/routes/websocket.py:18-25 | a blob is unlinked exactly when it is named by one of the files whose blob step did not raise |
| WebSocketRoute.KeptAfterCleanup | app/api/routes/websocket.py:13-27 | a row survives cleanup exactly when it is of another session or one of its steps raised |
| WebSocketRoute.OtherSessionsUntouched | app/api/routes/websocket.py:15-23 | cleanup leaves every other session's rows as they were, in order |
| WebSocketRoute.CleanupWithoutFaults | app/api/routes/websocket.py:13-27 | without failures no row and no blob of the session remains |
| WebSocketRoute.CleanupSessionPdfFiles | app/api/routes/websocket.py:13-27 | the new table is `KeptAfterCleanup` of the old one. The new directory is the old one minus the blobs unlinked for the session's files |
| WebSocketRoute.RemoveSessionFile | app/api/routes/websocket.py:19-25 | one file's step takes the table and directory from the state after the earlier files to the state after this one, whichever step raises |
| WebSocketRoute.Replies | app/api/routes/websocket.py:43-51 | one placeholder frame per question, on the session's socket |
| WebSocketRoute.AnswerQuestions | app/api/routes/websocket.py:43-51 | the receive loop appends exactly `Replies` to the socket log |
| WebSocketRoute.OnClientDisconnect | app/api/routes/websocket.py:55-61 | unbinds the socket. For an established session it also cleans up and withdraws the session from the established and authorized sets. Otherwise it changes nothing else |
| WebSocketRoute.PdfQaWebsocketEndpoint | app/api/routes/websocket.py:30-63 | an unauthorized session is closed with 1008 and nothing else changes. An authorized one is accepted and answered once per question. A disconnect then cleans up and withdraws the session. Any other exception escapes without cleanup. Either way no socket stays bound |
| WebSocketRoute.CleanupHappensOnce | app/api/routes/websocket.py:55-63 | after a disconnect the session cannot reconnect: a second connect is closed with 1008, and the table is as the single cleanup left it |
| Retrieval.PageTextJoin | app/services/pdf_processor.py:40-42 | the accumulated text is the pages joined by newlines, plus one newline |
| Retrieval.ExtractedTextJoin | app/services/pdf_processor.py:40-43 | the extracted text is the stripped newline-join of the page texts |
| Retrieval.DocIdInjective | app/services/pdf_processor.py:67 | within a session, different positions give different document ids |
| Retrieval.Documents | app/services/pdf_processor.py:61-68 | one document per input file |
| Retrieval.DocumentsAt | app/services/pdf_processor.py:61-68 | the k-th document holds the k-th file's extracted text under id `<session>_doc_<k>` |
| Retrieval.DocumentIdsDistinct | app/services/pdf_processor.py:61-68 | no two documents of a session share an id |
| Retrieval.ContextLines | app/services/pdf_processor.py:91 | the context holds one retrieved document per line, when no document spans lines |
| Retrieval.PromptEmbeds | app/services/pdf_processor.py:94-100 | the prompt is the fixed instruction text, then the context, and ends with the question |
| Retrieval.PromptDeterminesContext | app/services/pdf_processor.py:94-100 | for one question, different contexts give different prompts |
| Retrieval.PdfProcessor.constructor | app/services/pdf_processor.py:35 | the processor starts with no collections |
| Retrieval.PdfProcessor.ExtractTextFromPdf | app/services/pdf_processor.py:37-43 | the loop's result is `ExtractedText` of the pages |
| Retrieval.PdfProcessor.ProcessPdfs | app/services/pdf_processor.py:45-68 | a session with a collection is refused and nothing changes. Otherwise exactly that session gains a collection named after it, holding `Documents` of its files. The map and the client keep agreeing |
| Retrieval.PdfProcessor.AddPdf | app/services/pdf_processor.py:61-68 | one loop turn adds the next file's document under the next id |
| Retrieval.PdfProcessor.GetAnswer | app/services/pdf_processor.py:81-104 | without a collection the answer is exactly "No documents found for this session. Please upload PDFs first.". Otherwise it is the model's reply to the prompt built from the newline-joined documents and the question |
| Retrieval.PdfProcessor.CleanupSession | app/services/pdf_processor.py:106-110 | the session's collection is dropped from the map and the client if present. Every other session's collection is unchanged |
| Retrieval.CleanupTwice | app/services/pdf_processor.py:106-110 | a second cleanup of the session changes nothing |
| Retrieval.AskAfterCleanup | app/services/pdf_processor.py:81-82 | after a cleanup, a question about the session gets the fixed "no documents" answer |

## Left out

- HTTP plumbing is not modelled: FastAPI routing, request parsing, dependency injection, CORS, the lifespan hook, Redis and both rate limiters. A rate-limit rejection happens outside the modelled code.
- FastAPI rejects an empty multipart list with 422 before the route runs. `LegacyMain.CreateUploadFiles` models the route's own guard as written.
- In `AI_Planet_backend/main.py`, the `status_code=201` parameter is an ordinary query parameter and changes nothing. Responses carry no status code in the model.
- `LegacyMain.CatchExceptions` models the middleware alone. In Starlette an `HTTPException` is already turned into a response before it reaches an HTTP middleware.
- Real I/O, concurrency and `async` interleavings are not modelled. Each call runs to completion, one at a time.
- Tokens are `uuid-<n>`, not the UUID4 text format. Only their freshness matters to the code.
- `SavedName` treats the file name as one path component. Names containing `/` or `..` are not modelled as paths.
- `Validation.MegabytesTextValue` and `Validation.SmallestOversizeSize` rely on exact rational rounding. Python's float division agrees with it for sizes below 2^53 bytes.
- Per-file failures are modelled as flags on the file:
  - the read raises → `ReadFailed`;
  - opening the file for writing raises an `IOError` → `SaveFailed`, and nothing is created;
  - the write raises an `IOError` after the open → `SaveFailed`, and the created file stays in the directory with no record;
  - the commit raises → `Unexpected`.
  Other exception types raised by the open or the write, which would be reported as unexpected, are not distinguished. A partly written file is modelled by its name only, since contents are not modelled.
- SQLAlchemy session semantics are not modelled:
  - a failed commit is not rolled back, and later commits in the same session would fail too;
  - the row id and `upload_datetime` are generated by the database;
  - the table's uniqueness constraint on `saved_filename` is not modelled. Within one batch, distinct saved names are proved (`Validation.SavedNamesDistinct`). Across batches they follow from the tokens never repeating, but no lemma states that about the table.
- `Store.DocumentStore.DeleteRecord` removes every row equal to the deleted one. Rows are identified by their contents, which the unique `saved_filename` makes sound.
- WebSocketRoute.CleanupSessionPdfFiles: does not model a failing final `db.commit()`. The model assumes the deletions are committed.
- The exception text printed by the cleanup is not modelled, nor is the `print` logging of the connection manager.
- The contents of vector-store collections are not modelled: embeddings, ranking and `n_results=2`. `retrieved` is whatever the query returns.
- Retrieval.PdfProcessor.GetAnswer: the language model is a parameter function, and an exception from it or from the query is not modelled.
- Retrieval.PdfProcessor.ProcessPdfs: a `PdfReader` failure part-way through the loop is not modelled. In the source it would leave a registered collection with some documents. The model also represents a refused `create_collection` as the result `false` rather than an exception.
- A collection is a value in the map, not a shared object. Adding a document replaces the map entry, which is observably the same when no other reference to the collection escapes.
- Each module loads its own configuration and client at import time (`load_dotenv`, `genai.configure`, environment variables). None of this is modelled.
