/**
 * What both upload endpoints do to each file of a batch, as functions:
 * the ordered checks (name present, readable, at most 30 MiB, a `.pdf`
 * name with MIME type `application/pdf`), the name the file is saved
 * under, and what saving it writes. `Outcomes` gives the fate of a whole
 * batch from the tokens `uuid4` produced for it; `AcceptedNames` and
 * `ExpectedErrors` say the same without the tokens, and the lemmas below
 * connect the two.
 */
module Validation {
  import opened Common
  import opened Text
  import opened Store
  import opened Tokens

  const MAX_FILE_SIZE: nat := 30 * 1024 * 1024
  const PDF_EXTENSION: string := ".pdf"
  const PDF_MIME: string := "application/pdf"
  const HTTP_400_BAD_REQUEST: nat := 400
  const NO_FILES_UPLOADED: string := "No files were successfully uploaded"

  /**
   * One `UploadFile` of the request: its name (absent or empty when the
   * client sent none), the size of its contents, its declared MIME type,
   * and whether reading it, writing it to the upload directory, or
   * committing its record raises (with the exception's text).
   */
  datatype IncomingFile = IncomingFile(
    filename: Option<string>,
    size: nat,
    contentType: Option<string>,
    readFault: Option<string>,
    saveFault: Option<SaveFault>,
    commitFault: Option<string>)

  /**
   * How writing the file to the upload directory raises an `IOError`:
   * opening it for writing fails (no file is created), or the write fails
   * after the open has created the file (which is then left behind).
   */
  datatype SaveFault = OpenFails(reason: string) | WriteFails(reason: string)

  /** `FileUploadError`, `FileSizeError`, `FileTypeError`, and any other exception. */
  datatype ErrorKind =
    | MissingFilename
    | ReadFailed(reason: string)
    | TooLarge(size: nat)
    | InvalidType(contentType: Option<string>)
    | SaveFailed(reason: string)
    | Unexpected(reason: string)

  /** An entry of the response's `errors` list. */
  datatype FileError = FileError(filename: Option<string>, kind: ErrorKind)

  /** An entry of the response's `files` list. */
  datatype SavedFile = SavedFile(originalName: string, savedName: string)

  datatype ErrorDetail = Detail(text: string) | UploadFailure(message: string, errors: seq<FileError>)

  /** An exception leaving a route: FastAPI's `HTTPException`, or anything else. */
  datatype Exception = HttpException(statusCode: nat, detail: ErrorDetail) | Unhandled(description: string)

  /** What a route does: return a response or raise. */
  datatype Handled<R> = Returned(response: R) | Raised(error: Exception)

  /** The success body: `files`, `errors` only when there are some, and `session_id` (app variant). */
  datatype UploadBody = UploadBody(files: seq<SavedFile>, errors: Option<seq<FileError>>, sessionId: Option<string>)

  /** The `errors` key is present only when there are errors. */
  function ErrorsField(errors: seq<FileError>): (field: Option<seq<FileError>>)
    ensures field.Some? <==> errors != []
    ensures field.Some? ==> field.value == errors
  {
    if errors == [] then None else Some(errors)
  }

  // ---------------------------------------------------------------------
  // Error messages

  /** Round `num / den` to the nearest integer, ties to even, as `format(x, ".2f")` does. */
  function RoundHalfEven(num: nat, den: nat): nat
    requires den > 0
  {
    var q := num / den;
    var r := num % den;
    if 2 * r > den || (2 * r == den && q % 2 == 1) then q + 1 else q
  }

  /** A number of hundredths written with two decimals: `f"{h / 100:.2f}"`. */
  function CentsText(h: nat): string
  {
    NatToString(h / 100) + "." + [DigitChar(h % 100 / 10), DigitChar(h % 10)]
  }

  /** `f"{size / (1024 * 1024):.2f}"`. */
  function MegabytesText(size: nat): string
  {
    CentsText(RoundHalfEven(100 * size, 1024 * 1024))
  }

  /** The `error` text of an `errors` entry. */
  function Message(kind: ErrorKind): string
  {
    match kind
    case MissingFilename => "Filename is missing"
    case ReadFailed(e) => "Failed to read file: " + e
    case TooLarge(size) => "File size " + MegabytesText(size) + "MB exceeds the limit of 30MB"
    case InvalidType(ct) => "Invalid file type. Only PDF files are allowed (got " + ShowOptional(ct) + ")"
    case SaveFailed(e) => "Failed to save file: " + e
    case Unexpected(e) => "Unexpected error: " + e
  }

  /** The type error names itself, whatever type was declared. */
  lemma InvalidTypeMessage(contentType: Option<string>)
    ensures Message(InvalidType(contentType))[..17] == "Invalid file type"
  {
  }


  /** One byte over the cap rounds to 30.00: the size is printed to two decimals, ties to even. */
  lemma SmallestOversizeSize()
    ensures MegabytesText(MAX_FILE_SIZE + 1) == "30.00"
  {
    var num := 100 * (MAX_FILE_SIZE + 1);
    assert num / 1048576 == 3000 && num % 1048576 == 100;
    assert RoundHalfEven(num, 1024 * 1024) == 3000;
    assert NatToString(3) == "3";
    assert NatToString(30) == NatToString(3) + [DigitChar(0)];
  }

  /**
   * `RoundHalfEven` rounds to a nearest integer: it is off by at most one
   * half, and when it is off by exactly one half it is even.
   */
  lemma RoundHalfEvenNearest(num: nat, den: nat)
    requires den > 0
    ensures var q := RoundHalfEven(num, den);
      && (2 * q - 1) * den <= 2 * num <= (2 * q + 1) * den
      && ((2 * q - 1) * den == 2 * num || 2 * num == (2 * q + 1) * den ==> q % 2 == 0)
  {
    var q0 := num / den;
    var r := num % den;
    var q := RoundHalfEven(num, den);
    assert 2 * num == 2 * q0 * den + 2 * r;
    assert (2 * q - 1) * den == 2 * q * den - den;
    assert (2 * q + 1) * den == 2 * q * den + den;
    if q == q0 + 1 {
      assert 2 * q * den == 2 * q0 * den + 2 * den;
    }
  }

  /** Two decimals: a whole number, a point and two digits, which read back as `h`. */
  lemma CentsTextValue(h: nat)
    ensures var t := CentsText(h);
      && |t| >= 4 && t[|t| - 3] == '.'
      && (forall k :: 0 <= k < |t| && k != |t| - 3 ==> '0' <= t[k] <= '9')
      && DigitsValue(t[..|t| - 3]) * 100 + DigitsValue(t[|t| - 2..]) == h
  {
    var whole := NatToString(h / 100);
    var t := CentsText(h);
    var tail := [DigitChar(h % 100 / 10), DigitChar(h % 10)];
    assert t == whole + "." + tail;
    assert t[..|t| - 3] == whole;
    assert t[|t| - 2..] == tail;
    NatToStringValue(h / 100);
    assert tail[..1] == [DigitChar(h % 100 / 10)];
    assert tail[..1][..0] == [];
    assert DigitsValue(tail[..1]) == h % 100 / 10;
    assert DigitsValue(tail) == 10 * (h % 100 / 10) + h % 10;
  }

  /**
   * The size text is a whole number, a point and exactly two digits, and
   * reads back as the size in hundredths of a MiB rounded half-even.
   */
  lemma MegabytesTextValue(size: nat)
    ensures var t := MegabytesText(size);
      && |t| >= 4 && t[|t| - 3] == '.'
      && (forall k :: 0 <= k < |t| && k != |t| - 3 ==> '0' <= t[k] <= '9')
      && DigitsValue(t[..|t| - 3]) * 100 + DigitsValue(t[|t| - 2..]) == RoundHalfEven(100 * size, 1024 * 1024)
  {
    CentsTextValue(RoundHalfEven(100 * size, 1024 * 1024));
  }

  /** Every rejected size reports at least 30.00: the text never shows a size under the limit. */
  lemma OversizeReportsAtLeastCap(size: nat)
    requires size > MAX_FILE_SIZE
    ensures RoundHalfEven(100 * size, 1024 * 1024) >= 3000
  {
    assert 100 * size >= 3000 * (1024 * 1024) + 100;
  }

  // ---------------------------------------------------------------------
  // Per-file checks

  /** `file.filename` is truthy: present and non-empty. */
  predicate HasFilename(f: IncomingFile)
  {
    f.filename.Some? && f.filename.value != ""
  }

  /** The checks made before the file is named, in the order the endpoint checks them; `None` when all pass. */
  function Precheck(f: IncomingFile): Option<ErrorKind>
  {
    if !HasFilename(f) then Some(MissingFilename)
    else if f.readFault.Some? then Some(ReadFailed(f.readFault.value))
    else if f.size > MAX_FILE_SIZE then Some(TooLarge(f.size))
    else if !EndsWith(f.filename.value, PDF_EXTENSION) || f.contentType != Some(PDF_MIME) then
      Some(InvalidType(f.contentType))
    else None
  }

  /** A missing name is reported first, then a read failure, then the size, then the type. */
  lemma ChecksRunInOrder(f: IncomingFile)
    ensures !HasFilename(f) ==> Precheck(f) == Some(MissingFilename)
    ensures HasFilename(f) && f.readFault.Some? ==> Precheck(f) == Some(ReadFailed(f.readFault.value))
    ensures HasFilename(f) && f.readFault.None? && f.size > MAX_FILE_SIZE ==> Precheck(f) == Some(TooLarge(f.size))
    ensures Precheck(f) == Some(InvalidType(f.contentType)) <==>
      HasFilename(f) && f.readFault.None? && f.size <= MAX_FILE_SIZE
      && !(EndsWith(f.filename.value, PDF_EXTENSION) && f.contentType == Some(PDF_MIME))
  {
  }

  /**
   * A file passes exactly when it is named, readable, at most
   * `MAX_FILE_SIZE` bytes (the cap itself is allowed), named `*.pdf`
   * and declared `application/pdf`: either alone is not enough.
   */
  lemma PassesIffPdfWithinCap(f: IncomingFile)
    ensures Precheck(f).None? <==>
      && HasFilename(f) && f.readFault.None? && f.size <= MAX_FILE_SIZE
      && EndsWith(f.filename.value, ".pdf") && f.contentType == Some("application/pdf")
  {
  }

  // ---------------------------------------------------------------------
  // Saving one file

  /** `f"{Path(name).stem}_{token}{Path(name).suffix}"`. */
  function SavedName(filename: string, token: string): string
  {
    Stem(filename) + "_" + token + Suffix(filename)
  }

  /** For `x.pdf` the saved name is `x_<token>.pdf`: the original is recoverable and the extension kept. */
  lemma SavedNameShape(filename: string, token: string)
    requires 4 < |filename| && EndsWith(filename, PDF_EXTENSION)
    ensures SavedName(filename, token) == filename[..|filename| - 4] + "_" + token + ".pdf"
    ensures EndsWith(SavedName(filename, token), PDF_EXTENSION)
    ensures filename[..|filename| - 4] + ".pdf" == filename
  {
    PdfNameSplit(filename);
    assert filename[..|filename| - 4] + filename[|filename| - 4..] == filename;
  }

  /** The name `.pdf` alone has no suffix in the sense of `pathlib`, so the token is appended. */
  lemma BarePdfSavedName(token: string)
    ensures SavedName(".pdf", token) == ".pdf_" + token
  {
    DotPdfName();
  }

  /** The saved name spelt out: stem, `_uuid-`, the token's digits, suffix. */
  lemma SavedNameParts(filename: string, n: nat)
    ensures SavedName(filename, Token(n)) == (Stem(filename) + "_uuid") + "-" + NatToString(n) + Suffix(filename)
  {
  }

  /** The digits before a suffix that is `.pdf` or empty are fixed by the string. */
  lemma DigitsBeforeSuffix(x: string, d: string, s: string, y: string, e: string, t: string)
    requires x + "-" + d + s == y + "-" + e + t
    requires s == "" || s == ".pdf"
    requires t == "" || t == ".pdf"
    requires d != [] && forall k :: 0 <= k < |d| ==> '0' <= d[k] <= '9'
    requires e != [] && forall k :: 0 <= k < |e| ==> '0' <= e[k] <= '9'
    ensures d == e
  {
    var whole := x + "-" + d + s;
    var p := x + "-" + d;
    var q := y + "-" + e;
    assert whole[|whole| - 1] == (if s == "" then d[|d| - 1] else 'f');
    assert whole[|whole| - 1] == (if t == "" then e[|e| - 1] else 'f');
    assert s == t;
    assert p == whole[..|whole| - |s|] == q;
    TrailingDigits(x, d, y, e);
  }

  /**
   * Different tokens give different saved names, whatever the two `.pdf`
   * names: the token's digits end the name or sit right before `.pdf`.
   */
  lemma SavedNameInjective(f1: string, f2: string, a: nat, b: nat)
    requires EndsWith(f1, PDF_EXTENSION) && EndsWith(f2, PDF_EXTENSION)
    ensures SavedName(f1, Token(a)) == SavedName(f2, Token(b)) ==> a == b
  {
    if SavedName(f1, Token(a)) == SavedName(f2, Token(b)) {
      SavedNameParts(f1, a);
      SavedNameParts(f2, b);
      PdfSuffix(f1);
      PdfSuffix(f2);
      DigitsBeforeSuffix(Stem(f1) + "_uuid", NatToString(a), Suffix(f1), Stem(f2) + "_uuid", NatToString(b), Suffix(f2));
      NatToStringInjective(a, b);
    }
  }

  datatype Entry = Saved(file: SavedFile) | Failed(error: FileError)

  /** What one file contributes: its response entry, the blob it left, the record it committed. */
  datatype FileOutcome = FileOutcome(entry: Entry, blob: Option<string>, record: Option<PdfRecord>)

  /**
   * The steps after the checks, for a file that passed them: save the
   * contents under the generated name, then (when `session` is given,
   * i.e. in the variant with a database) commit its record. A write
   * that fails after the open leaves the created file behind, as does a
   * failed commit, which is reported as an unexpected error.
   */
  function ProcessFile(f: IncomingFile, token: string, session: Option<string>): FileOutcome
    requires Precheck(f).None?
  {
    var name := f.filename.value;
    var saved := SavedName(name, token);
    if f.saveFault.Some? then
      FileOutcome(Failed(FileError(f.filename, SaveFailed(f.saveFault.value.reason))),
                  if f.saveFault.value.WriteFails? then Some(saved) else None, None)
    else if session.None? then
      FileOutcome(Saved(SavedFile(name, saved)), Some(saved), None)
    else if f.commitFault.Some? then
      FileOutcome(Failed(FileError(f.filename, Unexpected(f.commitFault.value))), Some(saved), None)
    else
      FileOutcome(Saved(SavedFile(name, saved)), Some(saved),
                  Some(PdfRecord(name, saved, f.size, session.value, f.contentType)))
  }

  /** The outcome of a file that failed a check: an error entry and nothing written. */
  function Rejected(f: IncomingFile): FileOutcome
    requires Precheck(f).Some?
  {
    FileOutcome(Failed(FileError(f.filename, Precheck(f).value)), None, None)
  }

  /** How many files of the batch pass the checks, i.e. draw a token for their saved name. */
  function Passing(files: seq<IncomingFile>): nat
  {
    if files == [] then 0
    else Passing(files[..|files| - 1]) + (if Precheck(files[|files| - 1]).None? then 1 else 0)
  }

  /** The tokens left for the files before `f`, once `f` has taken its own (if it passes). */
  function TokensBefore(f: IncomingFile, tokens: seq<string>): seq<string>
    requires Precheck(f).Some? || |tokens| >= 1
  {
    if Precheck(f).Some? then tokens else tokens[..|tokens| - 1]
  }

  /** The fate of `f` when it is the last file and `tokens` are the tokens drawn so far. */
  function LastOutcome(f: IncomingFile, tokens: seq<string>, session: Option<string>): FileOutcome
    requires Precheck(f).Some? || |tokens| >= 1
  {
    if Precheck(f).Some? then Rejected(f) else ProcessFile(f, tokens[|tokens| - 1], session)
  }

  /** The fate of each file of the batch, in order; the passing files use `tokens` in turn. */
  function Outcomes(files: seq<IncomingFile>, tokens: seq<string>, session: Option<string>): (os: seq<FileOutcome>)
    requires |tokens| == Passing(files)
    ensures |os| == |files|
  {
    if files == [] then []
    else
      var n := |files| - 1;
      Outcomes(files[..n], TokensBefore(files[n], tokens), session) + [LastOutcome(files[n], tokens, session)]
  }

  /** Processing one more file extends the outcomes by that file's outcome. */
  lemma OutcomesExtend(files: seq<IncomingFile>, i: nat, tokens: seq<string>, next: seq<string>, session: Option<string>)
    requires i < |files| && |tokens| == Passing(files[..i])
    requires Precheck(files[i]).Some? ==> next == tokens
    requires Precheck(files[i]).None? ==> |next| == |tokens| + 1 && next[..|tokens|] == tokens
    ensures |next| == Passing(files[..i + 1])
    ensures Outcomes(files[..i + 1], next, session) == Outcomes(files[..i], tokens, session) + [LastOutcome(files[i], next, session)]
  {
    assert files[..i + 1][..i] == files[..i];
    assert TokensBefore(files[i], next) == tokens;
  }

  /** The response's `files` list. */
  function SavedEntries(os: seq<FileOutcome>): seq<SavedFile>
  {
    if os == [] then []
    else
      var o := os[|os| - 1];
      SavedEntries(os[..|os| - 1]) + (if o.entry.Saved? then [o.entry.file] else [])
  }

  /** The response's `errors` list. */
  function ErrorEntries(os: seq<FileOutcome>): seq<FileError>
  {
    if os == [] then []
    else
      var o := os[|os| - 1];
      ErrorEntries(os[..|os| - 1]) + (if o.entry.Failed? then [o.entry.error] else [])
  }

  /** The blobs written to the upload directory. */
  function WrittenBlobs(os: seq<FileOutcome>): set<string>
  {
    if os == [] then {}
    else
      var o := os[|os| - 1];
      WrittenBlobs(os[..|os| - 1]) + (if o.blob.Some? then {o.blob.value} else {})
  }

  /** The records committed to the table, in order. */
  function StoredRecords(os: seq<FileOutcome>): seq<PdfRecord>
  {
    if os == [] then []
    else
      var o := os[|os| - 1];
      StoredRecords(os[..|os| - 1]) + (if o.record.Some? then [o.record.value] else [])
  }

  lemma ProjectionsSnoc(os: seq<FileOutcome>, o: FileOutcome)
    ensures SavedEntries(os + [o]) == SavedEntries(os) + (if o.entry.Saved? then [o.entry.file] else [])
    ensures ErrorEntries(os + [o]) == ErrorEntries(os) + (if o.entry.Failed? then [o.entry.error] else [])
    ensures WrittenBlobs(os + [o]) == WrittenBlobs(os) + (if o.blob.Some? then {o.blob.value} else {})
    ensures StoredRecords(os + [o]) == StoredRecords(os) + (if o.record.Some? then [o.record.value] else [])
  {
    assert (os + [o])[..|os|] == os;
  }

  // ---------------------------------------------------------------------
  // The batch without tokens

  /** The file ends up in `files`: it passes the checks, is saved and (with a database) committed. */
  predicate Accepted(f: IncomingFile, session: Option<string>)
  {
    Precheck(f).None? && f.saveFault.None? && (session.None? || f.commitFault.None?)
  }

  /** Why a file that is not accepted ends up in `errors`. */
  function FailureOf(f: IncomingFile, session: Option<string>): ErrorKind
    requires !Accepted(f, session)
  {
    if Precheck(f).Some? then Precheck(f).value
    else if f.saveFault.Some? then SaveFailed(f.saveFault.value.reason)
    else Unexpected(f.commitFault.value)
  }

  /** The names of the accepted files, in input order. */
  function AcceptedNames(files: seq<IncomingFile>, session: Option<string>): seq<string>
  {
    if files == [] then []
    else
      var f := files[|files| - 1];
      AcceptedNames(files[..|files| - 1], session) + (if Accepted(f, session) then [f.filename.value] else [])
  }

  /** One error per file not accepted, in input order, under the name the file was sent with. */
  function ExpectedErrors(files: seq<IncomingFile>, session: Option<string>): seq<FileError>
  {
    if files == [] then []
    else
      var f := files[|files| - 1];
      ExpectedErrors(files[..|files| - 1], session)
        + (if Accepted(f, session) then [] else [FileError(f.filename, FailureOf(f, session))])
  }

  /**
   * The fate of one file, stated without the steps: it is saved exactly
   * when it is accepted, under its original name's stem and suffix around
   * the last token, and the blob is written under that name; otherwise
   * its error is the expected one. A record is committed exactly for a
   * saved file in the variant with a database, and names the file and
   * the session.
   */
  lemma OutcomeFacts(f: IncomingFile, tokens: seq<string>, session: Option<string>)
    requires Precheck(f).Some? || |tokens| >= 1
    ensures var o := LastOutcome(f, tokens, session);
      && (o.entry.Saved? <==> Accepted(f, session))
      && (o.entry.Saved? ==>
            && o.entry.file.originalName == f.filename.value
            && o.entry.file.savedName == SavedName(f.filename.value, tokens[|tokens| - 1])
            && o.blob == Some(o.entry.file.savedName))
      && (o.entry.Failed? ==> o.entry.error == FileError(f.filename, FailureOf(f, session)))
      && (o.record.Some? <==> session.Some? && o.entry.Saved?)
      && (o.record.Some? ==>
            o.record.value == PdfRecord(f.filename.value, o.entry.file.savedName, f.size, session.value, f.contentType))
  {
  }

  /**
   * What one file leaves in the upload directory: a blob under its saved
   * name exactly when it passed the checks and the open did not fail, so
   * also when the write or the commit failed afterwards; a saved file's
   * name ends in `.pdf`.
   */
  lemma OutcomeBlob(f: IncomingFile, tokens: seq<string>, session: Option<string>)
    requires Precheck(f).Some? || |tokens| >= 1
    ensures var o := LastOutcome(f, tokens, session);
      && (o.blob.Some? <==> Precheck(f).None? && !(f.saveFault.Some? && f.saveFault.value.OpenFails?))
      && (o.blob.Some? ==> o.blob.value == SavedName(f.filename.value, tokens[|tokens| - 1]))
      && (o.entry.Saved? ==> EndsWith(f.filename.value, PDF_EXTENSION))
  {
  }

  /** Every file lands in exactly one of the two lists. */
  lemma {:induction false} EveryFileAccountedFor(files: seq<IncomingFile>, session: Option<string>)
    ensures |AcceptedNames(files, session)| + |ExpectedErrors(files, session)| == |files|
  {
    if files != [] {
      EveryFileAccountedFor(files[..|files| - 1], session);
    }
  }

  /**
   * The batch's `files` and `errors` are the accepted names and the
   * expected errors: the tokens decide the saved names and nothing else,
   * no file is skipped, and input order is kept.
   */
  lemma {:induction false} OutcomesMatchReference(files: seq<IncomingFile>, tokens: seq<string>, session: Option<string>)
    requires |tokens| == Passing(files)
    ensures var saved := SavedEntries(Outcomes(files, tokens, session));
      && |saved| == |AcceptedNames(files, session)|
      && forall k :: 0 <= k < |saved| ==> saved[k].originalName == AcceptedNames(files, session)[k]
    ensures ErrorEntries(Outcomes(files, tokens, session)) == ExpectedErrors(files, session)
  {
    if files != [] {
      var n := |files| - 1;
      var rest := TokensBefore(files[n], tokens);
      OutcomesMatchReference(files[..n], rest, session);
      OutcomeFacts(files[n], tokens, session);
      ProjectionsSnoc(Outcomes(files[..n], rest, session), LastOutcome(files[n], tokens, session));
    }
  }

  /**
   * In the variant with a database, every committed record belongs to
   * the batch's session, and the records match the `files` entries one
   * for one (same original and saved names, same order).
   */
  lemma {:induction false} RecordsFollowSavedFiles(files: seq<IncomingFile>, tokens: seq<string>, sessionId: string)
    requires |tokens| == Passing(files)
    ensures var os := Outcomes(files, tokens, Some(sessionId));
      && |StoredRecords(os)| == |SavedEntries(os)|
      && forall k :: 0 <= k < |StoredRecords(os)| ==>
           && StoredRecords(os)[k].sessionId == sessionId
           && StoredRecords(os)[k].originalFilename == SavedEntries(os)[k].originalName
           && StoredRecords(os)[k].savedFilename == SavedEntries(os)[k].savedName
  {
    if files != [] {
      var n := |files| - 1;
      var rest := TokensBefore(files[n], tokens);
      RecordsFollowSavedFiles(files[..n], rest, sessionId);
      OutcomeFacts(files[n], tokens, Some(sessionId));
      ProjectionsSnoc(Outcomes(files[..n], rest, Some(sessionId)), LastOutcome(files[n], tokens, Some(sessionId)));
    }
  }

  /** Without a database nothing is committed. */
  lemma {:induction false} NoRecordsWithoutSession(files: seq<IncomingFile>, tokens: seq<string>)
    requires |tokens| == Passing(files)
    ensures StoredRecords(Outcomes(files, tokens, None)) == []
  {
    if files != [] {
      var n := |files| - 1;
      var rest := TokensBefore(files[n], tokens);
      NoRecordsWithoutSession(files[..n], rest);
      OutcomeFacts(files[n], tokens, None);
      ProjectionsSnoc(Outcomes(files[..n], rest, None), LastOutcome(files[n], tokens, None));
    }
  }

  /** `e` came from a `.pdf` name and was saved under its stem and suffix around one of `tokens`. */
  ghost predicate NamedWithToken(e: SavedFile, tokens: seq<string>)
  {
    && EndsWith(e.originalName, PDF_EXTENSION)
    && exists j :: 0 <= j < |tokens| && e.savedName == SavedName(e.originalName, tokens[j])
  }

  /** Every saved file is in the upload directory under its saved name. */
  lemma {:induction false} SavedFilesWritten(files: seq<IncomingFile>, tokens: seq<string>, session: Option<string>)
    requires |tokens| == Passing(files)
    ensures var os := Outcomes(files, tokens, session);
      forall e :: e in SavedEntries(os) ==> e.savedName in WrittenBlobs(os)
  {
    if files != [] {
      var n := |files| - 1;
      var rest := TokensBefore(files[n], tokens);
      SavedFilesWritten(files[..n], rest, session);
      OutcomeFacts(files[n], tokens, session);
      ProjectionsSnoc(Outcomes(files[..n], rest, session), LastOutcome(files[n], tokens, session));
    }
  }

  /** Every saved file is named by its original name's stem and suffix around one of the batch's tokens. */
  lemma {:induction false} SavedNamesUseTokens(files: seq<IncomingFile>, tokens: seq<string>, session: Option<string>)
    requires |tokens| == Passing(files)
    ensures forall e :: e in SavedEntries(Outcomes(files, tokens, session)) ==> NamedWithToken(e, tokens)
  {
    if files != [] {
      var n := |files| - 1;
      var rest := TokensBefore(files[n], tokens);
      var init := Outcomes(files[..n], rest, session);
      var last := LastOutcome(files[n], tokens, session);
      SavedNamesUseTokens(files[..n], rest, session);
      OutcomeFacts(files[n], tokens, session);
      OutcomeBlob(files[n], tokens, session);
      ProjectionsSnoc(init, last);
      forall e | e in SavedEntries(init)
        ensures NamedWithToken(e, tokens)
      {
        var j :| 0 <= j < |rest| && e.savedName == SavedName(e.originalName, rest[j]);
        assert rest[j] == tokens[j];
      }
    }
  }

  /** No two entries share a saved name. */
  predicate DistinctNames(saved: seq<SavedFile>)
  {
    forall i, j :: 0 <= i < j < |saved| ==> saved[i].savedName != saved[j].savedName
  }

  lemma DistinctNamesSnoc(saved: seq<SavedFile>, e: SavedFile)
    requires DistinctNames(saved)
    requires forall i :: 0 <= i < |saved| ==> saved[i].savedName != e.savedName
    ensures DistinctNames(saved + [e])
  {
  }

  /** An entry saved with one of `rest` is not named like a file saved with a later token. */
  lemma EarlierTokenOtherName(e: SavedFile, rest: seq<string>, lo: nat, m: nat, name: string)
    requires NamedWithToken(e, rest)
    requires forall k :: 0 <= k < |rest| ==> rest[k] == Token(lo + k)
    requires |rest| <= m && EndsWith(name, PDF_EXTENSION)
    ensures e.savedName != SavedName(name, Token(lo + m))
  {
    var j :| 0 <= j < |rest| && e.savedName == SavedName(e.originalName, rest[j]);
    assert rest[j] == Token(lo + j);
    SavedNameInjective(e.originalName, name, lo + j, lo + m);
  }

  /** A name saved with a token drawn after all of `rest` is not among the names saved with `rest`. */
  lemma LaterTokenNewName(pre: seq<SavedFile>, rest: seq<string>, lo: nat, m: nat, name: string)
    requires forall e :: e in pre ==> NamedWithToken(e, rest)
    requires forall k :: 0 <= k < |rest| ==> rest[k] == Token(lo + k)
    requires |rest| <= m && EndsWith(name, PDF_EXTENSION)
    ensures forall i :: 0 <= i < |pre| ==> pre[i].savedName != SavedName(name, Token(lo + m))
  {
    forall i | 0 <= i < |pre|
      ensures pre[i].savedName != SavedName(name, Token(lo + m))
    {
      assert pre[i] in pre;
      EarlierTokenOtherName(pre[i], rest, lo, m, name);
    }
  }

  /** When the last file is saved, its saved name is new among the names the earlier files were saved under. */
  lemma LastSavedNameNew(files: seq<IncomingFile>, tokens: seq<string>, session: Option<string>, lo: nat,
                         pre: seq<SavedFile>, name: string)
    requires files != [] && |tokens| == Passing(files)
    requires forall k :: 0 <= k < |tokens| ==> tokens[k] == Token(lo + k)
    requires LastOutcome(files[|files| - 1], tokens, session).entry.Saved?
    requires pre == SavedEntries(Outcomes(files[..|files| - 1], TokensBefore(files[|files| - 1], tokens), session))
    requires name == LastOutcome(files[|files| - 1], tokens, session).entry.file.savedName
    ensures forall i :: 0 <= i < |pre| ==> pre[i].savedName != name
  {
    var n := |files| - 1;
    var rest := TokensBefore(files[n], tokens);
    OutcomeFacts(files[n], tokens, session);
    OutcomeBlob(files[n], tokens, session);
    assert forall k :: 0 <= k < |rest| ==> rest[k] == tokens[k];
    SavedNamesUseTokens(files[..n], rest, session);
    LaterTokenNewName(pre, rest, lo, |tokens| - 1, files[n].filename.value);
  }

  /**
   * No two files of a batch are saved under the same name, given that the
   * batch draws consecutive tokens from the source.
   */
  lemma {:induction false} SavedNamesDistinct(files: seq<IncomingFile>, tokens: seq<string>, session: Option<string>, lo: nat)
    requires |tokens| == Passing(files)
    requires forall k :: 0 <= k < |tokens| ==> tokens[k] == Token(lo + k)
    ensures DistinctNames(SavedEntries(Outcomes(files, tokens, session)))
  {
    if files != [] {
      var n := |files| - 1;
      var rest := TokensBefore(files[n], tokens);
      var init := Outcomes(files[..n], rest, session);
      var last := LastOutcome(files[n], tokens, session);
      assert forall k :: 0 <= k < |rest| ==> rest[k] == tokens[k];
      SavedNamesDistinct(files[..n], rest, session, lo);
      ProjectionsSnoc(init, last);
      if last.entry.Saved? {
        LastSavedNameNew(files, tokens, session, lo, SavedEntries(init), last.entry.file.savedName);
        DistinctNamesSnoc(SavedEntries(init), last.entry.file);
      }
    }
  }
}
