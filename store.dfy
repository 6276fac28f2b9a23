/**
 * The document store: the `pdf_file_uploads` table (one record per saved
 * upload) and the upload directory (the set of blob names it holds).
 */
module Store {
  import opened Common

  /** One `PDFFileUpload` row: the saved upload's names, size, owning session and MIME type. */
  datatype PdfRecord = PdfRecord(
    originalFilename: string,
    savedFilename: string,
    fileSize: nat,
    sessionId: string,
    contentType: Option<string>)

  class DocumentStore {
    var records: seq<PdfRecord>
    var blobs: set<string>

    constructor (records: seq<PdfRecord>, blobs: set<string>)
      ensures this.records == records && this.blobs == blobs
    {
      this.records := records;
      this.blobs := blobs;
    }

    /** Write a file into the upload directory. */
    method WriteBlob(name: string)
      modifies this`blobs
      ensures blobs == old(blobs) + {name}
    {
      blobs := blobs + {name};
    }

    /** `if path.exists(): path.unlink()`. */
    method UnlinkIfExists(name: string)
      modifies this`blobs
      ensures blobs == old(blobs) - {name}
    {
      if name in blobs {
        blobs := blobs - {name};
      }
    }

    /** `db.add(record); db.commit()`. */
    method AddRecord(record: PdfRecord)
      modifies this`records
      ensures records == old(records) + [record]
    {
      records := records + [record];
    }

    /** `db.delete(record)`: the row goes; equal rows are the same row. */
    method DeleteRecord(record: PdfRecord)
      modifies this`records
      ensures records == Without(old(records), record)
    {
      records := Without(records, record);
    }
  }

  /** `rs` with every occurrence of `x` removed, order kept. */
  function Without(rs: seq<PdfRecord>, x: PdfRecord): (r: seq<PdfRecord>)
    ensures forall y :: y in r <==> y in rs && y != x
    ensures |r| <= |rs|
  {
    if rs == [] then []
    else (if rs[0] == x then [] else [rs[0]]) + Without(rs[1..], x)
  }

  /** `db.query(PDFFileUpload).filter(session_id == sessionId).all()`, in table order. */
  function SessionRecords(rs: seq<PdfRecord>, sessionId: string): (r: seq<PdfRecord>)
    ensures forall y :: y in r <==> y in rs && y.sessionId == sessionId
    ensures |r| <= |rs|
  {
    if rs == [] then []
    else (if rs[0].sessionId == sessionId then [rs[0]] else []) + SessionRecords(rs[1..], sessionId)
  }
}
