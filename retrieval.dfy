/**
 * The retrieval service (`PDFProcessor`): one vector-store collection per
 * upload session, kept in the `collections` map beside the store client's
 * own set of collection names. What the store ranks, what the reader
 * extracts from a page and what the language model answers are inputs:
 * page texts, retrieved documents and a `generate` function.
 */
module Retrieval {
  import opened Text

  const NO_DOCUMENTS: string := "No documents found for this session. Please upload PDFs first."

  /** The text before the context in the answer prompt (its continuation lines keep the prompt's indentation). */
  const PROMPT_HEAD: string :=
    "Based on the following context, answer the question. \n"
    + "        If the answer cannot be found in the context, say \"I cannot find the answer in the provided documents.\"\n"
    + "        \n"
    + "        Context:\n"
    + "        "

  /** The text between the context and the question in the answer prompt. */
  const PROMPT_MIDDLE: string := "\n        \n        Question: "

  /** A PDF file as the reader sees it: the extracted text of each page. */
  type Pdf = seq<string>

  datatype Document = Document(id: string, text: string)

  datatype Collection = Collection(name: string, documents: seq<Document>)

  // ---------------------------------------------------------------------
  // Text extraction

  /** The accumulator of `_extract_text_from_pdf`: each page's text followed by a newline. */
  function PageText(pages: Pdf): string
  {
    if pages == [] then "" else PageText(pages[..|pages| - 1]) + pages[|pages| - 1] + "\n"
  }

  /** What `_extract_text_from_pdf` returns for `pages`. */
  function ExtractedText(pages: Pdf): string
  {
    Strip(PageText(pages))
  }

  /** The accumulated text of a non-empty PDF is its pages joined by newlines, plus a final newline. */
  lemma {:induction false} PageTextJoin(pages: Pdf)
    requires pages != []
    ensures PageText(pages) == Join(pages, "\n") + "\n"
    decreases |pages|
  {
    var init := pages[..|pages| - 1];
    var last := pages[|pages| - 1];
    assert PageText(pages) == PageText(init) + last + "\n";
    if init == [] {
      assert Join(pages, "\n") == last;
    } else {
      assert pages == init + [last];
      PageTextJoin(init);
      JoinSnoc(init, last, "\n");
      assert Join(pages, "\n") == Join(init, "\n") + "\n" + last;
    }
  }

  /** The extracted text is the stripped newline-join of the pages: the final newline adds nothing. */
  lemma ExtractedTextJoin(pages: Pdf)
    ensures ExtractedText(pages) == Strip(Join(pages, "\n"))
  {
    if pages != [] {
      PageTextJoin(pages);
      StripDropsTrailingSpace(Join(pages, "\n"), '\n');
    }
  }

  // ---------------------------------------------------------------------
  // Document ids and the documents of a session

  /** `f"{session_id}_doc_{i}"`. */
  function DocId(sessionId: string, i: nat): string
  {
    sessionId + "_doc_" + NatToString(i)
  }

  /** Within a session, different positions give different ids. */
  lemma DocIdInjective(sessionId: string, i: nat, j: nat)
    requires DocId(sessionId, i) == DocId(sessionId, j)
    ensures i == j
  {
    PrefixCancel(sessionId + "_doc_", NatToString(i), NatToString(j));
    NatToStringInjective(i, j);
  }

  /** The documents `process_pdfs` adds for `pdfs`, one per file (see `DocumentsAt`). */
  function Documents(sessionId: string, pdfs: seq<Pdf>): (ds: seq<Document>)
    ensures |ds| == |pdfs|
  {
    if pdfs == [] then []
    else
      var n := |pdfs| - 1;
      Documents(sessionId, pdfs[..n]) + [Document(DocId(sessionId, n), ExtractedText(pdfs[n]))]
  }

  /** The k-th document holds the k-th file's extracted text under the k-th id. */
  lemma {:induction false} DocumentsAt(sessionId: string, pdfs: seq<Pdf>, k: nat)
    requires k < |pdfs|
    ensures Documents(sessionId, pdfs)[k] == Document(DocId(sessionId, k), ExtractedText(pdfs[k]))
    decreases |pdfs|
  {
    var n := |pdfs| - 1;
    var init := Documents(sessionId, pdfs[..n]);
    var last := Document(DocId(sessionId, n), ExtractedText(pdfs[n]));
    assert Documents(sessionId, pdfs) == init + [last];
    if k < n {
      DocumentsAt(sessionId, pdfs[..n], k);
      assert pdfs[..n][k] == pdfs[k];
      assert (init + [last])[k] == init[k];
    } else {
      assert (init + [last])[k] == last;
    }
  }

  /** No two documents of one session share an id. */
  lemma DocumentIdsDistinct(sessionId: string, pdfs: seq<Pdf>, j: nat, k: nat)
    requires j < k < |pdfs|
    ensures Documents(sessionId, pdfs)[j].id != Documents(sessionId, pdfs)[k].id
  {
    DocumentsAt(sessionId, pdfs, j);
    DocumentsAt(sessionId, pdfs, k);
    if DocId(sessionId, j) == DocId(sessionId, k) {
      DocIdInjective(sessionId, j, k);
    }
  }

  // ---------------------------------------------------------------------
  // The answer prompt

  /** `"\n".join(results['documents'][0])`. */
  function Context(retrieved: seq<string>): string
  {
    Join(retrieved, "\n")
  }

  /** The context is one retrieved document per line when no document spans lines. */
  lemma ContextLines(retrieved: seq<string>)
    requires |retrieved| >= 1
    requires forall k :: 0 <= k < |retrieved| ==> '\n' !in retrieved[k]
    ensures Split(Context(retrieved), '\n') == retrieved
  {
    SplitJoin(retrieved, '\n');
  }

  /** The prompt sent to the model for `context` and `question`. */
  function Prompt(context: string, question: string): string
  {
    PROMPT_HEAD + context + PROMPT_MIDDLE + question
  }

  /** The prompt carries the context right after its fixed head and ends with the question. */
  lemma PromptEmbeds(context: string, question: string)
    ensures var p := Prompt(context, question);
      && p[..|PROMPT_HEAD|] == PROMPT_HEAD
      && p[|PROMPT_HEAD|..|PROMPT_HEAD| + |context|] == context
      && EndsWith(p, question)
  {
  }

  /** For a fixed question, different contexts give different prompts. */
  lemma PromptDeterminesContext(c1: string, c2: string, question: string)
    requires Prompt(c1, question) == Prompt(c2, question)
    ensures c1 == c2
  {
    assert |c1| == |c2|;
    PromptEmbeds(c1, question);
    PromptEmbeds(c2, question);
  }

  // ---------------------------------------------------------------------
  // PDFProcessor

  class PdfProcessor {
    /** `self.collections`: the collection of each processed session. */
    var collections: map<string, Collection>
    /** The names of the collections the vector-store client holds. */
    var indexNames: set<string>

    /** The map and the client agree on which sessions have a collection, each under its session's name. */
    ghost predicate Valid()
      reads this
    {
      && collections.Keys == indexNames
      && forall s :: s in collections ==> collections[s].name == s
    }

    constructor ()
      ensures Valid()
      ensures collections == map[] && indexNames == {}
    {
      collections := map[];
      indexNames := {};
    }

    /** `_extract_text_from_pdf`: append each page's text and a newline, then strip. */
    method ExtractTextFromPdf(pages: Pdf) returns (text: string)
      ensures text == ExtractedText(pages)
    {
      var acc := "";
      for i := 0 to |pages|
        invariant acc == PageText(pages[..i])
      {
        assert pages[..i + 1][..i] == pages[..i];
        acc := acc + pages[i] + "\n";
      }
      assert pages[..|pages|] == pages;
      text := Strip(acc);
    }

    /**
     * `process_pdfs`: create the session's collection (the client refuses
     * a name it already holds, and then nothing changes), register it,
     * and add one document per file, in order.
     */
    method ProcessPdfs(sessionId: string, pdfs: seq<Pdf>) returns (created: bool)
      requires Valid()
      modifies this
      ensures Valid()
      ensures created <==> sessionId !in old(collections)
      ensures !created ==> collections == old(collections) && indexNames == old(indexNames)
      ensures created ==>
        && indexNames == old(indexNames) + {sessionId}
        && collections == old(collections)[sessionId := Collection(sessionId, Documents(sessionId, pdfs))]
    {
      if sessionId in indexNames {
        return false;
      }
      indexNames := indexNames + {sessionId};
      collections := collections[sessionId := Collection(sessionId, [])];
      for i := 0 to |pdfs|
        invariant indexNames == old(indexNames) + {sessionId}
        invariant collections == old(collections)[sessionId := Collection(sessionId, Documents(sessionId, pdfs[..i]))]
      {
        AddPdf(sessionId, pdfs, i, old(collections));
      }
      assert pdfs[..|pdfs|] == pdfs;
      created := true;
    }

    /**
     * One turn of the `process_pdfs` loop: extract the i-th file's text
     * and add it to the session's collection under the i-th id.
     */
    method AddPdf(sessionId: string, pdfs: seq<Pdf>, i: nat, ghost collections0: map<string, Collection>)
      requires i < |pdfs|
      requires collections == collections0[sessionId := Collection(sessionId, Documents(sessionId, pdfs[..i]))]
      modifies this`collections
      ensures collections == collections0[sessionId := Collection(sessionId, Documents(sessionId, pdfs[..i + 1]))]
    {
      var text := ExtractTextFromPdf(pdfs[i]);
      var documents := collections[sessionId].documents;
      assert pdfs[..i + 1][..i] == pdfs[..i];
      var collection := Collection(sessionId, documents + [Document(DocId(sessionId, i), text)]);
      assert collection == Collection(sessionId, Documents(sessionId, pdfs[..i + 1]));
      assert collections0[sessionId := collections[sessionId]][sessionId := collection] == collections0[sessionId := collection];
      collections := collections[sessionId := collection];
    }

    /**
     * `get_answer`: without a collection for the session, the fixed
     * message; otherwise the model's reply to the prompt built from the
     * retrieved documents and the question.
     */
    function GetAnswer(sessionId: string, question: string, retrieved: seq<string>, generate: string -> string): (answer: string)
      reads this
      ensures sessionId !in collections ==> answer == NO_DOCUMENTS
      ensures sessionId in collections ==> answer == generate(Prompt(Context(retrieved), question))
    {
      if sessionId !in collections then NO_DOCUMENTS
      else generate(Prompt(Context(retrieved), question))
    }

    /** `cleanup_session`: drop the session's collection from the client and the map, if there is one. */
    method CleanupSession(sessionId: string)
      requires Valid()
      modifies this
      ensures Valid()
      ensures collections == old(collections) - {sessionId}
      ensures indexNames == old(indexNames) - {sessionId}
      ensures forall s :: s in old(collections) && s != sessionId ==> s in collections && collections[s] == old(collections)[s]
    {
      if sessionId in collections {
        indexNames := indexNames - {sessionId};
        collections := collections - {sessionId};
      }
    }
  }

  /** A second cleanup of the same session changes nothing. */
  method CleanupTwice(processor: PdfProcessor, sessionId: string)
    requires processor.Valid()
    modifies processor
    ensures processor.Valid()
    ensures processor.collections == old(processor.collections) - {sessionId}
    ensures processor.indexNames == old(processor.indexNames) - {sessionId}
  {
    processor.CleanupSession(sessionId);
    ghost var once := processor.collections;
    processor.CleanupSession(sessionId);
    assert processor.collections == once;
  }

  /** After a cleanup, a question about the session gets the fixed message. */
  method AskAfterCleanup(processor: PdfProcessor, sessionId: string, question: string,
                         retrieved: seq<string>, generate: string -> string) returns (answer: string)
    requires processor.Valid()
    modifies processor
    ensures processor.Valid()
    ensures processor.collections == old(processor.collections) - {sessionId}
    ensures answer == NO_DOCUMENTS
  {
    processor.CleanupSession(sessionId);
    answer := processor.GetAnswer(sessionId, question, retrieved, generate);
  }
}
