/** `extract_bates_numbers` (bates_logger.py:16-45) over the page texts of a
    document. PyMuPDF is not modelled: a document is the sequence of texts
    `get_text("text")` would return, plus the step, if any, at which the
    library raises. */
module Extraction {
  import opened BatesPattern

  datatype Option<T> = None | Some(value: T)

  /** Where, if anywhere, an exception escapes from the `try` block. */
  datatype FailurePoint =
    | NoFailure
    | OpenFails        // fitz.open (line 22)
    | FirstPageFails   // doc[0] or its get_text (lines 26-27)
    | LastPageFails    // doc[-1] or its get_text (lines 35-36)
    | CloseFails       // doc.close (line 41)

  datatype PdfFile = PdfFile(pages: seq<string>, failure: FailurePoint)

  /** The pair returned at line 45: (first_bates, last_bates). */
  datatype BatesPair = BatesPair(first: Option<string>, last: Option<string>)

  /** The first page's text is searched: the document opened, has a page,
      and reading that page did not raise. */
  predicate FirstPageRead(doc: PdfFile)
  {
    doc.failure != OpenFails && |doc.pages| > 0 && doc.failure != FirstPageFails
  }

  /** The last page's text is searched as well. */
  predicate LastPageRead(doc: PdfFile)
  {
    FirstPageRead(doc) && doc.failure != LastPageFails
  }

  /** `first_matches[0]` if `first_matches` is non-empty (lines 29-31): the
      match that starts leftmost in the text. */
  function FirstOnPage(text: string): (r: Option<string>)
    ensures r.Some? <==> HasMatch(text)
    ensures r.Some? ==> IsBatesToken(r.value) && r.value == Window(text, FirstStart(text))
  {
    FindAllEnds(text);
    var matches := FindAll(text);
    if |matches| > 0 then Some(matches[0]) else None
  }

  /** `last_matches[-1]` if `last_matches` is non-empty (lines 37-39): the
      match that starts rightmost in the text. */
  function LastOnPage(text: string): (r: Option<string>)
    ensures r.Some? <==> HasMatch(text)
    ensures r.Some? ==> IsBatesToken(r.value) && r.value == Window(text, LastStart(text))
  {
    FindAllEnds(text);
    var matches := FindAll(text);
    if |matches| > 0 then Some(matches[|matches| - 1]) else None
  }

  /** `extract_bates_numbers`. An exception leaves both locals as they were
      when it was raised (lines 42-45). */
  function ExtractBatesNumbers(doc: PdfFile): (r: BatesPair)
    ensures r.first.Some? ==> IsBatesToken(r.first.value)
    ensures r.last.Some? ==> IsBatesToken(r.last.value)
    ensures r.first.Some? <==> FirstPageRead(doc) && HasMatch(doc.pages[0])
    ensures r.last.Some? <==> LastPageRead(doc) && HasMatch(doc.pages[|doc.pages| - 1])
    ensures r.first.Some? ==> r.first.value == Window(doc.pages[0], FirstStart(doc.pages[0]))
    ensures r.last.Some? ==>
              var text := doc.pages[|doc.pages| - 1];
              r.last.value == Window(text, LastStart(text))
  {
    if doc.failure == OpenFails || |doc.pages| == 0 || doc.failure == FirstPageFails then
      BatesPair(None, None)
    else
      var first := FirstOnPage(doc.pages[0]);
      if doc.failure == LastPageFails then BatesPair(first, None)
      else BatesPair(first, LastOnPage(doc.pages[|doc.pages| - 1]))
  }

  /** A failure keeps what was assigned before it: a failure on the last page
      yields the first value of a clean run and no last value, a failure on
      close yields the clean result, and an earlier failure yields nothing. */
  lemma FailureKeepsAssigned(doc: PdfFile)
    ensures var clean := ExtractBatesNumbers(doc.(failure := NoFailure));
            match doc.failure
            case NoFailure => true
            case OpenFails => ExtractBatesNumbers(doc) == BatesPair(None, None)
            case FirstPageFails => ExtractBatesNumbers(doc) == BatesPair(None, None)
            case LastPageFails => ExtractBatesNumbers(doc) == BatesPair(clean.first, None)
            case CloseFails => ExtractBatesNumbers(doc) == clean
  {
  }

  /** A one-page document is searched twice, independently: the first value
      is found exactly when the last one is, the first match does not start
      after the last, and they are the same match exactly when the page
      holds one occurrence. */
  lemma OnePageDocument(doc: PdfFile)
    requires |doc.pages| == 1
    requires doc.failure == NoFailure || doc.failure == CloseFails
    ensures ExtractBatesNumbers(doc).first.Some? <==> ExtractBatesNumbers(doc).last.Some?
    ensures ExtractBatesNumbers(doc).first.Some? ==>
              var text := doc.pages[0];
              && FirstStart(text) <= LastStart(text)
              && (FirstStart(text) == LastStart(text) <==> |FindAll(text)| == 1)
  {
    if HasMatch(doc.pages[0]) {
      FirstNotAfterLast(doc.pages[0]);
    }
  }
}
