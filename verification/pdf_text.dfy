/** Text extraction from a PDF (`extract_text_from_pdf` in app.py). The PDF
    library itself is not modelled: a document is what its reader yields. */
module PdfText {

  /** What `page.extract_text()` gives for one page: some text, None, or an exception. */
  datatype PageText = Text(content: string) | NoText | Raises(reason: string)

  /** What opening the bytes with the reader gives: the exception it raised,
      or the document's pages in order. */
  datatype PdfDocument = Unreadable(reason: string) | Readable(pages: seq<PageText>)

  /** Returned when the PDF library could not be imported. */
  const LibraryMissingMessage: string := "PyPDF2 non disponible."

  /** Prefix of the text returned when reading the document raised. */
  const ReadErrorPrefix: string := "[Erreur lecture PDF] "

  /** No page of the sequence raises when its text is extracted. */
  predicate Extractable(pages: seq<PageText>) {
    forall k :: 0 <= k < |pages| ==> !pages[k].Raises?
  }

  /** The index of the first page that raises at or after `from`, or |pages|. */
  function FirstRaise(pages: seq<PageText>, from: nat): (i: nat)
    requires from <= |pages|
    ensures from <= i <= |pages|
    ensures i < |pages| ==> pages[i].Raises?
    ensures forall k :: from <= k < i ==> !pages[k].Raises?
    decreases |pages| - from
  {
    if from == |pages| || pages[from].Raises? then from else FirstRaise(pages, from + 1)
  }

  /** What one page adds to the text: its text, or nothing when it has none,
      then a newline. (A page that raises never gets this far: the loop
      stops there.) */
  function PageLine(p: PageText): string
  {
    (if p.Text? then p.content else "") + "\n"
  }

  /** The text accumulated over the given pages, in order. */
  function PagesText(pages: seq<PageText>): string
  {
    if pages == [] then "" else PagesText(pages[..|pages| - 1]) + PageLine(pages[|pages| - 1])
  }

  /** What `extract_text_from_pdf` returns, given whether the library is
      installed and what the reader yields for the bytes. It never fails: a
      missing library gives the fixed message, an exception while reading
      gives a text with the error prefix, and otherwise the text is the
      pages' lines. */
  function Extracted(pdfLibraryAvailable: bool, doc: PdfDocument): (r: string)
    ensures !pdfLibraryAvailable ==> r == LibraryMissingMessage
    ensures pdfLibraryAvailable && (doc.Unreadable? || !Extractable(doc.pages)) ==> ReadErrorPrefix <= r
    ensures pdfLibraryAvailable && doc.Unreadable? ==> r == ReadErrorPrefix + doc.reason
    ensures pdfLibraryAvailable && doc.Readable? && FirstRaise(doc.pages, 0) < |doc.pages| ==>
              r == ReadErrorPrefix + doc.pages[FirstRaise(doc.pages, 0)].reason
    ensures pdfLibraryAvailable && doc.Readable? && Extractable(doc.pages) ==> r == PagesText(doc.pages)
  {
    if !pdfLibraryAvailable then LibraryMissingMessage
    else match doc
      case Unreadable(e) => ReadErrorPrefix + e
      case Readable(pages) =>
        var i := FirstRaise(pages, 0);
        if i < |pages| then ReadErrorPrefix + pages[i].reason else PagesText(pages)
  }

  /** `extract_text_from_pdf`: appends each page's text and a newline; any
      exception while reading yields an error text instead of propagating. */
  method ExtractText(pdfLibraryAvailable: bool, doc: PdfDocument) returns (text: string)
    ensures text == Extracted(pdfLibraryAvailable, doc)
  {
    if !pdfLibraryAvailable {
      return LibraryMissingMessage;
    }
    match doc
    case Unreadable(e) =>
      text := ReadErrorPrefix + e;
    case Readable(pages) =>
      text := "";
      var i := 0;
      while i < |pages|
        invariant 0 <= i <= |pages|
        invariant Extractable(pages[..i])
        invariant text == PagesText(pages[..i])
      {
        var page := pages[i];
        if page.Raises? {
          assert FirstRaise(pages, 0) == i;
          return ReadErrorPrefix + page.reason;
        }
        var pageText := if page.Text? then page.content else "";
        text := text + pageText + "\n";
        assert pages[..i + 1][..i] == pages[..i];
        i := i + 1;
      }
      assert pages[..i] == pages;
  }

  // ---------------------------------------------------------------------
  // Properties of the accumulated text.

  /** The text of two runs of pages is the text of the first followed by that of the second. */
  lemma {:induction false} PagesTextAppend(a: seq<PageText>, b: seq<PageText>)
    ensures PagesText(a + b) == PagesText(a) + PagesText(b)
    decreases |b|
  {
    if b == [] {
      assert a + b == a;
    } else {
      var b', last := b[..|b| - 1], b[|b| - 1];
      PagesTextAppend(a, b');
      assert (a + b)[..|a + b| - 1] == a + b';
      assert (a + b)[|a + b| - 1] == last;
      assert PagesText(b) == PagesText(b') + PageLine(last);
      assert PagesText(a + b) == PagesText(a + b') + PageLine(last);
    }
  }

  /** One page's text is its line. */
  lemma PagesTextSingle(p: PageText)
    ensures PagesText([p]) == PageLine(p)
  {
    assert [p][..0] == [];
  }

  /** The text of three runs of pages is their texts in order. */
  lemma {:induction false} PagesTextAppend3(a: seq<PageText>, b: seq<PageText>, c: seq<PageText>)
    ensures PagesText(a + b + c) == PagesText(a) + PagesText(b) + PagesText(c)
  {
    PagesTextAppend(a, b);
    PagesTextAppend(a + b, c);
  }

  /** Page k's line sits between the text of the pages before it and the text of those after it. */
  lemma {:induction false} PageLineInText(pages: seq<PageText>, k: nat)
    requires k < |pages|
    ensures PagesText(pages) == PagesText(pages[..k]) + PageLine(pages[k]) + PagesText(pages[k + 1..])
  {
    assert pages == pages[..k] + [pages[k]] + pages[k + 1..];
    PagesTextAppend3(pages[..k], [pages[k]], pages[k + 1..]);
    PagesTextSingle(pages[k]);
  }

  /** Every page contributes at least its newline, and the text ends with one. */
  lemma {:induction false} PagesTextShape(pages: seq<PageText>)
    ensures |PagesText(pages)| >= |pages|
    ensures |pages| > 0 ==> PagesText(pages)[|PagesText(pages)| - 1] == '\n'
  {
    if pages != [] {
      PagesTextShape(pages[..|pages| - 1]);
    }
  }
}
