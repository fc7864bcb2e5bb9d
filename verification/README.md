# PDF summary endpoint — a verified model

The repository is one serverless HTTP handler (`app.py`). It takes a POST
whose body is a base64-encoded PDF, extracts the PDF's text page by page,
makes a local extractive summary (the first three sentences), asks a remote
language model for a richer summary, and answers with a JSON body. OPTIONS
gets an empty CORS preflight answer; any other method gets a usage banner.

The model has four modules:

- `Wrappers` (`wrappers.dfy`): `Option` for missing keys and `Result` for
  calls that return a value or raise.
- `Summarizer` (`summarizer.dfy`): `simple_summarizer`. The regular
  expression `(?<=[.!?]) +` is written out as recursion. `FindBreak` finds
  the first place where a terminator (`.`, `!` or `?`) is followed by a
  space. `SpaceRunEnd` takes the whole run of spaces, since `+` is greedy.
  `Split` keeps each piece together with the number of spaces consumed
  after it, so that `Rejoin` can rebuild the text. `ReSplit` is the list
  that `re.split` returns. `Summarize` joins the first `max_sentences`
  pieces with single spaces, using Python's slice rules (a negative count
  counts from the end). `IsSplitOf` says what a split is without saying
  how the scan works: the pieces glue back to the text, every piece but the
  last ends a sentence, no piece holds a match, and no piece after a
  separator starts with a space. `SplitCharacterization` proves that
  `Split` is the one and only list with these properties.
- `PdfText` (`pdf_text.dfy`): `extract_text_from_pdf`. The PDF library is
  replaced by what its reader yields. Opening the bytes either raises or
  gives a list of pages. Each page's `extract_text()` gives text, `None`,
  or raises. `ExtractText` is the accumulation loop, proved equal to the
  function `Extracted`.
- `Handler` (`handler.dfy`): `lambda_handler` as a total function from an
  `Event` and an `Environment` to a `Response`. The environment holds the
  collaborators: the base64 decoder, whether PyPDF2 imported, the PDF
  reader, whether `import openai` succeeded, the `GROQ_API_KEY` value, the
  completion call and the clock. The
  response body is a datatype, not JSON text.

## Model

| member | source | states |
|---|---|---|
| `Summarizer.FindBreak` | app.py:29 | the result is the first index at or after the start where a terminator is followed by a space (the look-behind needs a character before it), or the text length when no such index exists |
| `Summarizer.SpaceRunEnd` | app.py:29 | the greedy ` +` stops at the first character that is not a space; every character it passes over is a space |
| `Summarizer.Split` | app.py:29 | splitting always yields at least one piece |
| `Summarizer.ReSplit` | app.py:29 | the list `re.split` returns (the sentences of the scan's pieces, separators dropped) is never empty; `ReSplitShape` and `SplitCharacterization` state what its elements are |
| `Summarizer.SplitIsSplitOf` | app.py:29 | the scan's pieces glue back to the text with their separators; every piece but the last ends with a terminator and was followed by at least one space; no piece holds a match; no piece after a separator starts with a space |
| `Summarizer.SplitUnique` | app.py:29 | any list of pieces with those properties is the scan's result |
| `Summarizer.SplitCharacterization` | app.py:29 | a list of pieces is a split of the text exactly when it is what the scan returns |
| `Summarizer.ReSplitShape` | app.py:29 | the list `re.split` returns is never empty; every sentence but the last ends with `.`, `!` or `?`; every sentence but the first does not start with a space |
| `Summarizer.OnePieceIffNoBreak` | app.py:29 | the text splits into one piece exactly when no terminator in it is followed by a space |
| `Summarizer.SingleSpacedGaps` | app.py:29 | when no terminator is followed by two spaces, every separator the split consumes is one space |
| `Summarizer.SliceEnd` | app.py:30 | the end of the slice `sentences[:max_sentences]`: at most the list length; the count itself when it is between 0 and the length; for a negative count, that many are dropped from the end |
| `Summarizer.JoinWithSpace` | app.py:30 | `' '.join`: the strings in order with one space between neighbours; its contract is stated by `JoinNotLonger` and `JoinIsPrefix`, which relate the join of the first m sentences to the split text |
| `Summarizer.Summarize` | app.py:27-31 | `simple_summarizer`: the summary is never longer than the text, and a count of zero gives the empty text; `SummaryIsPrefix`, `SummaryOfShortText` and `SummaryOfUnbrokenText` state when it is a prefix of the text or the text itself |
| `Summarizer.JoinNotLonger` | app.py:30 | joining the first m pieces with one space each is never longer than the glued text |
| `Summarizer.JoinIsPrefix` | app.py:30 | with single-space separators, joining the first m pieces gives a prefix of the glued text, and all pieces give the whole text |
| `Summarizer.SummaryIsPrefix` | app.py:29-30 | when every terminator is followed by at most one space, the summary is a prefix of the text |
| `Summarizer.SummaryOfShortText` | app.py:29-31 | a single-spaced text with no more sentences than asked for is returned unchanged |
| `Summarizer.SummaryOfUnbrokenText` | app.py:29-31 | a text in which no terminator is followed by a space is returned unchanged for any count of at least one |
| `PdfText.FirstRaise` | app.py:19-20 | the first page whose extraction raises, at or after the start, or the page count when none raises |
| `PdfText.PagesText` | app.py:18-21 | the accumulated text: each page's text (nothing for a page without text) followed by a newline, in page order; `PagesTextAppend`, `PageLineInText` and `PagesTextShape` state its properties |
| `PdfText.Extracted` | app.py:13-25 | extraction never raises: without the library it gives `"PyPDF2 non disponible."`; when opening the document raises it gives `"[Erreur lecture PDF] "` followed by that exception's text, and when a page's extraction raises, the prefix followed by the text of the first page's exception; otherwise it is the pages' accumulated text |
| `PdfText.ExtractText` | app.py:13-25 | the loop returns the library-missing message, the error prefix followed by the reason of the first exception, or the text of all pages, as `Extracted` says; the loop invariant is that the text is the lines of the pages read so far |
| `PdfText.PagesTextAppend` | app.py:18-21 | the text of two runs of pages is the text of the first followed by the text of the second |
| `PdfText.PageLineInText` | app.py:19-21 | each page's text and its newline sit in order between the text of the pages before it and the pages after it |
| `PdfText.PagesTextShape` | app.py:18-22 | the text is at least as long as the number of pages and ends with a newline when there is a page |
| `Handler.Timestamp` | app.py:125 | the timestamp is the clock's ISO text followed by a final `Z` |
| `Handler.Preview` | app.py:126 | the echoed text is at most 1003 characters; it is longer than 1000 exactly when the text is; a short text is echoed unchanged; a long one is echoed as its first 1000 characters followed by `"..."` |
| `Handler.Excerpt` | app.py:54 | at most 6000 characters, a prefix of the text, the whole text when it is short enough |
| `Handler.ResolveMethod` | app.py:81-84 | the method is `httpMethod` when set and not empty, else `requestContext.http.method`, else the empty string |
| `Handler.AiSummary` | app.py:33-70 | `smart_groq_summary` with the handler's guard around it (app.py:115-118): a failed `import openai` gives the error prefix followed by the import error's text, even when no key is set; otherwise a missing or empty key gives `"[Erreur Groq] Aucune clé API définie"`; a failed call gives a text starting with `"[Erreur Groq] "`; a successful call gives its reply |
| `Handler.HandlePost` | app.py:94-137 | the POST branch always answers with the CORS headers and status 200, 400 or 500; it is 200 exactly when the body is the processed-document body, and an error body otherwise |
| `Handler.Handle` | app.py:79-149 | every response carries exactly the CORS headers and has status 200, 400 or 500 |
| `Handler.StatusCodes` | app.py:94-137 | 500 exactly for a POST whose body is missing or does not decode; 400 exactly for a POST whose body decodes to zero bytes; 200 in every other case |
| `Handler.Dispatch` | app.py:86-149 | OPTIONS gets 200 with an empty body; a method other than OPTIONS or POST gets the usage banner; a POST gets the internal-error text of the missing key or of the decode failure, or the no-file error for zero bytes |
| `Handler.ProcessedBody` | app.py:112-130 | a POST with a non-empty file gets the success message, the timestamp, the preview of the extracted text (at most 1003 characters), the three-sentence summary (no longer than the text) and the AI summary |
| `Handler.AiOutcomeNeverChangesStatus` | app.py:115-130 | whatever the client import, the key and the AI service do, the status code, the headers and every body field but `ai_summary` stay the same |
| `Handler.Base64FlagIgnored` | app.py:98-103 | the response does not depend on `isBase64Encoded` |
| `Handler.RepeatedCallsDiffer` | app.py:94-149 | two calls with the same event, decoder and document reader have the same status and headers, and their bodies differ at most in the timestamp and the AI summary, whatever the clock, the client import, the key and the AI service do |

## Behaviour of the code worth knowing

- Only the space character separates sentences. A terminator followed by a
  newline or a tab does not end a sentence.
- The summary collapses each run of spaces after a terminator to one space.
  So a text with fewer than three sentences comes back unchanged only when
  each such run is a single space (`SummaryOfShortText`). With two spaces,
  `"Hi.  there"` summarizes to `"Hi. there"`.
- The user-facing messages are in French in the code:
  `"Aucun fichier PDF fourni."`, `"Erreur interne: "`,
  `"[Erreur lecture PDF] "`, `"[Erreur Groq] "`. The model uses them as
  written.
- A POST without a `body` key raises `KeyError('body')` inside the `try`.
  It is answered 500 with `"Erreur interne: 'body'"`.

## Left out

- PyPDF2's parsing and text extraction: a foreign library. A document is
  modelled as what its reader yields (`PdfText.PdfDocument`).
- `base64.b64decode`: a library call. It is the `b64decode` parameter, a
  partial function from the body text to bytes or an error text.
- The OpenAI/Groq client: network I/O. The prompt wording, model name,
  `max_tokens` and `temperature` are not modelled. The call is the
  `complete` parameter, from the key and the forwarded excerpt to the
  reply or the text of what it raised. The outcome of `import openai` is
  the separate `openaiImportError` input, checked before the key as in the
  code. Failures of building the client and of reading the reply are
  folded into the call's failure. The reply's `.strip()` is taken to be
  part of the call.
- `json.dumps`: the body is a datatype, not JSON text.
- `datetime.utcnow()`: the clock's ISO text is the `utcNow` parameter.
- `os.environ.get`: the key is an optional input.
- The `print` diagnostics to stderr: they do not affect any response.
- The `context` argument: the handler never reads it.
- The module-level `try: import PyPDF2` switch: a boolean input.
- Event values that are not strings (a `null` body, a non-string method):
  the event's fields are modelled as optional strings. A `null`
  `requestContext.http.method` answers like a missing one in the code
  (both reach the usage banner), so the model's missing value covers it.
- A `requestContext` or `requestContext.http` that is present but not a
  mapping (for example `null`): when `httpMethod` is missing, `null` or
  empty, the method is looked up there (app.py:81-84) and `.get` on such a
  value raises `AttributeError` outside any `try`, so the handler raises
  instead of answering. When `httpMethod` is set and not empty, the `or`
  never looks there and the answer is the ordinary one, as in the model. The `Event` datatype cannot represent such
  an event, which is why `Handler.Handle` can promise an answer with
  status 200, 400 or 500 for every event it takes.
- `Handler.Handle`: written as a function. A handler function cannot call
  the `PdfText.ExtractText` method, so it uses `PdfText.Extracted`, which
  that method is proved to compute.
