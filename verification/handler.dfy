/** The request handler of app.py (`lambda_handler`), with what it calls outside
    its own code passed in: base64 decoding, the PDF reader, the completion
    call to the AI service, the API key from the environment and the clock. */
module Handler {
  import opened Wrappers
  import PdfText
  import Summarizer

  newtype byte = x: int | 0 <= x < 256

  /** The fields of the incoming event the handler reads; `None` is a missing key. */
  datatype Event = Event(
    httpMethod: Option<string>,            // the top-level `httpMethod`
    requestContextMethod: Option<string>,  // the method under `requestContext`, `http`
    isBase64Encoded: bool,                 // whether `isBase64Encoded` is truthy
    body: Option<string>)                  // the `body`, base64 text

  /** The collaborators the handler depends on. */
  datatype Environment = Environment(
    b64decode: string -> Result<seq<byte>, string>,        // base64.b64decode, or the text of what it raised
    pdfLibraryAvailable: bool,                             // whether PyPDF2 could be imported
    readPdf: seq<byte> -> PdfText.PdfDocument,             // what the PDF reader yields for the bytes
    openaiImportError: Option<string>,                     // None when `import openai` succeeds, else the text of its ImportError
    groqApiKey: Option<string>,                            // the GROQ_API_KEY environment variable
    complete: (string, string) -> Result<string, string>,  // (API key, document excerpt) to the stripped reply, or the text of what it raised
    utcNow: string)                                        // datetime.utcnow().isoformat()

  /** The JSON body of a response, as a value rather than as encoded text. */
  datatype ResponseBody =
    | EmptyBody
    | ErrorBody(error: string)
    | Processed(message: string, timestamp: string, extractedText: string, summary: string, aiSummary: string)
    | UsageBanner(message: string, owner: string, timestamp: string, format: string)

  datatype Response = Response(statusCode: int, headers: map<string, string>, body: ResponseBody)

  /** The CORS headers every response carries. */
  const CorsHeaders: map<string, string> := map[
    "Access-Control-Allow-Origin" := "*",
    "Access-Control-Allow-Headers" := "Content-Type,X-Amz-Date,Authorization,X-Api-Key,X-Amz-Security-Token",
    "Access-Control-Allow-Methods" := "POST,OPTIONS"]

  const NoFileError: string := "Aucun fichier PDF fourni."
  const InternalErrorPrefix: string := "Erreur interne: "
  /** The text of the KeyError raised when the event has no `body` key. */
  const MissingBodyError: string := "'body'"
  const SuccessMessage: string := "PDF processed successfully!"
  const BannerMessage: string := "🚀 Endpoint /analyze-pdf prêt. POSTez un PDF (body = base64 PDF) pour recevoir son résumé."
  const BannerOwner: string := "Konan Othniel"
  const BannerFormat: string := "POST body = chaîne base64 du PDF. Headers: Content-Type: text/plain"
  const GroqErrorPrefix: string := "[Erreur Groq] "
  const MissingKeyMessage: string := "[Erreur Groq] Aucune clé API définie"
  /** How much of the document text is forwarded to the AI service. */
  const ExcerptLimit: nat := 6000
  /** How much of the document text the response echoes back. */
  const PreviewLimit: nat := 1000
  const Ellipsis: string := "..."

  /** The request method: `httpMethod` when it is set and not empty, otherwise
      the method nested in the request context, otherwise the empty string. */
  function ResolveMethod(ev: Event): (verb: string)
    ensures ev.httpMethod.Some? && ev.httpMethod.value != "" ==> verb == ev.httpMethod.value
    ensures (ev.httpMethod.None? || ev.httpMethod.value == "") && ev.requestContextMethod.Some? ==>
              verb == ev.requestContextMethod.value
    ensures (ev.httpMethod.None? || ev.httpMethod.value == "") && ev.requestContextMethod.None? ==>
              verb == ""
  {
    if ev.httpMethod.Some? && ev.httpMethod.value != "" then ev.httpMethod.value
    else ev.requestContextMethod.GetOr("")
  }

  /** The response timestamp: the clock's ISO-8601 text with a `Z` appended. */
  function Timestamp(utcNow: string): (t: string)
    ensures |t| >= 1 && t[|t| - 1] == 'Z' && t[..|t| - 1] == utcNow
  {
    utcNow + "Z"
  }

  /** The extracted text as echoed in the response: cut to its first 1000
      characters, with an ellipsis added when something was cut. */
  function Preview(text: string): (r: string)
    ensures |r| <= PreviewLimit + |Ellipsis|
    ensures |r| > PreviewLimit <==> |text| > PreviewLimit
    ensures |text| <= PreviewLimit ==> r == text
    ensures |text| > PreviewLimit ==> r[..PreviewLimit] == text[..PreviewLimit] && r[PreviewLimit..] == Ellipsis
  {
    if |text| > PreviewLimit then text[..PreviewLimit] + Ellipsis else text
  }

  /** The part of the document placed in the prompt: at most its first 6000 characters. */
  function Excerpt(text: string): (r: string)
    ensures |r| <= ExcerptLimit && r <= text
    ensures |text| <= ExcerptLimit ==> r == text
  {
    if |text| > ExcerptLimit then text[..ExcerptLimit] else text
  }

  /** `smart_groq_summary(text)` together with the handler's own guard around
      the call. The client library is imported first, so a failed import wins
      over a missing key; a failed import, a missing or empty key and every
      exception of the call become a text with the error prefix. A successful
      call's reply is the summary. */
  function AiSummary(importError: Option<string>, apiKey: Option<string>,
                     complete: (string, string) -> Result<string, string>, text: string): (r: string)
    ensures importError.Some? ==> r == GroqErrorPrefix + importError.value
    ensures importError.None? && (apiKey.None? || apiKey.value == "") ==> r == MissingKeyMessage
    ensures importError.Some? || apiKey.None? || apiKey.value == "" || complete(apiKey.value, Excerpt(text)).Failure? ==>
              GroqErrorPrefix <= r
    ensures importError.None? && apiKey.Some? && apiKey.value != "" && complete(apiKey.value, Excerpt(text)).Success? ==>
              r == complete(apiKey.value, Excerpt(text)).value
  {
    if importError.Some? then GroqErrorPrefix + importError.value
    else if apiKey.None? || apiKey.value == "" then MissingKeyMessage
    else match complete(apiKey.value, Excerpt(text))
      case Success(reply) => reply
      case Failure(e) => GroqErrorPrefix + e
  }

  /** The POST branch, inside its `try`: decode, reject an empty file, extract,
      summarize twice and assemble the success body. Every outcome is an
      answer with the CORS headers; only a processed document gets 200. */
  function HandlePost(ev: Event, env: Environment): (r: Response)
    ensures r.headers == CorsHeaders
    ensures r.statusCode in {200, 400, 500}
    ensures r.statusCode == 200 <==> r.body.Processed?
    ensures r.statusCode != 200 ==> r.body.ErrorBody?
  {
    match ev.body
    case None => Response(500, CorsHeaders, ErrorBody(InternalErrorPrefix + MissingBodyError))
    case Some(b) =>
      match env.b64decode(b)
      case Failure(e) => Response(500, CorsHeaders, ErrorBody(InternalErrorPrefix + e))
      case Success(fileBytes) =>
        if |fileBytes| == 0 then Response(400, CorsHeaders, ErrorBody(NoFileError))
        else
          var text := PdfText.Extracted(env.pdfLibraryAvailable, env.readPdf(fileBytes));
          Response(200, CorsHeaders, Processed(
            SuccessMessage,
            Timestamp(env.utcNow),
            Preview(text),
            Summarizer.Summarize(text, Summarizer.DefaultMaxSentences),
            AiSummary(env.openaiImportError, env.groqApiKey, env.complete, text)))
  }

  /** The handler: OPTIONS is a preflight, POST processes a PDF, anything else
      gets the usage banner. */
  function Handle(ev: Event, env: Environment): (r: Response)
    ensures r.headers == CorsHeaders
    ensures r.statusCode in {200, 400, 500}
  {
    var verb := ResolveMethod(ev);
    if verb == "OPTIONS" then Response(200, CorsHeaders, EmptyBody)
    else if verb == "POST" then HandlePost(ev, env)
    else Response(200, CorsHeaders, UsageBanner(BannerMessage, BannerOwner, Timestamp(env.utcNow), BannerFormat))
  }

  // ---------------------------------------------------------------------
  // The response contract.

  /** The request body is present and decodes without raising. */
  predicate Decodes(ev: Event, env: Environment) {
    ev.body.Some? && env.b64decode(ev.body.value).Success?
  }

  /** The text extracted from the decoded body. */
  function ExtractedText(ev: Event, env: Environment): string
    requires Decodes(ev, env)
  {
    PdfText.Extracted(env.pdfLibraryAvailable, env.readPdf(env.b64decode(ev.body.value).value))
  }

  /** Only a POST whose body is missing, does not decode, or decodes to no
      bytes gets an error status: 500 for the first two, 400 for the last. */
  lemma StatusCodes(ev: Event, env: Environment)
    ensures Handle(ev, env).statusCode == 500 <==> ResolveMethod(ev) == "POST" && !Decodes(ev, env)
    ensures Handle(ev, env).statusCode == 400 <==>
              ResolveMethod(ev) == "POST" && Decodes(ev, env) && |env.b64decode(ev.body.value).value| == 0
    ensures Handle(ev, env).statusCode == 200 <==>
              ResolveMethod(ev) != "POST" || (Decodes(ev, env) && |env.b64decode(ev.body.value).value| > 0)
  {
  }

  /** What each branch answers. */
  lemma Dispatch(ev: Event, env: Environment)
    ensures ResolveMethod(ev) == "OPTIONS" ==> Handle(ev, env) == Response(200, CorsHeaders, EmptyBody)
    ensures ResolveMethod(ev) != "OPTIONS" && ResolveMethod(ev) != "POST" ==>
              Handle(ev, env) == Response(200, CorsHeaders,
                UsageBanner(BannerMessage, BannerOwner, Timestamp(env.utcNow), BannerFormat))
    ensures ResolveMethod(ev) == "POST" && ev.body.None? ==>
              Handle(ev, env).body == ErrorBody(InternalErrorPrefix + MissingBodyError)
    ensures ResolveMethod(ev) == "POST" && ev.body.Some? && env.b64decode(ev.body.value).Failure? ==>
              Handle(ev, env).body == ErrorBody(InternalErrorPrefix + env.b64decode(ev.body.value).error)
    ensures ResolveMethod(ev) == "POST" && Decodes(ev, env) && |env.b64decode(ev.body.value).value| == 0 ==>
              Handle(ev, env).body == ErrorBody(NoFileError)
  {
  }

  /** A processed PDF echoes at most 1003 characters of its text, ending in
      "..." exactly when the text was cut, and a local summary no longer than
      the text, made of its first three sentences. */
  lemma ProcessedBody(ev: Event, env: Environment)
    requires ResolveMethod(ev) == "POST" && Decodes(ev, env) && |env.b64decode(ev.body.value).value| > 0
    ensures Handle(ev, env).body.Processed?
    ensures Handle(ev, env).body.message == SuccessMessage
    ensures Handle(ev, env).body.timestamp == Timestamp(env.utcNow)
    ensures Handle(ev, env).body.extractedText == Preview(ExtractedText(ev, env))
    ensures |Handle(ev, env).body.extractedText| <= PreviewLimit + |Ellipsis|
    ensures Handle(ev, env).body.summary == Summarizer.Summarize(ExtractedText(ev, env), Summarizer.DefaultMaxSentences)
    ensures |Handle(ev, env).body.summary| <= |ExtractedText(ev, env)|
    ensures Handle(ev, env).body.aiSummary ==
              AiSummary(env.openaiImportError, env.groqApiKey, env.complete, ExtractedText(ev, env))
  {
  }

  /** Whatever the client import, the key and the AI service do, the status
      code, the headers and every other field of the body stay the same. */
  lemma AiOutcomeNeverChangesStatus(ev: Event, env: Environment, importError: Option<string>,
                                    apiKey: Option<string>, complete: (string, string) -> Result<string, string>)
    ensures var env' := env.(openaiImportError := importError, groqApiKey := apiKey, complete := complete);
      && Handle(ev, env).statusCode == Handle(ev, env').statusCode
      && Handle(ev, env).headers == Handle(ev, env').headers
      && (Handle(ev, env).body.Processed? ==>
            Handle(ev, env).body.(aiSummary := AiSummary(importError, apiKey, complete, ExtractedText(ev, env)))
              == Handle(ev, env').body)
      && (!Handle(ev, env).body.Processed? ==> Handle(ev, env).body == Handle(ev, env').body)
  {
  }

  /** Decoding is the same whichever value `isBase64Encoded` has. */
  lemma Base64FlagIgnored(ev: Event, env: Environment, flag: bool)
    ensures Handle(ev.(isBase64Encoded := flag), env) == Handle(ev, env)
  {
  }

  /** Two calls with the same event and the same document reader differ at
      most in the timestamp and the AI summary, whatever the clock, the client
      import, the key and the AI service do between them. */
  lemma RepeatedCallsDiffer(ev: Event, env: Environment, utcNow: string, importError: Option<string>,
                            apiKey: Option<string>, complete: (string, string) -> Result<string, string>)
    ensures var env' := env.(utcNow := utcNow, openaiImportError := importError, groqApiKey := apiKey, complete := complete);
      && Handle(ev, env).statusCode == Handle(ev, env').statusCode
      && Handle(ev, env).headers == Handle(ev, env').headers
      && (Handle(ev, env).body.Processed? ==>
            Handle(ev, env).body.(timestamp := Timestamp(utcNow), aiSummary := Handle(ev, env').body.aiSummary)
              == Handle(ev, env').body)
      && (Handle(ev, env).body.UsageBanner? ==>
            Handle(ev, env).body.(timestamp := Timestamp(utcNow)) == Handle(ev, env').body)
      && (!Handle(ev, env).body.Processed? && !Handle(ev, env).body.UsageBanner? ==>
            Handle(ev, env).body == Handle(ev, env').body)
  {
  }
}
