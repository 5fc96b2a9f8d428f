/**
 * `identifyEntities`: one schema-constrained request asking the model for the
 * characters and locations of a document, with every failure normalised to one message.
 * The request together with `JSON.parse` of its text is an oracle from prompt to reply.
 */
module EntityExtraction {
  import opened Wrappers
  import opened JsText

  /** How much of the document the prompt embeds. */
  const MAX_DOCUMENT_CHARS: nat := 50000

  const EXTRACTION_FAILURE_MESSAGE: string := "Failed to identify characters and locations from the document."

  /** A value `JSON.parse` can return; numbers are kept as their literal text. */
  datatype Json =
    | JNull
    | JBool(b: bool)
    | JNumber(literal: string)
    | JString(s: string)
    | JArray(items: seq<Json>)
    | JObject(members: map<string, Json>)

  /**
   * What one extraction request yields: the request was rejected (with the
   * rejection's message when it was an `Error`), its text was not JSON, or the parsed value.
   */
  datatype ExtractionReply =
    | RequestFailed(cause: Option<string>)
    | Unparsable(text: string)
    | Parsed(value: Json)

  /** The shape the provider-side response schema asks for: both keys, each an array of strings. */
  predicate HasEntityShape(v: Json)
  {
    && v.JObject?
    && "characters" in v.members && IsStringArray(v.members["characters"])
    && "locations" in v.members && IsStringArray(v.members["locations"])
  }

  predicate IsStringArray(v: Json)
  {
    v.JArray? && forall i :: 0 <= i < |v.items| ==> v.items[i].JString?
  }

  /** The document as the prompt embeds it: `documentText.substring(0, 50000)`. */
  function TruncatedDocument(documentText: string): (r: string)
    ensures r <= documentText
    ensures |r| == if |documentText| < MAX_DOCUMENT_CHARS then |documentText| else MAX_DOCUMENT_CHARS
  {
    SubstringFromZero(documentText, MAX_DOCUMENT_CHARS);
    Substring(documentText, 0, MAX_DOCUMENT_CHARS)
  }

  /**
   * The layout of the extraction prompt around its two variable parts: the contract
   * text, the fixed instructions, the embedded document text, the fixed closing.
   */
  function LayoutPrompt(instructions: string, closing: string, contractText: string, embedded: string): string
  {
    "\n" + contractText + "\n\n" + instructions + embedded + closing
  }

  /** The fixed instructions between the contract text and the document. */
  const INSTRUCTIONS: string :=
    "**TASK:**\n"
    + "Analyze the provided " + "source document and identify the primary characters and locations.\n"
    + "- For characters, list the names of the main protagonist, antagonist, and key supporting characters.\n"
    + "- For locations, list the names of the most important and frequently mentioned settings.\n"
    + "- Return ONLY a JSON object with two keys: \"characters\" and \"locations\", each containing an array of strings.\n"
    + "\n"
    + "**SOURCE OF TRUTH (Hard Canon):**\n"
    + "---\n"

  /** The fixed text after the document. */
  const CLOSING: string := "\n---\n\nRespond ONLY with the specified JSON object.\n"

  /** The prompt `identifyEntities` sends. */
  function ExtractionPrompt(documentText: string, contractText: string): string
  {
    LayoutPrompt(INSTRUCTIONS, CLOSING, contractText, TruncatedDocument(documentText))
  }

  /**
   * Whatever the fixed template texts, the prompt carries the contract text whole
   * and, of the document, exactly its first `min(|documentText|, 50000)` characters,
   * so its length is bounded whatever the document's length.
   */
  lemma PromptEmbedsTruncatedDocument(instructions: string, closing: string, contractText: string, documentText: string)
    ensures var p := LayoutPrompt(instructions, closing, contractText, TruncatedDocument(documentText));
      var h := 3 + |contractText| + |instructions|;
      var m := if |documentText| < MAX_DOCUMENT_CHARS then |documentText| else MAX_DOCUMENT_CHARS;
      && |p| == h + m + |closing|
      && p[h..h + m] == documentText[..m]
      && p[1..1 + |contractText|] == contractText
      && |p| <= h + MAX_DOCUMENT_CHARS + |closing|
  {
    var doc := TruncatedDocument(documentText);
    var p := LayoutPrompt(instructions, closing, contractText, doc);
    var h := 3 + |contractText| + |instructions|;
    assert p == ("\n" + contractText + "\n\n" + instructions) + doc + closing;
    assert p[h..h + |doc|] == doc;
    assert p[1..1 + |contractText|] == contractText;
  }

  /** One call of `identifyEntities`: the prompts it sent, in order, and its outcome. */
  datatype Extraction = Extraction(requests: seq<string>, result: Result<Json, string>)

  /**
   * `identifyEntities`: one request with the extraction prompt; the parsed value is
   * returned as it is (the cast checks nothing), and any failure of the request
   * or of the parse becomes the one fixed extraction-failure message.
   */
  function IdentifyEntities(documentText: string, contractText: string, service: string -> ExtractionReply)
    : (x: Extraction)
    ensures x.requests == [ExtractionPrompt(documentText, contractText)]
    ensures x.result.Success? <==> service(x.requests[0]).Parsed?
    ensures x.result.Success? ==> x.result.value == service(x.requests[0]).value
    ensures x.result.Failure? ==> x.result.error == EXTRACTION_FAILURE_MESSAGE
  {
    var prompt := ExtractionPrompt(documentText, contractText);
    var result := match service(prompt)
      case Parsed(value) => Success(value)
      case RequestFailed(_) => Failure(EXTRACTION_FAILURE_MESSAGE)
      case Unparsable(_) => Failure(EXTRACTION_FAILURE_MESSAGE);
    Extraction([prompt], result)
  }

  /** Nothing of the underlying failure reaches the caller: all failing replies look the same. */
  lemma ExtractionErrorNormalised(documentText: string, contractText: string,
                                  s1: string -> ExtractionReply, s2: string -> ExtractionReply)
    requires !s1(ExtractionPrompt(documentText, contractText)).Parsed?
    requires !s2(ExtractionPrompt(documentText, contractText)).Parsed?
    ensures IdentifyEntities(documentText, contractText, s1) == IdentifyEntities(documentText, contractText, s2)
    ensures IdentifyEntities(documentText, contractText, s1).result == Failure(EXTRACTION_FAILURE_MESSAGE)
  {
  }

  /**
   * One request, no retry: whatever the reply, failed or not, exactly one prompt is
   * sent, and the outcome is decided by the service's answer to it alone.
   */
  lemma ExtractionSingleRequest(documentText: string, contractText: string,
                                s1: string -> ExtractionReply, s2: string -> ExtractionReply)
    requires s1(ExtractionPrompt(documentText, contractText)) == s2(ExtractionPrompt(documentText, contractText))
    ensures |IdentifyEntities(documentText, contractText, s1).requests| == 1
    ensures IdentifyEntities(documentText, contractText, s1) == IdentifyEntities(documentText, contractText, s2)
  {
  }

  /** Text after the first 50000 characters of the document has no influence on the extraction. */
  lemma ExtractionIgnoresDocumentTail(documentText: string, tail: string, contractText: string,
                                      service: string -> ExtractionReply)
    requires |documentText| >= MAX_DOCUMENT_CHARS
    ensures IdentifyEntities(documentText + tail, contractText, service)
         == IdentifyEntities(documentText, contractText, service)
  {
    var d1, d2 := TruncatedDocument(documentText + tail), TruncatedDocument(documentText);
    assert d1 == (documentText + tail)[..MAX_DOCUMENT_CHARS];
    assert d2 == documentText[..MAX_DOCUMENT_CHARS];
    assert d1 == d2;
  }

  /**
   * The code does not check the shape of the parsed value: an object with neither
   * key is returned as a success.
   */
  lemma NoEntityShapeCheck(documentText: string, contractText: string)
    ensures var service := (p: string) => Parsed(JObject(map[]));
      && !HasEntityShape(JObject(map[]))
      && IdentifyEntities(documentText, contractText, service).result == Success(JObject(map[]))
  {
  }
}
