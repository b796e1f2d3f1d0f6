/** `image_bytes_to_base64` and `assess_image_quality` of
    src/services/gemini_quality_assessor.py: send the brief, the product
    image (when there is one) and the generated image to a multimodal LLM, and
    read back a JSON verdict; any failure yields a verdict that accepts. */
module GeminiQualityAssessor {
  import opened Types
  import opened Text
  import opened JsonModel
  import opened State
  import Base64

  const ModelName := "gemini-2.5-flash-image-preview"
  const JpegDataUrlPrefix := "data:image/jpeg;base64,"

  /** `image_bytes_to_base64`: standard Base64 of the bytes. */
  function ImageBytesToBase64(b: Bytes): (s: string)
    ensures |s| == 4 * ((|b| + 2) / 3)
    ensures forall i :: 0 <= i < |s| ==> Base64.IsAlphabetChar(s[i]) || s[i] == '='
    ensures Base64.Decode(s) == Some(b)
  {
    Base64.DecodeEncode(b);
    Base64.Encode(b)
  }

  /** One part of the message content: the fixed instruction text (its
      wording is not modelled) or an image given as a data URL. */
  datatype ContentPart = Instruction | ImageUrl(url: string)

  function ImageUrlPart(b: Bytes): ContentPart
  {
    ImageUrl(JpegDataUrlPrefix + ImageBytesToBase64(b))
  }

  /** `content_parts`: the instruction, then the product image when it is
      truthy, then the generated image. `None` when the generated image is
      `None`, where `b64encode` raises. */
  function ContentParts(productImage: Option<Bytes>, generatedImage: Option<Bytes>): (r: Option<seq<ContentPart>>)
    ensures r.None? <==> generatedImage.None?
    ensures r.Some? ==>
              && 2 <= |r.value| <= 3
              && r.value[0] == Instruction
              && r.value[|r.value| - 1] == ImageUrlPart(generatedImage.value)
              && (|r.value| == 3 <==> Truthy(productImage))
              && (Truthy(productImage) ==> r.value[1] == ImageUrlPart(productImage.value))
  {
    if generatedImage.None? then None
    else
      var original := if Truthy(productImage) then [ImageUrlPart(productImage.value)] else [];
      Some([Instruction] + original + [ImageUrlPart(generatedImage.value)])
  }

  /** The request: the model, the brief the system prompt embeds
      (`None` renders as the text "None") and the human message's parts. */
  datatype AssessRequest = AssessRequest(model: string, brief: Option<string>, parts: seq<ContentPart>)

  /** Invoking the LLM and reading `response.content` as a string. */
  type Llm = AssessRequest -> Call<string>

  /** `json.loads`. */
  type JsonParser = string -> Call<Json>

  /** The verdict returned whenever the assessment cannot be made. */
  const QaFailed: Dict := map[
    "image_decision" := JStr("accept"),
    "text_decision" := JStr("accept"),
    "reason" := JStr("QA service failed.")]

  /** `.strip().replace("```json", "").replace("```", "")`. */
  function CleanFences(text: string): (r: string)
    ensures !HasFence(r)
  {
    var unjson := ReplaceAll(Strip(text), "```json", "");
    RemoveFenceLeavesNone(unjson);
    ReplaceAll(unjson, Fence, "")
  }

  /** A reply holding no backtick is only stripped: nothing else of it is
      lost. */
  lemma CleanFencesKeepsPlain(t: string)
    requires Plain(t)
    ensures CleanFences(t) == Strip(t)
  {
    StripIsTrimmedSlice(t);
    var i, j :| TrimmedSliceAt(t, i, j) && Strip(t) == t[i..j];
    var u := Strip(t);
    forall k | 0 <= k < |u|
      ensures u[k] != '`'
    {
      assert u[k] == t[i + k];
    }
    assert u + [] == u;
    ReplaceSkipsPlain(u, [], "```json", "");
    ReplaceSkipsPlain(u, [], Fence, "");
  }

  /** A reply fenced as a JSON code block gives back exactly what the
      fences enclose, when that holds no backtick. */
  lemma CleanFencesUnwrapsJson(j: string)
    requires Plain(j)
    ensures CleanFences("```json" + j + Fence) == j
  {
    var t := "```json" + j + Fence;
    assert t[0] == '`' && t[|t| - 1] == '`';
    StripKeepsUnpadded(t);
    assert t == "```json" + (j + Fence);
    ReplaceAtHead("```json", j + Fence, "");
    ReplaceSkipsPlain(j, Fence, "```json", "");
    assert ReplaceAll(Fence, "```json", "") == Fence;
    var unjson := j + Fence;
    assert ReplaceAll(Strip(t), "```json", "") == unjson;
    ReplaceSkipsPlain(j, Fence, Fence, "");
    assert Fence == Fence + [];
    ReplaceAtHead(Fence, [], "");
    assert ReplaceAll(Fence, Fence, "") == [];
    assert ReplaceAll(unjson, Fence, "") == j + [];
    assert j + [] == j;
  }

  /** `assess_image_quality(state)`; it never raises. A reply that parses
      to a JSON object is returned as it is; a reply that fails to parse or
      parses to anything else (whose `.get` in the log line raises) gives the
      fail-open verdict, and so does a failure before the reply. */
  function AssessImageQuality(s: FashionState, llm: Llm, parse: JsonParser): Dict
  {
    match ContentParts(s.productImage, s.generatedImage)
    case None => QaFailed
    case Some(parts) =>
      match llm(AssessRequest(ModelName, s.enhancedPrompt, parts))
      case Raised => QaFailed
      case Returned(text) =>
        match parse(CleanFences(text))
        case Returned(JObj(d)) => d
        case _ => QaFailed
  }

  /** The reply text, when the content could be assembled and the LLM call
      returned. */
  function ReplyText(s: FashionState, llm: Llm): Option<string>
  {
    match ContentParts(s.productImage, s.generatedImage)
    case None => None
    case Some(parts) =>
      match llm(AssessRequest(ModelName, s.enhancedPrompt, parts))
      case Raised => None
      case Returned(text) => Some(text)
  }

  /** There is a reply, and its fence-free text parses to a JSON object. */
  predicate ParsesToObject(s: FashionState, llm: Llm, parse: JsonParser)
  {
    && ReplyText(s, llm).Some?
    && parse(CleanFences(ReplyText(s, llm).value)).Returned?
    && parse(CleanFences(ReplyText(s, llm).value)).value.JObj?
  }

  /** The verdict is exactly the object parsed from the fence-free reply,
      whatever its decisions say, when there is a reply and it parses to an
      object; in every other case (no generated image, a raising call, a
      parse failure, a parsed value that is not an object) it is the
      fail-open default. */
  lemma AssessOutcome(s: FashionState, llm: Llm, parse: JsonParser)
    ensures ParsesToObject(s, llm, parse) ==>
              AssessImageQuality(s, llm, parse) == parse(CleanFences(ReplyText(s, llm).value)).value.fields
    ensures !ParsesToObject(s, llm, parse) ==> AssessImageQuality(s, llm, parse) == QaFailed
    ensures ReplyText(s, llm).Some? <==>
              s.generatedImage.Some?
              && llm(AssessRequest(ModelName, s.enhancedPrompt, ContentParts(s.productImage, s.generatedImage).value)).Returned?
    ensures s.generatedImage.None? ==> AssessImageQuality(s, llm, parse) == QaFailed
  {
    var parts := ContentParts(s.productImage, s.generatedImage);
    if parts.Some? {
      var req := AssessRequest(ModelName, s.enhancedPrompt, parts.value);
      if llm(req).Returned? {
        match parse(CleanFences(llm(req).value))
        case Returned(JObj(d)) =>
        case _ =>
      }
    }
  }

  /** A reply that parses to an object is returned as it is, even one whose
      decisions are neither "accept" nor "reject". */
  lemma UnvalidatedVerdictReturned(s: FashionState, llm: Llm, parse: JsonParser, d: Dict)
    requires ReplyText(s, llm).Some? && parse(CleanFences(ReplyText(s, llm).value)) == Returned(JObj(d))
    ensures AssessImageQuality(s, llm, parse) == d
  {
    AssessOutcome(s, llm, parse);
  }

  /** Fail-open: when the LLM call raises, the verdict accepts both the image
      and the text. */
  lemma AssessorFailureAccepts(s: FashionState, llm: Llm, parse: JsonParser)
    requires s.generatedImage.Some?
    requires llm(AssessRequest(ModelName, s.enhancedPrompt, ContentParts(s.productImage, s.generatedImage).value)).Raised?
    ensures AssessImageQuality(s, llm, parse) == QaFailed
    ensures Get(QaFailed, "image_decision") == Some(JStr("accept")) && Get(QaFailed, "text_decision") == Some(JStr("accept"))
  {
  }
}
