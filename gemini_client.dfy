/** `enhance_prompt_with_gemini` of src/services/gemini_client.py: ask the
    LLM to expand a short description; on any failure fall back to a fixed
    template around the description. */
module GeminiClient {
  import opened Types
  import opened Text

  const ModelName := "gemini-1.5-pro-latest"

  const FallbackHead := "Photorealistic, professional fashion photo of an Egyptian model wearing "
  const FallbackTail := ". Studio-quality lighting, realistic fabric texture, full body, editorial pose, high-resolution."

  /** The expansion request: the model asked and the user description the
      request text embeds (the rest of the request's wording is not modelled). */
  datatype Request = Request(model: string, basePrompt: string)

  /** Building the client, invoking it and reading `response.content` as a
      string: the content, or `Raised` when any of it raised. */
  type Llm = Request -> Call<string>

  /** The templated expansion: the description verbatim between a fixed head
      and a fixed tail. */
  function Fallback(basePrompt: string): (r: string)
    ensures |r| == |FallbackHead| + |basePrompt| + |FallbackTail|
    ensures r[..|FallbackHead|] == FallbackHead
    ensures r[|FallbackHead|..|FallbackHead| + |basePrompt|] == basePrompt
    ensures r[|FallbackHead| + |basePrompt|..] == FallbackTail
  {
    FallbackHead + basePrompt + FallbackTail
  }

  /** `enhance_prompt_with_gemini(base_prompt)`; it never raises. */
  function EnhancePromptWithGemini(basePrompt: string, llm: Llm): string
  {
    match llm(Request(ModelName, basePrompt))
    case Returned(content) => Strip(content)
    case Raised => Fallback(basePrompt)
  }

  /** On success the result is the reply with its outer whitespace removed
      (a slice of the reply that starts and ends with a non-space); on any
      exception it is the fallback template around the description. */
  lemma EnhanceOutcome(basePrompt: string, llm: Llm)
    ensures var r := EnhancePromptWithGemini(basePrompt, llm);
            match llm(Request(ModelName, basePrompt))
            case Raised => r == Fallback(basePrompt)
            case Returned(content) =>
              && (r == [] || (!IsSpace(r[0]) && !IsSpace(r[|r| - 1])))
              && exists i, j :: TrimmedSliceAt(content, i, j) && r == content[i..j]
  {
    match llm(Request(ModelName, basePrompt))
    case Raised =>
    case Returned(content) => StripIsTrimmedSlice(content);
  }
}
