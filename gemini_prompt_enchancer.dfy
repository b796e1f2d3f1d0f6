/** `enhance_prompt_with_gemini` of src/services/gemini_prompt_enchancer.py,
    the second variant (no module imports it): another model and request
    wording, the same strip-or-fallback policy and the same fallback text. */
module GeminiPromptEnchancer {
  import opened Types
  import opened Text
  import GeminiClient

  const ModelName := "gemini-2.5-pro"

  const FallbackHead := "Photorealistic, professional fashion photo of an Egyptian model wearing "
  const FallbackTail := ". Studio-quality lighting, realistic fabric texture, full body, editorial pose, high-resolution."

  /** The same shape of request as the other variant: model and embedded description. */
  type Llm = GeminiClient.Request -> Call<string>

  function Fallback(basePrompt: string): string
  {
    FallbackHead + basePrompt + FallbackTail
  }

  /** `enhance_prompt_with_gemini(base_prompt)`; it never raises. */
  function EnhancePromptWithGemini(basePrompt: string, llm: Llm): string
  {
    match llm(GeminiClient.Request(ModelName, basePrompt))
    case Returned(content) => Strip(content)
    case Raised => Fallback(basePrompt)
  }

  /** The fallback of this variant is the same string as the other's. */
  lemma FallbackMatchesClient(basePrompt: string)
    ensures Fallback(basePrompt) == GeminiClient.Fallback(basePrompt)
  {
  }

  /** The two variants differ only in the request they send: given the same
      reply, or the same failure, they return the same prompt. */
  lemma VariantsAgree(basePrompt: string, llm: Llm)
    requires llm(GeminiClient.Request(ModelName, basePrompt)) == llm(GeminiClient.Request(GeminiClient.ModelName, basePrompt))
    ensures EnhancePromptWithGemini(basePrompt, llm) == GeminiClient.EnhancePromptWithGemini(basePrompt, llm)
  {
  }

  /** On any exception the result still holds the description verbatim. */
  lemma FallbackEmbedsDescription(basePrompt: string, llm: Llm)
    requires llm(GeminiClient.Request(ModelName, basePrompt)).Raised?
    ensures var r := EnhancePromptWithGemini(basePrompt, llm);
            r[|FallbackHead|..|FallbackHead| + |basePrompt|] == basePrompt
            && r[..|FallbackHead|] == FallbackHead
  {
    var r := EnhancePromptWithGemini(basePrompt, llm);
    assert r == FallbackHead + basePrompt + FallbackTail;
  }
}
