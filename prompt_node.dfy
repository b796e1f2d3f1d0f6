/** `prompt_node` of src/workflows/nodes/prompt_node.py: expand the
    description into the prompt used for generation. */
module NodePrompt {
  import opened Types
  import opened State
  import GeminiClient

  /** The record after the node. */
  function PromptStep(s: FashionState, llm: GeminiClient.Llm): FashionState
  {
    s.(enhancedPrompt := Some(GeminiClient.EnhancePromptWithGemini(s.description, llm)))
  }

  /** The node writes only `enhanced_prompt`, with the enhancer's output on
      the description. */
  lemma PromptWriteSet(s: FashionState, llm: GeminiClient.Llm)
    ensures var t := PromptStep(s, llm);
            && t.enhancedPrompt == Some(GeminiClient.EnhancePromptWithGemini(s.description, llm))
            && t.description == s.description && t.productImage == s.productImage
            && t.filename == s.filename && t.generatedImage == s.generatedImage
            && t.outputPath == s.outputPath && t.attached == s.attached
  {
  }

  /** The only field the node reads is `description`: two records that agree
      on it get the same prompt. */
  lemma PromptReadsOnlyDescription(s1: FashionState, s2: FashionState, llm: GeminiClient.Llm)
    requires s1.description == s2.description
    ensures PromptStep(s1, llm).enhancedPrompt == PromptStep(s2, llm).enhancedPrompt
  {
  }

  /** When the LLM call fails, the prompt holds the description verbatim. */
  lemma PromptFallbackEmbedsDescription(s: FashionState, llm: GeminiClient.Llm)
    requires llm(GeminiClient.Request(GeminiClient.ModelName, s.description)).Raised?
    ensures var p := PromptStep(s, llm).enhancedPrompt.value;
            var h := |GeminiClient.FallbackHead|;
            h + |s.description| <= |p| && p[h..h + |s.description|] == s.description
  {
  }

  /** `prompt_node(state)`: it changes the record and returns the same object. */
  method PromptNode(st: SharedState, llm: GeminiClient.Llm) returns (out: SharedState)
    modifies st
    ensures out == st && st.state == PromptStep(old(st.state), llm)
  {
    var enhanced := GeminiClient.EnhancePromptWithGemini(st.state.description, llm);
    st.state := st.state.(enhancedPrompt := Some(enhanced));
    return st;
  }
}
