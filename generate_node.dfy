/** `generate_node` of src/workflows/nodes/generate_node.py: generate the
    image from the prompt, from the product image as well when there is one. */
module NodeGenerate {
  import opened Types
  import opened GenaiTypes
  import opened State
  import opened GeminiImageGen

  /** The `init_image` the node passes: the product image when it is truthy,
      the default `None` otherwise. */
  function InitImage(s: FashionState): Option<Bytes>
  {
    if Truthy(s.productImage) then s.productImage else None
  }

  /** The record after the node, or the exception it re-raises. */
  function GenerateStep(s: FashionState, keys: ApiKeys, stream: ImageStream): Result<FashionState>
  {
    match GenerateImageSpec(keys, s.enhancedPrompt, InitImage(s), stream)
    case Err(e) => Err(e)
    case Ok(image) => Ok(s.(generatedImage := Some(image)))
  }

  /** Image-to-image when the product image is truthy, text-to-image
      otherwise, with the enhanced prompt as the text part either way. */
  lemma GenerateModeSelection(s: FashionState)
    ensures Truthy(s.productImage) ==>
              Contents(s.enhancedPrompt, InitImage(s)) == [BlobPart(s.productImage.value, InitImageMime), TextPart(s.enhancedPrompt)]
    ensures !Truthy(s.productImage) ==> Contents(s.enhancedPrompt, InitImage(s)) == [TextPart(s.enhancedPrompt)]
  {
    ContentsShape(s.enhancedPrompt, InitImage(s));
  }

  /** On success only `generated_image` changes, to the generator's
      non-empty result; on failure the generator's exception comes out and
      the record is not changed. */
  lemma GenerateWriteSet(s: FashionState, keys: ApiKeys, stream: ImageStream)
    ensures var g := GenerateImageSpec(keys, s.enhancedPrompt, InitImage(s), stream);
            var r := GenerateStep(s, keys, stream);
            && (r.Ok? <==> g.Ok?)
            && (r.Err? ==> r.error == g.error)
            && (r.Ok? ==>
                  && r.value.generatedImage == Some(g.value) && |g.value| > 0
                  && r.value.description == s.description && r.value.productImage == s.productImage
                  && r.value.filename == s.filename && r.value.enhancedPrompt == s.enhancedPrompt
                  && r.value.outputPath == s.outputPath && r.value.attached == s.attached)
  {
    GenerateOutcome(keys, s.enhancedPrompt, InitImage(s), stream);
  }

  /** `generate_node(state)`. */
  method GenerateNode(st: SharedState, keys: ApiKeys, stream: ImageStream) returns (r: Result<SharedState>)
    modifies st
    ensures GenerateStep(old(st.state), keys, stream).Ok? ==> r == Ok(st) && st.state == GenerateStep(old(st.state), keys, stream).value
    ensures GenerateStep(old(st.state), keys, stream).Err? ==>
              r == Err(GenerateStep(old(st.state), keys, stream).error) && st.state == old(st.state)
  {
    var generated: Result<Bytes>;
    if Truthy(st.state.productImage) {
      generated := GenerateImageFromPrompt(keys, st.state.enhancedPrompt, st.state.productImage, stream);
    } else {
      generated := GenerateImageFromPrompt(keys, st.state.enhancedPrompt, None, stream);
    }
    if generated.Err? {
      return Err(generated.error);
    }
    st.state := st.state.(generatedImage := Some(generated.value));
    return Ok(st);
  }
}
