/** `preprocess_node` of src/workflows/nodes/preprocess_node.py: replace the
    product image by its background-removed version. */
module NodePreprocess {
  import opened Types
  import opened State

  /** `remove_background` of `services.image_tools`, which is not part of
      this model: the cleaned image, or `Raised`. */
  type BackgroundRemover = Option<Bytes> -> Call<Option<Bytes>>

  /** The record after the node, or the exception it lets through. */
  function PreprocessStep(s: FashionState, remove: BackgroundRemover): Result<FashionState>
  {
    match remove(s.productImage)
    case Raised => Err(ServiceFailure)
    case Returned(cleaned) => Ok(s.(productImage := cleaned))
  }

  /** The node writes only `product_image`, with the cleaned image, and fails
      exactly when the background removal raises. */
  lemma PreprocessWriteSet(s: FashionState, remove: BackgroundRemover)
    ensures PreprocessStep(s, remove).Ok? <==> remove(s.productImage).Returned?
    ensures PreprocessStep(s, remove).Err? ==> PreprocessStep(s, remove).error == ServiceFailure
    ensures var r := PreprocessStep(s, remove);
            r.Ok? ==>
              && r.value.productImage == remove(s.productImage).value
              && r.value.description == s.description && r.value.filename == s.filename
              && r.value.enhancedPrompt == s.enhancedPrompt && r.value.generatedImage == s.generatedImage
              && r.value.outputPath == s.outputPath && r.value.attached == s.attached
  {
  }

  /** `preprocess_node(state)`. */
  method PreprocessNode(st: SharedState, remove: BackgroundRemover) returns (r: Result<SharedState>)
    modifies st
    ensures PreprocessStep(old(st.state), remove).Ok? ==> r == Ok(st) && st.state == PreprocessStep(old(st.state), remove).value
    ensures PreprocessStep(old(st.state), remove).Err? ==> r == Err(ServiceFailure) && st.state == old(st.state)
  {
    var cleanedImage := remove(st.state.productImage);
    if cleanedImage.Raised? {
      return Err(ServiceFailure);
    }
    st.state := st.state.(productImage := cleanedImage.value);
    return Ok(st);
  }
}
