/** `text_correction_node` of src/workflows/nodes/text_correction_node.py:
    re-draw the product's text and logos on the generated image from a
    segmentation mask and the product image. The node is defined but no
    graph runs it. */
module NodeTextCorrection {
  import opened Types
  import opened State
  import opened GeminiMaskBasedEditor

  /** What the node calls: the API key both services read from `settings`,
      the segmentation services and the in-painting call. */
  datatype CorrectionServices = CorrectionServices(settingsKey: Option<string>, segment: SegmentServices, inpaint: InpaintCall)

  /** `text_correction_applied = True`. */
  function Flagged(s: FashionState): FashionState
  {
    s.(attached := s.attached.(textCorrectionApplied := Some(true)))
  }

  /** The record after the assignment of the `try` body that replaces the
      generated image: the in-painting of the current image with the mask
      computed from it and the product image when both phases succeed, the
      record unchanged when either raises. */
  function Corrected(s: FashionState, svc: CorrectionServices): FashionState
    requires Truthy(s.productImage) && Truthy(s.generatedImage)
  {
    match SegmentationMaskSpec(s.generatedImage.value, svc.settingsKey, svc.segment)
    case Err(_) => s
    case Ok(mask) =>
      match InpaintSpec(s.generatedImage.value, mask, s.productImage.value, svc.settingsKey, svc.inpaint)
      case Err(_) => s
      case Ok(corrected) => s.(generatedImage := corrected)
  }

  /** The record after the node on a record that declares
      `text_correction_applied`; it never raises. */
  function TextCorrectionStep(s: FashionState, svc: CorrectionServices): FashionState
  {
    if !Truthy(s.productImage) || !Truthy(s.generatedImage) then s
    else Flagged(Corrected(s, svc))
  }

  /** Without both images the record comes back unchanged and unflagged. */
  lemma TextCorrectionSkips(s: FashionState, svc: CorrectionServices)
    requires !Truthy(s.productImage) || !Truthy(s.generatedImage)
    ensures TextCorrectionStep(s, svc) == s
  {
  }

  /** With both images: the flag is set whatever happens, the product image
      and every field but the generated image stay as they were, and the
      generated image changes only when both phases succeed: it becomes the
      in-painting of the current image with the mask computed from it and
      the product image. */
  lemma TextCorrectionOutcome(s: FashionState, svc: CorrectionServices)
    requires Truthy(s.productImage) && Truthy(s.generatedImage)
    ensures var t := TextCorrectionStep(s, svc);
            var m := SegmentationMaskSpec(s.generatedImage.value, svc.settingsKey, svc.segment);
            && t.attached.textCorrectionApplied == Some(true)
            && t.productImage == s.productImage && t.description == s.description
            && t.filename == s.filename && t.enhancedPrompt == s.enhancedPrompt
            && t.outputPath == s.outputPath && t.attached.qualityAssessment == s.attached.qualityAssessment
            && (m.Err? ==> t.generatedImage == s.generatedImage)
            && (m.Ok? ==>
                  var c := InpaintSpec(s.generatedImage.value, m.value, s.productImage.value, svc.settingsKey, svc.inpaint);
                  t.generatedImage == (if c.Ok? then c.value else s.generatedImage))
  {
  }

  /** `text_correction_node(state)`: it changes the record and returns the
      same object. */
  method TextCorrectionNode(st: SharedState, svc: CorrectionServices) returns (out: SharedState)
    modifies st
    ensures out == st && st.state == TextCorrectionStep(old(st.state), svc)
  {
    if !Truthy(st.state.productImage) || !Truthy(st.state.generatedImage) {
      return st;
    }
    var maskBytes := GetSegmentationMask(st.state.generatedImage.value, svc.settingsKey, svc.segment);
    if maskBytes.Err? {
      st.state := st.state.(attached := st.state.attached.(textCorrectionApplied := Some(true)));
      return st;
    }
    var correctedImageBytes := InpaintWithMaskAndReference(st.state.generatedImage.value, maskBytes.value, st.state.productImage.value, svc.settingsKey, svc.inpaint);
    if correctedImageBytes.Err? {
      st.state := st.state.(attached := st.state.attached.(textCorrectionApplied := Some(true)));
      return st;
    }
    st.state := st.state.(generatedImage := correctedImageBytes.value);
    st.state := st.state.(attached := st.state.attached.(textCorrectionApplied := Some(true)));
    return st;
  }

  /** `text_correction_node(state)` as written: the record does not declare
      `text_correction_applied`, so the flag's assignment inside the `try`
      raises, the handler's own assignment raises again, and the node raises
      on every path that does not skip, after the generated image has been
      replaced in place when both phases succeeded. */
  method TextCorrectionNodeAsWritten(st: SharedState, svc: CorrectionServices) returns (r: Result<SharedState>)
    modifies st
    ensures var s := old(st.state);
            if !Truthy(s.productImage) || !Truthy(s.generatedImage) then r == Ok(st) && st.state == s
            else r == Err(UndeclaredField) && st.state == Corrected(s, svc)
  {
    if !Truthy(st.state.productImage) || !Truthy(st.state.generatedImage) {
      return Ok(st);
    }
    var maskBytes := GetSegmentationMask(st.state.generatedImage.value, svc.settingsKey, svc.segment);
    if maskBytes.Ok? {
      var correctedImageBytes := InpaintWithMaskAndReference(st.state.generatedImage.value, maskBytes.value, st.state.productImage.value, svc.settingsKey, svc.inpaint);
      if correctedImageBytes.Ok? {
        st.state := st.state.(generatedImage := correctedImageBytes.value);
      }
    }
    // the flag inside the `try`, or the handler's flag after a phase raised
    AttachedFieldsUndeclared();
    var flagged := CheckAssignment(DeclaredFields, "text_correction_applied");
    return Err(flagged.error);
  }
}
