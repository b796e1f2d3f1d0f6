/** `quality_node` of src/workflows/nodes/quality_node.py: store the
    assessment in the record and save the image only when both decisions
    accept. */
module NodeQuality {
  import opened Types
  import opened JsonModel
  import opened State
  import opened FileUtils
  import GeminiQualityAssessor

  const SuccessFolder := "success"
  const Accept := JStr("accept")

  /** `assessment.get("image_decision") == "accept" and
      assessment.get("text_decision") == "accept"`. */
  predicate BothAccept(assessment: Dict)
  {
    Get(assessment, "image_decision") == Some(Accept) && Get(assessment, "text_decision") == Some(Accept)
  }

  /** The record after the node, given the assessment and the path the save
      returns when it happens. */
  function QualityStep(s: FashionState, assessment: Dict, savedPath: string): FashionState
  {
    s.(attached := s.attached.(qualityAssessment := Some(assessment)),
       outputPath := if BothAccept(assessment) then Some(savedPath) else None)
  }

  /** `quality_node` as written: the record does not declare
      `quality_assessment`, so the assignment storing the assessment raises
      before the decision and the save; `QualityStep` is the node as its
      docstring describes it, on a record that declares the attribute. */
  function QualityStepAsWritten(s: FashionState, assessment: Dict, savedPath: string): Result<FashionState>
  {
    match CheckAssignment(DeclaredFields, "quality_assessment")
    case Err(e) => Err(e)
    case Ok(_) => Ok(QualityStep(s, assessment, savedPath))
  }

  /** As written, the node raises for every record and every assessment,
      a double accept included; on the record that declares the attribute
      it stores the assessment and goes on to the decision. */
  lemma QualityAsWrittenRaises(s: FashionState, assessment: Dict, savedPath: string)
    ensures QualityStepAsWritten(s, assessment, savedPath) == Err(UndeclaredField)
    ensures CheckAssignment(IntendedFields, "quality_assessment") == Ok(())
  {
    AttachedFieldsUndeclared();
  }

  /** The assessment is stored as it is; `output_path` is the saved path
      exactly when both decisions accept, and `None` otherwise, whatever it
      held before; no other field changes. */
  lemma QualityDecision(s: FashionState, assessment: Dict, savedPath: string)
    ensures var t := QualityStep(s, assessment, savedPath);
            && t.attached.qualityAssessment == Some(assessment)
            && (BothAccept(assessment) <==> t.outputPath == Some(savedPath))
            && (!BothAccept(assessment) ==> t.outputPath.None?)
            && t.description == s.description && t.productImage == s.productImage
            && t.filename == s.filename && t.enhancedPrompt == s.enhancedPrompt
            && t.generatedImage == s.generatedImage
            && t.attached.textCorrectionApplied == s.attached.textCorrectionApplied
  {
  }

  /** A missing decision reads as `None`, which is not "accept". */
  lemma MissingDecisionRejects(s: FashionState, assessment: Dict, savedPath: string)
    requires "image_decision" !in assessment || "text_decision" !in assessment
    ensures QualityStep(s, assessment, savedPath).outputPath.None?
  {
  }

  /** The fail-open verdict of the assessor leads to a save. */
  lemma FailOpenSaves(s: FashionState, savedPath: string)
    ensures BothAccept(GeminiQualityAssessor.QaFailed)
    ensures QualityStep(s, GeminiQualityAssessor.QaFailed, savedPath).outputPath == Some(savedPath)
  {
  }

  /** `quality_node(state)`: one save into "success", of the generated image
      under the record's file name, exactly on the double accept. */
  method QualityNode(st: SharedState, store: ImageStore, llm: GeminiQualityAssessor.Llm, parse: GeminiQualityAssessor.JsonParser)
    returns (out: SharedState)
    modifies st, store
    ensures out == st
    ensures var a := GeminiQualityAssessor.AssessImageQuality(old(st.state), llm, parse);
            var path := store.locate(|old(store.saved)|, old(st.state).filename, SuccessFolder);
            && st.state == QualityStep(old(st.state), a, path)
            && store.saved == old(store.saved)
                 + (if BothAccept(a) then [SavedImage(old(st.state).generatedImage, old(st.state).filename, SuccessFolder, path)] else [])
  {
    var assessment := GeminiQualityAssessor.AssessImageQuality(st.state, llm, parse);
    st.state := st.state.(attached := st.state.attached.(qualityAssessment := Some(assessment)));
    if Get(assessment, "image_decision") == Some(Accept) && Get(assessment, "text_decision") == Some(Accept) {
      var path := store.SaveImage(st.state.generatedImage, st.state.filename, SuccessFolder);
      st.state := st.state.(outputPath := Some(path));
    } else {
      st.state := st.state.(outputPath := None);
    }
    return st;
  }
}
