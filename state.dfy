/** The workflow record `FashionState` of src/models/state.py and the one
    mutable instance of it that the nodes receive, change and return. */
module State {
  import opened Types
  import opened JsonModel

  /** The two fields the quality and text-correction nodes attach to the
      record; the record as written does not declare them (see
      `CheckAssignment`), the record the nodes expect does. `None` until a
      node sets them. */
  datatype Attached = Attached(qualityAssessment: Option<Dict>, textCorrectionApplied: Option<bool>)

  /** The six declared fields, then the attached ones. */
  datatype FashionState = FashionState(
    description: string,
    productImage: Option<Bytes>,
    filename: string,
    enhancedPrompt: Option<string>,
    generatedImage: Option<Bytes>,
    outputPath: Option<string>,
    attached: Attached)

  /** `FashionState(description=..., product_image=..., filename=...)`: the
      three required fields as given, every other field at its default. */
  function NewFashionState(description: string, productImage: Option<Bytes>, filename: string): FashionState
  {
    FashionState(description, productImage, filename, None, None, None, Attached(None, None))
  }

  lemma NewFashionStateDefaults(description: string, productImage: Option<Bytes>, filename: string)
    ensures var s := NewFashionState(description, productImage, filename);
            && s.description == description && s.productImage == productImage && s.filename == filename
            && s.enhancedPrompt.None? && s.generatedImage.None? && s.outputPath.None?
            && s.attached.qualityAssessment.None? && s.attached.textCorrectionApplied.None?
  {
  }

  /** Constructing the record validates the required fields: `product_image`
      is declared `bytes` without a default, so `None` is rejected; the two
      strings always are strings here. */
  function ValidateFashionState(description: string, productImage: Option<Bytes>, filename: string): (r: Result<FashionState>)
    ensures r.Ok? <==> productImage.Some?
    ensures r.Err? ==> r.error == InvalidRecord
    ensures r.Ok? ==> r.value.productImage == productImage && r.value.description == description && r.value.filename == filename
    ensures r.Ok? ==> r.value.enhancedPrompt.None? && r.value.generatedImage.None? && r.value.outputPath.None?
  {
    if productImage.None? then Err(InvalidRecord) else Ok(NewFashionState(description, productImage, filename))
  }

  /** The attributes `FashionState` declares. */
  const DeclaredFields: set<string> :=
    {"description", "product_image", "filename", "enhanced_prompt", "generated_image", "output_path"}

  /** The attributes the nodes evidently expect the record to have: the
      declared ones and the two that the quality and text-correction nodes
      attach. */
  const IntendedFields: set<string> := DeclaredFields + {"quality_assessment", "text_correction_applied"}

  /** `record.name = value` on a pydantic model whose attributes are
      `fields` and which allows no extra ones: a name it does not declare
      raises `ValueError`; assignments are not validated otherwise. */
  function CheckAssignment(fields: set<string>, name: string): (r: Result<()>)
    ensures r.Ok? <==> name in fields
    ensures r.Err? ==> r.error == UndeclaredField
  {
    if name in fields then Ok(()) else Err(UndeclaredField)
  }

  /** The record as written refuses both attached attributes and accepts
      every declared one; the record the nodes expect accepts all eight. */
  lemma AttachedFieldsUndeclared()
    ensures CheckAssignment(DeclaredFields, "quality_assessment") == Err(UndeclaredField)
    ensures CheckAssignment(DeclaredFields, "text_correction_applied") == Err(UndeclaredField)
    ensures CheckAssignment(DeclaredFields, "generated_image").Ok?
    ensures CheckAssignment(DeclaredFields, "output_path").Ok?
    ensures CheckAssignment(DeclaredFields, "product_image").Ok?
    ensures CheckAssignment(DeclaredFields, "enhanced_prompt").Ok?
    ensures CheckAssignment(IntendedFields, "quality_assessment").Ok?
    ensures CheckAssignment(IntendedFields, "text_correction_applied").Ok?
  {
  }

  /** The record object the nodes share by reference. */
  class SharedState {
    var state: FashionState

    constructor (s: FashionState)
      ensures state == s
    {
      state := s;
    }
  }
}
