# AI fashion agent: workflow state, stage nodes and service slices in Dafny

This project models the core of an image-generation service for fashion
products. `run_workflow` gets a description, an uploaded product image and a
file name. It builds a four-stage graph (preprocess → prompt → generate →
quality), compiles it, and runs it once on a fresh `FashionState` record. It
returns the record's `output_path`. The model covers these parts:

- **The record.** `FashionState` is a datatype with its six declared fields.
  It also holds the two fields that nodes attach at run time: the quality
  assessment and the text-correction flag. The record class as written does
  not declare these two, so pydantic refuses both assignments (see
  "## Findings"); the stage functions model the nodes on a record that
  declares them, and separate members model the nodes as written. The one
  mutable record object the nodes share is `State.SharedState`.
- **The stages.** Each node is a method that changes that object in place.
  Each method is proved equal to a step function (`PromptStep`,
  `GenerateStep`, `QualityStep`, …), and the lemmas about a node's write-set
  and failure policy are stated on its step function. The text-correction
  node is modelled too, although no graph runs it.
- **The services.** Their deterministic parts are modelled:
  - the prompt enhancer's strip-or-fallback (both variants);
  - the quality assessor's Base64 data URLs, content assembly, fence removal
    and fail-open verdict;
  - image generation's key check, request contents and streamed-chunk scan,
    as a method with nested loops;
  - the mask editor's key check, segmentation-reply processing and in-paint
    part scan, as methods with loops:
    - item filtering;
    - box scaling with truncation toward zero;
    - data-URL prefix removal and Base64 padding.
- **Outside calls.** Every call outside the core is a function-typed
  parameter that returns `Returned(v)` or `Raised`. These are the LLMs, the
  image stream, the image library, `json.loads`, Base64 decoding of a mask,
  background removal and the file sink.

The graph has static edges only, and quality is the last stage: there is
no conditional routing, no retry counter, no correction loop and no save on
failure, and the assessor's fail-open reason is "QA service failed.".
`FashionGraph.FashionGraphShape` proves there is no path back to generation
and none into text correction.

Building the record validates it: `product_image` is declared `bytes`
without a default, so a run without an uploaded image (`image_bytes` is
`None`) fails when the record is constructed, before any stage runs.

The Base64 output of `image_bytes_to_base64` has length 4·⌈n/3⌉ for n
input bytes, which `Base64.Encode` states. It is a multiple of four, uses
only the standard alphabet of section 4 of RFC 4648, and places '=' only in
the last two positions.

## Model

| member | source | states |
|---|---|---|
| `State.NewFashionState` | src/models/state.py:3-9 | the record built from the three required fields, every other field at its default; its properties are stated by `State.NewFashionStateDefaults` |
| `State.ValidateFashionState` | src/workflows/fashion_graph.py:26 | construction succeeds exactly when `product_image` is present (declared `bytes`, no default), and otherwise fails with the validation error; a built record holds the given fields and the defaults |
| `State.AttachedFieldsUndeclared` | src/models/state.py:3-9 | assigning `quality_assessment` or `text_correction_applied` to the record as written raises `ValueError`, while every declared field is accepted; a record that declares the two attached fields accepts them |
| `State.NewFashionStateDefaults` | src/models/state.py:3-9 | a new record has the three given fields as given; `enhanced_prompt`, `generated_image`, `output_path` and both attached fields are `None` |
| `State.SharedState.constructor` | src/models/state.py:3-9 | the shared record object starts with the given value |
| `FileUtils.ImageStore.SaveImage` | src/utils/file_utils.py:5-23 | a save appends one entry (image, file name, folder, path) to the store's log and returns the path |
| `Text.LeadingSpaces` | src/services/gemini_client.py:28 | the whitespace `strip()` removes at the front: every character before the index is a space, and the character at it is not |
| `Text.TrailingStart` | src/services/gemini_client.py:28 | the whitespace `strip()` removes at the back: every character from the index on is a space, and the one before it is not |
| `Text.Strip` | src/services/gemini_client.py:28 | `str.strip()` as the trailing trim of the leading trim; characterised by `Text.StripIsTrimmedSlice` |
| `Text.StripIsTrimmedSlice` | src/services/gemini_client.py:28 | `strip()` returns the slice of its input between the leading and trailing whitespace, and the result starts and ends with a non-space |
| `Text.StripIdempotent` | src/services/gemini_client.py:28 | stripping twice is stripping once |
| `Text.StripKeepsUnpadded` | src/services/gemini_client.py:28 | a string whose first and last characters are not whitespace is its own `strip()` |
| `Text.ReplaceAll` | src/services/gemini_quality_assessor.py:69 | `str.replace(old, new)` as a left-to-right scan replacing non-overlapping occurrences; its properties are `Text.ReplaceAtHead`, `Text.ReplaceSkipsPlain`, `Text.ReplaceAbsent` and `Text.RemoveFenceLeavesNone` |
| `Text.ReplaceAtHead` | src/services/gemini_quality_assessor.py:69 | an occurrence at the head is replaced and the scan goes on right after it |
| `Text.ReplaceSkipsPlain` | src/services/gemini_quality_assessor.py:69 | a prefix without the pattern's first character is kept as it is, and the scan goes on with the rest |
| `Text.ReplaceAbsent` | src/services/gemini_quality_assessor.py:69 | `replace` leaves a string without the pattern unchanged |
| `Text.RemoveFenceLeavesNone` | src/services/gemini_quality_assessor.py:69 | after `replace("```", "")` no three backticks remain in a row |
| `Text.RemovePrefix` | src/services/gemini_mask_based_editor.py:71 | `removeprefix` drops the prefix exactly when it is present, and otherwise returns the string unchanged |
| `Base64.Encode` | src/services/gemini_quality_assessor.py:10-12 | the encoding has length 4·⌈n/3⌉, a multiple of 4; every character is in the standard alphabet or is a '=' among the last two |
| `Base64.DecodeEncode` | src/services/gemini_quality_assessor.py:10-12 | decoding the encoding of any bytes gives the bytes back |
| `GeminiQualityAssessor.ImageBytesToBase64` | src/services/gemini_quality_assessor.py:10-12 | the length and alphabet of standard Base64, and the text decodes to the input |
| `GeminiQualityAssessor.ContentParts` | src/services/gemini_quality_assessor.py:44-61 | the parts start with the instruction and end with the generated image's data URL; the product image's data URL is the middle part exactly when the product image is truthy; `None` when the generated image is `None` |
| `GeminiQualityAssessor.CleanFences` | src/services/gemini_quality_assessor.py:69 | the cleaned reply contains no "```"; what it keeps is stated by the two lemmas below |
| `GeminiQualityAssessor.CleanFencesKeepsPlain` | src/services/gemini_quality_assessor.py:69 | a reply without backticks is only stripped, so nothing else of it is lost |
| `GeminiQualityAssessor.CleanFencesUnwrapsJson` | src/services/gemini_quality_assessor.py:69 | a reply "```json" + j + "```" with no backtick in j cleans to exactly j |
| `GeminiQualityAssessor.AssessImageQuality` | src/services/gemini_quality_assessor.py:14-77 | the verdict for a record; what it is in every case is stated by `GeminiQualityAssessor.AssessOutcome` |
| `GeminiQualityAssessor.AssessOutcome` | src/services/gemini_quality_assessor.py:14-77 | when the request can be built, the call returns and the fence-free reply parses to a JSON object, the verdict is exactly that object, without checking its decisions; in every other case (no generated image, a raising call, a parse failure, a value that is not an object) it is the fail-open default |
| `GeminiQualityAssessor.UnvalidatedVerdictReturned` | src/services/gemini_quality_assessor.py:70-73 | a reply that parses to an object is returned as it is, whatever its decisions say |
| `GeminiQualityAssessor.AssessorFailureAccepts` | src/services/gemini_quality_assessor.py:75-77 | a raising LLM call gives the default verdict, which accepts both image and text |
| `GeminiClient.Fallback` | src/services/gemini_client.py:29-34 | the fallback is the fixed head, then the description verbatim, then the fixed tail |
| `GeminiClient.EnhancePromptWithGemini` | src/services/gemini_client.py:8-34 | the LLM call on the description, stripped, or the fallback; stated by `GeminiClient.EnhanceOutcome` |
| `GeminiClient.EnhanceOutcome` | src/services/gemini_client.py:8-34 | on success the prompt is the reply with outer whitespace stripped (a slice of it with non-space ends); on any exception it is the fallback; it never raises |
| `GeminiPromptEnchancer.EnhancePromptWithGemini` | src/services/gemini_prompt_enchancer.py:9-57 | the second variant of the enhancer; stated by `GeminiPromptEnchancer.VariantsAgree` and `GeminiPromptEnchancer.FallbackEmbedsDescription` |
| `GeminiPromptEnchancer.FallbackMatchesClient` | src/services/gemini_prompt_enchancer.py:51-54 | this variant's fallback string is identical to the other variant's |
| `GeminiPromptEnchancer.VariantsAgree` | src/services/gemini_prompt_enchancer.py:9-57 | given the same reply or the same failure, both variants return the same prompt |
| `GeminiPromptEnchancer.FallbackEmbedsDescription` | src/services/gemini_prompt_enchancer.py:48-57 | on any exception the result holds the description verbatim after the fixed head |
| `GeminiImageGen.SelectApiKey` | src/services/gemini_image_gen.py:21-23 | a key exists exactly when the environment or the settings value is truthy; the environment wins |
| `GeminiImageGen.MissingKeyFails` | src/services/gemini_image_gen.py:21-23 | with neither key the call fails with the missing-key error before any request |
| `GeminiImageGen.Contents` | src/services/gemini_image_gen.py:27-37 | the request contents; their shape is stated by `GeminiImageGen.ContentsShape` |
| `GeminiImageGen.ContentsShape` | src/services/gemini_image_gen.py:27-37 | contents are [PNG image part, text part] when the initial image is truthy, else [text part]; the prompt is always last |
| `GeminiImageGen.FirstImage` | src/services/gemini_image_gen.py:59-63 | the image taken from a chunk's parts is non-empty |
| `GeminiImageGen.FirstImageIsFirst` | src/services/gemini_image_gen.py:59-63 | the image taken from a chunk is the data of the first part with non-empty inline data, and there is none exactly when no part has any |
| `GeminiImageGen.ChunkImage` | src/services/gemini_image_gen.py:51-63 | a chunk without candidates, content or parts gives nothing; any image a chunk gives is non-empty |
| `GeminiImageGen.LastImage` | src/services/gemini_image_gen.py:49-63 | the image kept after the scan is non-empty |
| `GeminiImageGen.LastImageWitness` | src/services/gemini_image_gen.py:49-63 | a kept image comes from a chunk after which no chunk carries an image |
| `GeminiImageGen.LastWithIsKept` | src/services/gemini_image_gen.py:49-63 | the image of a chunk after which no chunk carries an image is the one kept |
| `GeminiImageGen.LastImageIsLast` | src/services/gemini_image_gen.py:49-63 | the result is `d` exactly when some chunk contributes `d` and no later chunk contributes anything (`break` leaves only the inner loop) |
| `GeminiImageGen.LaterChunkOverwrites` | src/services/gemini_image_gen.py:51-63 | of two chunks that both carry an image, the second one's is kept |
| `GeminiImageGen.GenerateImageSpec` | src/services/gemini_image_gen.py:15-68 | the outcome of `generate_image_from_prompt`; stated by `GeminiImageGen.GenerateOutcome`, `GeminiImageGen.GenerateReturnsLastImage` and `GeminiImageGen.MissingKeyFails` |
| `GeminiImageGen.GenerateOutcome` | src/services/gemini_image_gen.py:21-68 | the missing-key error exactly without a truthy key; the service failure exactly when the stream raises; the no-image error exactly when the stream arrives and no chunk carries an image; otherwise the image the chunk scan keeps, which is never empty |
| `GeminiImageGen.GenerateReturnsLastImage` | src/services/gemini_image_gen.py:49-68 | once the stream arrives, the call returns `d` exactly when some chunk carries `d` and no later chunk carries any image |
| `GeminiImageGen.GenerateImageFromPrompt` | src/services/gemini_image_gen.py:15-68 | the key check, the contents built by appends and the nested chunk/part loops produce the specified outcome, which is non-empty on success |
| `GeminiMaskBasedEditor.CheckApiKey` | src/services/gemini_mask_based_editor.py:17-19 | the call proceeds exactly when the settings key is truthy; otherwise the missing-key error |
| `GeminiMaskBasedEditor.TruncDiv` | src/services/gemini_mask_based_editor.py:67 | `int()` of a quotient truncates toward zero, for either sign |
| `GeminiMaskBasedEditor.Scale` | src/services/gemini_mask_based_editor.py:67 | `int(c / 1000 * dim)` read over the integers; stated by `GeminiMaskBasedEditor.TruncDiv`, `GeminiMaskBasedEditor.ScaleInRange` and `GeminiMaskBasedEditor.ScaleMonotone` |
| `GeminiMaskBasedEditor.ScaleInRange` | src/services/gemini_mask_based_editor.py:67 | a coordinate in 0–1000 scales into 0..dim |
| `GeminiMaskBasedEditor.ScaleMonotone` | src/services/gemini_mask_based_editor.py:67 | scaling keeps the order of coordinates |
| `GeminiMaskBasedEditor.ScaleBox` | src/services/gemini_mask_based_editor.py:67 | ordered 0–1000 coordinates of each axis give an ordered box inside the image: y0 ≤ y1 within the height, x0 ≤ x1 within the width |
| `GeminiMaskBasedEditor.ScaleAxis` | src/services/gemini_mask_based_editor.py:67 | two ordered coordinates in the 0–1000 range scale to ordered values within the dimension |
| `GeminiMaskBasedEditor.Coordinates` | src/services/gemini_mask_based_editor.py:67 | coordinates exist exactly when the box is a list whose first four elements are numbers (booleans as 0/1); otherwise the comprehension or the unpacking raises |
| `GeminiMaskBasedEditor.PadChars` | src/services/gemini_mask_based_editor.py:76 | `"=" * n` is n '=' characters |
| `GeminiMaskBasedEditor.Pad` | src/services/gemini_mask_based_editor.py:73-76 | after padding the length is a multiple of 4; at most 3 characters, all '=', are appended after the unchanged input; an aligned string is unchanged |
| `GeminiMaskBasedEditor.PadRestoresStrippedPadding` | src/services/gemini_mask_based_editor.py:73-76 | padding restores a padded string from which up to three trailing '=' were dropped |
| `GeminiMaskBasedEditor.DataUrlPadding` | src/services/gemini_mask_based_editor.py:71-76 | prefix removal then padding turns a data URL of such a string back into the string |
| `GeminiMaskBasedEditor.DecodeDataUrl` | src/services/gemini_mask_based_editor.py:71-79 | such a data URL decodes to what the Base64 text decodes to |
| `GeminiMaskBasedEditor.MaskStringRoundTrip` | src/services/gemini_mask_based_editor.py:71-79 | the data URL of a mask's Base64, with any of its padding missing, decodes after prefix removal and padding to the mask's bytes |
| `GeminiMaskBasedEditor.ItemStep` | src/services/gemini_mask_based_editor.py:59-84 | a non-dict element raises; one without a truthy `box_2d` or `mask` is skipped; a pasted part's box is non-degenerate; the other cases are the lemmas below |
| `GeminiMaskBasedEditor.DegenerateBoxSkipped` | src/services/gemini_mask_based_editor.py:69 | an element whose scaled box has y0 ≥ y1 or x0 ≥ x1 is skipped |
| `GeminiMaskBasedEditor.IncompleteItemSkipped` | src/services/gemini_mask_based_editor.py:60-65 | an element lacking a truthy `box_2d` or `mask` neither fails the call nor pastes anything |
| `GeminiMaskBasedEditor.ItemPlaced` | src/services/gemini_mask_based_editor.py:60-81 | a well-formed element (dict, truthy box of four numbers scaling to a non-empty box, string mask) whose mask decodes is pasted at its scaled box with the decoded part |
| `GeminiMaskBasedEditor.UndecodableMaskSkipped` | src/services/gemini_mask_based_editor.py:78-84 | a well-formed element whose mask fails to decode or resize is skipped |
| `GeminiMaskBasedEditor.MalformedItemFails` | src/services/gemini_mask_based_editor.py:67-71 | a box that is not four numbers, or a non-empty box with a mask that is not a string, makes the call raise |
| `GeminiMaskBasedEditor.MaskPlacementsSingle` | src/services/gemini_mask_based_editor.py:59-84 | one element pastes nothing when skipped, its part when placed, and raises when it raises |
| `GeminiMaskBasedEditor.MaskPlacementsConcat` | src/services/gemini_mask_based_editor.py:59-84 | the loop over two runs of elements pastes the first run's parts and then the second's, and raises when either does |
| `GeminiMaskBasedEditor.MaskPlacementsFailIff` | src/services/gemini_mask_based_editor.py:59-84 | the loop raises exactly when some element raises |
| `GeminiMaskBasedEditor.MaskPlacements` | src/services/gemini_mask_based_editor.py:59-84 | at most one part is pasted per element, each with a non-degenerate box |
| `GeminiMaskBasedEditor.PlacementsFromItems` | src/services/gemini_mask_based_editor.py:59-84 | every pasted part is the outcome of some element of the reply |
| `GeminiMaskBasedEditor.ProcessItem` | src/services/gemini_mask_based_editor.py:59-84 | one pass of the loop body, reassigning `png_str` through prefix removal and padding, has the element's specified outcome |
| `GeminiMaskBasedEditor.PasteMasks` | src/services/gemini_mask_based_editor.py:57-84 | the loop over the items pastes the specified parts in order, or raises when an element does |
| `GeminiMaskBasedEditor.GetSegmentationMask` | src/services/gemini_mask_based_editor.py:27-89 | the method has the specified outcome: open the image, check the key, call, parse, reject an empty reply, paste, render |
| `GeminiMaskBasedEditor.SegmentationMaskSpec` | src/services/gemini_mask_based_editor.py:27-89 | the outcome of `get_segmentation_mask`; stated in both directions by `GeminiMaskBasedEditor.SegmentationOutcome` |
| `GeminiMaskBasedEditor.SegmentationOutcome` | src/services/gemini_mask_based_editor.py:17-89 | a missing key fails with that error; the invalid-JSON error arises exactly when a reply text fails to parse; the no-items error exactly when it parses to a falsy value; a result is the rendering of exactly the parts the item loop pastes from the parsed list, and a truthy parsed list whose loop does not raise always gives that rendering |
| `GeminiMaskBasedEditor.FirstInlineIsFirst` | src/services/gemini_mask_based_editor.py:119-124 | the scan picks the first part with inline data, and finds none exactly when no part has any |
| `GeminiMaskBasedEditor.InpaintSpec` | src/services/gemini_mask_based_editor.py:92-124 | the outcome of `inpaint_with_mask_and_reference`; stated by `GeminiMaskBasedEditor.InpaintOutcome` and `GeminiMaskBasedEditor.InpaintMayReturnNone` |
| `GeminiMaskBasedEditor.InpaintOutcome` | src/services/gemini_mask_based_editor.py:92-124 | the missing-key error exactly without a truthy key; then the service failure exactly when the call raises, the malformed-reply error exactly when the reply has no first candidate's parts, the data of the first part with inline data when there is one, and the no-data error exactly when no part has inline data |
| `GeminiMaskBasedEditor.InpaintWithMaskAndReference` | src/services/gemini_mask_based_editor.py:92-124 | the key check, the request with the three images and the part loop with early return produce the specified outcome |
| `GeminiMaskBasedEditor.InpaintMayReturnNone` | src/services/gemini_mask_based_editor.py:119-122 | a first inline part without data is returned as a success whose image is `None` |
| `NodePreprocess.PreprocessStep` | src/workflows/nodes/preprocess_node.py:3-6 | the record after preprocessing; stated by `NodePreprocess.PreprocessWriteSet` |
| `NodePreprocess.PreprocessWriteSet` | src/workflows/nodes/preprocess_node.py:3-6 | the node writes only `product_image`, with the cleaned image, and fails exactly when background removal raises |
| `NodePreprocess.PreprocessNode` | src/workflows/nodes/preprocess_node.py:3-6 | the shared record becomes the step's result and the same object is returned; on failure it is unchanged |
| `NodePrompt.PromptStep` | src/workflows/nodes/prompt_node.py:3-6 | the record after the prompt stage; stated by `NodePrompt.PromptWriteSet` and `NodePrompt.PromptReadsOnlyDescription` |
| `NodePrompt.PromptWriteSet` | src/workflows/nodes/prompt_node.py:3-6 | only `enhanced_prompt` is written, with the enhancer's output on the description |
| `NodePrompt.PromptReadsOnlyDescription` | src/workflows/nodes/prompt_node.py:4 | records that agree on `description` get the same prompt |
| `NodePrompt.PromptFallbackEmbedsDescription` | src/workflows/nodes/prompt_node.py:4-5 | when the LLM fails, the prompt holds the description verbatim |
| `NodePrompt.PromptNode` | src/workflows/nodes/prompt_node.py:3-6 | the record changes as the step says and the same object is returned |
| `NodeGenerate.GenerateStep` | src/workflows/nodes/generate_node.py:6-30 | the record after generation, or the re-raised error; stated by `NodeGenerate.GenerateModeSelection` and `NodeGenerate.GenerateWriteSet` |
| `NodeGenerate.GenerateModeSelection` | src/workflows/nodes/generate_node.py:12-22 | a truthy product image gives image-to-image contents, otherwise text-to-image; the text is always `enhanced_prompt` |
| `NodeGenerate.GenerateWriteSet` | src/workflows/nodes/generate_node.py:11-30 | on success only `generated_image` changes, to the non-empty generated image; on failure the generator's error comes out |
| `NodeGenerate.GenerateNode` | src/workflows/nodes/generate_node.py:6-30 | the record becomes the step's result; on failure the error is re-raised and the record is untouched |
| `NodeQuality.QualityStep` | src/workflows/nodes/quality_node.py:7-32 | the node as its docstring describes it, on a record that declares `quality_assessment`, given the verdict and the saved path; stated by `NodeQuality.QualityDecision` |
| `NodeQuality.QualityStepAsWritten` | src/workflows/nodes/quality_node.py:14-17 | the node as written: the assignment storing the assessment fails before the decision; stated by `NodeQuality.QualityAsWrittenRaises` |
| `NodeQuality.QualityAsWrittenRaises` | src/workflows/nodes/quality_node.py:17 | as written the node raises `ValueError` for every record and assessment, a double accept included, so nothing is saved |
| `NodeQuality.QualityDecision` | src/workflows/nodes/quality_node.py:14-29 | the assessment is stored verbatim; `output_path` is the saved path exactly when both decisions accept, and `None` otherwise, whatever it was before; nothing else changes |
| `NodeQuality.MissingDecisionRejects` | src/workflows/nodes/quality_node.py:21 | a missing decision key counts as not accepted |
| `NodeQuality.FailOpenSaves` | src/workflows/nodes/quality_node.py:21-24 | the assessor's fail-open verdict leads to a save |
| `NodeQuality.QualityNode` | src/workflows/nodes/quality_node.py:7-32 | on a record that declares `quality_assessment`: one save of the generated image under the file name into "success", exactly on a double accept; none otherwise |
| `NodeTextCorrection.Corrected` | src/workflows/nodes/text_correction_node.py:19-32 | the record after the image assignment: the in-painting when both phases succeed, unchanged otherwise; stated by `NodeTextCorrection.TextCorrectionOutcome` |
| `NodeTextCorrection.TextCorrectionStep` | src/workflows/nodes/text_correction_node.py:9-40 | the node on a record that declares `text_correction_applied`; stated by `NodeTextCorrection.TextCorrectionSkips` and `NodeTextCorrection.TextCorrectionOutcome` |
| `NodeTextCorrection.TextCorrectionSkips` | src/workflows/nodes/text_correction_node.py:15-17 | without both images the record is returned unchanged and unflagged |
| `NodeTextCorrection.TextCorrectionOutcome` | src/workflows/nodes/text_correction_node.py:19-38 | with both images the flag is set whatever happens; the product image and the other fields stay; the image becomes the in-painting of the current image with its own mask and the product image only when both phases succeed, and otherwise stays |
| `NodeTextCorrection.TextCorrectionNode` | src/workflows/nodes/text_correction_node.py:9-40 | on a record that declares `text_correction_applied`: the record changes as the step says, the node never raises, and the same object is returned |
| `NodeTextCorrection.TextCorrectionNodeAsWritten` | src/workflows/nodes/text_correction_node.py:9-40 | the node as written: without both images it returns the record unchanged; otherwise the flag's assignment at line 34 raises, the handler's at line 38 raises again, and the node raises `ValueError` after the generated image was replaced in place when both phases succeeded |
| `FashionGraph.StateGraph.constructor` | src/workflows/fashion_graph.py:10 | a new graph has no nodes, no edges and no entry point |
| `FashionGraph.StateGraph.AddNode` | src/workflows/fashion_graph.py:13-16 | adds one node and changes nothing else |
| `FashionGraph.StateGraph.AddEdge` | src/workflows/fashion_graph.py:18-20 | adds one static edge and changes nothing else |
| `FashionGraph.StateGraph.SetEntryPoint` | src/workflows/fashion_graph.py:22 | sets the entry point and changes nothing else |
| `FashionGraph.StateGraph.Compile` | src/workflows/fashion_graph.py:24 | the compiled graph has the nodes, edges and entry point built |
| `FashionGraph.Successor` | src/workflows/fashion_graph.py:18-20 | a stage has no successor exactly when no edge leaves it; a successor is the target of an edge from it |
| `FashionGraph.ExecutionOrder` | src/workflows/fashion_graph.py:22-27 | the stages run from the entry point along static edges; computed for the built graph by `FashionGraph.FashionGraphShape` |
| `FashionGraph.FashionGraphShape` | src/workflows/fashion_graph.py:13-22 | the stages run once each in the order preprocess, prompt, generate, quality; quality is terminal; only the prompt stage leads to generation; nothing leads into text correction or back to preprocessing |
| `FashionGraph.BuildFashionGraph` | src/workflows/fashion_graph.py:10-24 | the graph built by the successive mutations has that order, entry point and terminal stage, and no text-correction node |
| `FashionGraph.GeneratedState` | src/workflows/fashion_graph.py:26-27 | the record as the quality stage receives it, or the error of construction, preprocessing or generation; stated by `FashionGraph.GeneratedStateFields` |
| `FashionGraph.FinalState` | src/workflows/fashion_graph.py:26-29 | the record after all four stages on a record that declares the attached fields; stated by `FashionGraph.RunOutputIffBothAccept` and the run lemmas below |
| `FashionGraph.FinalStateAsWritten` | src/workflows/fashion_graph.py:26-29 | the run as written, whose quality stage raises at its first assignment; stated by `FashionGraph.RunAsWrittenNeverReturns` |
| `FashionGraph.RunAsWrittenNeverReturns` | src/workflows/fashion_graph.py:26-29 | as written no run returns a path: a run raises `ValueError` at the quality stage exactly when it reaches that stage, which is exactly when the intended run returns a record |
| `FashionGraph.GeneratedStateFields` | src/workflows/fashion_graph.py:26-27 | the quality stage is reached only with an uploaded image; it receives the description and file name as given, the cleaned product image, the prompt expanded from the description and a non-empty generated image, with nothing else set |
| `FashionGraph.RunOutputIffBothAccept` | src/workflows/fashion_graph.py:27-29 | the run's result is the saved path exactly when both decisions accept, and `None` otherwise |
| `FashionGraph.GenerateFailurePropagates` | src/workflows/fashion_graph.py:27 | a generation failure is the run's failure, so the quality stage does not run |
| `FashionGraph.MissingImageKeyFailsRun` | src/workflows/fashion_graph.py:27 | without an image-generation key, a run whose preprocessing succeeds fails with the missing-key error |
| `FashionGraph.AssessorFailureSavesRun` | src/workflows/fashion_graph.py:27-29 | when the assessment call raises, the run saves its image and returns the path |
| `FashionGraph.MissingImageFailsRun` | src/workflows/fashion_graph.py:26 | without an uploaded image the record cannot be built, and the run fails with the validation error before any stage |
| `FashionGraph.RunWorkflow` | src/workflows/fashion_graph.py:8-29 | the intended run, on a record that declares the attached fields: it returns the final record's `output_path`, or the failure of record construction, preprocessing or generation with no save; it saves at most once, on a double accept |

## Left out

- SDK clients, model construction (including `client.get_model` in `_call_gemini_api`) and network calls are parameters of the model that return a value or raise. Request settings such as the response MIME type, modalities and thinking budget are not modelled.
- The instruction and system-prompt wording of every request is left out. The assessor request records only the brief it embeds, and the enhancer request records only the description.
- Image library work is left out: opening an image, the new black mask, bilinear resizing, pasting, and PNG saving. Opening the image is the parameter `openImage`. Decoding and resizing one mask part is `decodeMask`. Pasting and saving is `render` over the ordered list of pasted parts. Pixel contents are not modelled.
- `json.loads`, Base64 decoding in the mask editor, and `remove_background` (of `services.image_tools`, which is not part of this model) are parameters. Bytes that are not valid UTF-8 and floats in JSON are not modelled: numbers are integers.
- GeminiMaskBasedEditor.Scale: reads `int(c / 1000 * dim)` as exact integer arithmetic with truncation toward zero, while Python computes it in floating point. For 0 ≤ c ≤ 1000 and a dimension below 2^40 the two differ only when c·dim is a multiple of 1000, where Python can give one less: c = 570 and dim = 100 give 56 in Python (0.57 * 100 is 56.99999999999999) and 57 in the model. For negative c Python can likewise give one more (c = −570, dim = 100 give −56 and −57). Once |c·dim| reaches about 2^53 the float rounding can differ by more than one.
- GeminiMaskBasedEditor.ScaleBox: built from `Scale`, so it carries the same floating-point gap.
- Exceptions are grouped by cause into the `Error` constructors. Messages and exact exception classes are not modelled. The original `ValueError`, `TypeError`, `AttributeError` and `IndexError` from reading a reply of the wrong shape all become `MalformedReply`.
- `save_image` is modelled as a log of saves and a path function. The directory layout, the random `uuid` prefix and write failures are not modelled.
- The graph library's own checks and its copying of the state between stages are not modelled. The run is the sequence of the four nodes on one record object.
- FashionGraph.RunWorkflow: models the run on a record that declares `quality_assessment`; as written, pydantic raises `ValueError` at src/workflows/nodes/quality_node.py:17 and the run never returns (`FashionGraph.RunAsWrittenNeverReturns`). It also reads `chain.invoke(state)` as returning the record; the graph library may return a plain dict of the state's values, on which `.output_path` would fail, and that library is not part of this model.
- NodeQuality.QualityNode: assumes the assignment at src/workflows/nodes/quality_node.py:17 succeeds; as written it raises `ValueError` (`NodeQuality.QualityStepAsWritten`).
- NodeTextCorrection.TextCorrectionNode: assumes the assignments at src/workflows/nodes/text_correction_node.py:34 and :38 succeed; as written both raise `ValueError` (`NodeTextCorrection.TextCorrectionNodeAsWritten`).
- `product_image` is declared as `bytes`, and construction rejects `None` (`State.ValidateFashionState`). The field stays optional in the datatype because assignments are not validated: preprocessing stores the background-removal result in it unchecked. Pydantic's coercion of other input types (such as `str` to `bytes`) is not modelled.
- Logging, the HTTP layer, configuration loading and the unused Stability client are not part of the core.

## Findings

| source | as written | input that shows it | evidently intended | confidence | as-written member | corrected member |
|---|---|---|---|---|---|---|
| src/workflows/nodes/quality_node.py:17 | `state.quality_assessment = assessment` on a pydantic record (src/models/state.py:3-9) that does not declare the field raises `ValueError` before the decision and the save, so `run_workflow` never returns a path | any upload for which preprocessing and generation succeed, for example one whose assessment is a double accept | the record keeps the assessment and the image is saved on a double accept, as the docstring at lines 8-11 says | not executed | `FashionGraph.RunAsWrittenNeverReturns` | `FashionGraph.RunOutputIffBothAccept` |
| src/workflows/nodes/text_correction_node.py:34 | `state.text_correction_applied = True` raises `ValueError` inside the `try`; the handler's same assignment at line 38 raises again, so the node raises on every path that does not skip | any record whose product and generated images are both non-empty | the flag is recorded and the record returned, whether the correction succeeded or not (lines 19-38) | not executed | `NodeTextCorrection.TextCorrectionNodeAsWritten` | `NodeTextCorrection.TextCorrectionOutcome` |
