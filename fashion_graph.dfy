/** `run_workflow` of src/workflows/fashion_graph.py: build the four-stage
    graph, compile it, and run it on a fresh record; the result is the
    record's `output_path`. The graph has static edges only. */
module FashionGraph {
  import opened Types
  import opened State
  import opened FileUtils
  import JsonModel
  import GeminiClient
  import GeminiImageGen
  import GeminiQualityAssessor
  import NodePreprocess
  import NodePrompt
  import NodeGenerate
  import NodeQuality

  /** The node names a graph of this code can hold. */
  datatype Stage = Preprocess | Prompt | Generate | Quality | TextCorrection

  /** A compiled graph: its nodes, its static edges and its entry point. */
  datatype Graph = Graph(nodes: seq<Stage>, edges: seq<(Stage, Stage)>, entry: Option<Stage>)

  /** `StateGraph(FashionState)` while it is being built. */
  class StateGraph {
    var nodes: seq<Stage>
    var edges: seq<(Stage, Stage)>
    var entry: Option<Stage>

    constructor ()
      ensures nodes == [] && edges == [] && entry == None
    {
      nodes := [];
      edges := [];
      entry := None;
    }

    method AddNode(n: Stage)
      modifies this
      ensures nodes == old(nodes) + [n] && edges == old(edges) && entry == old(entry)
    {
      nodes := nodes + [n];
    }

    method AddEdge(from: Stage, to: Stage)
      modifies this
      ensures edges == old(edges) + [(from, to)] && nodes == old(nodes) && entry == old(entry)
    {
      edges := edges + [(from, to)];
    }

    method SetEntryPoint(n: Stage)
      modifies this
      ensures entry == Some(n) && nodes == old(nodes) && edges == old(edges)
    {
      entry := Some(n);
    }

    method Compile() returns (g: Graph)
      ensures g == Graph(nodes, edges, entry)
    {
      g := Graph(nodes, edges, entry);
    }
  }

  /** The target of the first edge leaving `s`, if any. */
  function Successor(edges: seq<(Stage, Stage)>, s: Stage): (r: Option<Stage>)
    ensures r.None? <==> forall i :: 0 <= i < |edges| ==> edges[i].0 != s
    ensures r.Some? ==> exists i :: 0 <= i < |edges| && edges[i] == (s, r.value)
  {
    if |edges| == 0 then None
    else if edges[0].0 == s then Some(edges[0].1)
    else
      var r := Successor(edges[1..], s);
      assert forall i :: 0 <= i < |edges| - 1 ==> edges[1..][i] == edges[i + 1];
      r
  }

  /** The stages run from `s` on, following static edges, for at most
      `fuel` steps. */
  function Walk(g: Graph, s: Stage, fuel: nat): seq<Stage>
    decreases fuel
  {
    if fuel == 0 then []
    else
      match Successor(g.edges, s)
      case None => [s]
      case Some(t) => [s] + Walk(g, t, fuel - 1)
  }

  /** The stages `chain.invoke` runs, in order, from the entry point; a walk
      of static edges visits at most one stage per node. */
  function ExecutionOrder(g: Graph): seq<Stage>
  {
    match g.entry
    case None => []
    case Some(e) => Walk(g, e, |g.nodes|)
  }

  /** The graph `run_workflow` builds: four nodes, three static edges,
      entered at preprocessing. */
  function FashionGraphSpec(): Graph
  {
    Graph([Preprocess, Prompt, Generate, Quality],
          [(Preprocess, Prompt), (Prompt, Generate), (Generate, Quality)],
          Some(Preprocess))
  }

  /** The stages run once each, in the order preprocess, prompt, generate,
      quality; quality is terminal; no edge leads back to generation except
      from the prompt stage, and none leads into text correction, which is not
      a node of the graph. */
  lemma FashionGraphShape()
    ensures var g := FashionGraphSpec();
            && ExecutionOrder(g) == [Preprocess, Prompt, Generate, Quality]
            && Successor(g.edges, Quality).None?
            && TextCorrection !in g.nodes
            && (forall i :: 0 <= i < |g.edges| ==> g.edges[i].1 != TextCorrection && g.edges[i].1 != Preprocess)
            && (forall i :: 0 <= i < |g.edges| && g.edges[i].1 == Generate ==> g.edges[i].0 == Prompt)
  {
    var g := FashionGraphSpec();
    var es := g.edges;
    assert es[1..] == [(Prompt, Generate), (Generate, Quality)];
    assert es[1..][1..] == [(Generate, Quality)];
    assert Successor(es[1..][1..], Generate) == Some(Quality);
    assert Successor(es[1..], Generate) == Some(Quality);
    assert Successor(es, Generate) == Some(Quality);
    assert Successor(es[1..], Prompt) == Some(Generate);
    assert Successor(es, Prompt) == Some(Generate);
    assert Successor(es, Preprocess) == Some(Prompt);
    assert Walk(g, Quality, 1) == [Quality];
    assert Walk(g, Generate, 2) == [Generate, Quality];
    assert Walk(g, Prompt, 3) == [Prompt, Generate, Quality];
  }

  /** `run_workflow`'s graph construction and `graph.compile()`. */
  method BuildFashionGraph() returns (g: Graph)
    ensures g == FashionGraphSpec()
    ensures ExecutionOrder(g) == [Preprocess, Prompt, Generate, Quality]
    ensures g.entry == Some(Preprocess) && Successor(g.edges, Quality).None?
    ensures TextCorrection !in g.nodes
  {
    var graph := new StateGraph();
    graph.AddNode(Preprocess);
    graph.AddNode(Prompt);
    graph.AddNode(Generate);
    graph.AddNode(Quality);

    graph.AddEdge(Preprocess, Prompt);
    graph.AddEdge(Prompt, Generate);
    graph.AddEdge(Generate, Quality);

    graph.SetEntryPoint(Preprocess);

    g := graph.Compile();
    FashionGraphShape();
  }

  /** The outside calls the four stages make. */
  datatype Services = Services(
    removeBackground: NodePreprocess.BackgroundRemover,
    promptLlm: GeminiClient.Llm,
    imageKeys: GeminiImageGen.ApiKeys,
    imageStream: GeminiImageGen.ImageStream,
    assessLlm: GeminiQualityAssessor.Llm,
    parseJson: GeminiQualityAssessor.JsonParser)

  /** The record as the quality stage receives it, or the exception the
      preprocessing or the generation stage lets through. */
  function GeneratedState(description: string, imageBytes: Option<Bytes>, filename: string, svc: Services): Result<FashionState>
  {
    match ValidateFashionState(description, imageBytes, filename)
    case Err(e) => Err(e)
    case Ok(s0) =>
    match NodePreprocess.PreprocessStep(s0, svc.removeBackground)
    case Err(e) => Err(e)
    case Ok(s1) =>
      var s2 := NodePrompt.PromptStep(s1, svc.promptLlm);
      NodeGenerate.GenerateStep(s2, svc.imageKeys, svc.imageStream)
  }

  /** The verdict the quality stage reads for a record. */
  function Assessment(s: FashionState, svc: Services): JsonModel.Dict
  {
    GeminiQualityAssessor.AssessImageQuality(s, svc.assessLlm, svc.parseJson)
  }

  /** The record after all four stages, given the path a save returns, on
      a record that declares the attached fields; `FinalStateAsWritten` is
      the run on the record as written. */
  function FinalState(description: string, imageBytes: Option<Bytes>, filename: string, svc: Services, savedPath: string): Result<FashionState>
  {
    match GeneratedState(description, imageBytes, filename, svc)
    case Err(e) => Err(e)
    case Ok(s3) => Ok(NodeQuality.QualityStep(s3, Assessment(s3, svc), savedPath))
  }

  /** What the quality stage receives: the description and file name as
      given, the cleaned product image, the prompt expanded from the
      description, a non-empty generated image, and nothing else set. */
  lemma GeneratedStateFields(description: string, imageBytes: Option<Bytes>, filename: string, svc: Services)
    requires GeneratedState(description, imageBytes, filename, svc).Ok?
    ensures var s3 := GeneratedState(description, imageBytes, filename, svc).value;
            && imageBytes.Some?
            && s3.description == description && s3.filename == filename
            && svc.removeBackground(imageBytes).Returned?
            && s3.productImage == svc.removeBackground(imageBytes).value
            && s3.enhancedPrompt == Some(GeminiClient.EnhancePromptWithGemini(description, svc.promptLlm))
            && s3.generatedImage.Some? && |s3.generatedImage.value| > 0
            && s3.outputPath.None? && s3.attached == Attached(None, None)
  {
    var s0 := NewFashionState(description, imageBytes, filename);
    NodePreprocess.PreprocessWriteSet(s0, svc.removeBackground);
    var s2 := NodePrompt.PromptStep(NodePreprocess.PreprocessStep(s0, svc.removeBackground).value, svc.promptLlm);
    NodeGenerate.GenerateWriteSet(s2, svc.imageKeys, svc.imageStream);
  }

  /** The result of a run is a saved path exactly when both decisions of
      the assessment accept, and `None` otherwise. */
  lemma RunOutputIffBothAccept(description: string, imageBytes: Option<Bytes>, filename: string, svc: Services, savedPath: string)
    requires FinalState(description, imageBytes, filename, svc, savedPath).Ok?
    ensures var s3 := GeneratedState(description, imageBytes, filename, svc).value;
            var out := FinalState(description, imageBytes, filename, svc, savedPath).value.outputPath;
            && (out == Some(savedPath) <==> NodeQuality.BothAccept(Assessment(s3, svc)))
            && (!NodeQuality.BothAccept(Assessment(s3, svc)) ==> out.None?)
  {
    var s3 := GeneratedState(description, imageBytes, filename, svc).value;
    NodeQuality.QualityDecision(s3, Assessment(s3, svc), savedPath);
  }

  /** A failure of the generation stage is the failure of the run: the
      quality stage does not run. */
  lemma GenerateFailurePropagates(description: string, imageBytes: Option<Bytes>, filename: string, svc: Services, savedPath: string)
    requires imageBytes.Some?
    requires var s1 := NodePreprocess.PreprocessStep(NewFashionState(description, imageBytes, filename), svc.removeBackground);
             && s1.Ok?
             && NodeGenerate.GenerateStep(NodePrompt.PromptStep(s1.value, svc.promptLlm), svc.imageKeys, svc.imageStream).Err?
    ensures var s1 := NodePreprocess.PreprocessStep(NewFashionState(description, imageBytes, filename), svc.removeBackground);
            var e := NodeGenerate.GenerateStep(NodePrompt.PromptStep(s1.value, svc.promptLlm), svc.imageKeys, svc.imageStream).error;
            FinalState(description, imageBytes, filename, svc, savedPath) == Err(e)
  {
  }

  /** With no usable API key for image generation the run fails with that
      error once preprocessing succeeded. */
  lemma MissingImageKeyFailsRun(description: string, imageBytes: Option<Bytes>, filename: string, svc: Services, savedPath: string)
    requires imageBytes.Some? && svc.removeBackground(imageBytes).Returned?
    requires !Truthy(svc.imageKeys.environ) && !Truthy(svc.imageKeys.settings)
    ensures FinalState(description, imageBytes, filename, svc, savedPath) == Err(MissingApiKey)
  {
    var s1 := NodePreprocess.PreprocessStep(NewFashionState(description, imageBytes, filename), svc.removeBackground).value;
    var s2 := NodePrompt.PromptStep(s1, svc.promptLlm);
    GeminiImageGen.MissingKeyFails(svc.imageKeys, s2.enhancedPrompt, NodeGenerate.InitImage(s2), svc.imageStream);
  }

  /** Fail-open: when the assessment call raises, a run that reaches the
      quality stage saves its image and returns the path. */
  lemma AssessorFailureSavesRun(description: string, imageBytes: Option<Bytes>, filename: string, svc: Services, savedPath: string)
    requires GeneratedState(description, imageBytes, filename, svc).Ok?
    requires var s3 := GeneratedState(description, imageBytes, filename, svc).value;
             s3.generatedImage.Some? ==>
               svc.assessLlm(GeminiQualityAssessor.AssessRequest(GeminiQualityAssessor.ModelName, s3.enhancedPrompt,
                 GeminiQualityAssessor.ContentParts(s3.productImage, s3.generatedImage).value)).Raised?
    ensures FinalState(description, imageBytes, filename, svc, savedPath).Ok?
    ensures FinalState(description, imageBytes, filename, svc, savedPath).value.outputPath == Some(savedPath)
  {
    GeneratedStateFields(description, imageBytes, filename, svc);
    var s3 := GeneratedState(description, imageBytes, filename, svc).value;
    GeminiQualityAssessor.AssessorFailureAccepts(s3, svc.assessLlm, svc.parseJson);
    NodeQuality.FailOpenSaves(s3, savedPath);
  }

  /** Without an uploaded image the record cannot be built: the run fails
      before any stage. */
  lemma MissingImageFailsRun(description: string, filename: string, svc: Services, savedPath: string)
    ensures FinalState(description, None, filename, svc, savedPath) == Err(InvalidRecord)
    ensures ValidateFashionState(description, None, filename) == Err(InvalidRecord)
  {
  }

  /** The record after all four stages as the source is written: the
      quality stage raises at its first assignment. */
  function FinalStateAsWritten(description: string, imageBytes: Option<Bytes>, filename: string, svc: Services, savedPath: string): Result<FashionState>
  {
    match GeneratedState(description, imageBytes, filename, svc)
    case Err(e) => Err(e)
    case Ok(s3) => NodeQuality.QualityStepAsWritten(s3, Assessment(s3, svc), savedPath)
  }

  /** As written, no run returns a path: a run that reaches the quality
      stage raises there, before any save, whatever the assessment says,
      while the intended run returns a record exactly then. */
  lemma RunAsWrittenNeverReturns(description: string, imageBytes: Option<Bytes>, filename: string, svc: Services, savedPath: string)
    ensures FinalStateAsWritten(description, imageBytes, filename, svc, savedPath).Err?
    ensures GeneratedState(description, imageBytes, filename, svc).Ok? <==>
            FinalStateAsWritten(description, imageBytes, filename, svc, savedPath) == Err(UndeclaredField)
    ensures GeneratedState(description, imageBytes, filename, svc).Ok? <==>
            FinalState(description, imageBytes, filename, svc, savedPath).Ok?
  {
    match GeneratedState(description, imageBytes, filename, svc)
    case Err(_) =>
    case Ok(s3) =>
      NodeQuality.QualityAsWrittenRaises(s3, Assessment(s3, svc), savedPath);
  }

  /** `run_workflow(description, image_bytes, filename)`. */
  method RunWorkflow(description: string, imageBytes: Option<Bytes>, filename: string, svc: Services, store: ImageStore)
    returns (r: Result<Option<string>>)
    modifies store
    ensures var path := store.locate(|old(store.saved)|, filename, NodeQuality.SuccessFolder);
            var fin := FinalState(description, imageBytes, filename, svc, path);
            && (fin.Err? ==> r == Err(fin.error) && store.saved == old(store.saved))
            && (fin.Ok? ==>
                  var s3 := GeneratedState(description, imageBytes, filename, svc).value;
                  && r == Ok(fin.value.outputPath)
                  && store.saved == old(store.saved)
                       + (if NodeQuality.BothAccept(Assessment(s3, svc))
                          then [SavedImage(s3.generatedImage, filename, NodeQuality.SuccessFolder, path)] else []))
  {
    var g := BuildFashionGraph();
    assert ExecutionOrder(g) == [Preprocess, Prompt, Generate, Quality];
    var record := ValidateFashionState(description, imageBytes, filename);
    if record.Err? {
      return Err(record.error);
    }
    var st := new SharedState(record.value);

    var pre := NodePreprocess.PreprocessNode(st, svc.removeBackground);
    if pre.Err? {
      return Err(pre.error);
    }
    st := NodePrompt.PromptNode(st, svc.promptLlm);
    var gen := NodeGenerate.GenerateNode(st, svc.imageKeys, svc.imageStream);
    if gen.Err? {
      return Err(gen.error);
    }
    st := NodeQuality.QualityNode(st, store, svc.assessLlm, svc.parseJson);
    return Ok(st.state.outputPath);
  }
}
