/** `generate_image_from_prompt` of src/services/gemini_image_gen.py: check
    for an API key, build the request contents, stream the reply and keep the
    image data found in it. */
module GeminiImageGen {
  import opened Types
  import opened GenaiTypes

  const ModelName := "gemini-2.5-flash-image-preview"
  const InitImageMime := "image/png"

  /** The two places the key is looked up: `os.environ` and `settings`. */
  datatype ApiKeys = ApiKeys(environ: Option<string>, settings: Option<string>)

  /** `os.environ.get("GOOGLE_API_KEY") or settings.GOOGLE_API_KEY`, when the
      outcome is truthy. */
  function SelectApiKey(keys: ApiKeys): (k: Option<string>)
    ensures k.Some? <==> Truthy(keys.environ) || Truthy(keys.settings)
    ensures k.Some? ==> |k.value| > 0
    ensures k.Some? ==> k.value == (if Truthy(keys.environ) then keys.environ.value else keys.settings.value)
  {
    if Truthy(keys.environ) then keys.environ
    else if Truthy(keys.settings) then keys.settings
    else None
  }

  /** Opening the stream with a key and the contents, and iterating it to
      the end: the chunks, or `Raised` when any of that raised. */
  type ImageStream = (string, seq<Part>) -> Call<seq<Response>>

  /** The request contents: the initial image as a PNG blob when it is
      truthy, then the prompt text. */
  function Contents(prompt: Option<string>, initImage: Option<Bytes>): seq<Part>
  {
    (if Truthy(initImage) then [BlobPart(initImage.value, InitImageMime)] else []) + [TextPart(prompt)]
  }

  /** The prompt text is always the last part, and an image part comes
      before it exactly when the initial image is truthy. */
  lemma ContentsShape(prompt: Option<string>, initImage: Option<Bytes>)
    ensures var c := Contents(prompt, initImage);
            && c[|c| - 1] == TextPart(prompt)
            && (Truthy(initImage) ==> c == [BlobPart(initImage.value, InitImageMime), TextPart(prompt)])
            && (!Truthy(initImage) ==> c == [TextPart(prompt)])
  {
  }

  /** `part.inline_data and part.inline_data.data`. */
  predicate HasImage(p: Part)
  {
    p.inlineData.Some? && Truthy(p.inlineData.value.data)
  }

  /** The data of the first part that has image data. */
  function FirstImage(parts: seq<Part>): (r: Option<Bytes>)
    ensures r.Some? ==> |r.value| > 0
  {
    if |parts| == 0 then None
    else if HasImage(parts[0]) then parts[0].inlineData.value.data
    else FirstImage(parts[1..])
  }

  /** `FirstImage` takes the data of the first part with non-empty inline
      data, and finds none exactly when no part has any. */
  lemma {:induction false} FirstImageIsFirst(parts: seq<Part>)
    ensures FirstImage(parts).None? <==> forall i :: 0 <= i < |parts| ==> !HasImage(parts[i])
    ensures FirstImage(parts).Some? ==>
              exists i :: 0 <= i < |parts| && HasImage(parts[i]) && parts[i].inlineData.value.data == FirstImage(parts)
                          && forall j :: 0 <= j < i ==> !HasImage(parts[j])
  {
    if |parts| > 0 && !HasImage(parts[0]) {
      FirstImageIsFirst(parts[1..]);
      assert forall i :: 1 <= i < |parts| ==> parts[1..][i - 1] == parts[i];
      if FirstImage(parts).Some? {
        var i :| 0 <= i < |parts[1..]| && HasImage(parts[1..][i])
                 && parts[1..][i].inlineData.value.data == FirstImage(parts)
                 && forall j :: 0 <= j < i ==> !HasImage(parts[1..][j]);
        assert parts[i + 1] == parts[1..][i];
        assert forall j :: 0 <= j < i + 1 ==> !HasImage(parts[j]) by {
          forall j | 0 <= j < i + 1 ensures !HasImage(parts[j]) {
            if j > 0 {
              assert parts[j] == parts[1..][j - 1];
            }
          }
        }
      }
    }
  }

  /** A chunk whose candidates, first candidate's content and parts are all
      present and non-empty; any other chunk is skipped. */
  predicate Usable(chunk: Response)
  {
    && chunk.candidates.Some? && |chunk.candidates.value| > 0
    && chunk.candidates.value[0].content.Some?
    && Truthy(chunk.candidates.value[0].content.value.parts)
  }

  function PartsOf(chunk: Response): seq<Part>
    requires Usable(chunk)
  {
    chunk.candidates.value[0].content.value.parts.value
  }

  /** The image data one chunk contributes. */
  function ChunkImage(chunk: Response): (r: Option<Bytes>)
    ensures r.Some? ==> |r.value| > 0
    ensures !Usable(chunk) ==> r.None?
  {
    if Usable(chunk) then FirstImage(PartsOf(chunk)) else None
  }

  /** What `output_image` holds after the scan: the image of the last chunk
      that contributes one. */
  function LastImage(chunks: seq<Response>): (r: Option<Bytes>)
    ensures r.Some? ==> |r.value| > 0
  {
    if |chunks| == 0 then None
    else
      var last := ChunkImage(chunks[|chunks| - 1]);
      if last.Some? then last else LastImage(chunks[..|chunks| - 1])
  }

  /** The outcome `generate_image_from_prompt` has. */
  function GenerateImageSpec(keys: ApiKeys, prompt: Option<string>, initImage: Option<Bytes>, stream: ImageStream): Result<Bytes>
  {
    match SelectApiKey(keys)
    case None => Err(MissingApiKey)
    case Some(key) =>
      match stream(key, Contents(prompt, initImage))
      case Raised => Err(ServiceFailure)
      case Returned(chunks) =>
        match LastImage(chunks)
        case None => Err(NoImageData)
        case Some(image) => Ok(image)
  }

  /** `generate_image_from_prompt(prompt, init_image)`. */
  method GenerateImageFromPrompt(keys: ApiKeys, prompt: Option<string>, initImage: Option<Bytes>, stream: ImageStream)
    returns (r: Result<Bytes>)
    ensures r == GenerateImageSpec(keys, prompt, initImage, stream)
    ensures r.Ok? ==> |r.value| > 0
  {
    var apiKey := SelectApiKey(keys);
    if apiKey.None? {
      return Err(MissingApiKey);
    }

    var contents: seq<Part> := [];
    if Truthy(initImage) {
      contents := contents + [BlobPart(initImage.value, InitImageMime)];
    }
    contents := contents + [TextPart(prompt)];
    assert contents == Contents(prompt, initImage);

    var reply := stream(apiKey.value, contents);
    if reply.Raised? {
      return Err(ServiceFailure);
    }
    var chunks := reply.value;

    var outputImage: Option<Bytes> := None;
    for i := 0 to |chunks|
      invariant outputImage == LastImage(chunks[..i])
    {
      var chunk := chunks[i];
      assert chunks[..i + 1][..i] == chunks[..i];
      if !Usable(chunk) {
        continue;
      }
      var parts := PartsOf(chunk);
      for j := 0 to |parts|
        invariant FirstImage(parts[j..]) == FirstImage(parts)
        invariant outputImage == LastImage(chunks[..i])
      {
        assert parts[j..][1..] == parts[j + 1..];
        if HasImage(parts[j]) {
          outputImage := parts[j].inlineData.value.data;
          break;
        }
      }
    }
    assert chunks[..|chunks|] == chunks;

    if outputImage.None? {
      return Err(NoImageData);
    }
    return Ok(outputImage.value);
  }

  /** With no truthy key in either place the call fails before any request. */
  lemma MissingKeyFails(keys: ApiKeys, prompt: Option<string>, initImage: Option<Bytes>, stream: ImageStream)
    requires !Truthy(keys.environ) && !Truthy(keys.settings)
    ensures GenerateImageSpec(keys, prompt, initImage, stream) == Err(MissingApiKey)
  {
  }

  /** Chunk `k` contributes `d` and no later chunk contributes anything. */
  predicate LastWith(chunks: seq<Response>, k: int, d: Bytes)
  {
    && 0 <= k < |chunks| && ChunkImage(chunks[k]) == Some(d)
    && forall j :: k < j < |chunks| ==> ChunkImage(chunks[j]).None?
  }

  /** A kept image comes from a chunk with no image-bearing chunk after it. */
  lemma {:induction false} LastImageWitness(chunks: seq<Response>, d: Bytes) returns (k: int)
    requires LastImage(chunks) == Some(d)
    ensures LastWith(chunks, k, d)
  {
    var n := |chunks| - 1;
    if ChunkImage(chunks[n]).Some? {
      k := n;
    } else {
      var init := chunks[..n];
      k := LastImageWitness(init, d);
      assert forall j :: k < j < n ==> init[j] == chunks[j];
    }
  }

  /** A chunk with no image-bearing chunk after it supplies the kept image. */
  lemma {:induction false} LastWithIsKept(chunks: seq<Response>, k: int, d: Bytes)
    requires LastWith(chunks, k, d)
    ensures LastImage(chunks) == Some(d)
  {
    var n := |chunks| - 1;
    if k < n {
      var init := chunks[..n];
      assert ChunkImage(chunks[n]).None?;
      assert forall j :: k < j < n ==> init[j] == chunks[j];
      LastWithIsKept(init, k, d);
    }
  }

  /** The scan keeps the image of the LAST chunk with image data: the result
      is `d` exactly when some chunk contributes `d` and no later chunk
      contributes anything. */
  lemma LastImageIsLast(chunks: seq<Response>, d: Bytes)
    ensures LastImage(chunks) == Some(d) <==> exists k :: LastWith(chunks, k, d)
  {
    if LastImage(chunks) == Some(d) {
      var k := LastImageWitness(chunks, d);
    }
    if exists k :: LastWith(chunks, k, d) {
      var k :| LastWith(chunks, k, d);
      LastWithIsKept(chunks, k, d);
    }
  }

  /** The outcome in every case: the missing-key error exactly without a
      truthy key, the service failure exactly when the stream raises, the
      no-image error exactly when no chunk carries image data, and
      otherwise the image the scan keeps, which is never empty. */
  lemma GenerateOutcome(keys: ApiKeys, prompt: Option<string>, initImage: Option<Bytes>, stream: ImageStream)
    ensures var r := GenerateImageSpec(keys, prompt, initImage, stream);
            && (r.Ok? ==> |r.value| > 0)
            && (r == Err(MissingApiKey) <==> SelectApiKey(keys).None?)
            && (r == Err(ServiceFailure) <==>
                  SelectApiKey(keys).Some? && stream(SelectApiKey(keys).value, Contents(prompt, initImage)).Raised?)
            && (r == Err(NoImageData) <==>
                  SelectApiKey(keys).Some?
                  && stream(SelectApiKey(keys).value, Contents(prompt, initImage)).Returned?
                  && LastImage(stream(SelectApiKey(keys).value, Contents(prompt, initImage)).value).None?)
    ensures var r := GenerateImageSpec(keys, prompt, initImage, stream);
            SelectApiKey(keys).Some? ==>
              var chunks := stream(SelectApiKey(keys).value, Contents(prompt, initImage));
              chunks.Returned? && LastImage(chunks.value).Some? ==> r == Ok(LastImage(chunks.value).value)
  {
  }

  /** A call whose stream arrives returns `d` exactly when some chunk
      carries `d` and no later chunk carries any image. */
  lemma GenerateReturnsLastImage(keys: ApiKeys, prompt: Option<string>, initImage: Option<Bytes>, stream: ImageStream, d: Bytes)
    requires SelectApiKey(keys).Some?
    requires stream(SelectApiKey(keys).value, Contents(prompt, initImage)).Returned?
    ensures var chunks := stream(SelectApiKey(keys).value, Contents(prompt, initImage)).value;
            GenerateImageSpec(keys, prompt, initImage, stream) == Ok(d) <==> exists k :: LastWith(chunks, k, d)
  {
    LastImageIsLast(stream(SelectApiKey(keys).value, Contents(prompt, initImage)).value, d);
  }

  /** Two chunks that both carry an image: the second one wins. */
  lemma LaterChunkOverwrites(a: Bytes, b: Bytes)
    requires |a| > 0 && |b| > 0
    ensures var chunk := (x: Bytes) => Response(Some([Candidate(Some(Content(Some([BlobPart(x, InitImageMime)]))))]));
            LastImage([chunk(a), chunk(b)]) == Some(b)
  {
    var chunk := (x: Bytes) => Response(Some([Candidate(Some(Content(Some([BlobPart(x, InitImageMime)]))))]));
    assert ChunkImage(chunk(b)) == Some(b) by {
      assert PartsOf(chunk(b)) == [BlobPart(b, InitImageMime)];
    }
  }
}
