/** The shapes of the request parts and replies of the Google GenAI SDK that
    the core reads (`types.Part`, `types.Blob`, a reply's candidates). */
module GenaiTypes {
  import opened Types

  /** `types.Blob`: inline data with its MIME type. */
  datatype Blob = Blob(data: Option<Bytes>, mimeType: string)

  /** `types.Part`: text, inline data, or neither. */
  datatype Part = Part(text: Option<string>, inlineData: Option<Blob>)

  /** A candidate's content: its list of parts, possibly `None`. */
  datatype Content = Content(parts: Option<seq<Part>>)

  datatype Candidate = Candidate(content: Option<Content>)

  /** One reply, or one chunk of a streamed reply. */
  datatype Response = Response(candidates: Option<seq<Candidate>>)

  /** A reply read through its `.text` accessor (`None` when it has no text). */
  datatype TextReply = TextReply(text: Option<string>)

  /** `types.Part.from_text(text=t)`. */
  function TextPart(t: Option<string>): Part
  {
    Part(t, None)
  }

  /** `types.Part(inline_data=types.Blob(data=d, mime_type=m))`. */
  function BlobPart(d: Bytes, m: string): Part
  {
    Part(None, Some(Blob(Some(d), m)))
  }
}
