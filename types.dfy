/** Values shared by every module of the model: bytes, optional values,
    the exceptions the core raises and the outcome of an external call. */
module Types {

  newtype byte = b: int | 0 <= b < 256

  /** Python `bytes`. */
  type Bytes = seq<byte>

  /** Python's `None` or a value. */
  datatype Option<+T> = None | Some(value: T)

  /** Python truthiness of an optional `bytes` or `str`: present and non-empty. */
  predicate Truthy<T>(o: Option<seq<T>>)
  {
    o.Some? && |o.value| > 0
  }

  /** The exception a call of the core ends with, by cause. */
  datatype Error =
    | MissingApiKey    // ValueError: no usable API key
    | NoImageData      // RuntimeError: the image stream carried no image data
    | InvalidJson      // RuntimeError: the segmentation reply is not JSON
    | NoItemsDetected  // RuntimeError: the segmentation reply is empty
    | NoInpaintData    // RuntimeError: the in-painting reply holds no inline data
    | MalformedReply   // TypeError, AttributeError, IndexError or ValueError from reading a reply of the wrong shape
    | ServiceFailure   // an exception raised inside an external call (SDK, network, PIL, background removal)
    | InvalidRecord    // pydantic ValidationError: a required field of the record is missing or of the wrong type
    | UndeclaredField  // ValueError: assigning an attribute the record does not declare

  /** The outcome of a call of the core: a value, or the exception it raised. */
  datatype Result<+T> = Ok(value: T) | Err(error: Error)

  /** The outcome of a call into code outside the model: the value it
      returned, or the fact that it raised. */
  datatype Call<+T> = Returned(value: T) | Raised
}
