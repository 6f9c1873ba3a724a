/** The request part handed to the multimodal model. */
module Gemini {
  import opened JsonValue

  type byte = b: int | 0 <= b < 256

  /**
   * The `{"mime_type": ..., "data": ...}` image part. The MIME type is
   * whatever Python object the caller supplied, so it is a `Json`.
   */
  datatype ImagePart = ImagePart(mimeType: Json, data: seq<byte>)
}
