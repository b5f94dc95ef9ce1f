/**
 * The foreign capabilities the sender calls but does not define: the JSON
 * serializer, the form encoder of `requests`, UTF-8 encoding and SHA-256.
 * They are taken as arbitrary total functions, so every property proved
 * below holds whatever they compute.
 */
module Codecs {
  import opened Values
  import opened Text

  datatype Codecs = Codecs(
    /** `json.dumps(v, cls=StandardJSONEncoder)` */
    dumps: Value -> string,
    /** `requests.PreparedRequest()._encode_params(v)` for a non-text body */
    formEncode: Value -> string,
    /** `s.encode('utf-8')` */
    utf8: string -> seq<byte>,
    /** `SHA256.new(b).digest()` */
    sha256: seq<byte> -> Digest
  )
}
