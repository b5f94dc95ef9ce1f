/**
 * The payload pipeline: the body put on the wire is the payload as JSON text
 * under the JSON encoding, and the raw payload (left to the transport's form
 * encoder) under the forms encoding.
 */
module Payload {
  import opened Values
  import opened Config
  import opened Codecs

  /** `jsonify_payload`: text is assumed already serialized; anything else goes to the serializer. */
  function JsonifyPayload(payload: Value, codecs: Codecs): (json: string)
    ensures IsText(payload) ==> json == payload.s
    ensures !IsText(payload) ==> json == codecs.dumps(payload)
  {
    if IsText(payload) then payload.s else codecs.dumps(payload)
  }

  /** `format_payload`: the request body for the resolved encoding. */
  function FormatPayload(encoding: Encoding, payload: Value, codecs: Codecs): (data: Value)
    ensures encoding == Json ==> IsText(data)
    ensures encoding == Json && IsText(payload) ==> data == payload
    ensures encoding == Json && !IsText(payload) ==> data == VStr(codecs.dumps(payload))
    ensures encoding == Forms ==> data == payload
  {
    if encoding == Json then VStr(JsonifyPayload(payload, codecs)) else payload
  }

  /** Text is never encoded twice: formatting a text payload returns it, whichever the encoding. */
  lemma TextPassesThrough(encoding: Encoding, s: string, codecs: Codecs)
    ensures FormatPayload(encoding, VStr(s), codecs) == VStr(s)
  {
  }
}
