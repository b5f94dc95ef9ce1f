/**
 * The request attributes fixed once before the first attempt: timeout,
 * headers (custom headers, a forced `Content-Type`, and the signature when
 * a secret is configured) and the formatted body.
 */
module Request {
  import opened Wrappers
  import opened Values
  import opened Errors
  import opened Config
  import opened Codecs
  import opened Payload
  import opened Signature

  const ContentType := "Content-Type"
  const SignatureHeader := "x-hub-signature"

  /** The keyword arguments passed to every POST. */
  datatype PostAttributes = PostAttributes(timeout: Value, headers: map<string, Value>, data: Value) {
    /** The `post_attributes` dict as it appears in the outcome. */
    function ToValue(): Value {
      VDict(map["timeout" := timeout, "headers" := VDict(headers), "data" := data])
    }
  }

  /** The custom header entries that end up in the request: a truthy dict's entries, else none. */
  function CustomEntries(custom: Value): map<string, Value> {
    if Truthy(custom) && custom.VDict? then custom.entries else map[]
  }

  /** Custom headers can take the `Content-Type` assignment unless they are truthy and not a dict. */
  predicate HeadersUsable(custom: Value) {
    !Truthy(custom) || custom.VDict?
  }

  function BaseHeaders(custom: Value): (r: Result<map<string, Value>, SendError>)
    ensures r.Ok? <==> HeadersUsable(custom)
    ensures r.Ok? ==> r.value == CustomEntries(custom)
    ensures r.Err? ==> r.error == HeadersNotMapping(custom)
  {
    if !Truthy(custom) then Ok(map[])
    else if custom.VDict? then Ok(custom.entries)
    else Err(HeadersNotMapping(custom))
  }

  /**
   * Lines 117-131 of `_send`. Errors surface in source order: an encoding
   * error first (it is evaluated before the header assignment), then unusable
   * custom headers, then a secret or a form body that cannot be encoded.
   */
  function BuildPostAttributes(layers: Layers, payload: Value, codecs: Codecs): (r: Result<PostAttributes, SendError>)
    ensures r.Ok? <==>
      && GetEncoding(layers).Ok?
      && HeadersUsable(GetCustomHeaders(layers))
      && (Truthy(GetSigningSecret(layers)) ==>
            && IsText(GetSigningSecret(layers))
            && Signable(FormatPayload(GetEncoding(layers).value, payload, codecs)))
    ensures GetEncoding(layers).Err? ==> r == Err(GetEncoding(layers).error)
    ensures GetEncoding(layers).Ok? && !HeadersUsable(GetCustomHeaders(layers)) ==>
      r == Err(HeadersNotMapping(GetCustomHeaders(layers)))
    ensures GetEncoding(layers).Ok? && HeadersUsable(GetCustomHeaders(layers)) && Truthy(GetSigningSecret(layers)) && r.Err? ==>
      r == Err(CreateSignature(FormatPayload(GetEncoding(layers).value, payload, codecs), GetSigningSecret(layers), codecs).error)
    ensures r.Ok? ==> r.value.timeout == GetTimeout(layers)
    ensures r.Ok? ==> r.value.data == FormatPayload(GetEncoding(layers).value, payload, codecs)
    ensures r.Ok? ==> ContentType in r.value.headers && r.value.headers[ContentType] == VStr(GetEncoding(layers).value.Mime())
    ensures r.Ok? && Truthy(GetSigningSecret(layers)) ==>
      && SignatureHeader in r.value.headers
      && r.value.headers[SignatureHeader] == VStr(CreateSignature(r.value.data, GetSigningSecret(layers), codecs).value)
    ensures r.Ok? && !Truthy(GetSigningSecret(layers)) ==>
      && (SignatureHeader in r.value.headers <==> SignatureHeader in CustomEntries(GetCustomHeaders(layers)))
      && (SignatureHeader in r.value.headers ==>
            r.value.headers[SignatureHeader] == CustomEntries(GetCustomHeaders(layers))[SignatureHeader])
    ensures r.Ok? ==> forall k :: k != ContentType && k != SignatureHeader ==>
      && (k in r.value.headers <==> k in CustomEntries(GetCustomHeaders(layers)))
      && (k in r.value.headers ==> r.value.headers[k] == CustomEntries(GetCustomHeaders(layers))[k])
  {
    var timeout := GetTimeout(layers);
    var custom := GetCustomHeaders(layers);
    var encoding :- GetEncoding(layers);
    var base :- BaseHeaders(custom);
    var headers := base[ContentType := VStr(encoding.Mime())];
    var data := FormatPayload(encoding, payload, codecs);
    var secret := GetSigningSecret(layers);
    if Truthy(secret) then
      var signature :- CreateSignature(data, secret, codecs);
      Ok(PostAttributes(timeout, headers[SignatureHeader := VStr(signature)], data))
    else
      Ok(PostAttributes(timeout, headers, data))
  }

  /** The wire `Content-Type` is always one of the two accepted MIME strings. */
  lemma ContentTypeIsAccepted(layers: Layers, payload: Value, codecs: Codecs)
    ensures BuildPostAttributes(layers, payload, codecs).Ok? ==>
      var h := BuildPostAttributes(layers, payload, codecs).value.headers;
      h[ContentType] == VStr(JsonMime) || h[ContentType] == VStr(FormsMime)
  {
  }
}
