/**
 * Configuration lookup: every setting is looked up first in the per-call
 * keyword arguments, then in the decorator's defaults.
 */
module Config {
  import opened Wrappers
  import opened Values
  import opened Errors
  import opened Text

  /** The two configuration layers: decorator defaults and per-call keyword arguments. */
  datatype Layers = Layers(dkwargs: map<string, Value>, kwargs: map<string, Value>) {
    /** The single mapping the lookup behaves like: per-call entries shadow the defaults. */
    function Effective(): map<string, Value> {
      dkwargs + kwargs
    }
  }

  const FormsMime := "application/x-www-form-urlencoded"
  const JsonMime := "application/json"

  /** The two accepted encodings. */
  datatype Encoding = Json | Forms {
    function Mime(): string {
      match this
      case Json => JsonMime
      case Forms => FormsMime
    }
  }

  /** Recognises a configured encoding value. */
  function ParseEncoding(v: Value): (e: Option<Encoding>)
    ensures e.Some? <==> v == VStr(JsonMime) || v == VStr(FormsMime)
    ensures e.Some? ==> v == VStr(e.value.Mime())
  {
    if v == VStr(JsonMime) then Some(Json)
    else if v == VStr(FormsMime) then Some(Forms)
    else None
  }

  /** Every encoding is recognised from its own MIME string. */
  lemma ParseMime(e: Encoding)
    ensures ParseEncoding(VStr(e.Mime())) == Some(e)
  {
  }

  function RequiredMessage(key: string): string {
    "Sender function needs a " + key + " argument"
  }

  const InvalidEncodingMessage :=
    "Invalid choice for 'encoding'. Valid selections are '" + FormsMime + "' or '" + JsonMime + "'"

  const DefaultTimeoutSeconds := 5

  /** `Senderable._default_timeout()` */
  function DefaultTimeout(): (t: int)
    ensures t > 0 && Truthy(VInt(t))
  {
    DefaultTimeoutSeconds
  }

  /**
   * `_value_in`: the per-call value if there is one, else the default; an
   * absent key is a `TypeError` when required and `None` otherwise.
   */
  function ValueIn(key: string, required: bool, layers: Layers): (r: Result<Value, SendError>)
    ensures key in layers.Effective() ==> r == Ok(layers.Effective()[key])
    ensures key !in layers.Effective() && required ==> r == Err(ConfigTypeError(RequiredMessage(key)))
    ensures key !in layers.Effective() && !required ==> r == Ok(VNone)
  {
    if key in layers.kwargs then Ok(layers.kwargs[key])
    else if key in layers.dkwargs then Ok(layers.dkwargs[key])
    else if required then Err(ConfigTypeError(RequiredMessage(key)))
    else Ok(VNone)
  }

  /** `value_in`: the required lookup. */
  function RequiredValueIn(key: string, layers: Layers): (r: Result<Value, SendError>)
    ensures r.Ok? <==> key in layers.kwargs || key in layers.dkwargs
    ensures key in layers.kwargs ==> r == Ok(layers.kwargs[key])
    ensures key !in layers.kwargs && key in layers.dkwargs ==> r == Ok(layers.dkwargs[key])
    ensures r.Err? ==> r.error == ConfigTypeError(RequiredMessage(key))
  {
    ValueIn(key, true, layers)
  }

  /** `value_in_opt`: the optional lookup, which never fails. */
  function OptionalValueIn(key: string, layers: Layers): (v: Value)
    ensures key in layers.kwargs ==> v == layers.kwargs[key]
    ensures key !in layers.kwargs && key in layers.dkwargs ==> v == layers.dkwargs[key]
    ensures key !in layers.kwargs && key !in layers.dkwargs ==> v == VNone
  {
    ValueIn(key, false, layers).value
  }

  /** A per-call keyword argument always wins over the decorator default for the same key. */
  lemma KwargsWin(key: string, required: bool, layers: Layers)
    requires key in layers.kwargs && key in layers.dkwargs
    ensures ValueIn(key, required, layers) == Ok(layers.kwargs[key])
  {
  }

  /** `get_url`: required. */
  function GetUrl(layers: Layers): (r: Result<Value, SendError>)
    ensures r.Ok? <==> "url" in layers.Effective()
    ensures r.Ok? ==> r.value == layers.Effective()["url"]
    ensures r.Err? ==> r.error == ConfigTypeError(RequiredMessage("url"))
  {
    ValueIn("url", true, layers)
  }

  /** `get_custom_headers`: optional, `None` when absent. */
  function GetCustomHeaders(layers: Layers): (v: Value)
    ensures "custom_headers" in layers.Effective() ==> v == layers.Effective()["custom_headers"]
    ensures "custom_headers" !in layers.Effective() ==> v == VNone
  {
    ValueIn("custom_headers", false, layers).value
  }

  /** `get_signing_secret`: optional, `None` when absent. */
  function GetSigningSecret(layers: Layers): (v: Value)
    ensures "signing_secret" in layers.Effective() ==> v == layers.Effective()["signing_secret"]
    ensures "signing_secret" !in layers.Effective() ==> v == VNone
  {
    ValueIn("signing_secret", false, layers).value
  }

  /**
   * `get_encoding`: required, and must be one of the two MIME strings. An
   * absent key fails in the lookup, before the invalid-choice check.
   */
  function GetEncoding(layers: Layers): (r: Result<Encoding, SendError>)
    ensures r.Ok? <==> "encoding" in layers.Effective() && ParseEncoding(layers.Effective()["encoding"]).Some?
    ensures r.Ok? ==> layers.Effective()["encoding"] == VStr(r.value.Mime())
    ensures "encoding" !in layers.Effective() ==> r == Err(ConfigTypeError(RequiredMessage("encoding")))
    ensures "encoding" in layers.Effective() && r.Err? ==> r == Err(ConfigTypeError(InvalidEncodingMessage))
  {
    var v :- ValueIn("encoding", true, layers);
    if !Truthy(v) || ParseEncoding(v).None? then Err(ConfigTypeError(InvalidEncodingMessage))
    else Ok(ParseEncoding(v).value)
  }

  /** `get_timeout`: the looked-up value unless it is falsy, in which case the default of 5. */
  function GetTimeout(layers: Layers): (t: Value)
    ensures Truthy(t)
    ensures "timeout" in layers.Effective() && Truthy(layers.Effective()["timeout"]) ==> t == layers.Effective()["timeout"]
    ensures "timeout" !in layers.Effective() || !Truthy(layers.Effective()["timeout"]) ==> t == VInt(5)
  {
    var v := ValueIn("timeout", false, layers).value;
    if Truthy(v) then v else VInt(DefaultTimeout())
  }

  /** The invalid-encoding message names both accepted choices. */
  lemma InvalidEncodingMessageNamesChoices()
    ensures IsInfix(FormsMime, InvalidEncodingMessage)
    ensures IsInfix(JsonMime, InvalidEncodingMessage)
  {
    var m := InvalidEncodingMessage;
    var p := "Invalid choice for 'encoding'. Valid selections are '";
    assert OccursAt(FormsMime, m, |p|);
    var q := p + FormsMime + "' or '";
    assert OccursAt(JsonMime, m, |q|);
  }
}
