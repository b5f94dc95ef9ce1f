/**
 * A whole send (`Senderable._send`): build the request attributes, run the
 * attempt loop against the network, and assemble the outcome.
 */
module Sender {
  import opened Wrappers
  import opened Values
  import opened Errors
  import opened Text
  import opened Config
  import opened Codecs
  import opened Request
  import opened Delivery
  import opened Report

  /** The arguments the decorator hands to a sender. */
  datatype SendRequest = SendRequest(
    wrapped: (seq<Value>, map<string, Value>) -> Value,  // the hooked function producing the payload
    dkwargs: map<string, Value>,                         // decorator defaults
    hashValue: Option<string>,                           // identifier of this delivery
    attempts: seq<Value>,                                // retry schedule; only its length is used
    args: seq<Value>,                                    // positional arguments of the hooked function
    kwargs: map<string, Value>                           // keyword arguments, also the per-call settings
  ) {
    function Layers(): Config.Layers {
      Config.Layers(dkwargs, kwargs)
    }
  }

  /** What a send returns, with what the environment observed. */
  datatype Sent = Sent(outcome: map<string, Value>, posts: nat, sleeps: seq<nat>)

  /** `get_payload`: the hooked function applied to the stored arguments. */
  function GetPayload(req: SendRequest): Value {
    req.wrapped(req.args, req.kwargs)
  }

  /**
   * `_send`, with the network as the outcomes successive attempts meet. The
   * payload is produced once and used for both the body and the outcome.
   */
  function Send(req: SendRequest, codecs: Codecs, net: seq<Outcome>): (r: Result<Sent, SendError>)
    requires AttemptCount(|req.attempts|) <= |net|
    ensures var payload := GetPayload(req);
      r.Ok? <==> BuildPostAttributes(req.Layers(), payload, codecs).Ok? && (payload.VStr? || payload.VDict?)
    ensures BuildPostAttributes(req.Layers(), GetPayload(req), codecs).Err? ==>
      r == Err(BuildPostAttributes(req.Layers(), GetPayload(req), codecs).error)
    ensures r.Ok? ==> r.value.posts <= AttemptCount(|req.attempts|)
    ensures r.Ok? && GetUrl(req.Layers()).Err? ==> r.value.posts == 0
    ensures r.Ok? ==> r.value.sleeps == Counting(|r.value.sleeps|)
    ensures r.Ok? ==> |r.value.sleeps| < AttemptCount(|req.attempts|) || AttemptCount(|req.attempts|) == 0
  {
    var payload := GetPayload(req);
    var post :- BuildPostAttributes(req.Layers(), payload, codecs);
    var p := Deliver(|req.attempts|, GetUrl(req.Layers()).Ok?, net);
    SleepTrace(|req.attempts|, GetUrl(req.Layers()).Ok?, net);
    var outcome :- Assemble(p, post, payload, req.hashValue);
    Ok(Sent(outcome, p.posts, p.sleeps))
  }

  /** A successful send is the assembly of its delivery, its request attributes and its payload. */
  lemma SendComposes(req: SendRequest, codecs: Codecs, net: seq<Outcome>)
    requires AttemptCount(|req.attempts|) <= |net|
    requires BuildPostAttributes(req.Layers(), GetPayload(req), codecs).Ok?
    requires GetPayload(req).VStr? || GetPayload(req).VDict?
    ensures var p := Deliver(|req.attempts|, GetUrl(req.Layers()).Ok?, net);
      var post := BuildPostAttributes(req.Layers(), GetPayload(req), codecs).value;
      var entries := PayloadEntries(GetPayload(req), req.hashValue).value;
      Send(req, codecs, net) == Ok(Sent(Merge(Metadata(p, post), entries), p.posts, p.sleeps))
  {
  }

  /** The delivery-side fields of the outcome when the payload does not name them. */
  lemma SendReportsDelivery(req: SendRequest, codecs: Codecs, net: seq<Outcome>)
    requires AttemptCount(|req.attempts|) <= |net|
    requires Send(req, codecs, net).Ok?
    requires GetPayload(req).VStr? || (GetPayload(req).VDict? && NamesNoMetadata(GetPayload(req).entries))
    ensures var p := Deliver(|req.attempts|, GetUrl(req.Layers()).Ok?, net);
      var o := Send(req, codecs, net).value.outcome;
      && o["success"] == VBool(p.success)
      && o["error"] == ErrorField(p)
      && o["post_attributes"] == BuildPostAttributes(req.Layers(), GetPayload(req), codecs).value.ToValue()
      && ("attempt" in o <==> p.attempt.Some?)
      && (p.attempt.Some? ==> o["attempt"] == VInt(p.attempt.value))
      && ("status_code" in o <==> p.statusCode.Some?)
      && (p.statusCode.Some? ==> o["status_code"] == VInt(p.statusCode.value))
      && ("response" in o <==> p.response.Some?)
      && (p.response.Some? ==> o["response"] == VStr(p.response.value))
  {
    var p := Deliver(|req.attempts|, GetUrl(req.Layers()).Ok?, net);
    var post := BuildPostAttributes(req.Layers(), GetPayload(req), codecs).value;
    var entries := PayloadEntries(GetPayload(req), req.hashValue).value;
    assert Send(req, codecs, net).value.outcome == Merge(Metadata(p, post), entries);
    WrapperKeysAreFree(GetPayload(req), req.hashValue);
    MergeKeepsMetadata(p, post, entries);
  }
}
