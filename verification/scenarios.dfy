/**
 * Whole sends on concrete inputs: a retry that then succeeds, a single
 * attempt that raises, a missing URL, and a schedule too short to attempt.
 */
module Scenarios {
  import opened Wrappers
  import opened Values
  import opened Text
  import opened Config
  import opened Codecs
  import opened Request
  import opened Delivery
  import opened Report
  import opened Sender

  function JsonSettings(): map<string, Value> {
    map["url" := VStr("http://example.test/hook"), "encoding" := VStr(JsonMime)]
  }

  /** A URL and the JSON encoding, nothing else configured. */
  lemma JsonSettingsResolve(layers: Layers)
    requires layers.dkwargs == map[] && layers.kwargs == JsonSettings()
    ensures GetUrl(layers).Ok?
    ensures GetEncoding(layers) == Ok(Json)
    ensures GetCustomHeaders(layers) == VNone && GetSigningSecret(layers) == VNone
  {
    assert "encoding" in layers.Effective();
    assert "custom_headers" !in layers.Effective();
    assert "signing_secret" !in layers.Effective();
  }

  /**
   * Schedule [0, 1, 0] allows two attempts; a 500 then a 200 "OK" succeeds on
   * the second, after one sleep of 0 (the loop index, not the schedule's 1).
   */
  lemma RetryThenSuccessTrace(req: SendRequest, codecs: Codecs, net: seq<Outcome>)
    requires GetPayload(req) == VDict(map["x" := VInt(1)])
    requires req.dkwargs == map[] && req.kwargs == JsonSettings()
    requires |req.attempts| == 3
    requires net == [Response(500, "boom", "boom"), Response(200, "OK", "OK")]
    ensures Send(req, codecs, net).Ok?
    ensures Send(req, codecs, net).value.posts == 2
    ensures Send(req, codecs, net).value.sleeps == [0]
  {
    JsonSettingsResolve(req.Layers());
    SendComposes(req, codecs, net);
    RetryThenSuccessLoop(net);
  }

  /**
   * The outcome assembled after that loop reports success on attempt 2 with
   * the 200's status and body and no error, next to the payload and hash.
   */
  lemma RetryThenSuccessOutcome(net: seq<Outcome>, post: PostAttributes)
    requires net == [Response(500, "boom", "boom"), Response(200, "OK", "OK")]
    ensures var r := Assemble(Deliver(3, true, net), post, VDict(map["x" := VInt(1)]), Some("abc123"));
      && r.Ok?
      && r.value["success"] == VBool(true)
      && r.value["attempt"] == VInt(2)
      && r.value["status_code"] == VInt(200)
      && r.value["response"] == VStr("OK")
      && r.value["error"] == VNone
      && r.value["x"] == VInt(1)
      && r.value["hash"] == VStr("abc123")
  {
    var p := Deliver(3, true, net);
    RetryThenSuccessLoop(net);
    var payload := VDict(map["x" := VInt(1)]);
    assert NamesNoMetadata(payload.entries);
    WrapperKeysAreFree(payload, Some("abc123"));
    var entries := PayloadEntries(payload, Some("abc123")).value;
    MergeKeepsMetadata(p, post, entries);
  }

  /** The payload's own keys and the hash tag appear in the outcome next to the metadata. */
  lemma PayloadAndHashReported(req: SendRequest, codecs: Codecs, net: seq<Outcome>)
    requires GetPayload(req) == VDict(map["x" := VInt(1)])
    requires req.dkwargs == map[] && req.kwargs == JsonSettings()
    requires req.hashValue == Some("abc123")
    requires AttemptCount(|req.attempts|) <= |net|
    ensures var r := Send(req, codecs, net);
      && r.Ok?
      && r.value.outcome["hash"] == VStr("abc123")
      && r.value.outcome["x"] == VInt(1)
  {
    JsonSettingsResolve(req.Layers());
    SendComposes(req, codecs, net);
    var entries := PayloadEntries(GetPayload(req), req.hashValue).value;
    assert "x" in entries && entries["x"] == VInt(1);
    assert "hash" in entries && entries["hash"] == VStr("abc123");
  }

  lemma RetryThenSuccessLoop(net: seq<Outcome>)
    requires net == [Response(500, "boom", "boom"), Response(200, "OK", "OK")]
    ensures var p := Deliver(3, true, net);
      && p.success && p.attempt == Some(2) && p.posts == 2 && p.sleeps == [0]
      && p.statusCode == Some(200) && p.response == Some("OK")
  {
    var evs := Events(true, net, 2);
    assert evs == net;
    assert FirstSuccess(evs[1..]) == Some(0);
    assert FirstSuccess(evs) == Some(1);
    assert evs[..2] == evs;
  }

  /**
   * Schedule [0, 0] allows one attempt; when it raises, the send fails on
   * attempt 1 with the quote-replaced message and no sleep at all.
   */
  lemma SingleAttemptRaises(net: seq<Outcome>, message: string)
    requires net == [Raised(message)]
    ensures var p := Deliver(2, true, net);
      && !p.success
      && p.attempt == Some(1)
      && p.posts == 1
      && p.sleeps == []
      && p.error == Some(ReplaceQuotes(message))
      && p.response == Some(FailureBody(ReplaceQuotes(message)))
      && p.statusCode == None
  {
    assert net[..1] == net;
    assert Concluded(net) == 1;
  }

  /** A raised exception with an empty message leaves the outcome's error `None` although the send failed. */
  lemma EmptyMessageHidesError(net: seq<Outcome>)
    requires net == [Raised("")]
    ensures !Deliver(2, true, net).success
    ensures ErrorField(Deliver(2, true, net)) == VNone
  {
    SingleAttemptRaises(net, "");
  }

  /**
   * Without a URL every attempt raises the missing-argument error inside the
   * `try`: no POST is made, the loop runs to the end, and the send reports
   * that message as its error instead of raising it.
   */
  lemma MissingUrlIsSwallowed(scheduleLength: nat, net: seq<Outcome>)
    requires scheduleLength >= 2
    requires AttemptCount(scheduleLength) <= |net|
    ensures var p := Deliver(scheduleLength, false, net);
      && !p.success
      && p.posts == 0
      && p.attempt == Some(scheduleLength - 1)
      && p.error == Some(ReplaceQuotes(RequiredMessage("url")))
      && p.statusCode == None
      && p.sleeps == Counting(scheduleLength - 2)
  {
    var n := AttemptCount(scheduleLength);
    var evs := Events(false, net, n);
    assert Concluded(evs) == n;
    assert evs[..n] == evs;
    assert evs[n - 1] == Raised(RequiredMessage("url"));
    NoResponseNoStatus(evs);
  }

  lemma {:induction false} NoResponseNoStatus(evs: seq<Outcome>)
    requires forall j :: 0 <= j < |evs| ==> evs[j].Raised?
    ensures LastStatus(evs) == None
  {
    if |evs| > 0 {
      NoResponseNoStatus(evs[..|evs| - 1]);
    }
  }

  /**
   * A schedule of length 0 or 1 allows no attempt: nothing is posted, no
   * `attempt`, `status_code` or `response` key is written, and `success` stays false.
   */
  lemma ShortScheduleNeverAttempts(scheduleLength: nat, urlFound: bool, net: seq<Outcome>, post: PostAttributes, s: string, hash: Option<string>)
    requires scheduleLength <= 1
    ensures var p := Deliver(scheduleLength, urlFound, net);
      var r := Assemble(p, post, VStr(s), hash);
      && p.posts == 0 && p.sleeps == []
      && r.Ok?
      && "attempt" !in r.value && "status_code" !in r.value && "response" !in r.value
      && r.value["success"] == VBool(false)
      && r.value["error"] == VNone
  {
    var p := Deliver(scheduleLength, urlFound, net);
    WrapperKeysAreFree(VStr(s), hash);
    MergeKeepsMetadata(p, post, PayloadEntries(VStr(s), hash).value);
  }
}
