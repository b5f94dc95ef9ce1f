# Webhook sender — a Dafny model

This project models the send pipeline of the webhook sender `Senderable` in
`webhooks/senders/base.py`. The pipeline has five steps:

1. It resolves configuration from two layers: per-call keyword arguments first, then the decorator's defaults.
2. It formats the payload for the resolved encoding.
3. It optionally signs the body.
4. It runs the attempt loop against an HTTP receiver.
5. It assembles the outcome mapping: the delivery metadata with the payload merged over it.

The whole model is functional. Python values are the datatype `Values.Value`.
Raised exceptions are `Err` values of `Errors.SendError`. The network is a
sequence of per-attempt outcomes, either `Response(status, text, content)` or
`Raised(message)`. The attempt loop (`Delivery.Run`) is a recursive function.
It returns the recorded metadata, the number of POSTs made and the trace of
sleep durations. `Delivery.Expected` describes the same result independently,
from the attempts the loop performed: the first success, then the last status,
the last failure and the last body. `Delivery.RunIsExpected` proves that the
two agree for every input.

The JSON serializer, the form encoder, UTF-8 encoding and SHA-256 are fields
of `Codecs.Codecs`, each an arbitrary total function. Every property holds
whatever they compute.

Several details of the code are easy to misread; the model follows the code:

- **Sleep length.** The sleep after failed attempt k lasts k - 1 seconds. It is the `enumerate` index over `range(len(attempts) - 1)` (line 133), not the k-th entry of the schedule. Only the schedule's length is ever read. A schedule [0, 1, 0] with a 500 then a 200 therefore sleeps once for 0, not for 1.
- **Not an HMAC.** The signature is plain SHA-256 of the secret's bytes followed by the body's bytes (lines 204-207).
- **Missing URL.** The URL is resolved inside the `try` of each attempt (line 139). A missing `url` therefore does not raise to the caller before any network activity. Each attempt catches the `TypeError` as a failed attempt, no POST is made, and the outcome reports `success = False` with that message as `error`.
- **Missing encoding.** An absent `encoding` fails in the required lookup with "Sender function needs a encoding argument". It never reaches the invalid-choice message.
- **Custom signature header.** `x-hub-signature` is forced only when the signing secret is truthy. With a falsy secret, an `x-hub-signature` entry in the custom headers is sent unchanged.

## Model

| member | source | states |
|---|---|---|
| Config.ValueIn | webhooks/senders/base.py:210-218 | the lookup behaves as a single lookup in the defaults overlaid by the per-call arguments; an absent key is a `TypeError` naming it when required and `None` otherwise |
| Config.RequiredValueIn | webhooks/senders/base.py:220-221 | succeeds exactly when either layer has the key, preferring the per-call value, and fails with the required-argument message otherwise |
| Config.OptionalValueIn | webhooks/senders/base.py:223-224 | never fails: the per-call value, else the default, else `None` |
| Config.KwargsWin | webhooks/senders/base.py:210-214 | when both layers define a key, the per-call keyword argument wins |
| Config.ParseEncoding | webhooks/senders/base.py:227-229 | only the two MIME strings are recognised, and a recognised encoding reproduces its configured string |
| Config.ParseMime | webhooks/senders/base.py:227-229 | each encoding is recognised from its own MIME string |
| Config.GetEncoding | webhooks/senders/base.py:64-69 | resolves exactly when the configured value is one of the two MIME strings; absent is the required-argument error, anything else the invalid-choice error |
| Config.InvalidEncodingMessageNamesChoices | webhooks/senders/base.py:67 | the invalid-choice message names both accepted MIME strings |
| Config.GetUrl | webhooks/senders/base.py:43-44 | the URL resolves exactly when some layer has `url`, else the required-argument error |
| Config.GetCustomHeaders | webhooks/senders/base.py:50-51 | the configured custom headers, or `None` when neither layer has them |
| Config.GetSigningSecret | webhooks/senders/base.py:57-58 | the configured secret, or `None` when neither layer has it |
| Config.GetTimeout | webhooks/senders/base.py:75-76 | the resolved timeout is always truthy: the configured value when truthy, else 5 |
| Config.DefaultTimeout | webhooks/senders/base.py:35-37 | the default timeout is a positive, truthy number |
| Payload.JsonifyPayload | webhooks/senders/base.py:94-99 | text is taken as already serialized and returned unchanged; anything else is what the serializer produces |
| Payload.FormatPayload | webhooks/senders/base.py:89-92 | under JSON the body is text (the payload itself when it was text); under forms the body is the raw payload |
| Payload.TextPassesThrough | webhooks/senders/base.py:89-99 | a text payload is never encoded twice, whatever the encoding |
| Signature.CreateSignature | webhooks/senders/base.py:198-208 | signs exactly when the secret is text and the body is text, a dict or a list; a non-text secret fails first, then a body the form encoder returns unchanged (`None`, a bool, a number) fails on `encode`; the value is `sha256=` and 64 lower-case hex digits that decode to SHA-256 of secret bytes followed by body bytes, a non-text body being form-encoded first |
| Signature.SignatureDependsOnlyOnBytes | webhooks/senders/base.py:198-208 | the signature is determined by the hashed bytes alone |
| Signature.SignatureDistinguishesDigests | webhooks/senders/base.py:204-208 | different digests give different signatures |
| Request.BaseHeaders | webhooks/senders/base.py:121-124 | truthy dict headers are used, falsy ones become an empty dict, and truthy non-dicts cannot take the assignment |
| Request.BuildPostAttributes | webhooks/senders/base.py:117-131 | errors arise in source order (encoding, then headers, then secret, then a form body that cannot be signed); `Content-Type` is always the resolved encoding and overrides a custom one; the signature header is set when the secret is truthy; every other custom header is kept |
| Request.ContentTypeIsAccepted | webhooks/senders/base.py:125 | the wire `Content-Type` is one of the two accepted MIME strings |
| Delivery.AttemptCount | webhooks/senders/base.py:133 | a schedule of length N allows N - 1 attempts, and none when N is 0 or 1 |
| Delivery.Attempt | webhooks/senders/base.py:135-167 | one attempt records its 1-based index, succeeds exactly on a 2xx response and does not sleep |
| Delivery.Run | webhooks/senders/base.py:133-183 | the loop never shortens the sleep trace and makes at most one POST per remaining attempt |
| Delivery.FirstSuccess | webhooks/senders/base.py:151 | the first 2xx attempt: a success with no success before it, or none at all |
| Delivery.Deliver | webhooks/senders/base.py:133-183 | the loop equals its reference description; at most N - 1 POSTs; none without a URL; no attempt at all for a schedule shorter than 2 |
| Delivery.RunIsExpected | webhooks/senders/base.py:133-183 | the loop yields the reference result: concluding attempt, last status, last body, last failure, POST count and sleeps 0..k-2 |
| Delivery.StopsAtFirstSuccess | webhooks/senders/base.py:133-159 | success exactly when some allowed attempt meets a 2xx, and then `attempt` is the first such 1-based index; otherwise `attempt` is the last index |
| Delivery.SleepTrace | webhooks/senders/base.py:176-183 | one sleep follows every failed attempt except the concluding one, and the sleep after attempt k lasts k - 1 |
| Delivery.ResponseAbsentWhenAllRejected | webhooks/senders/base.py:157-166 | when every attempt gets a non-2xx response, no `response` is recorded, yet a status code is |
| Delivery.RaisedKeepsStatus | webhooks/senders/base.py:148-167 | for every history of attempts, a further raised attempt keeps the recorded status code and replaces the error and the response body |
| Delivery.StatusCodeIsSticky | webhooks/senders/base.py:148-167 | an example run (schedule of 3, a rejected response then a raise): the rejected response's status code survives, the raise supplies the error and the synthesized body, and one sleep of 0 happens |
| Text.DecimalRoundTrip | webhooks/senders/base.py:161 | the `%d` rendering of a status code reads back to the code |
| Text.ReplaceQuotesKeepsOthers | webhooks/senders/base.py:165 | quote replacement changes double quotes into single quotes and nothing else |
| Text.ReplaceQuotesIdempotent | webhooks/senders/base.py:165 | replacing quotes twice is replacing once |
| Text.UnHexHex | webhooks/senders/base.py:208 | the hex digest decodes back to the digest bytes |
| Report.ErrorField | webhooks/senders/base.py:185 | the error is `None` on success or when no non-empty error was recorded, otherwise the last recorded error |
| Report.Metadata | webhooks/senders/base.py:118-186 | the metadata holds `success`, `error` and `post_attributes`, plus `attempt`, `status_code` and `response` exactly when they were recorded |
| Report.PayloadEntries | webhooks/senders/base.py:188-193 | text is wrapped as `{'payload': s}`, a dict is kept, and `hash` is added exactly when the hash value is non-empty; any other payload cannot be merged |
| Report.Merge | webhooks/senders/base.py:187-195 | the outcome has the keys of both sides, and the payload's value wins every collision |
| Report.Assemble | webhooks/senders/base.py:185-196 | the outcome keeps every metadata key, carries the wrapped text payload and the hash |
| Report.PayloadOverridesMetadata | webhooks/senders/base.py:195 | a payload key named `success` overrides the delivery's own `success` |
| Report.WrapperKeysAreFree | webhooks/senders/base.py:188-193 | the `payload` and `hash` keys the sender adds never collide with metadata |
| Report.MergeKeepsMetadata | webhooks/senders/base.py:185-195 | without collisions every metadata field reaches the outcome unchanged |
| Sender.Send | webhooks/senders/base.py:114-196 | configuration errors come back before any POST; otherwise at most N - 1 POSTs, no POST without a URL, and sleeps 0, 1, ... fewer than the attempts |
| Sender.SendComposes | webhooks/senders/base.py:114-196 | a successful send is the metadata of its delivery with its payload entries merged over it |
| Sender.SendReportsDelivery | webhooks/senders/base.py:185-196 | when the payload names no metadata field, the outcome reports the delivery's success, error, attempt, status code and response |
| Scenarios.RetryThenSuccessTrace | webhooks/senders/base.py:133-183 | schedule of three, 500 then 200: two POSTs and a single sleep of 0 |
| Scenarios.RetryThenSuccessOutcome | webhooks/senders/base.py:133-196 | that run reports success on attempt 2 with status 200, body "OK" and no error, beside the payload and hash |
| Scenarios.PayloadAndHashReported | webhooks/senders/base.py:188-195 | the payload's own keys and the hash tag reach the outcome |
| Scenarios.SingleAttemptRaises | webhooks/senders/base.py:164-180 | schedule of two with one raised attempt: failure on attempt 1, the quote-replaced message and synthesized body, no sleep, no status |
| Scenarios.EmptyMessageHidesError | webhooks/senders/base.py:185 | an exception with an empty message leaves `error` as `None` though the send failed |
| Scenarios.MissingUrlIsSwallowed | webhooks/senders/base.py:133-183 | without a URL no POST is made and the run ends on the last attempt with the missing-argument message as error |
| Scenarios.ShortScheduleNeverAttempts | webhooks/senders/base.py:118-185 | a schedule shorter than 2 makes no POST and writes no `attempt`, `status_code` or `response`; `success` stays false |

## Left out

- HTTP transport: `requests.post` (line 140) is replaced by the sequence of outcomes successive attempts meet. That sequence must cover every allowed attempt. Connections, retries inside `requests` and per-request timeouts are not modelled.
- Foreign encoders and hashing: `json.dumps` with `StandardJSONEncoder` (line 99), `requests.PreparedRequest()._encode_params` (line 203), UTF-8 encoding and `Crypto.Hash.SHA256` (lines 204-208) are uninterpreted fields of `Codecs.Codecs`.
- Logging and printing: the logging setup (lines 16-17), `notify`, `notify_debug` and `notify_error` (lines 101-108, 154-156, 169-180) and `print(self.url)` (line 139) carry no behaviour and are not modelled.
- Sleeping: `time.sleep` appears only as the durations recorded in the sleep trace.
- Python 2 versus 3 decoding (lines 142-146): response content is taken as already-decoded text, so a failing UTF-8 decode is not modelled.
- `cached_property` (lines 39-80): configuration is immutable, so each setting is a pure function of the two layers. The payload function is applied once per send (`Sender.Send` binds it once).
- `send` (lines 110-112) only delegates to `_send` and is modelled by `Sender.Send`.
- Aliasing effects: the caller's `custom_headers` dict gains `Content-Type` and the signature (lines 122-130), and the cached payload dict gains `hash` (line 193). These are object-identity effects on Python objects and are not modelled. One of them is visible in the result: under the forms encoding `post_attributes['data']` is the payload dict itself (lines 92, 127), so with a non-empty hash value the returned outcome's `post_attributes['data']` also carries `hash`, whereas `Report.Metadata` reports the body without it.
- Dict ordering: the outcome is a map, so Python's insertion order of keys is not modelled.
- Floats and bytes: numbers are integers, and there are no byte strings. A `bytes` secret, accepted by line 199, and a `bytes` payload are not modelled.
- Signature.CreateSignature: a non-text secret is reported as an error, although Python accepts a `bytes` secret here (line 199); the model has no bytes values. The form encoder is an arbitrary function from dicts and lists to text, so a list that is not made of key/value pairs, on which `_encode_params` (line 203) raises, is signed as if it encoded.
- Report.PayloadEntries: a payload that is neither text nor a dict is reported as `PayloadNotMapping`. Python raises when adding `hash` or in `dict.update`, except for a list of key/value pairs, which `dict.update` accepts. Such payloads can fail earlier: under the forms encoding with a truthy secret, `None`, a bool or a number fails in `create_signature` (line 206, modelled as `BodyNotText`), and a list that is not made of pairs raises inside `_encode_params` (line 203, not modelled) before any POST.
- Sender.Send: when the payload cannot be merged, the POSTs and sleeps already performed are not returned with the error.
- A payload function that raises, and the positional/keyword calling convention beyond passing the stored arguments, are not modelled.
