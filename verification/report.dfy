/**
 * Outcome assembly (lines 185-196 of `_send`): the delivery metadata, then
 * the payload (wrapped when it is text, tagged with the hash when there is
 * one) merged over it, so payload keys win any collision.
 */
module Report {
  import opened Wrappers
  import opened Values
  import opened Errors
  import opened Request
  import opened Delivery

  /** `None if success or not self.error else self.error` */
  function ErrorField(p: Progress): (v: Value)
    ensures p.success ==> v == VNone
    ensures v != VNone ==> !p.success && p.error.Some? && v == VStr(p.error.value) && |p.error.value| > 0
    ensures !p.success && p.error.Some? && p.error.value != "" ==> v == VStr(p.error.value)
  {
    if p.success || p.error.None? || p.error.value == "" then VNone else VStr(p.error.value)
  }

  /** The keys `sending_metadata` holds after the loop. */
  function MetadataKeys(p: Progress): set<string> {
    {"success", "error", "post_attributes"}
    + (if p.attempt.Some? then {"attempt"} else {})
    + (if p.statusCode.Some? then {"status_code"} else {})
    + (if p.response.Some? then {"response"} else {})
  }

  /** `sending_metadata`: one entry per recorded field; absent fields have no key at all. */
  function Metadata(p: Progress, post: PostAttributes): (m: map<string, Value>)
    ensures m.Keys == MetadataKeys(p)
    ensures m["success"] == VBool(p.success)
    ensures m["error"] == ErrorField(p)
    ensures m["post_attributes"] == post.ToValue()
    ensures p.attempt.Some? ==> m["attempt"] == VInt(p.attempt.value)
    ensures p.statusCode.Some? ==> m["status_code"] == VInt(p.statusCode.value)
    ensures p.response.Some? ==> m["response"] == VStr(p.response.value)
  {
    var base := map["success" := VBool(p.success), "error" := ErrorField(p), "post_attributes" := post.ToValue()];
    var withAttempt := if p.attempt.Some? then base["attempt" := VInt(p.attempt.value)] else base;
    var withStatus := if p.statusCode.Some? then withAttempt["status_code" := VInt(p.statusCode.value)] else withAttempt;
    if p.response.Some? then withStatus["response" := VStr(p.response.value)] else withStatus
  }

  /** Whether the hash value is merged: present and non-empty. */
  predicate HasHash(hash: Option<string>) {
    hash.Some? && |hash.value| > 0
  }

  /**
   * The payload as the mapping merged into the outcome: text becomes
   * `{'payload': text}`, a dict is used as is, and the hash value is added
   * under `hash` when non-empty. Any other payload cannot be merged.
   */
  function PayloadEntries(payload: Value, hash: Option<string>): (r: Result<map<string, Value>, SendError>)
    ensures r.Ok? <==> payload.VStr? || payload.VDict?
    ensures r.Err? ==> r.error == PayloadNotMapping(payload)
    ensures r.Ok? && payload.VStr? ==> "payload" in r.value && r.value["payload"] == payload
    ensures r.Ok? && payload.VStr? ==> r.value.Keys == {"payload"} + (if HasHash(hash) then {"hash"} else {})
    ensures r.Ok? && payload.VDict? ==> r.value.Keys == payload.entries.Keys + (if HasHash(hash) then {"hash"} else {})
    ensures r.Ok? && payload.VDict? ==> forall k :: k in payload.entries && k != "hash" ==> r.value[k] == payload.entries[k]
    ensures r.Ok? && HasHash(hash) ==> r.value["hash"] == VStr(hash.value)
    ensures r.Ok? && !HasHash(hash) && payload.VDict? && "hash" in payload.entries ==> r.value["hash"] == payload.entries["hash"]
  {
    var base :=
      if payload.VStr? then Ok(map["payload" := payload])
      else if payload.VDict? then Ok(payload.entries)
      else Err(PayloadNotMapping(payload));
    if base.Err? then base
    else if HasHash(hash) then Ok(base.value["hash" := VStr(hash.value)])
    else base
  }

  /** `merged_dict.update(payload)`: every key of either side, the payload's value winning. */
  function Merge(metadata: map<string, Value>, entries: map<string, Value>): (m: map<string, Value>)
    ensures m.Keys == metadata.Keys + entries.Keys
    ensures forall k :: k in entries ==> m[k] == entries[k]
    ensures forall k :: k in metadata && k !in entries ==> m[k] == metadata[k]
  {
    metadata + entries
  }

  /** The assembled outcome: metadata overlaid with the payload entries. */
  function Assemble(p: Progress, post: PostAttributes, payload: Value, hash: Option<string>): (r: Result<map<string, Value>, SendError>)
    ensures r.Ok? <==> payload.VStr? || payload.VDict?
    ensures r.Ok? ==> MetadataKeys(p) <= r.value.Keys
    ensures r.Ok? && HasHash(hash) ==> "hash" in r.value && r.value["hash"] == VStr(hash.value)
    ensures r.Ok? && payload.VStr? ==> "payload" in r.value && r.value["payload"] == payload
    ensures r.Ok? && payload.VStr? && !HasHash(hash) ==> r.value.Keys == MetadataKeys(p) + {"payload"}
  {
    var entries :- PayloadEntries(payload, hash);
    Ok(Merge(Metadata(p, post), entries))
  }

  /** A payload key named like a metadata field overrides the delivery's own value. */
  lemma PayloadOverridesMetadata(p: Progress, post: PostAttributes, entries: map<string, Value>, v: Value)
    requires !p.success
    requires "success" in entries && entries["success"] == VBool(true)
    ensures Merge(Metadata(p, post), entries)["success"] == VBool(true)
    ensures Metadata(p, post)["success"] == VBool(false)
  {
  }

  /** Every key the delivery may write into the outcome. */
  const MetadataNames: set<string> := {"success", "error", "post_attributes", "attempt", "status_code", "response"}

  /** None of the entries shadows a metadata field. */
  predicate NamesNoMetadata(entries: map<string, Value>) {
    forall k :: k in entries ==> k !in MetadataNames
  }

  /** The keys the sender itself adds to the payload never collide with metadata. */
  lemma WrapperKeysAreFree(payload: Value, hash: Option<string>)
    requires payload.VStr? || (payload.VDict? && NamesNoMetadata(payload.entries))
    ensures NamesNoMetadata(PayloadEntries(payload, hash).value)
  {
    assert "payload" !in MetadataNames;
    assert "hash" !in MetadataNames;
  }

  /** Metadata fields keep their delivery values when the payload names none of them. */
  lemma MergeKeepsMetadata(p: Progress, post: PostAttributes, entries: map<string, Value>)
    requires NamesNoMetadata(entries)
    ensures var o := Merge(Metadata(p, post), entries);
      && o["success"] == VBool(p.success)
      && o["error"] == ErrorField(p)
      && o["post_attributes"] == post.ToValue()
      && ("attempt" in o <==> p.attempt.Some?)
      && (p.attempt.Some? ==> o["attempt"] == VInt(p.attempt.value))
      && ("status_code" in o <==> p.statusCode.Some?)
      && (p.statusCode.Some? ==> o["status_code"] == VInt(p.statusCode.value))
      && ("response" in o <==> p.response.Some?)
      && (p.response.Some? ==> o["response"] == VStr(p.response.value))
  {
  }
}
