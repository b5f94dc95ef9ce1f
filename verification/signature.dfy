/**
 * The `x-hub-signature` value: `"sha256="` followed by the hex SHA-256 of the
 * secret's bytes followed by the body's bytes. It is a plain hash of the
 * concatenation, not an HMAC.
 */
module Signature {
  import opened Wrappers
  import opened Values
  import opened Errors
  import opened Text
  import opened Codecs

  const Prefix := "sha256="

  /**
   * Bodies whose signed form is text: text itself, and the dicts and lists the
   * form encoder turns into a query string. The encoder returns any other
   * value unchanged, and that value cannot be UTF-8 encoded.
   */
  predicate Signable(data: Value) {
    data.VStr? || data.VDict? || data.VList?
  }

  /** The text that is hashed: the body itself, or its form encoding when it is not text. */
  function SignedText(data: Value, codecs: Codecs): (t: string)
    requires Signable(data)
    ensures IsText(data) ==> t == data.s
    ensures !IsText(data) ==> t == codecs.formEncode(data)
  {
    if IsText(data) then data.s else codecs.formEncode(data)
  }

  /** The bytes fed to SHA-256: secret first, then body. */
  function SignedBytes(data: Value, secret: string, codecs: Codecs): seq<byte>
    requires Signable(data)
  {
    codecs.utf8(secret) + codecs.utf8(SignedText(data, codecs))
  }

  /**
   * `create_signature`: the secret is encoded first, so a non-text secret
   * fails before the body is looked at; then a body whose signed form is not
   * text fails. The result is the prefix and 64 lower-case hex digits that
   * read back to the digest.
   */
  function CreateSignature(data: Value, secret: Value, codecs: Codecs): (r: Result<string, SendError>)
    ensures r.Ok? <==> IsText(secret) && Signable(data)
    ensures !IsText(secret) ==> r == Err(SecretNotText(secret))
    ensures IsText(secret) && !Signable(data) ==> r == Err(BodyNotText(data))
    ensures r.Ok? ==> |r.value| == |Prefix| + 64 && r.value[..|Prefix|] == Prefix
    ensures r.Ok? ==> forall i :: |Prefix| <= i < |r.value| ==> IsHexDigit(r.value[i])
    ensures r.Ok? ==> UnHex(r.value[|Prefix|..]) == codecs.sha256(SignedBytes(data, secret.s, codecs))
  {
    if !IsText(secret) then Err(SecretNotText(secret))
    else if !Signable(data) then Err(BodyNotText(data))
    else
      var digest := codecs.sha256(SignedBytes(data, secret.s, codecs));
      var r := Prefix + Hex(digest);
      assert r[|Prefix|..] == Hex(digest);
      UnHexHex(digest);
      Ok(r)
  }

  /** Signatures agree whenever the signed bytes agree: the value depends on nothing else. */
  lemma SignatureDependsOnlyOnBytes(d1: Value, s1: string, d2: Value, s2: string, codecs: Codecs)
    requires Signable(d1) && Signable(d2)
    requires SignedBytes(d1, s1, codecs) == SignedBytes(d2, s2, codecs)
    ensures CreateSignature(d1, VStr(s1), codecs) == CreateSignature(d2, VStr(s2), codecs)
  {
  }

  /** Two different digests never render to the same signature. */
  lemma SignatureDistinguishesDigests(d1: Value, s1: string, d2: Value, s2: string, codecs: Codecs)
    requires Signable(d1) && Signable(d2)
    requires codecs.sha256(SignedBytes(d1, s1, codecs)) != codecs.sha256(SignedBytes(d2, s2, codecs))
    ensures CreateSignature(d1, VStr(s1), codecs) != CreateSignature(d2, VStr(s2), codecs)
  {
  }
}
