/** Signed envelopes (internal/core/signing/signing.go).

    The signing input is the protected header itself: its JSON text is taken to determine it. SHA-256 and the
    signature scheme are parameters.
 */
module Signing {
  import opened Basics

  const ENVELOPE_KIND: string := "SignedEnvelope"
  const ALGORITHM: string := "Ed25519"
  const PAYLOAD_TYPE: string := "application/vnd.kernloom.artifact+json"
  const PRIVATE_KEY_SIZE := 64
  const PUBLIC_KEY_SIZE := 32

  datatype Metadata = Metadata(keyId: string, sourceCommit: string, policyId: string, expiresAt: Option<Time>)

  datatype Envelope = Envelope(
    kind: string,
    keyId: string,
    algorithm: string,
    payloadType: string,
    payload: string,
    payloadSha: string,
    signature: string,
    signedAt: Time,
    expiresAt: Option<Time>,
    sourceCommit: string,
    policyId: string)

  datatype Header = Header(
    kind: string,
    keyId: string,
    algorithm: string,
    payloadType: string,
    payloadSha: string,
    signedAt: Time,
    expiresAt: Option<Time>,
    sourceCommit: string,
    policyId: string)

  datatype VerificationResult = VerificationResult(valid: bool, keyId: string, payloadSha: string, verifiedAt: Time)

  /** A signature scheme over headers: signing with a private key, checking with a public one. */
  datatype Scheme = Scheme(sign: (string, Header) -> string, check: (string, Header, string) -> bool)

  /** Signer and verifier in one, as in the source; a verifier has no private key. */
  datatype Signer = Signer(keyId: string, privateKey: string, publicKey: string)

  function SigningInput(e: Envelope): Header {
    Header(e.kind, e.keyId, e.algorithm, e.payloadType, e.payloadSha, e.signedAt, e.expiresAt, e.sourceCommit,
           e.policyId)
  }

  function Sign(hash: HashFn, scheme: Scheme, s: Signer, payload: string, meta: Metadata, now: Time): Option<Envelope> {
    if |s.privateKey| != PRIVATE_KEY_SIZE || s.keyId == "" then None
    else
      var keyId := if meta.keyId == "" then s.keyId else meta.keyId;
      if keyId != s.keyId then None
      else
        var e := Envelope(ENVELOPE_KIND, keyId, ALGORITHM, PAYLOAD_TYPE, payload, DigestText(hash, payload), "", now,
                          meta.expiresAt, meta.sourceCommit, meta.policyId);
        Some(e.(signature := scheme.sign(s.privateKey, SigningInput(e))))
  }

  /** `verifiedAt` is the clock reading put into the result, `checkedAt` the later one compared with the expiry. */
  function Verify(hash: HashFn, scheme: Scheme, s: Signer, e: Envelope, verifiedAt: Time, checkedAt: Time)
    : VerificationResult
  {
    var digest := DigestText(hash, e.payload);
    var valid :=
      && e.kind == ENVELOPE_KIND
      && e.algorithm == ALGORITHM
      && e.keyId != ""
      && s.keyId != ""
      && e.keyId == s.keyId
      && |s.publicKey| == PUBLIC_KEY_SIZE
      && !(e.expiresAt.Some? && checkedAt >= e.expiresAt.value)
      && e.payloadSha == digest
      && scheme.check(s.publicKey, SigningInput(e), e.signature);
    VerificationResult(valid, e.keyId, digest, verifiedAt)
  }

  /** Every envelope of `issued` is the result of some Sign call. */
  ghost predicate AllIssued(hash: HashFn, scheme: Scheme, s: Signer, issued: seq<Envelope>) {
    forall i :: 0 <= i < |issued| ==>
                  exists payload, meta, now :: Sign(hash, scheme, s, payload, meta, now) == Some(issued[i])
  }

  /** The scheme checks only headers that were signed. */
  ghost predicate OnlySigned(scheme: Scheme, publicKey: string, issued: seq<Envelope>) {
    forall h, sig :: scheme.check(publicKey, h, sig) ==> exists i :: 0 <= i < |issued| && SigningInput(issued[i]) == h
  }

  /** Signing needs a private key of 64 bytes, a key identifier, and metadata that names no other one; it signs the
      nine protected fields, among them the digest of the payload. */
  lemma {:induction false} SignIff(
    hash: HashFn, scheme: Scheme, s: Signer, payload: string, meta: Metadata, now: Time, e: Envelope)
    ensures Sign(hash, scheme, s, payload, meta, now) == Some(e)
            <==> && |s.privateKey| == 64 && s.keyId != "" && meta.keyId in {"", s.keyId}
                 && e.kind == "SignedEnvelope" && e.algorithm == "Ed25519" && e.keyId == s.keyId
                 && e.payloadType == "application/vnd.kernloom.artifact+json"
                 && e.payload == payload && e.payloadSha == DigestText(hash, payload) && e.signedAt == now
                 && e.expiresAt == meta.expiresAt && e.sourceCommit == meta.sourceCommit && e.policyId == meta.policyId
                 && e.signature == scheme.sign(
                      s.privateKey,
                      Header("SignedEnvelope", s.keyId, "Ed25519", "application/vnd.kernloom.artifact+json",
                             DigestText(hash, payload), now, meta.expiresAt, meta.sourceCommit, meta.policyId))
  {
    hide DigestText;
  }

  /** An envelope is accepted exactly when it is an Ed25519 envelope under the verifier's own key, unexpired, names the
      digest of its payload, and its signature holds of the nine protected fields. */
  lemma {:induction false} AcceptedIff(
    hash: HashFn, scheme: Scheme, s: Signer, e: Envelope, verifiedAt: Time, checkedAt: Time)
    ensures Verify(hash, scheme, s, e, verifiedAt, checkedAt).valid
            <==> && e.kind == "SignedEnvelope" && e.algorithm == "Ed25519" && e.keyId == s.keyId != ""
                 && |s.publicKey| == 32 && e.payloadSha == DigestText(hash, e.payload)
                 && (e.expiresAt.None? || checkedAt < e.expiresAt.value)
                 && scheme.check(
                      s.publicKey,
                      Header(e.kind, e.keyId, e.algorithm, e.payloadType, e.payloadSha, e.signedAt, e.expiresAt,
                             e.sourceCommit, e.policyId),
                      e.signature)
    ensures Verify(hash, scheme, s, e, verifiedAt, checkedAt).keyId == e.keyId
    ensures Verify(hash, scheme, s, e, verifiedAt, checkedAt).payloadSha == DigestText(hash, e.payload)
    ensures Verify(hash, scheme, s, e, verifiedAt, checkedAt).verifiedAt == verifiedAt
  {
    hide DigestText;
  }

  /** The nine protected fields agree. */
  predicate SameProtected(a: Envelope, b: Envelope) {
    && a.kind == b.kind && a.keyId == b.keyId && a.algorithm == b.algorithm && a.payloadType == b.payloadType
    && a.payloadSha == b.payloadSha && a.signedAt == b.signedAt && a.expiresAt == b.expiresAt
    && a.sourceCommit == b.sourceCommit && a.policyId == b.policyId
  }

  lemma {:induction false} SigningInputIff(a: Envelope, b: Envelope)
    ensures SigningInput(a) == SigningInput(b) <==> SameProtected(a, b)
  {
  }

  /** Two envelopes that agree in the header carry the same payload, or their two payloads collide. */
  lemma {:induction false} SameHeader(hash: HashFn, a: Envelope, b: Envelope)
    requires SigningInput(a) == SigningInput(b)
    requires a.payloadSha == DigestText(hash, a.payload) && b.payloadSha == DigestText(hash, b.payload)
    ensures a.payloadSha == b.payloadSha
    ensures a.payload == b.payload || Collides(hash, Pair(a.payload, b.payload))
  {
    assert SigningInput(a).payloadSha == SigningInput(b).payloadSha;
    DigestTextInjective(hash, a.payload, b.payload);
  }

  /** An accepted envelope agrees in every protected field with one that Sign produced, and in the payload unless the
      two payloads collide. */
  lemma {:induction false} AcceptedWasIssued(
    hash: HashFn, scheme: Scheme, s: Signer, issued: seq<Envelope>, e: Envelope, verifiedAt: Time, checkedAt: Time)
    returns (i: nat)
    requires AllIssued(hash, scheme, s, issued) && OnlySigned(scheme, s.publicKey, issued)
    requires Verify(hash, scheme, s, e, verifiedAt, checkedAt).valid
    ensures i < |issued| && SigningInput(e) == SigningInput(issued[i]) && SameProtected(e, issued[i])
    ensures e.payload == issued[i].payload || Collides(hash, Pair(e.payload, issued[i].payload))
  {
    i :| 0 <= i < |issued| && SigningInput(issued[i]) == SigningInput(e);
    var payload, meta, now :| Sign(hash, scheme, s, payload, meta, now) == Some(issued[i]);
    SameHeader(hash, e, issued[i]);
    SigningInputIff(e, issued[i]);
  }

  /** A signed envelope is accepted strictly before its expiry and refused from then on; without an expiry it is
      accepted for good. */
  lemma {:induction false} AcceptedUntilExpiry(
    hash: HashFn, scheme: Scheme, s: Signer, payload: string, meta: Metadata, now: Time, e: Envelope,
    verifiedAt: Time, checkedAt: Time)
    requires forall h :: scheme.check(s.publicKey, h, scheme.sign(s.privateKey, h))
    requires |s.publicKey| == PUBLIC_KEY_SIZE
    requires Sign(hash, scheme, s, payload, meta, now) == Some(e)
    ensures Verify(hash, scheme, s, e, verifiedAt, checkedAt).valid
            <==> meta.expiresAt.None? || checkedAt < meta.expiresAt.value
  {
  }
}
