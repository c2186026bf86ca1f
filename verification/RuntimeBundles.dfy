/** Signed runtime bundles as a KLIQ verifies and caches them (internal/kliq/bundle/verifier.go and buildBundleRecord in
    internal/kliq/runtime/manager.go). */
module RuntimeBundles {
  import opened Basics
  import opened Signing
  import opened ManagedSource
  import opened Activation

  /** The kind and the metadata of a decoded runtime bundle. */
  datatype BundleHeader = BundleHeader(
    kind: string, artifactType: string, id: string, policyId: string, sourceCommit: string, correlationId: string)

  /** Two names that are both given and differ. */
  predicate Contradict(a: string, b: string) {
    a != "" && b != "" && a != b
  }

  /** Who checks the bundle, and how its payload decodes. */
  datatype BundleCheck = BundleCheck(w: World, verifier: Signer, decode: string -> Option<BundleHeader>) {
    /** VerifySignedRuntimeBundle. */
    function Verified(data: string, now: Time): Option<Pair<BundleHeader, Envelope>> {
      match w.decodeEnvelope(data)
      case None => None
      case Some(e) =>
        if e.kind != ENVELOPE_KIND || !Verify(w.hash, w.scheme, verifier, e, now, now).valid || e.expiresAt.None? then None
        else
          match decode(e.payload)
          case None => None
          case Some(b) =>
            if b.kind != "RuntimeBundle" || b.artifactType != "runtime_bundle" || Contradict(e.policyId, b.policyId)
               || Contradict(e.sourceCommit, b.sourceCommit)
            then None
            else Some(Pair(b, e))
    }

    /** buildBundleRecord on the loaded data; `now` is the verifier's clock, `verifiedAt` the manager's. */
    function Record(data: string, sourceRef: string, now: Time, verifiedAt: Time): Option<BundleRecord> {
      match Verified(data, now)
      case None => None
      case Some(Pair(b, e)) =>
        Some(BundleRecord(b.id, b.policyId, b.sourceCommit, b.correlationId, e.keyId, e.payloadSha, sourceRef, data,
                          e.expiresAt.value, verifiedAt))
    }

    /** The record describes the envelope in `data`. */
    ghost predicate Describes(r: BundleRecord, e: Envelope) {
      && w.decodeEnvelope(r.envelope) == Some(e)
      && r.keyId == e.keyId == verifier.keyId
      && r.payloadSha == e.payloadSha == DigestText(w.hash, e.payload)
      && e.expiresAt == Some(r.expiresAt)
      && decode(e.payload).Some? && decode(e.payload).value.id == r.bundleId
      && !Contradict(e.policyId, r.policyId) && !Contradict(e.sourceCommit, r.sourceCommit)
    }
  }

  /** The names agree as far as both are given. */
  predicate Agree(a: string, b: string) {
    a == "" || b == "" || a == b
  }

  /** Data is a verified runtime bundle exactly when it is a signed envelope with an expiry, valid under the verifier's key now,
      around a runtime bundle of that type whose policy and commit agree with the envelope's. */
  lemma {:induction false} BundleVerifiedIff(check: BundleCheck, data: string, now: Time)
    ensures check.Verified(data, now).Some?
            <==> exists e, b ::
                   && check.w.decodeEnvelope(data) == Some(e) && e.kind == "SignedEnvelope" && e.expiresAt.Some?
                   && Verify(check.w.hash, check.w.scheme, check.verifier, e, now, now).valid
                   && check.decode(e.payload) == Some(b) && b.kind == "RuntimeBundle" && b.artifactType == "runtime_bundle"
                   && Agree(e.policyId, b.policyId) && Agree(e.sourceCommit, b.sourceCommit)
    ensures check.Verified(data, now).Some? ==>
              var r := check.Verified(data, now).value;
              check.w.decodeEnvelope(data) == Some(r.snd) && check.decode(r.snd.payload) == Some(r.fst)
  {
    hide Verify;
  }

  /** The record is made of the verified bundle's own metadata and envelope. */
  lemma {:induction false} RecordIs(check: BundleCheck, data: string, sourceRef: string, now: Time, verifiedAt: Time)
    requires check.Verified(data, now).Some? && check.Verified(data, now).value.snd.expiresAt.Some?
    ensures var Pair(b, e) := check.Verified(data, now).value;
            check.Record(data, sourceRef, now, verifiedAt)
            == Some(BundleRecord(b.id, b.policyId, b.sourceCommit, b.correlationId, e.keyId, e.payloadSha, sourceRef, data,
                                 e.expiresAt.value, verifiedAt))
  {
  }

  /** A record is built only from data that holds an unexpired envelope signed under the verifier's key, and describes
      that envelope. */
  lemma {:induction false} RecordMeans(check: BundleCheck, data: string, sourceRef: string, now: Time, verifiedAt: Time)
    requires check.Record(data, sourceRef, now, verifiedAt).Some?
    ensures var r := check.Record(data, sourceRef, now, verifiedAt).value;
            && r.envelope == data && r.source == sourceRef && now < r.expiresAt
            && exists e :: check.Describes(r, e)
  {
    hide DigestText;
    var e := check.w.decodeEnvelope(data).value;
    assert check.Describes(check.Record(data, sourceRef, now, verifiedAt).value, e);
  }
}
