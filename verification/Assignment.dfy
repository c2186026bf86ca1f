/** Assignments and the rule that lets one become active (internal/core/domain/assignment.go). */
module Assignment {
  import opened Basics

  const RUNTIME_BUNDLE: string := "runtime_bundle"
  const TRUST_BUNDLE: string := "trust_bundle"
  const REVOKED: string := "revoked"

  datatype Artifact = Artifact(artifactType: string, id: string, ref: string, sha: string, envelope: string)

  datatype Assignment = Assignment(
    id: string,
    version: int,
    kliqId: string,
    environment: string,
    stage: string,
    scope: string,
    sourceCommit: string,
    trustKeyId: string,
    trustBundleRef: string,
    expiresAt: Time,
    approvedRollback: bool,
    artifacts: seq<Artifact>,
    status: string,
    revokedAt: Time,
    signatureValid: bool,
    manifestSigned: bool,
    manifestSignatureValid: bool)

  datatype TrustBundle = TrustBundle(
    keyId: string, publicKey: string, purpose: string, status: string, expiresAt: Time, issuer: string)

  datatype Context = Context(
    kliqId: string,
    environment: string,
    stage: string,
    scope: string,
    trustKeyId: string,
    digest: string,
    now: Time,
    activeVersion: int,
    activeDigest: string)

  datatype ActivationError =
    | MissingId | BadVersion | MissingSourceCommit | MissingTrustKey | MissingTrustBundle | MissingExpiry | Revoked
    | Unsigned | WrongKliq | WrongEnvironment | WrongStage | WrongScope | WrongTrustKey | Expired | NotNewer

  /** ValidateKLIQAssignmentActivation. `wallClock` is read when the context carries the zero time. */
  function ValidateActivation(a: Assignment, ctx: Context, wallClock: Time): Option<ActivationError> {
    if a.id == "" then Some(MissingId)
    else if a.version <= 0 then Some(BadVersion)
    else if a.sourceCommit == "" then Some(MissingSourceCommit)
    else if a.trustKeyId == "" then Some(MissingTrustKey)
    else if a.trustBundleRef == "" then Some(MissingTrustBundle)
    else if a.expiresAt == ZERO_TIME then Some(MissingExpiry)
    else if a.status == REVOKED || a.revokedAt != ZERO_TIME then Some(Revoked)
    else if !a.signatureValid && !(a.manifestSigned && a.manifestSignatureValid) then Some(Unsigned)
    else if a.kliqId != ctx.kliqId then Some(WrongKliq)
    else if a.environment != ctx.environment then Some(WrongEnvironment)
    else if a.stage != ctx.stage then Some(WrongStage)
    else if a.scope != ctx.scope then Some(WrongScope)
    else if a.trustKeyId != ctx.trustKeyId then Some(WrongTrustKey)
    else if !(a.expiresAt > (if ctx.now == ZERO_TIME then wallClock else ctx.now)) then Some(Expired)
    else if a.version > ctx.activeVersion then None
    else if a.version == ctx.activeVersion && ctx.activeVersion > 0 && ctx.digest != "" && ctx.digest == ctx.activeDigest
    then None
    else if a.version < ctx.activeVersion && a.approvedRollback && a.signatureValid then None
    else Some(NotNewer)
  }

  /** What each error reports: the demand that the assignment does not meet at `now`. */
  predicate Unmet(error: ActivationError, a: Assignment, ctx: Context, now: Time) {
    match error
    case MissingId => a.id == ""
    case BadVersion => a.version < 1
    case MissingSourceCommit => a.sourceCommit == ""
    case MissingTrustKey => a.trustKeyId == ""
    case MissingTrustBundle => a.trustBundleRef == ""
    case MissingExpiry => a.expiresAt == ZERO_TIME
    case Revoked => a.status == "revoked" || a.revokedAt != ZERO_TIME
    case Unsigned => !a.signatureValid && (a.manifestSigned ==> !a.manifestSignatureValid)
    case WrongKliq => a.kliqId != ctx.kliqId
    case WrongEnvironment => a.environment != ctx.environment
    case WrongStage => a.stage != ctx.stage
    case WrongScope => a.scope != ctx.scope
    case WrongTrustKey => a.trustKeyId != ctx.trustKeyId
    case Expired => a.expiresAt <= now
    case NotNewer =>
      && a.version <= ctx.activeVersion
      && (a.version == ctx.activeVersion ==> ctx.activeVersion <= 0 || ctx.digest == "" || ctx.digest != ctx.activeDigest)
      && (a.version < ctx.activeVersion ==> !(a.approvedRollback && a.signatureValid))
  }

  /** An assignment may be activated exactly when it meets every demand, and the error names one that it does not. */
  lemma {:induction false} ActivatableIff(a: Assignment, ctx: Context, wallClock: Time)
    ensures
      var now := if ctx.now == ZERO_TIME then wallClock else ctx.now;
      match ValidateActivation(a, ctx, wallClock)
      case None => forall error :: !Unmet(error, a, ctx, now)
      case Some(error) => Unmet(error, a, ctx, now)
  {
    var now := if ctx.now == ZERO_TIME then wallClock else ctx.now;
    if ValidateActivation(a, ctx, wallClock).None? {
      forall error
        ensures !Unmet(error, a, ctx, now)
      {
        match error
        case MissingId =>
        case BadVersion =>
        case _ =>
      }
    }
  }

  /** ValidateAssignedArtifactDigests: every artifact is typed, carries an envelope and names its digest. */
  predicate DigestsMatch(hash: HashFn, a: Assignment) {
    forall i :: 0 <= i < |a.artifacts| ==>
      var art := a.artifacts[i];
      art.artifactType != "" && art.envelope != "" && art.sha != "" && art.sha == DigestText(hash, art.envelope)
  }

  predicate SupportedType(t: string) {
    t in {"runtime_bundle", "adapter_manifest", "context_route_pack", "conformance_expectation", "adapter_assignment",
          "trust_bundle", "management_profile", "fallback_profile"}
  }

  /** The kind that a payload of a given artifact type names; the other supported types fix none. */
  const PAYLOAD_KIND: map<string, string> :=
    map["runtime_bundle" := "RuntimeBundle", "adapter_manifest" := "AdapterManifest",
        "context_route_pack" := "ContextRoutePack", "conformance_expectation" := "ConformanceExpectation",
        "adapter_assignment" := "AdapterAssignment"]

  lemma {:induction false} SupportedIff(t: string)
    ensures SupportedType(t)
            <==> || t in PAYLOAD_KIND || t == "trust_bundle" || t == "management_profile" || t == "fallback_profile"
  {
  }
}
