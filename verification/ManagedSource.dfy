/** The managed assignment source of a KLIQ (internal/kliq/bundle/managed_source.go).

    Everything the source decodes or fetches comes in through `World`. One call sees one clock reading.
 */
module ManagedSource {
  import opened Basics
  import opened Signing
  import opened Assignment

  const ARTIFACT_VERIFICATION: string := "artifact_verification"
  const ASSIGNMENT_VERIFICATION: string := "assignment_verification"

  /** The kind and metadata.artifact_type fields of an artifact payload. */
  datatype PayloadHeader = PayloadHeader(kind: string, artifactType: string)

  /** SHA-256, the signature scheme and the decoders. */
  datatype World = World(
    hash: HashFn,
    scheme: Scheme,
    decodeAssignment: string -> Option<Assignment>,
    decodeEnvelope: string -> Option<Envelope>,
    decodeTrustBundle: string -> Option<TrustBundle>,
    decodePayloadHeader: string -> Option<PayloadHeader>,
    decodePublicKey: string -> Option<string>)

  function ExpectedKind(artifactType: string): string {
    if artifactType == "runtime_bundle" then "RuntimeBundle"
    else if artifactType == "adapter_manifest" then "AdapterManifest"
    else if artifactType == "context_route_pack" then "ContextRoutePack"
    else if artifactType == "conformance_expectation" then "ConformanceExpectation"
    else if artifactType == "adapter_assignment" then "AdapterAssignment"
    else ""
  }

  predicate PayloadTypeOk(w: World, artifactType: string, payload: string) {
    match w.decodePayloadHeader(payload)
    case None => false
    case Some(h) =>
      && (ExpectedKind(artifactType) == "" || h.kind == ExpectedKind(artifactType))
      && (h.artifactType == "" || h.artifactType == artifactType)
  }

  /** artifactVerifierFromTrustBundle. */
  function ArtifactVerifier(w: World, b: TrustBundle, now: Time): (v: Option<Signer>)
    ensures v.Some? ==> v.value.keyId == b.keyId != ""
  {
    if b.keyId == "" || b.publicKey == "" then None
    else if b.purpose != ARTIFACT_VERIFICATION then None
    else if b.status != "active" && b.status != "previous" then None
    else if b.expiresAt != ZERO_TIME && !(b.expiresAt > now) then None
    else
      match w.decodePublicKey(b.publicKey)
      case None => None
      case Some(key) => if |key| != PUBLIC_KEY_SIZE then None else Some(Signer(b.keyId, "", key))
  }

  /** A trust bundle yields a verifier exactly when it is complete, meant for artifacts, active or previous, unexpired,
      and its text decodes to a 32-byte key; the verifier has that key and cannot sign. */
  lemma {:induction false} ArtifactVerifierIff(w: World, b: TrustBundle, now: Time, v: Signer)
    ensures ArtifactVerifier(w, b, now) == Some(v)
            <==> && b.keyId != "" && b.publicKey != "" && b.purpose == "artifact_verification"
                 && b.status in {"active", "previous"} && (b.expiresAt == ZERO_TIME || now < b.expiresAt)
                 && w.decodePublicKey(b.publicKey) == Some(v.publicKey) && |v.publicKey| == 32
                 && v.keyId == b.keyId && v.privateKey == ""
  {
  }

  /** What is fixed while the artifacts of one assignment are verified. */
  datatype Scene = Scene(w: World, sourceCommit: string, verifier: Signer, now: Time) {
    /** verifyAssignedArtifactEnvelope: the envelope, when every check passes under `key`. */
    function Verified(art: Artifact, key: Signer): Option<Envelope> {
      if !SupportedType(art.artifactType) then None
      else
        match w.decodeEnvelope(art.envelope)
        case None => None
        case Some(e) =>
          if e.kind != ENVELOPE_KIND then None
          else if !Verify(w.hash, w.scheme, key, e, now, now).valid then None
          else if e.sourceCommit != "" && sourceCommit != "" && e.sourceCommit != sourceCommit then None
          else if !PayloadTypeOk(w, art.artifactType, e.payload) then None
          else Some(e)
    }

    /** The bundle inside a trust_bundle artifact that verifies under the assignment verifier. */
    function BundleIn(art: Artifact): Option<TrustBundle> {
      match Verified(art, verifier)
      case None => None
      case Some(e) => w.decodeTrustBundle(e.payload)
    }

    /** The artifact carries the key for the other artifacts. */
    predicate CarriesKey(art: Artifact) {
      && art.artifactType == TRUST_BUNDLE
      && BundleIn(art).Some?
      && BundleIn(art).value.purpose == ARTIFACT_VERIFICATION
    }

    function KeyOf(art: Artifact): Option<Signer>
      requires CarriesKey(art)
    {
      ArtifactVerifier(w, BundleIn(art).value, now)
    }

    /** A trust_bundle artifact passes: it verifies, decodes, and a key it carries is usable. */
    predicate TrustOk(art: Artifact) {
      BundleIn(art).Some? && (CarriesKey(art) ==> KeyOf(art).Some?)
    }

    /** The one key for all other artifacts: a carried one, otherwise the assignment verifier. */
    ghost predicate ChosenKey(arts: multiset<Artifact>, key: Signer) {
      if exists art :: art in arts && CarriesKey(art)
      then exists art :: art in arts && CarriesKey(art) && KeyOf(art) == Some(key)
      else key == verifier
    }

    /** Acceptability of an unordered collection of artifacts: its trust bundles pass, at most one carries a key, and
        every other artifact verifies under the one chosen key. */
    ghost predicate Acceptable(arts: multiset<Artifact>) {
      && (forall art :: art in arts && art.artifactType == TRUST_BUNDLE ==> TrustOk(art))
      && (forall art :: art in arts && CarriesKey(art) ==> arts[art] == 1)
      && (forall a, b :: a in arts && b in arts && CarriesKey(a) && CarriesKey(b) ==> a == b)
      && exists key :: ChosenKey(arts, key) && AllVerify(arts, key)
    }

    ghost predicate AllVerify(arts: multiset<Artifact>, key: Signer) {
      forall art :: art in arts && art.artifactType != TRUST_BUNDLE ==> Verified(art, key).Some?
    }

    /** The key the first loop ends with. */
    function KeyFor(arts: seq<Artifact>): Signer {
      if arts == [] then verifier
      else
        var last := arts[|arts| - 1];
        if CarriesKey(last) && KeyOf(last).Some? then KeyOf(last).value else KeyFor(arts[..|arts| - 1])
    }

    /** What the two loops test, in list order. */
    predicate Passes(arts: seq<Artifact>) {
      && (forall i :: 0 <= i < |arts| && arts[i].artifactType == TRUST_BUNDLE ==> TrustOk(arts[i]))
      && (forall i, j :: 0 <= i < j < |arts| ==> !(CarriesKey(arts[i]) && CarriesKey(arts[j])))
      && (forall i :: 0 <= i < |arts| && arts[i].artifactType != TRUST_BUNDLE ==>
                        Verified(arts[i], KeyFor(arts)).Some?)
    }
  }

  /** verifyAssignedArtifacts: the first loop looks for the artifact key, the second verifies under it. */
  method VerifyAssignedArtifacts(sc: Scene, arts: seq<Artifact>) returns (ok: bool)
    ensures ok <==> sc.Passes(arts)
  {
    hide Scene.BundleIn, Scene.Verified, ArtifactVerifier;
    var key, keyId := sc.verifier, "";
    for i := 0 to |arts|
      invariant forall j :: 0 <= j < i && arts[j].artifactType == TRUST_BUNDLE ==> sc.TrustOk(arts[j])
      invariant keyId == "" ==> forall j :: 0 <= j < i ==> !sc.CarriesKey(arts[j])
      invariant keyId != "" ==> exists c :: 0 <= c < i && sc.CarriesKey(arts[c])
      invariant forall j, k :: 0 <= j < k < i ==> !(sc.CarriesKey(arts[j]) && sc.CarriesKey(arts[k]))
      invariant key == sc.KeyFor(arts[..i])
    {
      assert arts[..i + 1][..i] == arts[..i];
      if arts[i].artifactType == TRUST_BUNDLE {
        var bundle := sc.BundleIn(arts[i]);
        if bundle.None? { return false; }
        if bundle.value.purpose == ARTIFACT_VERIFICATION {
          if keyId != "" { return false; }
          var v := ArtifactVerifier(sc.w, bundle.value, sc.now);
          if v.None? { return false; }
          key, keyId := v.value, bundle.value.keyId;
        }
      }
    }
    assert arts[..|arts|] == arts;
    for i := 0 to |arts|
      invariant forall j :: 0 <= j < i && arts[j].artifactType != TRUST_BUNDLE ==> sc.Verified(arts[j], key).Some?
    {
      if arts[i].artifactType != TRUST_BUNDLE && sc.Verified(arts[i], key).None? { return false; }
    }
    return true;
  }

  // ---------------------------------------------------------------- order does not matter

  lemma {:induction false} CountSplit(s: seq<Artifact>, i: nat)
    requires i < |s|
    ensures multiset(s) == multiset(s[..i]) + multiset{s[i]} + multiset(s[i + 1..])
  {
    assert s == s[..i] + [s[i]] + s[i + 1..];
  }

  lemma {:induction false} CountTwice(s: seq<Artifact>, i: nat, j: nat)
    requires i < j < |s| && s[i] == s[j]
    ensures multiset(s)[s[i]] >= 2
  {
    CountSplit(s, i);
    assert s[j] == s[i + 1..][j - i - 1];
  }

  lemma {:induction false} CountOnce(s: seq<Artifact>, i: nat)
    requires i < |s| && forall j :: 0 <= j < |s| && j != i ==> s[j] != s[i]
    ensures multiset(s)[s[i]] == 1
  {
    CountSplit(s, i);
    assert s[i] !in s[..i] && s[i] !in s[i + 1..];
  }

  /** The last carried key is the key in use. */
  lemma {:induction false} KeyForCarrier(sc: Scene, arts: seq<Artifact>, c: nat)
    requires c < |arts| && sc.CarriesKey(arts[c]) && sc.KeyOf(arts[c]).Some?
    requires forall j :: c < j < |arts| ==> !sc.CarriesKey(arts[j])
    ensures sc.KeyFor(arts) == sc.KeyOf(arts[c]).value
  {
    if c < |arts| - 1 {
      KeyForCarrier(sc, arts[..|arts| - 1], c);
    }
  }

  lemma {:induction false} KeyForNone(sc: Scene, arts: seq<Artifact>)
    requires forall j :: 0 <= j < |arts| ==> !sc.CarriesKey(arts[j])
    ensures sc.KeyFor(arts) == sc.verifier
  {
    if arts != [] {
      KeyForNone(sc, arts[..|arts| - 1]);
    }
  }

  /** The key the loops use is the chosen key of the collection, when its trust bundles pass. */
  lemma {:induction false} KeyForIsChosen(sc: Scene, arts: seq<Artifact>)
    requires forall i :: 0 <= i < |arts| && arts[i].artifactType == TRUST_BUNDLE ==> sc.TrustOk(arts[i])
    requires forall i, j :: 0 <= i < j < |arts| ==> !(sc.CarriesKey(arts[i]) && sc.CarriesKey(arts[j]))
    ensures forall key :: sc.ChosenKey(multiset(arts), key) <==> key == sc.KeyFor(arts)
  {
    hide Scene.CarriesKey, Scene.KeyOf, Scene.KeyFor, Scene.TrustOk;
    if c :| 0 <= c < |arts| && sc.CarriesKey(arts[c]) {
      CarrierIsTrust(sc, arts[c]);
      KeyForCarrier(sc, arts, c);
      assert arts[c] in multiset(arts);
      forall key
        ensures sc.ChosenKey(multiset(arts), key) <==> key == sc.KeyFor(arts)
      {
        if sc.ChosenKey(multiset(arts), key) {
          var art :| art in multiset(arts) && sc.CarriesKey(art) && sc.KeyOf(art) == Some(key);
          var d :| 0 <= d < |arts| && arts[d] == art;
          assert d == c;
        }
      }
    } else {
      KeyForNone(sc, arts);
    }
  }

  lemma {:induction false} CarrierIsTrust(sc: Scene, art: Artifact)
    requires sc.CarriesKey(art)
    ensures art.artifactType == TRUST_BUNDLE
    ensures sc.TrustOk(art) ==> sc.KeyOf(art).Some?
  {
  }

  /** The loops accept a list exactly when the unordered collection is acceptable. */
  lemma {:induction false} PassesIffAcceptable(sc: Scene, arts: seq<Artifact>)
    ensures sc.Passes(arts) <==> sc.Acceptable(multiset(arts))
  {
    hide Scene.CarriesKey, Scene.KeyOf, Scene.KeyFor, Scene.TrustOk, Scene.ChosenKey;
    var ms := multiset(arts);
    assert forall art :: art in ms <==> art in arts;
    if sc.Passes(arts) {
      KeyForIsChosen(sc, arts);
      forall art | art in ms && sc.CarriesKey(art)
        ensures ms[art] == 1
      {
        var c :| 0 <= c < |arts| && arts[c] == art;
        CountOnce(arts, c);
      }
      assert sc.ChosenKey(ms, sc.KeyFor(arts)) && sc.AllVerify(ms, sc.KeyFor(arts));
    }
    if sc.Acceptable(ms) {
      forall i, j | 0 <= i < j < |arts|
        ensures !(sc.CarriesKey(arts[i]) && sc.CarriesKey(arts[j]))
      {
        if sc.CarriesKey(arts[i]) && sc.CarriesKey(arts[j]) {
          assert arts[i] in ms && arts[j] in ms;
          CountTwice(arts, i, j);
        }
      }
      forall i | 0 <= i < |arts|
        ensures arts[i] in ms
      {
      }
      KeyForIsChosen(sc, arts);
    }
  }

  /** In an acceptable list that carries an artifact key, a runtime bundle verifies under that key. */
  lemma {:induction false} CarriedKeyVerifies(sc: Scene, arts: seq<Artifact>, art: Artifact, i: nat)
    requires sc.Acceptable(multiset(arts)) && art in arts && sc.CarriesKey(art)
    requires i < |arts| && arts[i].artifactType == RUNTIME_BUNDLE
    ensures sc.KeyOf(art).Some? && sc.Verified(arts[i], sc.KeyOf(art).value).Some?
  {
    hide Scene.KeyOf, Scene.Verified, Scene.BundleIn;
    var ms := multiset(arts);
    assert art in ms && arts[i] in ms && RUNTIME_BUNDLE != TRUST_BUNDLE;
    assert sc.TrustOk(art);
    var key :| sc.ChosenKey(ms, key) && sc.AllVerify(ms, key);
    var carrier :| carrier in ms && sc.CarriesKey(carrier) && sc.KeyOf(carrier) == Some(key);
    assert carrier == art;
  }

  /** An artifact verifies under a key exactly when its type is supported, its text is an envelope that the key
      verifies, the envelope names no other commit than the assignment's, and the payload names no other kind or type
      than the artifact's. */
  lemma {:induction false} VerifiedArtifactIff(sc: Scene, art: Artifact, key: Signer, e: Envelope)
    ensures
      sc.Verified(art, key) == Some(e)
      <==> && sc.w.decodeEnvelope(art.envelope) == Some(e)
           && SupportedType(art.artifactType)
           && Verify(sc.w.hash, sc.w.scheme, key, e, sc.now, sc.now).valid
           && (e.sourceCommit == "" || sc.sourceCommit == "" || e.sourceCommit == sc.sourceCommit)
           && exists h ::
                && sc.w.decodePayloadHeader(e.payload) == Some(h)
                && (art.artifactType in PAYLOAD_KIND ==> h.kind == PAYLOAD_KIND[art.artifactType])
                && h.artifactType in {"", art.artifactType}
  {
    hide DigestText, SupportedType;
    AcceptedIff(sc.w.hash, sc.w.scheme, key, e, sc.now, sc.now);
    ExpectedKindIs(art.artifactType);
    if sc.w.decodePayloadHeader(e.payload).Some? {
      var h := sc.w.decodePayloadHeader(e.payload).value;
      assert sc.w.decodePayloadHeader(e.payload) == Some(h);
    }
  }

  lemma {:induction false} ExpectedKindIs(t: string)
    ensures ExpectedKind(t) == if t in PAYLOAD_KIND then PAYLOAD_KIND[t] else ""
    ensures t in PAYLOAD_KIND ==> PAYLOAD_KIND[t] != ""
  {
  }

  /** Which artifacts carry a key: trust bundles for artifacts in an envelope that the assignment verifier accepts. */
  lemma {:induction false} CarriesKeyIff(sc: Scene, art: Artifact)
    ensures
      sc.CarriesKey(art)
      <==> art.artifactType == "trust_bundle"
           && exists e, b :: && sc.Verified(art, sc.verifier) == Some(e) && sc.w.decodeTrustBundle(e.payload) == Some(b)
                             && b.purpose == "artifact_verification"
  {
    hide Scene.Verified;
    if sc.CarriesKey(art) {
      var e := sc.Verified(art, sc.verifier).value;
      assert sc.w.decodeTrustBundle(e.payload) == Some(sc.BundleIn(art).value);
    }
  }

  /** A trust bundle passes exactly when its envelope verifies under the assignment verifier, its payload decodes, and a
      bundle for artifacts yields a verifier. */
  lemma {:induction false} TrustOkIff(sc: Scene, art: Artifact)
    requires art.artifactType == "trust_bundle"
    ensures
      sc.TrustOk(art)
      <==> exists e, b :: && sc.Verified(art, sc.verifier) == Some(e) && sc.w.decodeTrustBundle(e.payload) == Some(b)
                          && (b.purpose == "artifact_verification" ==> ArtifactVerifier(sc.w, b, sc.now).Some?)
  {
    hide Scene.Verified, ArtifactVerifier;
    if sc.TrustOk(art) {
      var e := sc.Verified(art, sc.verifier).value;
      assert sc.w.decodeTrustBundle(e.payload) == Some(sc.BundleIn(art).value);
    }
  }

  /** A carried artifact key comes from an unexpired bundle for that purpose, active or previous, verified under the
      assignment verifier, and is the 32-byte key that the bundle's text decodes to. */
  lemma {:induction false} CarriedKeyUsable(sc: Scene, art: Artifact)
    requires sc.CarriesKey(art) && sc.KeyOf(art).Some?
    ensures
      exists e, b ::
        && sc.w.decodeEnvelope(art.envelope) == Some(e) && Verify(sc.w.hash, sc.w.scheme, sc.verifier, e, sc.now, sc.now).valid
        && sc.w.decodeTrustBundle(e.payload) == Some(b)
        && b.purpose == "artifact_verification" && b.status in {"active", "previous"}
        && (b.expiresAt == ZERO_TIME || sc.now < b.expiresAt)
        && sc.w.decodePublicKey(b.publicKey) == Some(sc.KeyOf(art).value.publicKey)
        && |sc.KeyOf(art).value.publicKey| == 32 && sc.KeyOf(art).value.keyId == b.keyId != ""
  {
    hide DigestText;
    var e := sc.Verified(art, sc.verifier).value;
    var b := sc.BundleIn(art).value;
    assert sc.w.decodeTrustBundle(e.payload) == Some(b);
  }

  /** Acceptance does not depend on the order of the artifacts. */
  lemma {:induction false} OrderIrrelevant(sc: Scene, arts: seq<Artifact>, arts': seq<Artifact>)
    requires multiset(arts) == multiset(arts')
    ensures sc.Passes(arts) <==> sc.Passes(arts')
  {
    PassesIffAcceptable(sc, arts);
    PassesIffAcceptable(sc, arts');
  }

  // ---------------------------------------------------------------- the source

  /** How a source is set up. */
  datatype Config = Config(
    w: World,
    baseUrl: string,
    kliqId: string,
    environment: string,
    stage: string,
    scope: string,
    trustKeyId: string,
    trustBundle: TrustBundle,
    verifier: Signer)

  /** validateTrustBundle: no local bundle, or one that is active, fits and signed this envelope. */
  predicate LocalTrustOk(b: TrustBundle, a: Assignment, result: VerificationResult) {
    b.keyId == ""
    || (&& b.keyId == a.trustBundleRef
        && b.keyId == result.keyId
        && b.purpose == ASSIGNMENT_VERIFICATION
        && b.status == "active"
        && (b.expiresAt == ZERO_TIME || b.expiresAt > result.verifiedAt))
  }

  /** verifyAssignment: the assignment an envelope carries, when it may become active. */
  function VerifiedAssignment(c: Config, activeVersion: int, activeDigest: string, e: Envelope, now: Time)
    : Option<Assignment>
  {
    var result := Verify(c.w.hash, c.w.scheme, c.verifier, e, now, now);
    if !result.valid then None
    else
      match c.w.decodeAssignment(e.payload)
      case None => None
      case Some(decoded) =>
        if decoded.trustKeyId != "" && decoded.trustKeyId != result.keyId then None
        else if !LocalTrustOk(c.trustBundle, decoded, result) then None
        else
          var a := decoded.(signatureValid := true);
          var ctx := Context(c.kliqId, c.environment, c.stage, c.scope, c.trustKeyId, result.payloadSha,
                             result.verifiedAt, activeVersion, activeDigest);
          if !DigestsMatch(c.w.hash, a) then None
          else if !Scene(c.w, a.sourceCommit, c.verifier, now).Passes(a.artifacts) then None
          else if ValidateActivation(a, ctx, now).Some? then None
          else Some(a)
  }

  /** What a verified assignment guarantees to whoever activates it. */
  lemma {:induction false} VerifiedMeans(c: Config, activeVersion: int, activeDigest: string, e: Envelope, now: Time)
    requires VerifiedAssignment(c, activeVersion, activeDigest, e, now).Some? && now != ZERO_TIME
    ensures
      var a := VerifiedAssignment(c, activeVersion, activeDigest, e, now).value;
      && Verify(c.w.hash, c.w.scheme, c.verifier, e, now, now).valid
      && e.payloadSha == DigestText(c.w.hash, e.payload)
      && (exists decoded :: c.w.decodeAssignment(e.payload) == Some(decoded) && a == decoded.(signatureValid := true))
      && a.id != "" && a.version > 0 && a.sourceCommit != "" && a.kliqId == c.kliqId && now < a.expiresAt
      && a.status != REVOKED && a.revokedAt == ZERO_TIME
      && (|| a.version > activeVersion
          || (a.version == activeVersion && e.payloadSha == activeDigest)
          || (a.version < activeVersion && a.approvedRollback))
      && (forall i :: 0 <= i < |a.artifacts| ==> a.artifacts[i].sha == DigestText(c.w.hash, a.artifacts[i].envelope))
      && Scene(c.w, a.sourceCommit, c.verifier, now).Acceptable(multiset(a.artifacts))
  {
    hide Scene.Passes, Scene.Acceptable, DigestsMatch, LocalTrustOk, DigestText;
    var a := VerifiedAssignment(c, activeVersion, activeDigest, e, now).value;
    DigestsMatchIff(c.w.hash, a);
    PassesIffAcceptable(Scene(c.w, a.sourceCommit, c.verifier, now), a.artifacts);
    assert c.w.decodeAssignment(e.payload).Some?;
  }

  /** Newer than what is active, the same again, or an approved step back. */
  predicate Succeeds(a: Assignment, digest: string, activeVersion: int, activeDigest: string) {
    || a.version > activeVersion
    || (a.version == activeVersion && digest == activeDigest)
    || (a.version < activeVersion && a.approvedRollback)
  }

  /** The assignment is complete, in force, meant for this KLIQ and trusted by it. */
  predicate Suits(c: Config, a: Assignment, e: Envelope, now: Time) {
    && a.id != "" && a.version > 0 && a.sourceCommit != ""
    && a.kliqId == c.kliqId && a.environment == c.environment && a.stage == c.stage && a.scope == c.scope
    && a.trustKeyId == c.trustKeyId == e.keyId && a.trustBundleRef != ""
    && now < a.expiresAt && a.expiresAt != ZERO_TIME && a.status != REVOKED && a.revokedAt == ZERO_TIME
    && (c.trustBundle.keyId != "" ==>
          && c.trustBundle.keyId == e.keyId == a.trustBundleRef
          && c.trustBundle.purpose == ASSIGNMENT_VERIFICATION && c.trustBundle.status == "active"
          && (c.trustBundle.expiresAt == ZERO_TIME || now < c.trustBundle.expiresAt))
  }

  /** The artifact has a type and an envelope, and names the digest of that envelope. */
  predicate Pinned(hash: HashFn, art: Artifact) {
    art.artifactType != "" && art.envelope != "" && art.sha == DigestText(hash, art.envelope)
  }

  /** Exactly when an envelope is verified: its signature holds, and the assignment in it suits this KLIQ, may follow
      what is active, names the digests of its artifacts, and carries acceptable artifacts in whatever order. */
  lemma {:induction false} VerifiedIff(c: Config, activeVersion: int, activeDigest: string, e: Envelope, now: Time)
    requires now != ZERO_TIME
    ensures VerifiedAssignment(c, activeVersion, activeDigest, e, now).Some?
            <==> && Verify(c.w.hash, c.w.scheme, c.verifier, e, now, now).valid
                 && c.w.decodeAssignment(e.payload).Some?
                 && var a := c.w.decodeAssignment(e.payload).value;
                 && Suits(c, a, e, now) && Succeeds(a, e.payloadSha, activeVersion, activeDigest)
                 && (forall i :: 0 <= i < |a.artifacts| ==> Pinned(c.w.hash, a.artifacts[i]))
                 && Scene(c.w, a.sourceCommit, c.verifier, now).Acceptable(multiset(a.artifacts))
  {
    hide Scene.Passes, Scene.Acceptable, DigestsMatch, Pinned;
    if c.w.decodeAssignment(e.payload).Some? {
      var decoded := c.w.decodeAssignment(e.payload).value;
      var a := decoded.(signatureValid := true);
      PassesIffAcceptable(Scene(c.w, a.sourceCommit, c.verifier, now), a.artifacts);
      DigestsMatchIff(c.w.hash, a);
    }
  }

  lemma {:induction false} DigestsMatchIff(hash: HashFn, a: Assignment)
    ensures DigestsMatch(hash, a) <==> forall i :: 0 <= i < |a.artifacts| ==> Pinned(hash, a.artifacts[i])
  {
    hide DigestText;
  }

  /** The values AssignmentActivation hands out. */
  datatype LoadedAssignment = LoadedAssignment(assignment: Assignment, digest: string)

  /** RuntimeBundleArtifact: the envelope of the first runtime bundle of the list. */
  function FirstBundle(arts: seq<Artifact>): (envelope: Option<string>)
    ensures envelope.Some? ==> FirstBundleIs(arts, envelope.value)
    ensures envelope.None? <==> forall i :: 0 <= i < |arts| ==> arts[i].artifactType != RUNTIME_BUNDLE
  {
    if arts == [] then None
    else if arts[0].artifactType == RUNTIME_BUNDLE then Some(arts[0].envelope)
    else
      var rest := FirstBundle(arts[1..]);
      assert forall i :: 1 <= i < |arts| ==> arts[i] == arts[1..][i - 1];
      rest
  }

  predicate FirstBundleIs(arts: seq<Artifact>, envelope: string) {
    exists i :: 0 <= i < |arts| && arts[i].artifactType == RUNTIME_BUNDLE && arts[i].envelope == envelope
                && (forall j :: 0 <= j < i ==> arts[j].artifactType != RUNTIME_BUNDLE)
  }

  class Source {
    const config: Config
    var activeVersion: int
    var activeDigest: string
    var loaded: Option<LoadedAssignment>

    constructor (config: Config)
      ensures this.config == config && activeVersion == 0 && activeDigest == "" && loaded == None
    {
      this.config := config;
      activeVersion, activeDigest, loaded := 0, "", None;
    }

    method SetActiveAssignment(version: int, digest: string)
      modifies this`activeVersion, this`activeDigest
      ensures activeVersion == version && activeDigest == digest
    {
      activeVersion, activeDigest := version, digest;
    }

    /** verifyAssignment, with the artifact loops run in place. */
    method VerifyAssignment(e: Envelope, now: Time) returns (r: Option<Assignment>)
      ensures r == VerifiedAssignment(config, activeVersion, activeDigest, e, now)
    {
      var result := Verify(config.w.hash, config.w.scheme, config.verifier, e, now, now);
      if !result.valid { return None; }
      var decoded := config.w.decodeAssignment(e.payload);
      if decoded.None? { return None; }
      if decoded.value.trustKeyId != "" && decoded.value.trustKeyId != result.keyId { return None; }
      if !LocalTrustOk(config.trustBundle, decoded.value, result) { return None; }
      var a := decoded.value.(signatureValid := true);
      if !DigestsMatch(config.w.hash, a) { return None; }
      var ok := VerifyAssignedArtifacts(Scene(config.w, a.sourceCommit, config.verifier, now), a.artifacts);
      if !ok { return None; }
      var ctx := Context(config.kliqId, config.environment, config.stage, config.scope, config.trustKeyId,
                         result.payloadSha, result.verifiedAt, activeVersion, activeDigest);
      if ValidateActivation(a, ctx, now).Some? { return None; }
      return Some(a);
    }

    /** Load, from the decoded HTTP answer on: a verified assignment is kept even when it lacks a runtime bundle. */
    method Load(response: Option<Envelope>, now: Time) returns (bundle: Option<string>)
      modifies this`loaded
      ensures
        var r := if Blank(config.baseUrl) || Blank(config.kliqId) || response.None? then None
                 else VerifiedAssignment(config, activeVersion, activeDigest, response.value, now);
        && (r.None? ==> bundle == None && loaded == old(loaded))
        && (r.Some? ==> loaded == Some(LoadedAssignment(r.value, response.value.payloadSha)))
        && (r.Some? ==> bundle == FirstBundle(r.value.artifacts))
    {
      hide VerifiedAssignment;
      if Blank(config.baseUrl) || Blank(config.kliqId) || response.None? { return None; }
      var r := VerifyAssignment(response.value, now);
      if r.None? { return None; }
      loaded := Some(LoadedAssignment(r.value, response.value.payloadSha));
      for i := 0 to |r.value.artifacts|
        invariant forall j :: 0 <= j < i ==> r.value.artifacts[j].artifactType != RUNTIME_BUNDLE
      {
        if r.value.artifacts[i].artifactType == RUNTIME_BUNDLE {
          return Some(r.value.artifacts[i].envelope);
        }
      }
      return None;
    }
  }
}
