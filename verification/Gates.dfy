/** The checks Forge applies to a build manifest before it approves the build or plans an assignment from it
    (internal/forge/api/kliq_management.go), and that what the compiler builds passes them. */
module Gates {
  import opened Basics
  import opened Signing
  import opened Assignment
  import opened Compiler
  import Activation

  const ADAPTER_MANIFEST: string := "adapter_manifest"

  // ---------------------------------------------------------------- the gates

  /** completeSignedOutput. */
  predicate Complete(s: SignedOutput) {
    !Blank(s.ref.uri) && !Blank(s.ref.sha) && !Blank(s.envelopeSha) && !Blank(s.payloadSha) && !Blank(s.keyId)
  }

  /** sameSignedOutputRef. */
  predicate Same(a: SignedOutput, b: SignedOutput) {
    && TrimSpace(a.ref.uri) == TrimSpace(b.ref.uri) && TrimSpace(a.ref.sha) == TrimSpace(b.ref.sha)
    && TrimSpace(a.envelopeSha) == TrimSpace(b.envelopeSha) && TrimSpace(a.payloadSha) == TrimSpace(b.payloadSha)
    && TrimSpace(a.keyId) == TrimSpace(b.keyId)
  }

  /** signedOutputMatchesRef. */
  predicate Matches(s: SignedOutput, ref: Ref) {
    && TrimSpace(s.ref.uri) == TrimSpace(ref.uri) && TrimSpace(s.ref.sha) == TrimSpace(ref.sha)
    && TrimSpace(s.envelopeSha) == TrimSpace(ref.sha) && !Blank(s.keyId)
  }

  /** An entry of the federated digests that is there and equals, blanks aside, what it should be. */
  predicate Attests(sources: map<string, string>, key: string, expected: string) {
    && !Blank(expected) && key in sources && !Blank(sources[key])
    && TrimSpace(sources[key]) == TrimSpace(expected)
  }

  /** validateFederatedSourceDigests. */
  predicate FederatedOk(m: BuildManifest) {
    && m.federated != map[]
    && Attests(m.federated, "policy_repo", m.provenance.policyRepo)
    && Attests(m.federated, "core_registry", m.provenance.coreRegistry)
    && Attests(m.federated, "enterprise_registry", m.provenance.enterpriseRegistry)
    && Attests(m.federated, "catalog", m.provenance.catalog)
    && Attests(m.federated, "profile", m.provenance.profile)
    && Attests(m.federated, "risk_recipe", m.provenance.riskRecipe)
    && forall id :: id in m.adapters ==> Attests(m.federated, "adapter:" + id, m.adapters[id].digest)
  }

  /** validateApprovedBuildSignedAdapterManifests. */
  predicate SignedAdaptersOk(m: BuildManifest) {
    forall id :: id in m.adapters ==> SignedAdapterOk(m, id)
  }

  predicate SignedAdapterOk(m: BuildManifest, id: string)
    requires id in m.adapters
  {
    && !Blank(m.adapters[id].digest) && !Blank(m.adapters[id].protocol) && Complete(m.adapters[id].signed)
    && ("adapter_manifest:" + id in m.signedOutputs ==>
          Same(m.adapters[id].signed, m.signedOutputs["adapter_manifest:" + id]))
  }

  /** validateApprovedBuildRuntimeProvenance. */
  predicate RuntimeProvenanceOk(m: BuildManifest) {
    && (forall id :: id in m.bindings ==>
          var b := m.bindings[id];
          !Blank(b.id) && !Blank(b.digest) && !Blank(b.adapterId) && !Blank(b.capabilityId) && id == b.id)
    && (forall id :: id in m.runtimeActions ==> ActionOk(m.bindings, m.runtimeActions, id))
  }

  predicate ActionOk(bindings: map<string, BindingRef>, actions: map<string, ActionRef>, id: string)
    requires id in actions
  {
    var a := actions[id];
    && !Blank(a.grantId) && !Blank(a.actionDigest) && !Blank(a.adapterId) && !Blank(a.capabilityId)
    && !Blank(a.actionType) && id == a.grantId && !Blank(a.bindingId) && a.bindingId in bindings
  }

  /** validateBuildManifestApprovalReadiness. */
  predicate Ready(m: BuildManifest) {
    && !Blank(m.id) && !Blank(m.createdBy) && !Blank(m.commit)
    && m.provenance.coreRegistry != "" && m.provenance.enterpriseRegistry != "" && m.provenance.catalog != ""
    && m.provenance.profile != "" && m.provenance.riskRecipe != ""
    && FederatedOk(m) && SignedAdaptersOk(m)
    && m.signedOutputs != map[]
    && forall name :: name in m.signedOutputs ==> !Blank(name) && Complete(m.signedOutputs[name])
  }

  function RefOf(a: Artifact): Ref {
    Ref(TrimSpace(a.ref), TrimSpace(a.sha))
  }

  predicate Requests(requested: seq<Artifact>, artifactType: string) {
    exists i :: 0 <= i < |requested| && TrimSpace(requested[i].artifactType) == artifactType
  }

  predicate Carries(requested: seq<Artifact>, adapter: AdapterRef) {
    exists i :: 0 <= i < |requested| && IsManifestOf(requested[i], adapter)
  }

  predicate IsManifestOf(a: Artifact, adapter: AdapterRef) {
    TrimSpace(a.artifactType) == ADAPTER_MANIFEST && Matches(adapter.signed, RefOf(a))
  }

  /** The adapter of this action is listed, and its signed manifest is among the requested artifacts. */
  predicate Covered(m: BuildManifest, requested: seq<Artifact>, action: ActionRef) {
    var id := TrimSpace(action.adapterId);
    id == "" || (id in m.adapters && Carries(requested, m.adapters[id]))
  }

  /** A runtime bundle travels with the signed manifests of all adapters that its actions use. */
  predicate PairOk(m: BuildManifest, requested: seq<Artifact>) {
    Requests(requested, RUNTIME_BUNDLE) ==>
      forall id :: id in m.runtimeActions ==> Covered(m, requested, m.runtimeActions[id])
  }

  /** validateRuntimeBundleAdapterManifestPair: first collect the adapters, then look for each. */
  method ValidateRuntimeBundleAdapterManifestPair(m: BuildManifest, requested: seq<Artifact>) returns (ok: bool)
    ensures ok <==> PairOk(m, requested)
  {
    hide TrimSpace, Matches;
    if !Requests(requested, RUNTIME_BUNDLE) || |m.runtimeActions| == 0 { return true; }
    var required: map<string, AdapterRef>, todo := map[], m.runtimeActions.Keys;
    while todo != {}
      invariant todo <= m.runtimeActions.Keys
      invariant forall id :: id in required ==> id in m.adapters && required[id] == m.adapters[id]
      invariant forall id :: id in required ==>
                  exists k :: k in m.runtimeActions && TrimSpace(m.runtimeActions[k].adapterId) == id && id != ""
      invariant forall k :: k in m.runtimeActions && k !in todo ==>
                  TrimSpace(m.runtimeActions[k].adapterId) == "" || TrimSpace(m.runtimeActions[k].adapterId) in required
    {
      var k :| k in todo;
      todo := todo - {k};
      var id := TrimSpace(m.runtimeActions[k].adapterId);
      if id != "" {
        if id !in m.adapters {
          assert !Covered(m, requested, m.runtimeActions[k]);
          return false;
        }
        required := required[id := m.adapters[id]];
      }
    }
    var ids := required.Keys;
    while ids != {}
      invariant ids <= required.Keys
      invariant forall id :: id in required && id !in ids ==> Carries(requested, required[id])
    {
      var id :| id in ids;
      ids := ids - {id};
      var found := false;
      var i := 0;
      while i < |requested| && !found
        invariant 0 <= i <= |requested|
        invariant found ==> Carries(requested, required[id])
        invariant !found ==> forall j :: 0 <= j < i ==> !IsManifestOf(requested[j], required[id])
      {
        found := IsManifestOf(requested[i], required[id]);
        i := i + 1;
      }
      if !found {
        var k :| k in m.runtimeActions && TrimSpace(m.runtimeActions[k].adapterId) == id && id != "";
        assert !Covered(m, requested, m.runtimeActions[k]);
        return false;
      }
    }
    return true;
  }

  /** validateArtifactInApprovedBuild. */
  predicate InApprovedBuild(m: BuildManifest, a: Artifact) {
    var t, ref := TrimSpace(a.artifactType), RefOf(a);
    && ref.uri != "" && ref.sha != ""
    && if t == ADAPTER_MANIFEST then exists id :: id in m.adapters && Matches(m.adapters[id].signed, ref)
       else if t in m.signedOutputs then
         var s := m.signedOutputs[t];
         s.ref == ref && s.envelopeSha == ref.sha && !Blank(s.keyId)
       else t in m.artifactRefs && m.artifactRefs[t] == ref
  }

  // ---------------------------------------------------------------- what the gates refuse

  /** A signed output that misses any part is not complete. */
  lemma {:induction false} CompleteIff(s: SignedOutput)
    ensures Complete(s)
            <==> forall part :: part in {s.ref.uri, s.ref.sha, s.envelopeSha, s.payloadSha, s.keyId} ==> !Blank(part)
  {
  }

  /** Two references to one signed output agree in every part, blanks aside. */
  lemma {:induction false} SameMeans(a: SignedOutput, b: SignedOutput)
    ensures Same(a, b)
            <==> [TrimSpace(a.ref.uri), TrimSpace(a.ref.sha), TrimSpace(a.envelopeSha), TrimSpace(a.payloadSha), TrimSpace(a.keyId)]
                 == [TrimSpace(b.ref.uri), TrimSpace(b.ref.sha), TrimSpace(b.envelopeSha), TrimSpace(b.payloadSha),
                     TrimSpace(b.keyId)]
  {
    hide TrimSpace;
    var x := [TrimSpace(a.ref.uri), TrimSpace(a.ref.sha), TrimSpace(a.envelopeSha), TrimSpace(a.payloadSha), TrimSpace(a.keyId)];
    var y := [TrimSpace(b.ref.uri), TrimSpace(b.ref.sha), TrimSpace(b.envelopeSha), TrimSpace(b.payloadSha), TrimSpace(b.keyId)];
    if x == y {
      assert x[0] == y[0] && x[1] == y[1] && x[2] == y[2] && x[3] == y[3] && x[4] == y[4];
    }
  }

  /** A reference matches a signed output exactly when it has its address, its digest is that of the stored object and of the
      envelope, and the output names a key. */
  lemma {:induction false} MatchesIff(s: SignedOutput, ref: Ref)
    ensures Matches(s, ref)
            <==> && TrimSpace(ref.uri) == TrimSpace(s.ref.uri) && !Blank(s.keyId)
                 && TrimSpace(ref.sha) == TrimSpace(s.ref.sha) == TrimSpace(s.envelopeSha)
  {
  }

  /** The entry of the federated digests under this name is there, has ink, and agrees with the manifest's own digest. */
  predicate Confirmed(m: BuildManifest, key: string, digest: string) {
    !Blank(digest) && key in m.federated && TrimSpace(m.federated[key]) == TrimSpace(digest)
  }

  /** The federated-digest gate lets a manifest through exactly when all six sources and every listed adapter are confirmed. */
  lemma {:induction false} FederatedIff(m: BuildManifest)
    ensures FederatedOk(m)
            <==> && Confirmed(m, "policy_repo", m.provenance.policyRepo)
                 && Confirmed(m, "core_registry", m.provenance.coreRegistry)
                 && Confirmed(m, "enterprise_registry", m.provenance.enterpriseRegistry)
                 && Confirmed(m, "catalog", m.provenance.catalog) && Confirmed(m, "profile", m.provenance.profile)
                 && Confirmed(m, "risk_recipe", m.provenance.riskRecipe)
                 && forall id :: id in m.adapters ==> Confirmed(m, "adapter:" + id, m.adapters[id].digest)
  {
    hide TrimSpace;
  }

  /** The signed-adapter gate lets a manifest through exactly when every listed adapter has a digest, a protocol and a complete
      signed manifest, the same as the signed output of that name if there is one. */
  lemma {:induction false} SignedAdaptersIff(m: BuildManifest)
    ensures SignedAdaptersOk(m)
            <==> forall id :: id in m.adapters ==>
                   && !Blank(m.adapters[id].digest) && !Blank(m.adapters[id].protocol) && Complete(m.adapters[id].signed)
                   && ("adapter_manifest:" + id !in m.signedOutputs
                       || Same(m.adapters[id].signed, m.signedOutputs["adapter_manifest:" + id]))
  {
    hide TrimSpace, Complete, Same;
  }

  /** The runtime-provenance gate lets a manifest through exactly when every binding and every runtime action is listed under its
      own identifier with nothing missing, and every action's binding is listed. */
  lemma {:induction false} RuntimeProvenanceIff(m: BuildManifest)
    ensures RuntimeProvenanceOk(m)
            <==> && (forall id :: id in m.bindings ==>
                       var b := m.bindings[id];
                       b.id == id && !Blank(id) && !Blank(b.digest) && !Blank(b.adapterId) && !Blank(b.capabilityId))
                 && (forall id :: id in m.runtimeActions ==>
                       var a := m.runtimeActions[id];
                       && a.grantId == id && !Blank(id) && !Blank(a.actionDigest) && !Blank(a.adapterId)
                       && !Blank(a.capabilityId) && !Blank(a.actionType) && !Blank(a.bindingId) && a.bindingId in m.bindings)
  {
    hide Blank;
  }

  /** The approval gate: named, attributed, committed, with every digest, both other gates passed, and signed outputs that are
      all complete, of which there is at least one. */
  lemma {:induction false} ReadyMeans(m: BuildManifest)
    ensures Ready(m)
            <==> && !Blank(m.id) && !Blank(m.createdBy) && !Blank(m.commit)
                 && "" !in {m.provenance.coreRegistry, m.provenance.enterpriseRegistry, m.provenance.catalog,
                            m.provenance.profile, m.provenance.riskRecipe}
                 && FederatedOk(m) && SignedAdaptersOk(m) && m.signedOutputs != map[]
                 && forall name :: name in m.signedOutputs ==> !Blank(name) && Complete(m.signedOutputs[name])
  {
    hide Blank, FederatedOk, SignedAdaptersOk, Complete;
  }

  /** The approved-build check of one artifact: a reference to the signed manifest of some adapter, to the signed output of its
      type with the digest of the envelope under a named key, or, only if that type is not signed, to the plain output. */
  lemma {:induction false} InApprovedBuildIff(m: BuildManifest, a: Artifact)
    ensures
      var t, uri, sha := TrimSpace(a.artifactType), TrimSpace(a.ref), TrimSpace(a.sha);
      InApprovedBuild(m, a)
      <==> && uri != "" && sha != ""
           && (t == "adapter_manifest" ==> exists id :: id in m.adapters && Matches(m.adapters[id].signed, Ref(uri, sha)))
           && (t != "adapter_manifest" && t in m.signedOutputs ==>
                 && m.signedOutputs[t].ref == Ref(uri, sha) && m.signedOutputs[t].envelopeSha == sha
                 && !Blank(m.signedOutputs[t].keyId))
           && (t != "adapter_manifest" && t !in m.signedOutputs ==> t in m.artifactRefs && m.artifactRefs[t] == Ref(uri, sha))
  {
    hide TrimSpace, Matches;
  }

  // ---------------------------------------------------------------- what the gates pin down

  /** Two manifests that pass with the same federated digests have, blanks aside, the same provenance, and the same
      manifest digest for every adapter that both list. */
  lemma {:induction false} FederationPinsProvenance(m: BuildManifest, n: BuildManifest)
    requires FederatedOk(m) && FederatedOk(n) && m.federated == n.federated
    ensures TrimSpace(m.provenance.policyRepo) == TrimSpace(n.provenance.policyRepo)
    ensures TrimSpace(m.provenance.coreRegistry) == TrimSpace(n.provenance.coreRegistry)
    ensures TrimSpace(m.provenance.enterpriseRegistry) == TrimSpace(n.provenance.enterpriseRegistry)
    ensures TrimSpace(m.provenance.catalog) == TrimSpace(n.provenance.catalog)
    ensures TrimSpace(m.provenance.profile) == TrimSpace(n.provenance.profile)
    ensures TrimSpace(m.provenance.riskRecipe) == TrimSpace(n.provenance.riskRecipe)
    ensures forall id :: id in m.adapters && id in n.adapters ==>
                           TrimSpace(m.adapters[id].digest) == TrimSpace(n.adapters[id].digest)
  {
  }

  // ---------------------------------------------------------------- what the compiler builds

  /** Loaded adapter manifests name a protocol and carry the digest of their file. */
  predicate ShapedManifests(manifests: Manifests) {
    forall id :: id in manifests ==> !Blank(manifests[id].digest) && !Blank(manifests[id].protocol)
  }

  /** The artifact store gives addresses without blanks around them. */
  ghost predicate CleanUris(w: Workshop) {
    forall id, sha :: w.uri(id, sha) != "" && TrimSpace(w.uri(id, sha)) == w.uri(id, sha)
  }

  predicate SigningOn(w: Workshop) {
    w.signer.Some? && !Blank(w.signer.value.keyId)
  }

  lemma {:induction false} DigestInk(hash: HashFn, data: string)
    ensures !Blank(DigestText(hash, data)) && TrimSpace(DigestText(hash, data)) == DigestText(hash, data)
  {
    var d := DigestText(hash, data);
    assert d[0] == 's';
    HexInk(hash(data));
    assert hash(data) != [] ==> d[|d| - 1] == Hex(hash(data))[|Hex(hash(data))| - 1];
    InkIsNotBlank(d);
    InkIsTrimmed(d);
  }

  lemma {:induction false} HexInk(bytes: seq<byte>)
    ensures forall c :: c in Hex(bytes) ==> !IsSpace(c)
  {
    if bytes != [] {
      HexInk(bytes[1..]);
    }
  }

  lemma {:induction false} SourceInk(hash: HashFn, content: Option<string>)
    ensures !Blank(SourceDigest(hash, content))
  {
    InkIsNotBlank(SourceDigest(hash, content));
  }

  /** A manifest tells its reader which source could not be read: a digest is hexadecimal. */
  lemma {:induction false} UnavailableIff(hash: HashFn, content: Option<string>)
    ensures SourceDigest(hash, content) == DIGEST_PREFIX + "unavailable" <==> content.None?
  {
    if content.Some? {
      HexHasNoU(hash(content.value));
      var d := SourceDigest(hash, content);
      assert d[|DIGEST_PREFIX|..] == Hex(hash(content.value));
      assert (DIGEST_PREFIX + "unavailable")[|DIGEST_PREFIX|..] == "unavailable" && 'u' in "unavailable";
    }
  }

  lemma {:induction false} HexHasNoU(bytes: seq<byte>)
    ensures 'u' !in Hex(bytes)
  {
    if bytes != [] {
      HexHasNoU(bytes[1..]);
    }
  }

  /** A signed output that was emitted: complete up to the key identifier, and its reference names its envelope. */
  lemma {:induction false} EmittedIsComplete(b: Build, id: string)
    requires b.w.signer.Some? && b.Emission(id).Some? && CleanUris(b.w)
    ensures var s := SignedPart(b.Emission(id));
            && (Complete(s) <==> !Blank(b.w.signer.value.keyId))
            && s.keyId == b.w.signer.value.keyId
            && s.envelopeSha == s.ref.sha && s.ref.uri != "" && s.ref.sha != ""
            && TrimSpace(s.ref.uri) == s.ref.uri && TrimSpace(s.ref.sha) == s.ref.sha
  {
    hide TrimSpace, DigestText;
    var o := b.Emission(id).value;
    var e := SignedEnvelope(b.w, b.card.id, b.sources.commit, id).value;
    DigestInk(b.w.hash, b.w.envelopeText(e));
    DigestInk(b.w.hash, b.w.payload(id));
    assert o.signed.value.ref == Put(b.w, "signed." + id, b.w.envelopeText(e));
  }

  /** Each provenance field and each federated digest of a compiled manifest is that of its own source, and the manifest
      names the policy, the commit and the creator of the build. */
  lemma {:induction false} CompiledSources(b: Build, m: BuildManifest)
    requires b.Makes(m)
    ensures var s, hash := b.sources, b.w.hash;
            && m.id == "build." + b.card.id && m.commit == s.commit && m.createdBy == CreatedBy(s.creators)
            && m.provenance.policyRepo == SourceDigest(hash, s.policyRepo)
            && m.provenance.coreRegistry == SourceDigest(hash, s.coreRegistry)
            && m.provenance.enterpriseRegistry == SourceDigest(hash, s.enterpriseRegistry)
            && m.provenance.catalog == SourceDigest(hash, s.catalog)
            && m.provenance.profile == SourceDigest(hash, s.profile)
            && m.provenance.riskRecipe == SourceDigest(hash, s.riskRecipe)
    ensures var s, hash, f := b.sources, b.w.hash, m.federated;
            && Says(f, "policy_repo", SourceDigest(hash, s.policyRepo)) && Says(f, "catalog", SourceDigest(hash, s.catalog))
            && Says(f, "core_registry", SourceDigest(hash, s.coreRegistry))
            && Says(f, "enterprise_registry", SourceDigest(hash, s.enterpriseRegistry))
            && Says(f, "profile", SourceDigest(hash, s.profile)) && Says(f, "risk_recipe", SourceDigest(hash, s.riskRecipe))
  {
    hide Emit, Build.Signs, Build.Stores, Build.Lists, BindingRefs, ActionRefs, Grants, CreatedBy, TrimSpace, SourceDigest;
    var names := SourceDigests(m.provenance);
    assert "policy_repo" in names && "core_registry" in names && "enterprise_registry" in names && "catalog" in names
           && "profile" in names && "risk_recipe" in names;
  }

  predicate Says(digests: map<string, string>, key: string, digest: string) {
    key in digests && digests[key] == digest
  }

  /** What emitting with a signer gives: the artifact under its own identifier, and its envelope under another, with the
      digests of its text and payload and the key of the signer. */
  lemma {:induction false} EmissionMeans(b: Build, id: string)
    requires b.w.signer.Some? && b.Emission(id).Some?
    ensures b.Emission(id).value.ref == Put(b.w, id, b.w.payload(id))
    ensures var e := SignedEnvelope(b.w, b.card.id, b.sources.commit, id);
            && e.Some?
            && SignedPart(b.Emission(id)) == SignedOutput(
                 Put(b.w, "signed." + id, b.w.envelopeText(e.value)), DigestText(b.w.hash, b.w.envelopeText(e.value)),
                 DigestText(b.w.hash, b.w.payload(id)), b.w.signer.value.keyId)
            && e.value.payload == b.w.payload(id) && e.value.sourceCommit == b.sources.commit
            && e.value.policyId == b.card.id && e.value.expiresAt == Some(b.w.expiresAt) && e.value.signedAt == b.w.now
  {
    hide DigestText, Put;
  }

  /** A compiled manifest lists exactly the adapters that some action of the policy uses and that have a manifest, each with
      what its own manifest says and its own signed artifact. */
  lemma {:induction false} CompiledAdapters(b: Build, m: BuildManifest, id: string)
    requires b.Makes(m)
    ensures id in m.adapters
            <==> && id != "" && id in b.manifests
                 && exists i :: 0 <= i < |b.AllGrants().value| && TrimSpace(b.AllGrants().value[i].adapterId) == id
    ensures id in m.adapters ==>
              var adapter, manifest := m.adapters[id], b.manifests[id];
              && adapter.adapterId == manifest.adapterId && adapter.version == manifest.version
              && adapter.digest == manifest.digest && adapter.protocol == manifest.protocol
              && adapter.signed == SignedPart(b.Emission("adapter_manifest." + id))
              && (!Blank(manifest.digest) ==> Says(m.federated, "adapter:" + id, TrimSpace(manifest.digest)))
  {
    hide Emit, Build.Stores, Build.Signs, BindingRefs, ActionRefs, Grants, CreatedBy, ProvenanceOf, TrimSpace;
  }

  /** Each output that a compiled manifest lists is that of its own artifact, named after its type and the policy. */
  lemma {:induction false} CompiledOutputs(b: Build, m: BuildManifest, name: string)
    requires b.Makes(m) && name in PLAIN_OUTPUTS
    ensures var id := (if name == "resolved_policy" then "resolved." else name + ".") + b.card.id;
            && b.Emission(id).Some? && name in m.artifactRefs && m.artifactRefs[name] == b.Emission(id).value.ref
            && (b.w.signer.Some? ==> name in m.signedOutputs && m.signedOutputs[name] == SignedPart(b.Emission(id)))
            && (b.w.signer.None? ==> m.signedOutputs == map[])
  {
    hide Emit, Build.Lists, BindingRefs, ActionRefs, Grants, CreatedBy, TrimSpace, Federates, ProvenanceOf, Used;
    PlainIdIs(name, b.card.id);
  }

  lemma {:induction false} PlainIdIs(name: string, policyId: string)
    ensures PlainId(name, policyId) == (if name == "resolved_policy" then "resolved." else name + ".") + policyId
  {
  }

  /** The federated digests of a compiled manifest always pass, even those of sources that could not be read. */
  lemma {:induction false} CompiledFederates(b: Build, m: BuildManifest)
    requires b.Makes(m) && ShapedManifests(b.manifests)
    ensures FederatedOk(m)
  {
    hide Emit, Build.Signs, Build.Stores, BindingRefs, ActionRefs, Grants, CreatedBy, TrimSpace, SourceDigest;
    var p := m.provenance;
    var used := Used(b.AllGrants().value, b.manifests);
    SourceInk(b.w.hash, b.sources.policyRepo);
    SourceInk(b.w.hash, b.sources.coreRegistry);
    SourceInk(b.w.hash, b.sources.enterpriseRegistry);
    SourceInk(b.w.hash, b.sources.catalog);
    SourceInk(b.w.hash, b.sources.profile);
    SourceInk(b.w.hash, b.sources.riskRecipe);
    assert "policy_repo" in SourceDigests(p) && "core_registry" in SourceDigests(p)
           && "enterprise_registry" in SourceDigests(p) && "catalog" in SourceDigests(p) && "profile" in SourceDigests(p)
           && "risk_recipe" in SourceDigests(p);
    forall id | id in m.adapters
      ensures Attests(m.federated, "adapter:" + id, m.adapters[id].digest)
    {
      TrimTwice(used[id].digest);
    }
  }

  lemma {:induction false} EmissionHolds(b: Build, m: BuildManifest, id: string)
    requires b.Makes(m)
    ensures b.Emission(id).Some?
  {
  }

  /** The signed adapter manifests pass exactly when there are none or the build was signed under a key with a name. */
  lemma {:induction false} CompiledAdaptersSignedIff(b: Build, m: BuildManifest)
    requires b.Makes(m) && ShapedManifests(b.manifests) && CleanUris(b.w)
    ensures SignedAdaptersOk(m) <==> m.adapters == map[] || SigningOn(b.w)
  {
    hide Build.Makes, SignedAdapterOk, CleanUris, SigningOn;
    forall id | id in m.adapters
      ensures SignedAdapterOk(m, id) <==> SigningOn(b.w)
    {
      CompiledAdapterSignedIff(b, m, id);
    }
    if m.adapters != map[] {
      var id :| id in m.adapters;
    }
  }

  lemma {:induction false} CompiledAdapterSignedIff(b: Build, m: BuildManifest, id: string)
    requires b.Makes(m) && ShapedManifests(b.manifests) && CleanUris(b.w) && id in m.adapters
    ensures SignedAdapterOk(m, id) <==> SigningOn(b.w)
  {
    hide Build.Makes, Emit, TrimSpace, CleanUris, Blank;
    var s := SignedPart(b.Emission("adapter_manifest." + id));
    AdapterListed(b, m, id);
    EmissionHolds(b, m, "adapter_manifest." + id);
    if b.w.signer.Some? {
      EmittedIsComplete(b, "adapter_manifest." + id);
    } else {
      assert s == UNSIGNED by { EmitSigned(b.w, b.card.id, b.sources.commit, "adapter_manifest." + id); }
      EmptyIsBlank();
    }
  }

  /** The reference of a used adapter and the signed output under its name are one. */
  lemma {:induction false} AdapterListed(b: Build, m: BuildManifest, id: string)
    requires b.Makes(m) && id in m.adapters
    ensures id in b.manifests
    ensures var s := SignedPart(b.Emission("adapter_manifest." + id));
            && m.adapters[id] == AdapterRefOf(b.manifests[id], s)
            && ("adapter_manifest:" + id in m.signedOutputs ==> m.signedOutputs["adapter_manifest:" + id] == s)
  {
    hide Emit, Build.Stores, BindingRefs, ActionRefs, Grants, CreatedBy, Federates, ProvenanceOf, TrimSpace;
  }

  lemma {:induction false} EmptyIsBlank()
    ensures Blank("")
  {
  }

  /** A compiled manifest is ready for approval exactly when signing was on, under a key with a name, and the policy
      repository had a commit. */
  lemma {:induction false} CompiledReadyIff(b: Build, m: BuildManifest)
    requires b.Makes(m) && ShapedManifests(b.manifests) && CleanUris(b.w)
    ensures Ready(m) <==> SigningOn(b.w) && !Blank(b.sources.commit)
  {
    hide Emit, Build.Stores, Build.Lists, BindingRefs, ActionRefs, Grants, CreatedBy, Federates, TrimSpace, Blank, CleanUris,
         FederatedOk, SignedAdaptersOk, Used, Complete, SourceDigest;
    CompiledFederates(b, m);
    CompiledAdaptersSignedIff(b, m);
    InkIsNotBlank(m.id);
    NeverEmpty(b.w.hash, b.sources);
    if b.w.signer.Some? {
      assert "runtime_bundle" in m.signedOutputs;
      forall name | name in m.signedOutputs
        ensures !Blank(name) && (Complete(m.signedOutputs[name]) <==> SigningOn(b.w))
      {
        OutputIsComplete(b, m, name);
      }
    }
  }

  lemma {:induction false} NeverEmpty(hash: HashFn, s: Sources)
    ensures var p := ProvenanceOf(hash, s);
            p.coreRegistry != "" && p.enterpriseRegistry != "" && p.catalog != "" && p.profile != "" && p.riskRecipe != ""
  {
  }

  lemma {:induction false} OutputIsComplete(b: Build, m: BuildManifest, name: string)
    requires b.Makes(m) && b.w.signer.Some? && CleanUris(b.w) && name in m.signedOutputs
    ensures !Blank(name) && (Complete(m.signedOutputs[name]) <==> SigningOn(b.w))
    ensures SigningOn(b.w) ==> SelfContained(m.signedOutputs[name])
  {
    hide Emit, Build.Stores, Build.Lists, BindingRefs, ActionRefs, Grants, CreatedBy, Federates, TrimSpace, Blank, CleanUris,
         Complete;
    var used := Used(b.AllGrants().value, b.manifests);
    InkIsNotBlank(name);
    if name in PLAIN_OUTPUTS {
      EmissionHolds(b, m, PlainId(name, b.card.id));
      EmittedIsComplete(b, PlainId(name, b.card.id));
    } else {
      var id :| id in used && name == MANIFEST_OUTPUT + id;
      EmissionHolds(b, m, "adapter_manifest." + id);
      EmittedIsComplete(b, "adapter_manifest." + id);
    }
  }

  // ---------------------------------------------------------------- runtime provenance

  /** What the compiler knows of every grant it makes: all its names are there, and its manifest is that of an adapter
      which implements the capability for the action. */
  predicate Sound(manifests: Manifests, g: Grant) {
    && !Blank(g.id) && !Blank(g.bindingId) && !Blank(g.bindingDigest) && !Blank(g.adapterId) && !Blank(g.capabilityId)
    && !Blank(g.actionDigest)
    && TrimSpace(g.adapterId) == g.adapterId && g.adapterId in manifests
    && g.manifestDigest == manifests[g.adapterId].digest
    && Implements(manifests[g.adapterId].claims, g.capabilityId, g.actionType)
  }

  /** The grant is that of this binding, which serves its capability in the stage of the policy. */
  predicate GrantedBy(card: Card, g: Grant, b: Binding) {
    && TrimSpace(b.capabilityId) == TrimSpace(g.capabilityId) && TrimSpace(b.status) in {"", "implemented"}
    && (b.stages == [] || exists i :: 0 <= i < |b.stages| && TrimSpace(b.stages[i]) == TrimSpace(card.stage))
    && g.bindingId == b.id && g.bindingDigest == b.digest && g.adapterId == TrimSpace(b.adapterId)
  }

  lemma {:induction false} GrantIsSound(
    hash: HashFn, text: seq<string> -> string, card: Card, catalog: Catalog, manifests: Manifests, action: string)
    requires WellLoaded(catalog.bindings)
    requires GrantFor(hash, text, card, catalog, manifests, action).Some?
    ensures var g := GrantFor(hash, text, card, catalog, manifests, action).value;
            && Sound(manifests, g) && g.actionType == action && (exists b :: b in catalog.bindings && GrantedBy(card, g, b))
            && g.id == GrantId(hash, [card.id, g.adapterId, g.capabilityId, action, card.scope])
            && g.actionDigest == DigestText(hash, ActionText(text, card, g))
  {
    hide TrimSpace, RuleFor, Implements;
    var g := GrantFor(hash, text, card, catalog, manifests, action).value;
    var b := BindingFor(catalog.bindings, g.capabilityId, card.stage).value;
    assert Named(b);
    TrimTwice(b.adapterId);
    InkIsNotBlank(g.id);
    InkIsNotBlank(g.actionDigest);
  }

  lemma {:induction false} GrantsAreSound(
    hash: HashFn, text: seq<string> -> string, card: Card, catalog: Catalog, manifests: Manifests, actions: seq<string>)
    requires WellLoaded(catalog.bindings) && Grants(hash, text, card, catalog, manifests, actions).Some?
    ensures var gs := Grants(hash, text, card, catalog, manifests, actions).value;
            && |gs| == |actions|
            && (forall i :: 0 <= i < |gs| ==> Sound(manifests, gs[i]) && gs[i].actionType == actions[i])
            && (forall i :: 0 <= i < |gs| ==> exists b :: b in catalog.bindings && GrantedBy(card, gs[i], b))
  {
    hide GrantFor, Sound, WellLoaded, GrantedBy;
    if actions != [] {
      GrantsAreSound(hash, text, card, catalog, manifests, actions[..|actions| - 1]);
      GrantIsSound(hash, text, card, catalog, manifests, actions[|actions| - 1]);
    }
  }

  lemma {:induction false} BindingRefsHold(grants: seq<Grant>)
    ensures forall id :: id in BindingRefs(grants) ==>
              exists i :: 0 <= i < |grants| && grants[i].bindingId == id && BindingRefs(grants)[id] == BindingRefOf(grants[i])
    ensures forall i :: 0 <= i < |grants| && !Blank(grants[i].bindingId) ==> grants[i].bindingId in BindingRefs(grants)
  {
    hide Blank;
    if grants != [] {
      var init, g := grants[..|grants| - 1], grants[|grants| - 1];
      BindingRefsHold(init);
      forall id | id in BindingRefs(grants)
        ensures exists i :: 0 <= i < |grants| && grants[i].bindingId == id && BindingRefs(grants)[id] == BindingRefOf(grants[i])
      {
        if id != g.bindingId || Blank(g.bindingId) {
          assert id in BindingRefs(init) && BindingRefs(grants)[id] == BindingRefs(init)[id];
          var i :| 0 <= i < |init| && init[i].bindingId == id && BindingRefs(init)[id] == BindingRefOf(init[i]);
          assert grants[i] == init[i];
        }
      }
    }
  }

  lemma {:induction false} ActionRefsHold(grants: seq<Grant>)
    ensures forall id :: id in ActionRefs(grants) ==>
              exists i :: 0 <= i < |grants| && grants[i].id == id && ActionRefs(grants)[id] == ActionRefOf(grants[i])
    ensures forall i :: 0 <= i < |grants| ==> grants[i].id in ActionRefs(grants)
  {
    if grants != [] {
      var init := grants[..|grants| - 1];
      ActionRefsHold(init);
      forall id | id in ActionRefs(grants)
        ensures exists i :: 0 <= i < |grants| && grants[i].id == id && ActionRefs(grants)[id] == ActionRefOf(grants[i])
      {
        if id != grants[|grants| - 1].id {
          assert id in ActionRefs(init);
          var i :| 0 <= i < |init| && init[i].id == id && ActionRefs(init)[id] == ActionRefOf(init[i]);
          assert grants[i] == init[i];
        }
      }
    }
  }

  /** The last grant with its identifier, the one that the manifest lists. */
  predicate LastOfId(grants: seq<Grant>, i: nat)
    requires i < |grants|
  {
    forall j :: i < j < |grants| ==> grants[j].id != grants[i].id
  }

  lemma {:induction false} BindingRefsPass(manifests: Manifests, grants: seq<Grant>, id: string)
    requires forall i :: 0 <= i < |grants| ==> Sound(manifests, grants[i])
    requires id in BindingRefs(grants)
    ensures var r := BindingRefs(grants)[id];
            !Blank(r.id) && !Blank(r.digest) && !Blank(r.adapterId) && !Blank(r.capabilityId) && id == r.id
  {
    hide Blank, TrimSpace, BindingRefs;
    BindingRefsHold(grants);
    var i :| 0 <= i < |grants| && grants[i].bindingId == id && BindingRefs(grants)[id] == BindingRefOf(grants[i]);
    assert Sound(manifests, grants[i]);
  }

  lemma {:induction false} LastOfIdSnoc(grants: seq<Grant>, i: nat)
    requires i < |grants|
    ensures var n := |grants| - 1;
            LastOfId(grants, i) <==> i == n || (LastOfId(grants[..n], i) && grants[i].id != grants[n].id)
  {
  }

  /** The manifest lists exactly the last grant of each identifier. */
  lemma {:induction false} ActionRefsAreLast(grants: seq<Grant>)
    ensures forall i :: 0 <= i < |grants| && LastOfId(grants, i) ==>
              grants[i].id in ActionRefs(grants) && ActionRefs(grants)[grants[i].id] == ActionRefOf(grants[i])
    ensures forall id :: id in ActionRefs(grants) ==>
              exists i :: 0 <= i < |grants| && LastOfId(grants, i) && grants[i].id == id
  {
    if grants != [] {
      var n := |grants| - 1;
      var init := grants[..n];
      ActionRefsAreLast(init);
      forall i | 0 <= i <= n
        ensures LastOfId(grants, i) <==> i == n || (LastOfId(init, i) && grants[i].id != grants[n].id)
      {
        LastOfIdSnoc(grants, i);
      }
      hide LastOfId;
      forall id | id in ActionRefs(grants)
        ensures exists i :: 0 <= i < |grants| && LastOfId(grants, i) && grants[i].id == id
      {
        if id != grants[n].id {
          assert id in ActionRefs(init);
          var i :| 0 <= i < |init| && LastOfId(init, i) && init[i].id == id;
          assert LastOfId(grants, i);
        }
      }
    }
  }

  /** A listed action passes exactly when its type has a name. */
  lemma {:induction false} ActionRefPassesIff(manifests: Manifests, grants: seq<Grant>, i: nat)
    requires forall j :: 0 <= j < |grants| ==> Sound(manifests, grants[j])
    requires i < |grants| && LastOfId(grants, i)
    ensures grants[i].id in ActionRefs(grants)
    ensures ActionOk(BindingRefs(grants), ActionRefs(grants), grants[i].id) <==> !Blank(grants[i].actionType)
  {
    hide Blank, TrimSpace, ActionRefs, BindingRefs, LastOfId;
    ActionRefsAreLast(grants);
    BindingRefsHold(grants);
    assert Sound(manifests, grants[i]);
  }

  /** With loaded bindings, the runtime provenance of a compiled manifest passes exactly when every action has a name
      whose grant is the last with its identifier; so it passes whenever all actions have names. */
  lemma {:induction false} CompiledProvenanceIff(b: Build, m: BuildManifest)
    requires b.Makes(m) && WellLoaded(b.catalog.bindings)
    ensures |b.AllGrants().value| == |b.card.actions|
    ensures RuntimeProvenanceOk(m) <==>
            forall i :: 0 <= i < |b.card.actions| && LastOfId(b.AllGrants().value, i) ==> !Blank(b.card.actions[i])
  {
    hide Build.Lists, Build.Signs, Build.Stores, Federates, CreatedBy, Blank, BindingRefs, ActionRefs, Grants, WellLoaded,
         TrimSpace, ProvenanceOf, Sound, LastOfId, ActionOk;
    var grants := b.AllGrants().value;
    GrantsAreSound(b.w.hash, b.w.fieldsText, b.card, b.catalog, b.manifests, b.card.actions);
    forall id | id in m.bindings {
      BindingRefsPass(b.manifests, grants, id);
    }
    forall i | 0 <= i < |grants| && LastOfId(grants, i)
      ensures grants[i].id in m.runtimeActions
      ensures ActionOk(m.bindings, m.runtimeActions, grants[i].id) <==> !Blank(b.card.actions[i])
    {
      ActionRefPassesIff(b.manifests, grants, i);
    }
    ActionRefsAreLast(grants);
  }

  /** The parts of a compiled manifest agree: the adapter of every runtime action is listed with the digest the action
      names, and its binding is listed; and where binding identifiers are unique, the listed binding is the catalog's, for
      the adapter and the capability of the action. */
  lemma {:induction false} CompiledCoherent(b: Build, m: BuildManifest, k: string)
    requires b.Makes(m) && WellLoaded(b.catalog.bindings) && k in m.runtimeActions
    ensures var a := m.runtimeActions[k];
            && a.adapterId in m.adapters && m.adapters[a.adapterId].digest == a.manifestDigest
            && a.bindingId in m.bindings
            && (UniqueBindings(b.catalog.bindings) ==>
                  && m.bindings[a.bindingId].adapterId == a.adapterId
                  && TrimSpace(m.bindings[a.bindingId].capabilityId) == TrimSpace(a.capabilityId)
                  && exists c :: c in b.catalog.bindings && c.id == a.bindingId && m.bindings[a.bindingId].digest == c.digest)
  {
    hide Build.Signs, Build.Stores, Federates, CreatedBy, Blank, BindingRefs, ActionRefs, Grants, WellLoaded, TrimSpace,
         ProvenanceOf, Sound, GrantedBy, UniqueBindings, Emit, SignedPart;
    var grants := b.AllGrants().value;
    GrantsAreSound(b.w.hash, b.w.fieldsText, b.card, b.catalog, b.manifests, b.card.actions);
    ActionRefsHold(grants);
    var i :| 0 <= i < |grants| && grants[i].id == k && m.runtimeActions[k] == ActionRefOf(grants[i]);
    SoundUses(b.manifests, grants, i);
    BindingOfGrant(b.card, b.catalog, b.manifests, grants, i);
  }

  /** The text whose digest a grant carries, in terms of the grant. */
  function ActionText(text: seq<string> -> string, card: Card, g: Grant): string {
    text([card.id, g.adapterId, g.capabilityId, g.actionType, card.scope] + [g.bindingDigest, g.manifestDigest])
  }

  /** The action digest of a grant pins everything that was digested, for an encoding of the fields that loses nothing:
      two grants of one policy with one digest agree, or their two texts collide. */
  lemma {:induction false} ActionDigestPins(
    hash: HashFn, text: seq<string> -> string, card: Card, catalog: Catalog, manifests: Manifests, a: string, c: string)
    requires forall x, y :: text(x) == text(y) ==> x == y
    requires GrantFor(hash, text, card, catalog, manifests, a).Some?
    requires GrantFor(hash, text, card, catalog, manifests, c).Some?
    ensures var g, h := GrantFor(hash, text, card, catalog, manifests, a).value,
                        GrantFor(hash, text, card, catalog, manifests, c).value;
            g.actionDigest == h.actionDigest ==>
              || Collides(hash, Pair(ActionText(text, card, g), ActionText(text, card, h)))
              || (&& g.adapterId == h.adapterId && g.capabilityId == h.capabilityId && g.actionType == h.actionType
                  && g.bindingDigest == h.bindingDigest && g.manifestDigest == h.manifestDigest && g.id == h.id)
  {
    hide RuleFor, BindingFor, Implements, TrimSpace, DigestText;
    var g, h := GrantFor(hash, text, card, catalog, manifests, a).value,
                GrantFor(hash, text, card, catalog, manifests, c).value;
    var x := [card.id, g.adapterId, g.capabilityId, a, card.scope] + [g.bindingDigest, g.manifestDigest];
    var y := [card.id, h.adapterId, h.capabilityId, c, card.scope] + [h.bindingDigest, h.manifestDigest];
    if g.actionDigest == h.actionDigest {
      DigestTextInjective(hash, text(x), text(y));
      if x == y {
        assert x[1] == y[1] && x[2] == y[2] && x[3] == y[3] && x[5] == y[5] && x[6] == y[6];
      }
    }
  }

  lemma {:induction false} SoundUses(manifests: Manifests, grants: seq<Grant>, i: nat)
    requires i < |grants| && Sound(manifests, grants[i])
    ensures Uses(grants, grants[i].adapterId) && grants[i].adapterId in manifests
    ensures grants[i].manifestDigest == manifests[grants[i].adapterId].digest
  {
  }

  lemma {:induction false} BindingOfGrant(
    card: Card, catalog: Catalog, manifests: Manifests, grants: seq<Grant>, i: nat)
    requires i < |grants| && Sound(manifests, grants[i])
    requires forall j :: 0 <= j < |grants| ==> exists c :: c in catalog.bindings && GrantedBy(card, grants[j], c)
    ensures var g, refs := grants[i], BindingRefs(grants);
            && g.bindingId in refs
            && (UniqueBindings(catalog.bindings) ==>
                  && refs[g.bindingId].adapterId == g.adapterId
                  && TrimSpace(refs[g.bindingId].capabilityId) == TrimSpace(g.capabilityId)
                  && exists c :: c in catalog.bindings && c.id == g.bindingId && refs[g.bindingId].digest == c.digest)
  {
    hide Blank, BindingRefs, TrimSpace, Implements, Contains;
    var g := grants[i];
    BindingRefsHold(grants);
    var j :| 0 <= j < |grants| && grants[j].bindingId == g.bindingId
             && BindingRefs(grants)[g.bindingId] == BindingRefOf(grants[j]);
    var c :| c in catalog.bindings && GrantedBy(card, g, c);
    var d :| d in catalog.bindings && GrantedBy(card, grants[j], d);
    assert UniqueBindings(catalog.bindings) ==> c == d;
  }

  predicate UniqueBindings(bindings: seq<Binding>) {
    forall c, d :: c in bindings && d in bindings && c.id == d.id ==> c == d
  }

  // ---------------------------------------------------------------- requesting what was compiled

  /** The runtime bundle's request carries the signed manifest of every used adapter. */
  predicate AsksForAllAdapters(m: BuildManifest, requested: seq<Artifact>) {
    forall id :: id in m.adapters ==>
      exists i :: 0 <= i < |requested| && requested[i].artifactType == ADAPTER_MANIFEST
                  && Ref(requested[i].ref, requested[i].sha) == m.adapters[id].signed.ref
  }

  lemma {:induction false} AdapterMatches(b: Build, m: BuildManifest, id: string)
    requires b.Makes(m) && CleanUris(b.w) && SigningOn(b.w) && id in m.adapters
    ensures SelfContained(m.adapters[id].signed)
  {
    hide Build.Makes, Emit, TrimSpace, CleanUris;
    AdapterListed(b, m, id);
    EmissionHolds(b, m, "adapter_manifest." + id);
    EmittedIsComplete(b, "adapter_manifest." + id);
  }

  /** The output is named by its own reference, which has no blanks around it. */
  predicate SelfContained(s: SignedOutput) {
    && !Blank(s.keyId) && s.envelopeSha == s.ref.sha && s.ref.uri != "" && s.ref.sha != ""
    && TrimSpace(s.ref.uri) == s.ref.uri && TrimSpace(s.ref.sha) == s.ref.sha
  }

  /** The artifact's reference is that of a used adapter's signed manifest, or of the signed output of its type. */
  ghost predicate NamesSigned(m: BuildManifest, a: Artifact) {
    var t := TrimSpace(a.artifactType);
    if t == ADAPTER_MANIFEST then exists id :: id in m.adapters && RefOf(a) == m.adapters[id].signed.ref
    else t in m.signedOutputs && RefOf(a) == m.signedOutputs[t].ref
  }

  /** With signing on, an artifact is found in the approved build exactly when it names a signed output: the unsigned
      copy of an output is never approved. */
  lemma {:induction false} ApprovedIff(b: Build, m: BuildManifest, a: Artifact)
    requires b.Makes(m) && CleanUris(b.w) && SigningOn(b.w)
    ensures InApprovedBuild(m, a) <==> NamesSigned(m, a)
  {
    hide Build.Makes, TrimSpace, Blank, CleanUris;
    var t := TrimSpace(a.artifactType);
    AllSigned(b, m);
    TrimTwice(a.ref);
    TrimTwice(a.sha);
    if t == ADAPTER_MANIFEST {
      forall id | id in m.adapters
        ensures Matches(m.adapters[id].signed, RefOf(a)) <==> RefOf(a) == m.adapters[id].signed.ref
        ensures m.adapters[id].signed.ref.uri != "" && m.adapters[id].signed.ref.sha != ""
      {
        AdapterMatches(b, m, id);
      }
    } else if t in m.signedOutputs {
      OutputIsComplete(b, m, t);
    }
  }

  /** With signing on, every stored output is also signed. */
  lemma {:induction false} AllSigned(b: Build, m: BuildManifest)
    requires b.Makes(m) && SigningOn(b.w)
    ensures m.artifactRefs.Keys <= m.signedOutputs.Keys
  {
  }

  /** A request for the runtime bundle with the signed manifests of all used adapters passes the pair check. */
  lemma {:induction false} CompiledPairPasses(b: Build, m: BuildManifest, requested: seq<Artifact>)
    requires b.Makes(m) && WellLoaded(b.catalog.bindings) && CleanUris(b.w) && SigningOn(b.w)
    requires AsksForAllAdapters(m, requested)
    ensures PairOk(m, requested)
  {
    hide Build.Makes, TrimSpace, CleanUris, WellLoaded, SigningOn, AsksForAllAdapters, Carries;
    forall k | k in m.runtimeActions
      ensures Covered(m, requested, m.runtimeActions[k])
    {
      CompiledCoherent(b, m, k);
      AdapterTrimmed(b, m, k);
      AdapterCarried(b, m, m.runtimeActions[k].adapterId, requested);
    }
  }

  lemma {:induction false} AdapterTrimmed(b: Build, m: BuildManifest, k: string)
    requires b.Makes(m) && WellLoaded(b.catalog.bindings) && k in m.runtimeActions
    ensures TrimSpace(m.runtimeActions[k].adapterId) == m.runtimeActions[k].adapterId != ""
  {
    EmptyIsBlank();
    hide Build.Lists, Build.Stores, Build.Signs, ActionRefs, Grants, CreatedBy, Federates, TrimSpace, WellLoaded,
         ProvenanceOf, BindingRefs, GrantedBy, Implements, Blank;
    var grants := b.AllGrants().value;
    GrantsAreSound(b.w.hash, b.w.fieldsText, b.card, b.catalog, b.manifests, b.card.actions);
    ActionRefsHold(grants);
    var i :| 0 <= i < |grants| && grants[i].id == k && m.runtimeActions[k] == ActionRefOf(grants[i]);
    assert Sound(b.manifests, grants[i]);
  }

  lemma {:induction false} AdapterCarried(b: Build, m: BuildManifest, id: string, requested: seq<Artifact>)
    requires b.Makes(m) && CleanUris(b.w) && SigningOn(b.w) && id in m.adapters
    requires AsksForAllAdapters(m, requested)
    ensures Carries(requested, m.adapters[id])
  {
    hide Build.Makes, TrimSpace, CleanUris, SigningOn, Blank;
    var j :| 0 <= j < |requested| && requested[j].artifactType == ADAPTER_MANIFEST
             && Ref(requested[j].ref, requested[j].sha) == m.adapters[id].signed.ref;
    AdapterMatches(b, m, id);
    assert TrimSpace(ADAPTER_MANIFEST) == ADAPTER_MANIFEST by { InkIsTrimmed(ADAPTER_MANIFEST); }
    TrimTwice(requested[j].ref);
    TrimTwice(requested[j].sha);
    assert IsManifestOf(requested[j], m.adapters[id]);
  }

  // ---------------------------------------------------------------- against the KLIQ's active-artifact table

  /** The artifacts of a planned assignment as the KLIQ stores them: their types are trimmed on the way. */
  predicate StoredAs(requested: seq<Artifact>, arts: seq<Activation.ArtifactRecord>) {
    && |arts| == |requested|
    && forall i :: 0 <= i < |arts| ==> arts[i].artifactType == TrimSpace(requested[i].artifactType)
  }

  predicate DistinctRequest(requested: seq<Artifact>) {
    forall i, j :: 0 <= i < j < |requested| ==>
                     TrimSpace(requested[i].artifactType) != TrimSpace(requested[j].artifactType)
  }

  /** Complete and storable artifacts of a request are activated exactly when the request names no type twice. */
  lemma {:induction false} RequestCommitsIff(
    requested: seq<Artifact>, d: Activation.Decoders, t: Activation.Tables, record: Activation.BundleRecord,
    state: Activation.ManagementState, arts: seq<Activation.ArtifactRecord>)
    requires StoredAs(requested, arts) && Activation.OwnedBy(arts, state.kliqId) && Activation.ValidState(state)
    requires forall i :: 0 <= i < |arts| ==> Activation.ValidArtifact(arts[i]) && Activation.Storable(d, arts[i])
    ensures Activation.Commit(d, t, record, state, arts).Some? <==> DistinctRequest(requested)
  {
    hide TrimSpace, Activation.Commit, Activation.Storable, Activation.ValidArtifact, Activation.ValidState;
    Activation.CommitIff(d, t, record, state, arts);
  }

  /** The request asks for the runtime bundle, passes both checks of requested artifacts against the approved build, and can
      be activated. */
  predicate Activatable(m: BuildManifest, requested: seq<Artifact>) {
    && Requests(requested, RUNTIME_BUNDLE) && PairOk(m, requested) && DistinctRequest(requested)
    && forall i :: 0 <= i < |requested| ==> InApprovedBuild(m, requested[i])
  }

  /** One reference stands for the signed manifests of all adapters that the actions use. */
  predicate ServesAll(m: BuildManifest, ref: Ref) {
    forall k :: k in m.runtimeActions ==> ServesAction(m, m.runtimeActions[k], ref)
  }

  predicate ServesAction(m: BuildManifest, action: ActionRef, ref: Ref) {
    var id := TrimSpace(action.adapterId);
    id == "" || (id in m.adapters && Matches(m.adapters[id].signed, ref))
  }

  predicate NeedsAdapter(m: BuildManifest) {
    exists k :: k in m.runtimeActions && TrimSpace(m.runtimeActions[k].adapterId) != ""
  }

  predicate Given(ref: Ref) {
    !Blank(ref.uri) && !Blank(ref.sha)
  }

  /** An artifact that asks for the runtime bundle and is in the approved build. */
  predicate BundleRequest(m: BuildManifest, a: Artifact) {
    TrimSpace(a.artifactType) == RUNTIME_BUNDLE && InApprovedBuild(m, a)
  }

  lemma {:induction false} ActivatableNeedsOne(m: BuildManifest, requested: seq<Artifact>) returns (ref: Ref)
    requires Activatable(m, requested) && NeedsAdapter(m)
    ensures ServesAll(m, ref) && Given(ref)
  {
    hide TrimSpace, Matches;
    var k :| k in m.runtimeActions && TrimSpace(m.runtimeActions[k].adapterId) != "";
    assert Covered(m, requested, m.runtimeActions[k]);
    var i :| 0 <= i < |requested| && IsManifestOf(requested[i], m.adapters[TrimSpace(m.runtimeActions[k].adapterId)]);
    ref := RefOf(requested[i]);
    assert InApprovedBuild(m, requested[i]);
    TrimTwice(requested[i].ref);
    TrimTwice(requested[i].sha);
    forall l | l in m.runtimeActions
      ensures ServesAction(m, m.runtimeActions[l], ref)
    {
      assert Covered(m, requested, m.runtimeActions[l]);
      var id := TrimSpace(m.runtimeActions[l].adapterId);
      if id != "" {
        var j :| 0 <= j < |requested| && IsManifestOf(requested[j], m.adapters[id]);
        assert i == j;
      }
    }
  }

  function ManifestRequest(ref: Ref): Artifact {
    Artifact(ADAPTER_MANIFEST, "adapter_manifest", ref.uri, ref.sha, "")
  }

  /** A request for the runtime bundle, with one adapter manifest if an action needs any. */
  function PairRequest(m: BuildManifest, bundle: Artifact, ref: Ref): seq<Artifact> {
    if NeedsAdapter(m) then [bundle, ManifestRequest(ref)] else [bundle]
  }

  lemma {:induction false} ManifestIsApproved(m: BuildManifest, ref: Ref)
    requires NeedsAdapter(m) && ServesAll(m, ref) && Given(ref)
    ensures InApprovedBuild(m, ManifestRequest(ref)) && TrimSpace(ADAPTER_MANIFEST) == ADAPTER_MANIFEST
    ensures forall s :: Matches(s, ref) ==> Matches(s, RefOf(ManifestRequest(ref)))
  {
    hide TrimSpace;
    assert TrimSpace(ADAPTER_MANIFEST) == ADAPTER_MANIFEST by { InkIsTrimmed(ADAPTER_MANIFEST); }
    TrimTwice(ref.uri);
    TrimTwice(ref.sha);
    var k :| k in m.runtimeActions && TrimSpace(m.runtimeActions[k].adapterId) != "";
    assert ServesAction(m, m.runtimeActions[k], ref);
  }

  lemma {:induction false} OneIsActivatable(m: BuildManifest, bundle: Artifact, ref: Ref)
    requires BundleRequest(m, bundle) && (NeedsAdapter(m) ==> ServesAll(m, ref) && Given(ref))
    ensures Activatable(m, PairRequest(m, bundle, ref))
  {
    hide TrimSpace, Blank, Matches, InApprovedBuild, ServesAll;
    var requested := PairRequest(m, bundle, ref);
    assert requested[0] == bundle;
    if NeedsAdapter(m) {
      ManifestIsApproved(m, ref);
      forall k | k in m.runtimeActions
        ensures Covered(m, requested, m.runtimeActions[k])
      {
        var id := TrimSpace(m.runtimeActions[k].adapterId);
        assert ServesAction(m, m.runtimeActions[k], ref) by { ServesEach(m, k, ref); }
        assert id != "" ==> IsManifestOf(requested[1], m.adapters[id]);
      }
    }
  }

  lemma {:induction false} ServesEach(m: BuildManifest, k: string, ref: Ref)
    requires ServesAll(m, ref) && k in m.runtimeActions
    ensures ServesAction(m, m.runtimeActions[k], ref)
  {
  }

  /** A build can be activated with its runtime bundle by some request that Forge lets through exactly when the bundle can
      be requested at all and one reference stands for the signed manifests of all adapters its actions use, if any. */
  lemma {:induction false} ActivatableIff(m: BuildManifest)
    ensures (exists requested :: Activatable(m, requested))
            <==> && (exists bundle :: BundleRequest(m, bundle))
                 && (NeedsAdapter(m) ==> exists ref :: ServesAll(m, ref) && Given(ref))
  {
    hide Activatable, ServesAll, NeedsAdapter, BundleRequest, Given;
    if requested :| Activatable(m, requested) {
      var bundle := BundleOf(m, requested);
      if NeedsAdapter(m) {
        var ref := ActivatableNeedsOne(m, requested);
      }
    }
    if bundle :| BundleRequest(m, bundle) {
      if !NeedsAdapter(m) {
        OneIsActivatable(m, bundle, Ref("", ""));
      } else if ref :| ServesAll(m, ref) && Given(ref) {
        OneIsActivatable(m, bundle, ref);
      }
    }
  }

  lemma {:induction false} BundleOf(m: BuildManifest, requested: seq<Artifact>) returns (bundle: Artifact)
    requires Activatable(m, requested)
    ensures BundleRequest(m, bundle)
  {
    hide TrimSpace, InApprovedBuild;
    var i :| 0 <= i < |requested| && TrimSpace(requested[i].artifactType) == RUNTIME_BUNDLE;
    bundle := requested[i];
  }

  // ---------------------------------------------------------------- compiled builds that can be activated

  /** The JSON texts of envelopes and artifacts lose nothing: different envelopes have different texts, and so have
      artifacts with different identifiers, which their texts carry. */
  ghost predicate TextsKeepAll(w: Workshop) {
    && (forall e, e' :: w.envelopeText(e) == w.envelopeText(e') ==> e == e')
    && (forall id, id' :: w.payload(id) == w.payload(id') ==> id == id')
  }

  /** The text of the signed envelope of an adapter's manifest. */
  function AdapterText(b: Build, id: string): string {
    if b.w.signer.None? || SignedEnvelope(b.w, b.card.id, b.sources.commit, "adapter_manifest." + id).None? then ""
    else b.w.envelopeText(SignedEnvelope(b.w, b.card.id, b.sources.commit, "adapter_manifest." + id).value)
  }

  /** The signed manifests of two used adapters have different texts and one digest. */
  ghost predicate AdaptersCollide(b: Build, m: BuildManifest) {
    exists a, c :: a in m.adapters && c in m.adapters && Collides(b.w.hash, Pair(AdapterText(b, a), AdapterText(b, c)))
  }

  /** The reference of a used adapter's signed manifest has the digest of its text. */
  lemma {:induction false} AdapterDigest(b: Build, m: BuildManifest, id: string)
    requires b.Makes(m) && SigningOn(b.w) && id in m.adapters
    ensures m.adapters[id].signed.ref.sha == DigestText(b.w.hash, AdapterText(b, id))
    ensures SignedEnvelope(b.w, b.card.id, b.sources.commit, "adapter_manifest." + id).Some?
    ensures AdapterText(b, id)
            == b.w.envelopeText(SignedEnvelope(b.w, b.card.id, b.sources.commit, "adapter_manifest." + id).value)
  {
    hide Build.Makes, DigestText, TrimSpace, SignedEnvelope;
    AdapterListed(b, m, id);
    EmissionHolds(b, m, "adapter_manifest." + id);
  }

  lemma {:induction false} OneTextOneAdapter(b: Build, a: string, c: string)
    requires b.w.signer.Some? && TextsKeepAll(b.w)
    requires SignedEnvelope(b.w, b.card.id, b.sources.commit, "adapter_manifest." + a).Some?
    requires SignedEnvelope(b.w, b.card.id, b.sources.commit, "adapter_manifest." + a)
             == SignedEnvelope(b.w, b.card.id, b.sources.commit, "adapter_manifest." + c)
    ensures a == c
  {
    hide DigestText;
    var x, y := "adapter_manifest." + a, "adapter_manifest." + c;
    assert b.w.payload(x) == b.w.payload(y);
    assert x[|"adapter_manifest."|..] == a && y[|"adapter_manifest."|..] == c;
  }

  lemma {:induction false} OneDigestOneAdapter(b: Build, m: BuildManifest, a: string, c: string)
    requires b.Makes(m) && SigningOn(b.w) && TextsKeepAll(b.w) && a in m.adapters && c in m.adapters
    requires m.adapters[a].signed.ref.sha == m.adapters[c].signed.ref.sha
    ensures a == c || AdaptersCollide(b, m)
  {
    hide Build.Makes, DigestText, AdapterText, SignedEnvelope;
    AdapterDigest(b, m, a);
    AdapterDigest(b, m, c);
    DigestTextInjective(b.w.hash, AdapterText(b, a), AdapterText(b, c));
    if AdapterText(b, a) == AdapterText(b, c) {
      OneTextOneAdapter(b, a, c);
    } else {
      assert Collides(b.w.hash, Pair(AdapterText(b, a), AdapterText(b, c)));
    }
  }

  predicate OneAdapter(m: BuildManifest) {
    forall k, l :: k in m.runtimeActions && l in m.runtimeActions ==>
                     m.runtimeActions[k].adapterId == m.runtimeActions[l].adapterId
  }

  lemma {:induction false} ServedAction(b: Build, m: BuildManifest, k: string, ref: Ref)
    requires b.Makes(m) && WellLoaded(b.catalog.bindings) && CleanUris(b.w) && SigningOn(b.w) && k in m.runtimeActions
    ensures var id := m.runtimeActions[k].adapterId;
            && id in m.adapters && TrimSpace(id) != "" && Given(m.adapters[id].signed.ref)
            && (ServesAction(m, m.runtimeActions[k], ref) ==> m.adapters[id].signed.ref.sha == TrimSpace(ref.sha))
            && (ref == m.adapters[id].signed.ref ==> ServesAction(m, m.runtimeActions[k], ref))
  {
    hide Build.Makes, TrimSpace, CleanUris, WellLoaded, SigningOn;
    CompiledCoherent(b, m, k);
    AdapterTrimmed(b, m, k);
    AdapterMatches(b, m, m.runtimeActions[k].adapterId);
  }

  /** The signed runtime bundle of a compiled build can always be requested. */
  lemma {:induction false} BundleIsApproved(b: Build, m: BuildManifest) returns (bundle: Artifact)
    requires b.Makes(m) && CleanUris(b.w) && SigningOn(b.w)
    ensures BundleRequest(m, bundle)
  {
    hide TrimSpace, CleanUris, InApprovedBuild, Blank, Emit, Build.Stores, Build.Lists, Federates, CreatedBy, BindingRefs,
         ActionRefs, Grants;
    assert RUNTIME_BUNDLE in PLAIN_OUTPUTS && RUNTIME_BUNDLE in m.signedOutputs;
    OutputIsComplete(b, m, RUNTIME_BUNDLE);
    var ref := m.signedOutputs[RUNTIME_BUNDLE].ref;
    bundle := Artifact(RUNTIME_BUNDLE, "runtime_bundle", ref.uri, ref.sha, "");
    assert TrimSpace(RUNTIME_BUNDLE) == RUNTIME_BUNDLE by { InkIsTrimmed(RUNTIME_BUNDLE); }
    ApprovedIff(b, m, bundle);
  }

  lemma {:induction false} OneRefOneAdapter(b: Build, m: BuildManifest, ref: Ref)
    requires b.Makes(m) && WellLoaded(b.catalog.bindings) && CleanUris(b.w) && TextsKeepAll(b.w) && SigningOn(b.w)
    requires ServesAll(m, ref)
    ensures OneAdapter(m) || AdaptersCollide(b, m)
  {
    hide Build.Makes, CleanUris, TextsKeepAll, WellLoaded, SigningOn, ServesAction, TrimSpace, AdaptersCollide;
    forall k, l | k in m.runtimeActions && l in m.runtimeActions
      ensures m.runtimeActions[k].adapterId == m.runtimeActions[l].adapterId || AdaptersCollide(b, m)
    {
      ServedAction(b, m, k, ref);
      ServedAction(b, m, l, ref);
      OneDigestOneAdapter(b, m, m.runtimeActions[k].adapterId, m.runtimeActions[l].adapterId);
    }
  }

  /** A compiled build whose runtime actions all use one adapter can be activated with its runtime bundle by a request that
      Forge lets through; and one with two adapters cannot, because every such request names the adapter manifest twice,
      unless the signed manifests of two adapters have different texts and one digest. */
  lemma {:induction false} CompiledActivatableIff(b: Build, m: BuildManifest)
    requires b.Makes(m) && WellLoaded(b.catalog.bindings) && CleanUris(b.w) && TextsKeepAll(b.w) && SigningOn(b.w)
    ensures OneAdapter(m) ==> exists requested :: Activatable(m, requested)
    ensures (exists requested :: Activatable(m, requested)) ==> OneAdapter(m) || AdaptersCollide(b, m)
  {
    hide Build.Makes, CleanUris, TextsKeepAll, WellLoaded, SigningOn, Activatable, ServesAction, TrimSpace,
         AdaptersCollide, BundleRequest, Given;
    ActivatableIff(m);
    var bundle := BundleIsApproved(b, m);
    forall k | k in m.runtimeActions
      ensures NeedsAdapter(m)
    {
      ServedAction(b, m, k, Ref("", ""));
    }
    if NeedsAdapter(m) {
      if ref :| ServesAll(m, ref) && Given(ref) {
        OneRefOneAdapter(b, m, ref);
      }
      if OneAdapter(m) {
        OneAdapterServed(b, m);
      }
    }
  }

  lemma {:induction false} OneAdapterServed(b: Build, m: BuildManifest)
    requires b.Makes(m) && WellLoaded(b.catalog.bindings) && CleanUris(b.w) && SigningOn(b.w)
    requires OneAdapter(m) && NeedsAdapter(m)
    ensures exists ref :: ServesAll(m, ref) && Given(ref)
  {
    hide Build.Makes, CleanUris, WellLoaded, SigningOn, ServesAction, TrimSpace, Given;
    var k :| k in m.runtimeActions;
    ServedAction(b, m, k, Ref("", ""));
    var ref := m.adapters[m.runtimeActions[k].adapterId].signed.ref;
    forall l | l in m.runtimeActions
      ensures ServesAction(m, m.runtimeActions[l], ref)
    {
      ServedAction(b, m, l, ref);
    }
    assert ServesAll(m, ref);
  }

  // ---------------------------------------------------------------- a build with two adapters

  const FIRST: Binding := Binding("b1", "d1", "c1", "a1", [], "")
  const SECOND: Binding := Binding("b2", "d2", "c2", "a2", [], "")

  /** Two actions, each bound to an adapter of its own. */
  function TwoAdapters(w: Workshop, sources: Sources): Build {
    Build(w, sources, Card("policy", "prod", "scope", ["x", "y"]),
          Catalog([Rule("x", ["c1"]), Rule("y", ["c2"])], map["c1" := "stable", "c2" := "stable"], [FIRST, SECOND]),
          map["a1" := AdapterManifest("a1", "1", "p", "m1", [Claim("c1", IMPLEMENTED, ["x"])]),
              "a2" := AdapterManifest("a2", "1", "p", "m2", [Claim("c2", IMPLEMENTED, ["y"])])])
  }

  lemma {:induction false} ExampleTexts()
    ensures TrimSpace("x") == "x" && TrimSpace("y") == "y" && TrimSpace("c1") == "c1" && TrimSpace("c2") == "c2"
    ensures TrimSpace("a1") == "a1" && TrimSpace("a2") == "a2" && TrimSpace(IMPLEMENTED) == IMPLEMENTED
    ensures TrimSpace("stable") == "stable" && TrimSpace("") == ""
    ensures WellLoaded([FIRST, SECOND])
  {
    InkIsTrimmed("x"); InkIsTrimmed("y"); InkIsTrimmed("c1"); InkIsTrimmed("c2"); InkIsTrimmed("a1"); InkIsTrimmed("a2");
    InkIsTrimmed(IMPLEMENTED); InkIsTrimmed("stable");
    InkIsNotBlank("b1"); InkIsNotBlank("b2"); InkIsNotBlank("d1"); InkIsNotBlank("d2");
  }

  lemma {:induction false} ExampleGrants(w: Workshop, sources: Sources)
    ensures var grants := TwoAdapters(w, sources).AllGrants();
            && grants.Some? && |grants.value| == 2
            && grants.value[0].adapterId == "a1" && grants.value[1].adapterId == "a2"
            && grants.value[0].id == GrantId(w.hash, ["policy", "a1", "c1", "x", "scope"])
            && grants.value[1].id == GrantId(w.hash, ["policy", "a2", "c2", "y", "scope"])
  {
    hide TrimSpace, GrantId, DigestText;
    ExampleTexts();
    var b := TwoAdapters(w, sources);
    assert b.catalog.rules[1..] == [Rule("y", ["c2"])] && b.catalog.bindings[1..] == [SECOND];
    assert Contains(["x"], "x") by { assert TrimSpace(["x"][0]) == TrimSpace("x"); }
    assert Contains(["y"], "y") by { assert TrimSpace(["y"][0]) == TrimSpace("y"); }
    var g := GrantFor(w.hash, w.fieldsText, b.card, b.catalog, b.manifests, "x");
    assert Implements(b.manifests["a1"].claims, "c1", "x");
    assert g.Some?;
    var h := GrantFor(w.hash, w.fieldsText, b.card, b.catalog, b.manifests, "y");
    assert BindingFor([FIRST, SECOND], "c2", "prod") == Some(SECOND);
    assert Implements(b.manifests["a2"].claims, "c2", "y");
    assert h.Some?;
    assert ["x", "y"][..1] == ["x"] && ["x"][..0] == [];
    assert Grants(w.hash, w.fieldsText, b.card, b.catalog, b.manifests, []) == Some([]);
    assert [] + [g.value] == [g.value];
    assert Grants(w.hash, w.fieldsText, b.card, b.catalog, b.manifests, ["x"]) == Some([g.value]);
    assert Grants(w.hash, w.fieldsText, b.card, b.catalog, b.manifests, ["x", "y"]) == Some([g.value] + [h.value]);
  }

  /** A build that compiles and that no request Forge lets through can activate with its runtime bundle. */
  method TwoAdapterBuild(w: Workshop, sources: Sources) returns (m: BuildManifest)
    requires CanEmit(w) && CleanUris(w) && TextsKeepAll(w) && SigningOn(w)
    requires GrantId(w.hash, ["policy", "a1", "c1", "x", "scope"]) != GrantId(w.hash, ["policy", "a2", "c2", "y", "scope"])
    ensures TwoAdapters(w, sources).Makes(m)
    ensures AdaptersCollide(TwoAdapters(w, sources), m) || forall requested :: !Activatable(m, requested)
  {
    hide CanEmit, Build.Makes, TrimSpace, Blank, GrantId, CleanUris, TextsKeepAll, SigningOn, AdaptersCollide, Activatable,
         OneAdapter;
    ExampleTexts();
    ExampleGrants(w, sources);
    var compiled := CompileOne(TwoAdapters(w, sources));
    m := compiled.value;
    ExampleActions(w, sources, m);
    CompiledActivatableIff(TwoAdapters(w, sources), m);
  }

  lemma {:induction false} ExampleActions(w: Workshop, sources: Sources, m: BuildManifest)
    requires TwoAdapters(w, sources).Makes(m)
    requires GrantId(w.hash, ["policy", "a1", "c1", "x", "scope"]) != GrantId(w.hash, ["policy", "a2", "c2", "y", "scope"])
    ensures !OneAdapter(m)
  {
    hide Build.Lists, Build.Signs, Build.Stores, Federates, CreatedBy, GrantId, ProvenanceOf, Grants, BindingRefs;
    ExampleGrants(w, sources);
    var grants := TwoAdapters(w, sources).AllGrants().value;
    assert grants[..1] == [grants[0]];
    var k, l := grants[0].id, grants[1].id;
    assert ActionRefs(grants) == ActionRefs([grants[0]])[l := ActionRefOf(grants[1])];
    assert [grants[0]][..0] == [];
    assert ActionRefs([grants[0]]) == map[k := ActionRefOf(grants[0])];
    assert m.runtimeActions[k].adapterId == "a1" && m.runtimeActions[l].adapterId == "a2";
  }
}
