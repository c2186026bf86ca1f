/** The part of the policy compiler that decides what a build manifest says about adapters, bindings, runtime actions
    and signed outputs (internal/forge/compiler/compiler.go), with the binding loader and the catalog lookups it rests
    on (internal/core/registry/registry.go).

    The JSON texts of artifacts, envelopes and bindings are parameters, as are the addresses the artifact store gives.
 */
module Compiler {
  import opened Basics
  import opened Signing

  datatype Binding = Binding(
    id: string, digest: string, capabilityId: string, adapterId: string, stages: seq<string>, status: string)

  datatype Claim = Claim(capabilityId: string, status: string, actions: seq<string>)

  datatype AdapterManifest = AdapterManifest(
    adapterId: string, version: string, protocol: string, digest: string, claims: seq<Claim>)

  type Manifests = map<string, AdapterManifest>

  datatype Rule = Rule(action: string, capabilityIds: seq<string>)

  /** `capabilities` gives the status of each known capability. */
  datatype Catalog = Catalog(rules: seq<Rule>, capabilities: map<string, string>, bindings: seq<Binding>)

  datatype Card = Card(id: string, stage: string, scope: string, actions: seq<string>)

  datatype Grant = Grant(
    id: string, bindingId: string, bindingDigest: string, adapterId: string, manifestDigest: string,
    capabilityId: string, actionType: string, actionDigest: string)

  const IMPLEMENTED: string := "implemented"
  const PLANNED: string := "planned"

  predicate Contains(values: seq<string>, needle: string) {
    exists i :: 0 <= i < |values| && TrimSpace(values[i]) == TrimSpace(needle)
  }

  function First16(s: string): string {
    if |s| <= 16 then s else s[..16]
  }

  // ---------------------------------------------------------------- loading bindings

  predicate Loadable(b: Binding) {
    && !Blank(b.capabilityId) && !Blank(b.adapterId)
    && (Blank(b.status) || TrimSpace(b.status) in {IMPLEMENTED, PLANNED, "experimental"})
  }

  /** A binding as the catalog holds it: with an identifier, made from its digest if it had none, and its digest. */
  function Loaded(hash: HashFn, text: Binding -> string, b: Binding): (r: Binding)
    ensures !Blank(r.id) && !Blank(r.digest)
    ensures r.capabilityId == b.capabilityId && r.adapterId == b.adapterId && r.stages == b.stages && r.status == b.status
  {
    var made := "adapter_binding." + First16(Hex(hash(text(b))));
    InkIsNotBlank(made);
    InkIsNotBlank(DigestText(hash, text(b)));
    b.(id := if Blank(b.id) then made else b.id, digest := DigestText(hash, text(b)))
  }

  /** A loaded binding keeps an identifier it was given and gets one made from its digest otherwise; its digest is that of its
      text. */
  lemma {:induction false} LoadedIs(hash: HashFn, text: Binding -> string, b: Binding)
    ensures Loaded(hash, text, b)
            == b.(id := if Blank(b.id) then "adapter_binding." + First16(Hex(hash(text(b)))) else b.id,
                  digest := DigestText(hash, text(b)))
  {
  }

  lemma {:induction false} First16Is(s: string)
    ensures First16(s) <= s && |First16(s)| == if |s| < 16 then |s| else 16
  {
  }

  /** loadAdapterBindings, after the file is decoded. */
  method LoadAdapterBindings(hash: HashFn, text: Binding -> string, raw: seq<Binding>)
    returns (bs: Option<seq<Binding>>)
    ensures bs.Some? <==> forall i :: 0 <= i < |raw| ==>
                            && !Blank(raw[i].capabilityId) && !Blank(raw[i].adapterId)
                            && TrimSpace(raw[i].status) in {"", "implemented", "planned", "experimental"}
    ensures bs.Some? ==> |bs.value| == |raw| && forall i :: 0 <= i < |raw| ==> bs.value[i] == Loaded(hash, text, raw[i])
    ensures bs.Some? ==> WellLoaded(bs.value)
  {
    var bindings := [];
    for i := 0 to |raw|
      invariant |bindings| == i && WellLoaded(bindings)
      invariant forall k :: 0 <= k < i ==> Loadable(raw[k]) && bindings[k] == Loaded(hash, text, raw[k])
    {
      LoadableIff(raw[i]);
      if Blank(raw[i].capabilityId) || Blank(raw[i].adapterId) { return None; }
      if !Blank(raw[i].status) && TrimSpace(raw[i].status) !in {IMPLEMENTED, PLANNED, "experimental"} { return None; }
      bindings := bindings + [Loaded(hash, text, raw[i])];
    }
    return Some(bindings);
  }

  /** What every loaded binding has. */
  predicate WellLoaded(bindings: seq<Binding>) {
    forall i :: 0 <= i < |bindings| ==> Named(bindings[i])
  }

  predicate Named(b: Binding) {
    !Blank(b.id) && !Blank(b.digest) && !Blank(b.capabilityId) && !Blank(b.adapterId)
  }

  lemma {:induction false} LoadableIff(b: Binding)
    ensures Loadable(b)
            <==> && !Blank(b.capabilityId) && !Blank(b.adapterId)
                 && TrimSpace(b.status) in {"", "implemented", "planned", "experimental"}
  {
  }

  // ---------------------------------------------------------------- catalog lookups

  /** RuntimeActionRule: the first rule for an action. */
  function RuleFor(rules: seq<Rule>, action: string): (rule: Option<Rule>)
    ensures rule.Some? ==> exists i :: && 0 <= i < |rules| && rules[i] == rule.value
                                       && TrimSpace(rules[i].action) == TrimSpace(action)
                                       && forall j :: 0 <= j < i ==> TrimSpace(rules[j].action) != TrimSpace(action)
    ensures rule.None? ==> forall i :: 0 <= i < |rules| ==> TrimSpace(rules[i].action) != TrimSpace(action)
  {
    if rules == [] then None
    else if TrimSpace(rules[0].action) == TrimSpace(action) then Some(rules[0])
    else
      var rest := RuleFor(rules[1..], action);
      assert forall i :: 1 <= i < |rules| ==> rules[i] == rules[1..][i - 1];
      rest
  }

  predicate Binds(b: Binding, capabilityId: string, stage: string) {
    && TrimSpace(b.capabilityId) == TrimSpace(capabilityId)
    && TrimSpace(b.status) in {"", IMPLEMENTED}
    && (b.stages == [] || Contains(b.stages, stage))
  }

  /** AdapterBinding: the first binding that serves a capability in a stage. */
  function BindingFor(bindings: seq<Binding>, capabilityId: string, stage: string): (b: Option<Binding>)
    ensures b.Some? ==> b.value in bindings && Binds(b.value, capabilityId, stage)
    ensures b.Some? ==> exists i :: && 0 <= i < |bindings| && bindings[i] == b.value
                                    && forall j :: 0 <= j < i ==> !Binds(bindings[j], capabilityId, stage)
    ensures b.None? ==> forall i :: 0 <= i < |bindings| ==> !Binds(bindings[i], capabilityId, stage)
  {
    if bindings == [] then None
    else if Binds(bindings[0], capabilityId, stage) then Some(bindings[0])
    else
      var rest := BindingFor(bindings[1..], capabilityId, stage);
      assert forall i :: 1 <= i < |bindings| ==> bindings[i] == bindings[1..][i - 1];
      rest
  }

  /** adapterManifestImplements: the first claim about a capability decides. */
  predicate Implements(claims: seq<Claim>, capabilityId: string, action: string) {
    && claims != []
    && if TrimSpace(claims[0].capabilityId) != capabilityId then Implements(claims[1..], capabilityId, action)
       else TrimSpace(claims[0].status) == IMPLEMENTED && Contains(claims[0].actions, action)
  }

  /** The manifest implements a capability for an action exactly when the first claim about the capability is marked
      implemented and lists the action. */
  lemma {:induction false} ImplementsIff(claims: seq<Claim>, capabilityId: string, action: string)
    ensures Implements(claims, capabilityId, action)
            <==> exists i :: && 0 <= i < |claims| && FirstClaim(claims, capabilityId, i)
                             && TrimSpace(claims[i].status) == "implemented"
                             && exists k :: 0 <= k < |claims[i].actions| && TrimSpace(claims[i].actions[k]) == TrimSpace(action)
  {
    hide TrimSpace;
    if claims != [] {
      var rest := claims[1..];
      ImplementsIff(rest, capabilityId, action);
      forall i | 1 <= i < |claims|
        ensures claims[i] == rest[i - 1]
        ensures TrimSpace(claims[0].capabilityId) != capabilityId ==>
                  (FirstClaim(claims, capabilityId, i) <==> FirstClaim(rest, capabilityId, i - 1))
      {
      }
      if TrimSpace(claims[0].capabilityId) == capabilityId {
        assert FirstClaim(claims, capabilityId, 0);
      } else if Implements(rest, capabilityId, action) {
        var i :| && 0 <= i < |rest| && FirstClaim(rest, capabilityId, i) && TrimSpace(rest[i].status) == "implemented"
                 && exists k :: 0 <= k < |rest[i].actions| && TrimSpace(rest[i].actions[k]) == TrimSpace(action);
        assert claims[i + 1] == rest[i] && FirstClaim(claims, capabilityId, i + 1);
      }
    }
  }

  predicate FirstClaim(claims: seq<Claim>, capabilityId: string, i: nat) {
    && i < |claims| && TrimSpace(claims[i].capabilityId) == capabilityId
    && forall j :: 0 <= j < i ==> TrimSpace(claims[j].capabilityId) != capabilityId
  }

  // ---------------------------------------------------------------- grants

  function GrantId(hash: HashFn, fields: seq<string>): string
    requires fields != []
  {
    "grant." + First16(Hex(hash(Join(fields))))
  }

  /** runtimeCapabilityGrant: `text` is the JSON object of the digested fields. */
  function GrantFor(
    hash: HashFn, text: seq<string> -> string, card: Card, catalog: Catalog, manifests: Manifests, action: string)
    : Option<Grant>
  {
    match RuleFor(catalog.rules, action)
    case None => None
    case Some(rule) =>
      if |rule.capabilityIds| != 1 then None
      else
        var capability := rule.capabilityIds[0];
        if capability !in catalog.capabilities || TrimSpace(catalog.capabilities[capability]) == PLANNED then None
        else
          match BindingFor(catalog.bindings, capability, card.stage)
          case None => None
          case Some(b) =>
            var adapter := TrimSpace(b.adapterId);
            if adapter !in manifests || !Implements(manifests[adapter].claims, capability, action) then None
            else
              var digest := manifests[adapter].digest;
              var fields := [card.id, adapter, capability, action, card.scope];
              Some(Grant(GrantId(hash, fields), b.id, b.digest, adapter, digest, capability, action,
                         DigestText(hash, text(fields + [b.digest, digest]))))
  }

  /** An action has a grant exactly when its first rule names one capability that the catalog knows and does not merely plan,
      a binding serves it in the policy's stage, and the bound adapter's manifest implements it for the action. */
  lemma {:induction false} GrantForIff(
    hash: HashFn, text: seq<string> -> string, card: Card, catalog: Catalog, manifests: Manifests, action: string)
    ensures GrantFor(hash, text, card, catalog, manifests, action).Some?
            <==> exists rule, b ::
                   && RuleFor(catalog.rules, action) == Some(rule) && |rule.capabilityIds| == 1
                   && rule.capabilityIds[0] in catalog.capabilities
                   && TrimSpace(catalog.capabilities[rule.capabilityIds[0]]) != "planned"
                   && BindingFor(catalog.bindings, rule.capabilityIds[0], card.stage) == Some(b)
                   && TrimSpace(b.adapterId) in manifests
                   && Implements(manifests[TrimSpace(b.adapterId)].claims, rule.capabilityIds[0], action)
  {
    hide TrimSpace, RuleFor, BindingFor, Implements, DigestText, GrantId;
  }

  /** The grants of all actions of a policy, in order; none if one action has no grant. */
  function Grants(
    hash: HashFn, text: seq<string> -> string, card: Card, catalog: Catalog, manifests: Manifests, actions: seq<string>)
    : (grants: Option<seq<Grant>>)
  {
    if actions == [] then Some([])
    else
      match Grants(hash, text, card, catalog, manifests, actions[..|actions| - 1])
      case None => None
      case Some(grants) =>
        match GrantFor(hash, text, card, catalog, manifests, actions[|actions| - 1])
        case None => None
        case Some(g) => Some(grants + [g])
  }

  lemma {:induction false} GrantIdIs(hash: HashFn, fields: seq<string>)
    requires fields != []
    ensures GrantId(hash, fields) == "grant." + First16(Hex(hash(Join(fields))))
  {
  }

  // ---------------------------------------------------------------- emitted artifacts

  datatype Ref = Ref(uri: string, sha: string)

  datatype SignedOutput = SignedOutput(ref: Ref, envelopeSha: string, payloadSha: string, keyId: string)

  const UNSIGNED: SignedOutput := SignedOutput(Ref("", ""), "", "", "")

  datatype Emitted = Emitted(ref: Ref, signed: Option<SignedOutput>)

  /** What compiling runs on: hashing, signing, the artifact store's addresses and the JSON texts. */
  datatype Workshop = Workshop(
    hash: HashFn,
    scheme: Scheme,
    signer: Option<Signer>,
    signingKeyId: string,
    expiresAt: Time,
    now: Time,
    payload: string -> string,
    envelopeText: Envelope -> string,
    fieldsText: seq<string> -> string,
    uri: (string, string) -> string)

  function Put(w: Workshop, id: string, payload: string): Ref {
    var sha := DigestText(w.hash, payload);
    Ref(w.uri(id, sha), sha)
  }

  /** The envelope of an emitted artifact, if the signer signs. */
  function SignedEnvelope(w: Workshop, policyId: string, commit: string, id: string): Option<Envelope>
    requires w.signer.Some?
  {
    Sign(w.hash, w.scheme, w.signer.value, w.payload(id),
         Metadata(w.signingKeyId, commit, policyId, Some(w.expiresAt)), w.now)
  }

  /** emitJSONArtifact: stored, and with a signer also signed and stored again. */
  function Emit(w: Workshop, policyId: string, commit: string, id: string): Option<Emitted> {
    var ref := Put(w, id, w.payload(id));
    if w.signer.None? then Some(Emitted(ref, None))
    else
      match SignedEnvelope(w, policyId, commit, id)
      case None => None
      case Some(e) =>
        var data := w.envelopeText(e);
        Some(Emitted(ref, Some(SignedOutput(Put(w, "signed." + id, data), DigestText(w.hash, data), e.payloadSha, e.keyId))))
  }

  /** The signer signs: it has a private key, and the configured key is its own. */
  predicate CanEmit(w: Workshop) {
    w.signer.Some? ==>
      && |w.signer.value.privateKey| == PRIVATE_KEY_SIZE && w.signer.value.keyId != ""
      && w.signingKeyId in {"", w.signer.value.keyId}
  }

  /** Emission fails for every artifact or for none. */
  lemma {:induction false} EmitIff(w: Workshop, policyId: string, commit: string, id: string)
    ensures Emit(w, policyId, commit, id).Some? <==> CanEmit(w)
  {
  }

  function SignedRef(outputs: map<string, Emitted>, id: string): SignedOutput {
    if id in outputs && outputs[id].signed.Some? then outputs[id].signed.value else UNSIGNED
  }

  lemma {:induction false} SignedRefIs(outputs: map<string, Emitted>, id: string, signed: SignedOutput)
    ensures id in outputs && outputs[id].signed == Some(signed) ==> SignedRef(outputs, id) == signed
    ensures id !in outputs || outputs[id].signed.None? ==> SignedRef(outputs, id) == UNSIGNED
  {
  }

  // ---------------------------------------------------------------- the parts of the manifest

  datatype AdapterRef = AdapterRef(
    adapterId: string, version: string, digest: string, protocol: string, signed: SignedOutput)

  datatype BindingRef = BindingRef(id: string, digest: string, adapterId: string, capabilityId: string)

  datatype ActionRef = ActionRef(
    grantId: string, bindingId: string, adapterId: string, manifestDigest: string, capabilityId: string,
    actionType: string, actionDigest: string)

  predicate Uses(grants: seq<Grant>, id: string) {
    id != "" && exists i :: 0 <= i < |grants| && TrimSpace(grants[i].adapterId) == id
  }

  /** The manifests of the adapters that some grant names. */
  function Used(grants: seq<Grant>, manifests: Manifests): Manifests {
    map id | id in manifests && Uses(grants, id) :: manifests[id]
  }

  method AdapterManifestsForRuntimeBundle(grants: seq<Grant>, manifests: Manifests) returns (used: Manifests)
    ensures used == Used(grants, manifests)
  {
    used := map[];
    for i := 0 to |grants|
      invariant used == Used(grants[..i], manifests)
    {
      assert forall id :: Uses(grants[..i + 1], id) <==> Uses(grants[..i], id) || (id != "" && TrimSpace(grants[i].adapterId) == id)
      by {
        UsesNext(grants, i);
      }
      var id := TrimSpace(grants[i].adapterId);
      if id != "" && id in manifests {
        used := used[id := manifests[id]];
      }
    }
    assert grants[..|grants|] == grants;
  }

  lemma {:induction false} UsesNext(grants: seq<Grant>, i: nat)
    requires i < |grants|
    ensures forall id :: Uses(grants[..i + 1], id)
                         <==> Uses(grants[..i], id) || (id != "" && TrimSpace(grants[i].adapterId) == id)
  {
    hide TrimSpace;
    var before, after := grants[..i], grants[..i + 1];
    assert after == before + [grants[i]];
    forall id
      ensures Uses(after, id) <==> Uses(before, id) || (id != "" && TrimSpace(grants[i].adapterId) == id)
    {
      if Uses(before, id) {
        var k :| 0 <= k < |before| && TrimSpace(before[k].adapterId) == id;
        assert TrimSpace(after[k].adapterId) == id;
      }
      assert TrimSpace(after[i].adapterId) == TrimSpace(grants[i].adapterId);
    }
  }

  /** One signed manifest per used adapter. */
  ghost predicate EmittedFor(
    w: Workshop, policyId: string, commit: string, ids: set<string>, outputs: map<string, Emitted>) {
    && outputs.Keys == ids
    && forall id :: id in ids ==> Some(outputs[id]) == Emit(w, policyId, commit, "adapter_manifest." + id)
  }

  method EmitAdapterManifestArtifacts(w: Workshop, policyId: string, commit: string, used: Manifests)
    returns (outputs: Option<map<string, Emitted>>)
    ensures outputs.None? <==> used != map[] && !CanEmit(w)
    ensures outputs.Some? ==> EmittedFor(w, policyId, commit, used.Keys, outputs.value)
  {
    hide Emit, CanEmit;
    var emitted: map<string, Emitted>, todo := map[], used.Keys;
    while todo != {}
      invariant todo <= used.Keys && EmittedFor(w, policyId, commit, used.Keys - todo, emitted)
    {
      var id :| id in todo;
      EmitIff(w, policyId, commit, "adapter_manifest." + id);
      var output := Emit(w, policyId, commit, "adapter_manifest." + id);
      if output.None? { return None; }
      emitted, todo := emitted[id := output.value], todo - {id};
    }
    if used.Keys != {} {
      var id :| id in used.Keys;
      EmitIff(w, policyId, commit, "adapter_manifest." + id);
    }
    return Some(emitted);
  }

  function AdapterRefOf(m: AdapterManifest, signed: SignedOutput): AdapterRef {
    AdapterRef(m.adapterId, m.version, m.digest, m.protocol, signed)
  }

  method AdapterManifestRefs(used: Manifests, outputs: map<string, Emitted>) returns (refs: map<string, AdapterRef>)
    ensures refs == map id | id in used :: AdapterRefOf(used[id], SignedRef(outputs, id))
  {
    var todo := used.Keys;
    refs := map[];
    while todo != {}
      invariant todo <= used.Keys && refs.Keys == used.Keys - todo
      invariant forall id :: id in refs ==> refs[id] == AdapterRefOf(used[id], SignedRef(outputs, id))
    {
      var id :| id in todo;
      refs, todo := refs[id := AdapterRefOf(used[id], SignedRef(outputs, id))], todo - {id};
    }
  }

  function BindingRefOf(g: Grant): BindingRef {
    BindingRef(g.bindingId, g.bindingDigest, g.adapterId, g.capabilityId)
  }

  function ActionRefOf(g: Grant): ActionRef {
    ActionRef(g.id, g.bindingId, g.adapterId, g.manifestDigest, g.capabilityId, g.actionType, g.actionDigest)
  }

  /** Bindings by identifier; the last grant that names one describes it. */
  function BindingRefs(grants: seq<Grant>): map<string, BindingRef> {
    if grants == [] then map[]
    else
      var g, rest := grants[|grants| - 1], BindingRefs(grants[..|grants| - 1]);
      if Blank(g.bindingId) then rest else rest[g.bindingId := BindingRefOf(g)]
  }

  function ActionRefs(grants: seq<Grant>): map<string, ActionRef> {
    if grants == [] then map[]
    else
      var g := grants[|grants| - 1];
      ActionRefs(grants[..|grants| - 1])[g.id := ActionRefOf(g)]
  }

  /** bindingRefsFromRuntimeBundle and runtimeActionRefsFromRuntimeBundle. */
  method ReferencesFromRuntimeBundle(grants: seq<Grant>)
    returns (bindings: map<string, BindingRef>, actions: map<string, ActionRef>)
    ensures bindings == BindingRefs(grants) && actions == ActionRefs(grants)
  {
    hide Blank;
    bindings, actions := map[], map[];
    for i := 0 to |grants|
      invariant bindings == BindingRefs(grants[..i]) && actions == ActionRefs(grants[..i])
    {
      assert grants[..i + 1][..i] == grants[..i];
      if !Blank(grants[i].bindingId) {
        bindings := bindings[grants[i].bindingId := BindingRefOf(grants[i])];
      }
      actions := actions[grants[i].id := ActionRefOf(grants[i])];
    }
    assert grants[..|grants|] == grants;
  }

  /** The contents a build is made from; a source that cannot be read has none. */
  datatype Sources = Sources(
    commit: string,
    creators: seq<string>,
    policyRepo: Option<string>,
    coreRegistry: Option<string>,
    enterpriseRegistry: Option<string>,
    catalog: Option<string>,
    profile: Option<string>,
    riskRecipe: Option<string>)

  /** pathSHA256 and digestJSON. */
  function SourceDigest(hash: HashFn, content: Option<string>): string {
    if content.None? then DIGEST_PREFIX + "unavailable" else DigestText(hash, content.value)
  }

  /** buildCreatedBy: the first configured name that is not blank. */
  function CreatedBy(creators: seq<string>): (name: string)
    ensures !Blank(name)
    ensures (forall i :: 0 <= i < |creators| ==> Blank(creators[i])) ==> name == "local-compiler"
    ensures forall i :: 0 <= i < |creators| && !Blank(creators[i]) && (forall j :: 0 <= j < i ==> Blank(creators[j])) ==>
                          name == TrimSpace(creators[i])
  {
    if creators == [] then
      InkIsNotBlank("local-compiler");
      "local-compiler"
    else if !Blank(creators[0]) then
      TrimTwice(creators[0]);
      TrimSpace(creators[0])
    else
      assert forall i :: 1 <= i < |creators| ==> creators[i] == creators[1..][i - 1];
      CreatedBy(creators[1..])
  }

  datatype Provenance = Provenance(
    policyRepo: string, coreRegistry: string, enterpriseRegistry: string, catalog: string, profile: string,
    riskRecipe: string)

  function ProvenanceOf(hash: HashFn, s: Sources): Provenance {
    Provenance(SourceDigest(hash, s.policyRepo), SourceDigest(hash, s.coreRegistry),
               SourceDigest(hash, s.enterpriseRegistry), SourceDigest(hash, s.catalog), SourceDigest(hash, s.profile),
               SourceDigest(hash, s.riskRecipe))
  }

  function SourceDigests(p: Provenance): map<string, string> {
    map["core_registry" := p.coreRegistry,
        "enterprise_registry" := p.enterpriseRegistry,
        "policy_repo" := p.policyRepo,
        "catalog" := p.catalog,
        "profile" := p.profile,
        "risk_recipe" := p.riskRecipe]
  }

  const ADAPTER: string := "adapter:"

  /** The six digests of the sources and, under its own name, the digest of every used manifest that has one. */
  ghost predicate Federates(p: Provenance, used: Manifests, digests: map<string, string>) {
    && (forall k :: k in SourceDigests(p) ==> k in digests && digests[k] == SourceDigests(p)[k])
    && (forall id :: id in used && !Blank(used[id].digest) ==>
          ADAPTER + id in digests && digests[ADAPTER + id] == TrimSpace(used[id].digest))
    && (forall k :: k in digests && k !in SourceDigests(p) ==>
          exists id :: id in used && !Blank(used[id].digest) && k == ADAPTER + id)
  }

  lemma {:induction false} AdapterKeysApart(p: Provenance, a: string, b: string)
    ensures ADAPTER + a !in SourceDigests(p)
    ensures ADAPTER + a == ADAPTER + b ==> a == b
  {
    assert (ADAPTER + a)[7] == ':' && (ADAPTER + a)[..7] == "adapter";
    assert (ADAPTER + a)[8..] == a && (ADAPTER + b)[8..] == b;
    assert forall k :: k in SourceDigests(p) ==> k[0] != 'a';
    assert (ADAPTER + a)[0] == 'a';
  }

  method FederatedSourceDigests(p: Provenance, used: Manifests) returns (digests: map<string, string>)
    ensures Federates(p, used, digests)
  {
    hide SourceDigests, Blank, TrimSpace;
    digests := SourceDigests(p);
    var todo := used.Keys;
    ghost var done := map[];
    while todo != {}
      invariant todo <= used.Keys && done == map id | id in used && id !in todo :: used[id]
      invariant Federates(p, done, digests)
    {
      var id :| id in todo;
      ghost var before := done;
      todo := todo - {id};
      done := done[id := used[id]];
      if !Blank(used[id].digest) {
        forall k
          ensures ADAPTER + id !in SourceDigests(p) && (ADAPTER + id == ADAPTER + k ==> id == k)
        {
          AdapterKeysApart(p, id, k);
        }
        digests := digests[ADAPTER + id := TrimSpace(used[id].digest)];
      }
    }
    assert done == used;
  }

  const MANIFEST_OUTPUT: string := "adapter_manifest:"
  const PLAIN_OUTPUTS: set<string> := {"resolved_policy", "runtime_bundle", "context_route_pack", "conformance_expectation"}

  function PlainId(name: string, policyId: string): string {
    (if name == "resolved_policy" then "resolved" else name) + "." + policyId
  }

  function SignedPart(o: Option<Emitted>): SignedOutput {
    if o.Some? && o.value.signed.Some? then o.value.signed.value else UNSIGNED
  }

  lemma {:induction false} OutputKeysApart(a: string, b: string)
    ensures MANIFEST_OUTPUT + a !in PLAIN_OUTPUTS
    ensures MANIFEST_OUTPUT + a == MANIFEST_OUTPUT + b ==> a == b
  {
    assert (MANIFEST_OUTPUT + a)[16] == ':';
    assert forall n :: n in PLAIN_OUTPUTS ==> |n| <= 16 || n[16] != ':';
    assert (MANIFEST_OUTPUT + a)[17..] == a && (MANIFEST_OUTPUT + b)[17..] == b;
  }

  /** adapterManifestSignedOutputMap and mergeEmittedArtifacts: the adapters' outputs beside the plain ones. */
  method MergedOutputs(plain: map<string, Emitted>, outputs: map<string, Emitted>) returns (all: map<string, Emitted>)
    requires plain.Keys == PLAIN_OUTPUTS
    ensures all.Keys == PLAIN_OUTPUTS + set id | id in outputs :: MANIFEST_OUTPUT + id
    ensures forall name :: name in PLAIN_OUTPUTS ==> all[name] == plain[name]
    ensures forall id :: id in outputs ==> all[MANIFEST_OUTPUT + id] == outputs[id]
  {
    all := plain;
    var todo := outputs.Keys;
    while todo != {}
      invariant todo <= outputs.Keys
      invariant all.Keys == PLAIN_OUTPUTS + set id | id in outputs && id !in todo :: MANIFEST_OUTPUT + id
      invariant forall name :: name in PLAIN_OUTPUTS ==> all[name] == plain[name]
      invariant forall id :: id in outputs && id !in todo ==> all[MANIFEST_OUTPUT + id] == outputs[id]
    {
      var id :| id in todo;
      forall k
        ensures MANIFEST_OUTPUT + id !in PLAIN_OUTPUTS && (MANIFEST_OUTPUT + id == MANIFEST_OUTPUT + k ==> id == k)
      {
        OutputKeysApart(id, k);
      }
      all, todo := all[MANIFEST_OUTPUT + id := outputs[id]], todo - {id};
    }
  }

  method SignedOutputs(outputs: map<string, Emitted>) returns (signed: map<string, SignedOutput>)
    ensures signed == map name | name in outputs && outputs[name].signed.Some? :: outputs[name].signed.value
  {
    var todo := outputs.Keys;
    signed := map[];
    while todo != {}
      invariant todo <= outputs.Keys
      invariant forall name :: name in signed <==> name in outputs && name !in todo && outputs[name].signed.Some?
      invariant forall name :: name in signed ==> signed[name] == outputs[name].signed.value
    {
      var name :| name in todo;
      todo := todo - {name};
      if outputs[name].signed.Some? {
        signed := signed[name := outputs[name].signed.value];
      }
    }
  }

  // ---------------------------------------------------------------- the manifest

  datatype BuildManifest = BuildManifest(
    id: string,
    createdBy: string,
    commit: string,
    provenance: Provenance,
    adapters: map<string, AdapterRef>,
    bindings: map<string, BindingRef>,
    runtimeActions: map<string, ActionRef>,
    federated: map<string, string>,
    artifactRefs: map<string, Ref>,
    signedOutputs: map<string, SignedOutput>)

  datatype Build = Build(w: Workshop, sources: Sources, card: Card, catalog: Catalog, manifests: Manifests) {
    function AllGrants(): Option<seq<Grant>> {
      Grants(w.hash, w.fieldsText, card, catalog, manifests, card.actions)
    }

    function Emission(id: string): Option<Emitted> {
      Emit(w, card.id, sources.commit, id)
    }

    /** The manifest of this build. */
    ghost predicate Makes(m: BuildManifest) {
      && AllGrants().Some?
      && m.id == "build." + card.id
      && m.createdBy == CreatedBy(sources.creators)
      && m.commit == sources.commit
      && m.provenance == ProvenanceOf(w.hash, sources)
      && m.bindings == BindingRefs(AllGrants().value)
      && m.runtimeActions == ActionRefs(AllGrants().value)
      && var used := Used(AllGrants().value, manifests);
      && Federates(ProvenanceOf(w.hash, sources), used, m.federated)
      && Lists(m.adapters, used)
      && Stores(m.artifactRefs)
      && Signs(m.signedOutputs, used)
    }

    ghost predicate Lists(adapters: map<string, AdapterRef>, used: Manifests) {
      && adapters.Keys == used.Keys
      && (forall id :: id in used ==>
            adapters[id] == AdapterRefOf(used[id], SignedPart(Emission("adapter_manifest." + id))))
    }

    ghost predicate Stores(refs: map<string, Ref>) {
      && refs.Keys == PLAIN_OUTPUTS
      && (forall name :: name in PLAIN_OUTPUTS ==>
            Emission(PlainId(name, card.id)).Some? && refs[name] == Emission(PlainId(name, card.id)).value.ref)
    }

    /** Without a signer nothing is listed as signed; with one, every plain output and every used adapter is. */
    ghost predicate Signs(signed: map<string, SignedOutput>, used: Manifests) {
      if w.signer.None? then signed == map[]
      else
        && signed.Keys == PLAIN_OUTPUTS + (set id | id in used :: MANIFEST_OUTPUT + id)
        && (forall name :: name in PLAIN_OUTPUTS ==> signed[name] == SignedPart(Emission(PlainId(name, card.id))))
        && (forall id :: id in used ==>
              signed[MANIFEST_OUTPUT + id] == SignedPart(Emission("adapter_manifest." + id)))
    }
  }

  /** runtimeBundleArtifact: one grant per runtime action. */
  method RuntimeBundleGrants(b: Build) returns (grants: Option<seq<Grant>>)
    ensures grants == b.AllGrants()
  {
    hide GrantFor;
    var found := [];
    var actions := b.card.actions;
    for i := 0 to |actions|
      invariant Grants(b.w.hash, b.w.fieldsText, b.card, b.catalog, b.manifests, actions[..i]) == Some(found)
    {
      assert actions[..i + 1][..i] == actions[..i];
      var g := GrantFor(b.w.hash, b.w.fieldsText, b.card, b.catalog, b.manifests, actions[i]);
      if g.None? {
        GrantsStuck(b, i + 1);
        return None;
      }
      found := found + [g.value];
    }
    assert actions[..|actions|] == actions;
    return Some(found);
  }

  lemma {:induction false} GrantsStuck(b: Build, n: nat)
    requires n <= |b.card.actions|
    requires Grants(b.w.hash, b.w.fieldsText, b.card, b.catalog, b.manifests, b.card.actions[..n]).None?
    ensures b.AllGrants().None?
    decreases |b.card.actions| - n
  {
    var actions := b.card.actions;
    if n < |actions| {
      assert actions[..n + 1][..n] == actions[..n];
      GrantsStuck(b, n + 1);
    } else {
      assert actions[..n] == actions;
    }
  }

  method EmitPlain(b: Build) returns (plain: Option<map<string, Emitted>>)
    ensures plain.Some? <==> CanEmit(b.w)
    ensures plain.Some? ==> plain.value.Keys == PLAIN_OUTPUTS
    ensures plain.Some? ==>
              forall name :: name in PLAIN_OUTPUTS ==> Some(plain.value[name]) == b.Emission(PlainId(name, b.card.id))
  {
    hide Emit, CanEmit;
    var out: map<string, Emitted>, todo := map[], PLAIN_OUTPUTS;
    EmitIff(b.w, b.card.id, b.sources.commit, PlainId("runtime_bundle", b.card.id));
    while todo != {}
      invariant todo <= PLAIN_OUTPUTS && out.Keys == PLAIN_OUTPUTS - todo
      invariant forall name :: name in out ==> Some(out[name]) == b.Emission(PlainId(name, b.card.id))
    {
      var name :| name in todo;
      EmitIff(b.w, b.card.id, b.sources.commit, PlainId(name, b.card.id));
      var output := b.Emission(PlainId(name, b.card.id));
      if output.None? { return None; }
      out, todo := out[name := output.value], todo - {name};
    }
    assert "runtime_bundle" in out;
    return Some(out);
  }

  method CompileAdapters(b: Build, used: Manifests)
    returns (outputs: Option<map<string, Emitted>>, adapters: map<string, AdapterRef>)
    ensures outputs.None? <==> used != map[] && !CanEmit(b.w)
    ensures outputs.Some? ==> EmittedFor(b.w, b.card.id, b.sources.commit, used.Keys, outputs.value)
    ensures outputs.Some? ==> b.Lists(adapters, used)
  {
    hide Emit, CanEmit;
    adapters := map[];
    outputs := EmitAdapterManifestArtifacts(b.w, b.card.id, b.sources.commit, used);
    if outputs.Some? {
      adapters := AdapterManifestRefs(used, outputs.value);
    }
  }

  method CompileSignedOutputs(b: Build, plain: map<string, Emitted>, used: Manifests, outputs: map<string, Emitted>)
    returns (signed: map<string, SignedOutput>)
    requires plain.Keys == PLAIN_OUTPUTS
    requires forall name :: name in PLAIN_OUTPUTS ==> Some(plain[name]) == b.Emission(PlainId(name, b.card.id))
    requires EmittedFor(b.w, b.card.id, b.sources.commit, used.Keys, outputs)
    ensures b.Signs(signed, used)
  {
    hide Emit, PlainId, MANIFEST_OUTPUT;
    var all := MergedOutputs(plain, outputs);
    signed := SignedOutputs(all);
    forall id | id in used
      ensures outputs[id].signed.Some? == b.w.signer.Some?
      ensures b.w.signer.Some? ==> outputs[id].signed.value == SignedPart(b.Emission("adapter_manifest." + id))
    {
      EmitSigned(b.w, b.card.id, b.sources.commit, "adapter_manifest." + id);
    }
    forall name | name in PLAIN_OUTPUTS
      ensures plain[name].signed.Some? == b.w.signer.Some?
      ensures b.w.signer.Some? ==> plain[name].signed.value == SignedPart(b.Emission(PlainId(name, b.card.id)))
    {
      EmitSigned(b.w, b.card.id, b.sources.commit, PlainId(name, b.card.id));
    }
    hide SignedPart, EmittedFor, Build.Emission;
    assert signed.Keys == if b.w.signer.None? then {} else all.Keys;
  }

  /** The part of compileOne that makes the manifest. It fails exactly when an action has no grant or the signer cannot
      sign. */
  method CompileOne(b: Build) returns (m: Option<BuildManifest>)
    ensures m.Some? <==> b.AllGrants().Some? && CanEmit(b.w)
    ensures m.Some? ==> b.Makes(m.value)
  {
    hide Emit, CanEmit, Used, BindingRefs, ActionRefs, Federates, SourceDigests, Grants, EmittedFor, Build.Lists,
         Build.Signs, Blank;
    var plain := EmitPlain(b);
    if plain.None? { return None; }
    var grants := RuntimeBundleGrants(b);
    if grants.None? { return None; }
    var used := AdapterManifestsForRuntimeBundle(grants.value, b.manifests);
    var outputs, adapters := CompileAdapters(b, used);
    if outputs.None? { return None; }
    var bindings, actions := ReferencesFromRuntimeBundle(grants.value);
    var provenance := ProvenanceOf(b.w.hash, b.sources);
    var federated := FederatedSourceDigests(provenance, used);
    var signed := CompileSignedOutputs(b, plain.value, used, outputs.value);
    m := Some(BuildManifest("build." + b.card.id, CreatedBy(b.sources.creators), b.sources.commit,
                            provenance, adapters, bindings, actions, federated,
                            map name | name in PLAIN_OUTPUTS :: plain.value[name].ref, signed));
  }

  lemma {:induction false} EmitSigned(w: Workshop, policyId: string, commit: string, id: string)
    ensures Emit(w, policyId, commit, id).Some? ==> Emit(w, policyId, commit, id).value.signed.Some? == w.signer.Some?
  {
  }
}
