/** The managed assignment protocol: Forge signs, publishes and revokes versioned assignments; a KLIQ polls, verifies and
    activates them (signAndStoreAssignment in internal/forge/api/kliq_management.go, LoadManagedBundle in
    internal/kliq/runtime/manager.go, and the parts those calls join).

    The network may deliver any envelope at any time: late, again, out of order, altered, or one that the same key signed
    for another purpose. The one thing required of it is that a signature checks only on a header that key has signed.
 */
module Protocol {
  import opened Basics
  import opened Signing
  import opened Assignment
  import ForgeStores
  import opened ManagedSource
  import opened Activation
  import opened RuntimeBundles

  /** An entry of the publication history. */
  datatype Published = Published(kliq: string, version: int, envelope: Envelope, assignment: Assignment)

  /** Forge's memory store, everything it published, everything else its key signed, and the KLIQ's local tables. */
  datatype System = System(forge: ForgeStores.Memory, history: seq<Published>, others: seq<Envelope>, local: Tables)

  /** The fixed parties: Forge's signing key, the KLIQ's source, its bundle check and its decoders. */
  datatype Parties = Parties(signer: Signer, source: Config, check: BundleCheck, decoders: Decoders) {
    function Hash(): HashFn { source.w.hash }
  }

  /** The clock readings of one poll: verifying the assignment, verifying the bundle, recording it, staging the artifacts,
      activating. */
  datatype Clock = Clock(now: Time, bundleNow: Time, verifiedAt: Time, stagedAt: Time, activatedAt: Time)

  datatype Event =
    | Publish(assignment: Assignment, payload: string, signedAt: Time)
    | SignOther(payload: string, meta: Metadata, signedAt: Time)
    | RevokeAtForge(kliq: string, version: int, at: Time)
    | Poll(envelope: Envelope, clock: Clock, otherChecks: bool)

  // ---------------------------------------------------------------- Forge's step

  /** signAndStoreAssignment from signing on: the envelope is handed out when the store accepts it, be it as the repetition
      of what is stored. */
  function PublishStep(p: Parties, s: System, a: Assignment, payload: string, signedAt: Time): System {
    match Sign(p.Hash(), p.source.w.scheme, p.signer, payload,
               Metadata("", a.sourceCommit, "", Some(a.expiresAt)), signedAt)
    case None => s
    case Some(e) =>
      var saved := ForgeStores.MemorySave(p.Hash(), s.forge, a.kliqId, a.version, e);
      if saved.snd != ForgeStores.Done then s
      else s.(forge := saved.fst, history := s.history + [Published(a.kliqId, a.version, e, a)])
  }

  /** Any other use of the key, such as the approval of a build manifest. */
  function SignOtherStep(p: Parties, s: System, payload: string, meta: Metadata, signedAt: Time): System {
    match Sign(p.Hash(), p.source.w.scheme, p.signer, payload, meta, signedAt)
    case None => s
    case Some(e) => s.(others := s.others + [e])
  }

  // ---------------------------------------------------------------- the KLIQ's step

  function ArtifactStatus(artifactType: string): string {
    if SupportedType(artifactType) then "activated" else "unknown"
  }

  function ArtifactMessage(artifactType: string): string {
    if artifactType == "runtime_bundle" then "runtime bundle verified and active"
    else if artifactType == "adapter_manifest" then
      "adapter manifest verified and active for approved runtime adapter provenance"
    else if artifactType == "adapter_assignment" then
      "adapter assignment validated and available for daemon registry activation"
    else if artifactType == "context_route_pack" then "context route pack validated and active for local context routing"
    else if artifactType == "conformance_expectation" then
      "conformance expectation validated and active for local evidence expectations"
    else if artifactType == "trust_bundle" then "trust bundle validated and active in assignment artifact state"
    else if artifactType == "management_profile" then
      "management profile validated and available for daemon interval control"
    else if artifactType == "fallback_profile" then
      "fallback profile validated and active for local fallback behavior"
    else "artifact type not recognized by activation status mapper"
  }

  /** assignmentArtifactRecords. */
  function RecordsOf(a: Assignment, at: Time): (records: seq<ArtifactRecord>)
    ensures |records| == |a.artifacts| && OwnedBy(records, a.kliqId)
    ensures forall i :: 0 <= i < |records| ==> records[i].artifactType == a.artifacts[i].artifactType
  {
    seq(|a.artifacts|, i requires 0 <= i < |a.artifacts| =>
      var art := a.artifacts[i];
      ArtifactRecord(a.kliqId, a.id, a.version, art.artifactType, art.id, art.ref, art.sha, art.envelope,
                     ArtifactStatus(art.artifactType), ArtifactMessage(art.artifactType), at))
  }

  function StateOf(a: Assignment, digest: string, at: Time): ManagementState {
    ManagementState(a.kliqId, a.id, a.version, a.sourceCommit, digest, a.expiresAt, at)
  }

  /** What SetActiveAssignment is given: the stored state, or nothing active. */
  function ActiveVersion(t: Tables, kliq: string): int {
    if kliq in t.management then t.management[kliq].version else 0
  }

  function ActiveDigest(t: Tables, kliq: string): string {
    if kliq in t.management then t.management[kliq].digest else ""
  }

  function TrimSlashes(s: string): string {
    if s != "" && s[|s| - 1] == '/' then TrimSlashes(s[..|s| - 1]) else s
  }

  /** The reference Load returns beside the bundle. */
  function SourceRef(c: Config, a: Assignment): string {
    TrimSlashes(c.baseUrl) + "/v1/kliq/assignments/" + c.kliqId + "/latest" + "#" + a.id
  }

  /** LoadManagedBundle on one delivered envelope: the tables it commits, if it gets that far. `otherChecks` is the verdict
      of the artifact checks of the manager, which may refuse but not alter. */
  function Activated(p: Parties, t: Tables, e: Envelope, clock: Clock, otherChecks: bool): Option<Tables> {
    var c := p.source;
    if Blank(c.baseUrl) || Blank(c.kliqId) then None
    else
      match VerifiedAssignment(c, ActiveVersion(t, c.kliqId), ActiveDigest(t, c.kliqId), e, clock.now)
      case None => None
      case Some(a) =>
        match FirstBundle(a.artifacts)
        case None => None
        case Some(data) =>
          match p.check.Record(data, SourceRef(c, a), clock.bundleNow, clock.verifiedAt)
          case None => None
          case Some(record) =>
            if !otherChecks then None
            else Commit(p.decoders, t, record, StateOf(a, e.payloadSha, clock.activatedAt), RecordsOf(a, clock.stagedAt))
  }

  function PollStep(p: Parties, t: Tables, e: Envelope, clock: Clock, otherChecks: bool): Tables {
    match Activated(p, t, e, clock, otherChecks)
    case None => t
    case Some(t') => t'
  }

  /** The same step on the objects that carry it: read the state, set it active, load, build the record, save. */
  method LoadManagedBundle(
    store: StateStore, source: Source, check: BundleCheck, response: Envelope, clock: Clock, otherChecks: bool,
    ghost p: Parties)
    returns (ok: bool)
    requires p.source == source.config && p.decoders == store.decoders && p.check == check
    requires source.config.kliqId !in store.tables.management ==> source.activeVersion == 0 && source.activeDigest == ""
    modifies store`tables, source
    ensures ok == Activated(p, old(store.tables), response, clock, otherChecks).Some?
    ensures store.tables == PollStep(p, old(store.tables), response, clock, otherChecks)
  {
    hide VerifiedAssignment, Commit, FirstBundle, BundleCheck.Record, RecordsOf, SourceRef, Blank;
    var kliq := source.config.kliqId;
    var state := store.KLIQManagementState(kliq);
    if state.Some? {
      source.SetActiveAssignment(state.value.version, state.value.digest);
    }
    var data := source.Load(Some(response), clock.now);
    if data.None? { return false; }
    var a, digest := source.loaded.value.assignment, source.loaded.value.digest;
    var record := check.Record(data.value, SourceRef(source.config, a), clock.bundleNow, clock.verifiedAt);
    if record.None? || !otherChecks { return false; }
    ok := store.SaveManagedBundleActivation(
      record.value, StateOf(a, digest, clock.activatedAt), RecordsOf(a, clock.stagedAt));
  }

  // ---------------------------------------------------------------- runs

  /** Forge's key signed this envelope. */
  ghost predicate IsSigned(s: System, o: Envelope) {
    o in s.others || exists i :: 0 <= i < |s.history| && s.history[i].envelope == o
  }

  /** If the envelope's signature checks under the KLIQ's key, then its header is one that the key has signed. */
  ghost predicate OnlySignedChecks(p: Parties, s: System, e: Envelope) {
    p.source.w.scheme.check(p.source.verifier.publicKey, SigningInput(e), e.signature) ==>
      exists o :: IsSigned(s, o) && SigningInput(o) == SigningInput(e)
  }

  /** What the key signs beside assignments decodes to none, or to one without an identifier. */
  predicate NoAssignment(p: Parties, payload: string) {
    var decoded := p.source.w.decodeAssignment(payload);
    decoded.None? || decoded.value.id == ""
  }

  ghost predicate Allowed(p: Parties, s: System, event: Event) {
    match event
    case Publish(a, payload, _) => p.source.w.decodeAssignment(payload) == Some(a)
    case SignOther(payload, _, _) => NoAssignment(p, payload)
    case RevokeAtForge(_, _, _) => true
    case Poll(e, clock, _) => OnlySignedChecks(p, s, e) && clock.now != ZERO_TIME
  }

  function Step(p: Parties, s: System, event: Event): System {
    match event
    case Publish(a, payload, signedAt) => PublishStep(p, s, a, payload, signedAt)
    case SignOther(payload, meta, signedAt) => SignOtherStep(p, s, payload, meta, signedAt)
    case RevokeAtForge(kliq, version, at) => s.(forge := ForgeStores.MemoryRevoke(s.forge, kliq, version, at).fst)
    case Poll(e, clock, otherChecks) => s.(local := PollStep(p, s.local, e, clock, otherChecks))
  }

  ghost predicate Initial(p: Parties, s: System) {
    s.forge == map[] && s.history == [] && s.others == [] && p.source.kliqId !in s.local.management
  }

  ghost predicate StepsTo(p: Parties, events: seq<Event>, states: seq<System>, i: nat)
    requires i < |events| && i + 1 < |states|
  {
    Allowed(p, states[i], events[i]) && states[i + 1] == Step(p, states[i], events[i])
  }

  ghost predicate IsRun(p: Parties, events: seq<Event>, states: seq<System>) {
    && |states| == |events| + 1 && Initial(p, states[0])
    && forall i :: 0 <= i < |events| ==> StepsTo(p, events, states, i)
  }

  // ---------------------------------------------------------------- collisions

  /** The delivered payload differs from one that was signed under the same header, and has its digest. */
  ghost predicate PollCollides(p: Parties, s: System, e: Envelope) {
    exists o :: IsSigned(s, o) && SigningInput(o) == SigningInput(e) && Collides(p.Hash(), Pair(e.payload, o.payload))
  }

  /** One of the first `n` steps polled such a payload. */
  ghost predicate RunCollides(p: Parties, events: seq<Event>, states: seq<System>, n: nat)
    requires n <= |events| <= |states|
  {
    exists i :: 0 <= i < n && events[i].Poll? && PollCollides(p, states[i], events[i].envelope)
  }

  // ---------------------------------------------------------------- what every step keeps

  /** An entry is what it says: its payload decodes to the assignment, its digest is the payload's. */
  ghost predicate Genuine(p: Parties, q: Published) {
    && p.source.w.decodeAssignment(q.envelope.payload) == Some(q.assignment)
    && q.envelope.payloadSha == DigestText(p.Hash(), q.envelope.payload)
    && q.kliq == q.assignment.kliqId && q.version == q.assignment.version && q.version > 0
  }

  ghost predicate Harmless(p: Parties, o: Envelope) {
    NoAssignment(p, o.payload) && o.payloadSha == DigestText(p.Hash(), o.payload)
  }

  /** Versions grow, and a version published again has the digest it had. */
  predicate InOrder(q: Published, r: Published) {
    q.kliq == r.kliq ==>
      q.version < r.version || (q.version == r.version && q.envelope.payloadSha == r.envelope.payloadSha)
  }

  predicate VersionsGrow(history: seq<Published>) {
    forall i, j :: 0 <= i < j < |history| ==> InOrder(history[i], history[j])
  }

  /** Forge's record of a KLIQ is at least as new as everything published for it. */
  predicate ForgeAhead(forge: ForgeStores.Memory, history: seq<Published>) {
    forall i :: 0 <= i < |history| ==>
      history[i].kliq in forge && history[i].version <= forge[history[i].kliq].version
  }

  /** Every record Forge holds is an entry of the history. */
  ghost predicate ForgeFromHistory(forge: ForgeStores.Memory, history: seq<Published>) {
    forall kliq :: kliq in forge ==> exists i :: 0 <= i < |history| && Recorded(forge[kliq], history[i], kliq)
  }

  predicate Recorded(r: ForgeStores.MemoryRecord, q: Published, kliq: string) {
    q.kliq == kliq && q.version == r.version && q.envelope == r.envelope
  }

  /** Forge's half: nothing in it depends on what is polled. */
  ghost predicate ForgeInv(p: Parties, s: System) {
    && (forall i :: 0 <= i < |s.history| ==> Genuine(p, s.history[i]))
    && (forall i :: 0 <= i < |s.others| ==> Harmless(p, s.others[i]))
    && VersionsGrow(s.history)
    && ForgeAhead(s.forge, s.history)
    && ForgeFromHistory(s.forge, s.history)
  }

  /** The cached bundle is the first runtime bundle of the assignment, and the record describes its envelope. */
  ghost predicate Caches(p: Parties, r: BundleRecord, a: Assignment) {
    && FirstBundleIs(a.artifacts, r.envelope) && r.source == SourceRef(p.source, a)
    && exists e :: p.check.Describes(r, e)
  }

  /** The local tables describe this entry, and nothing else of the KLIQ. */
  ghost predicate Describes(p: Parties, t: Tables, q: Published) {
    && p.source.kliqId in t.management
    && var s := t.management[p.source.kliqId];
       && q.kliq == p.source.kliqId
       && s == StateOf(q.assignment, q.envelope.payloadSha, s.activatedAt)
       && (exists stagedAt :: Holds(p.decoders, t, p.source.kliqId, RecordsOf(q.assignment, stagedAt)))
       && t.bundle.Some? && Caches(p, t.bundle.value, q.assignment)
       && (forall i :: 0 <= i < |q.assignment.artifacts| ==>
             q.assignment.artifacts[i].sha == DigestText(p.Hash(), q.assignment.artifacts[i].envelope))
  }

  ghost predicate ActiveIsPublished(p: Parties, s: System) {
    p.source.kliqId in s.local.management ==>
      exists i :: 0 <= i < |s.history| && Describes(p, s.local, s.history[i])
  }

  ghost predicate Inv(p: Parties, s: System) {
    ForgeInv(p, s) && ActiveIsPublished(p, s)
  }

  lemma {:induction false} PublishKeepsHistory(forge: ForgeStores.Memory, history: seq<Published>, q: Published, at: Time)
    requires ForgeFromHistory(forge, history)
    ensures ForgeFromHistory(forge[q.kliq := ForgeStores.MemoryRecord(q.version, q.envelope, at)], history + [q])
    ensures ForgeFromHistory(forge, history + [q])
  {
    var history' := history + [q];
    var forge' := forge[q.kliq := ForgeStores.MemoryRecord(q.version, q.envelope, at)];
    forall kliq | kliq in forge
      ensures exists i :: 0 <= i < |history'| && Recorded(forge[kliq], history'[i], kliq)
    {
      var i :| 0 <= i < |history| && Recorded(forge[kliq], history[i], kliq);
      assert Recorded(forge[kliq], history'[i], kliq);
    }
    assert Recorded(forge'[q.kliq], history'[|history|], q.kliq);
  }

  lemma {:induction false} RevokeKeepsHistory(
    forge: ForgeStores.Memory, history: seq<Published>, kliq: string, at: Time)
    requires ForgeFromHistory(forge, history) && kliq in forge
    ensures ForgeFromHistory(forge[kliq := forge[kliq].(revokedAt := at)], history)
  {
  }

  /** The published entry follows everything published before it. */
  lemma {:induction false} PublishedInOrder(
    p: Parties, s: System, a: Assignment, payload: string, signedAt: Time, i: nat)
    requires ForgeInv(p, s) && p.source.w.decodeAssignment(payload) == Some(a) && i < |s.history|
    ensures var s' := PublishStep(p, s, a, payload, signedAt);
            |s'.history| > |s.history| ==> InOrder(s.history[i], s'.history[|s.history|])
  {
    hide DigestText;
    var s' := PublishStep(p, s, a, payload, signedAt);
    if |s'.history| > |s.history| && s.history[i].kliq == a.kliqId {
      assert s.history[i].version <= s.forge[a.kliqId].version;
      var k :| 0 <= k < |s.history| && Recorded(s.forge[a.kliqId], s.history[k], a.kliqId);
      assert Genuine(p, s.history[k]) && Genuine(p, s.history[i]);
      assert i < k ==> InOrder(s.history[i], s.history[k]);
      assert k < i ==> InOrder(s.history[k], s.history[i]);
    }
  }

  lemma {:induction false} PublishedGenuine(p: Parties, s: System, a: Assignment, payload: string, signedAt: Time)
    requires p.source.w.decodeAssignment(payload) == Some(a)
    ensures var s' := PublishStep(p, s, a, payload, signedAt);
            s'.history != s.history ==>
              && |s'.history| == |s.history| + 1 && s'.history[..|s.history|] == s.history
              && Genuine(p, s'.history[|s.history|])
  {
    hide DigestText;
  }

  lemma {:induction false} PublishKeepsForge(p: Parties, s: System, a: Assignment, payload: string, signedAt: Time)
    requires ForgeInv(p, s) && p.source.w.decodeAssignment(payload) == Some(a)
    ensures ForgeInv(p, PublishStep(p, s, a, payload, signedAt))
  {
    hide ForgeFromHistory, DigestText, InOrder, Genuine;
    var s' := PublishStep(p, s, a, payload, signedAt);
    PublishedGenuine(p, s, a, payload, signedAt);
    if s'.history != s.history {
      var q := s'.history[|s.history|];
      assert s'.history == s.history + [q];
      PublishKeepsHistory(s.forge, s.history, q, ZERO_TIME);
      forall i | 0 <= i < |s.history|
        ensures InOrder(s.history[i], q)
      {
        PublishedInOrder(p, s, a, payload, signedAt, i);
      }
    }
  }

  lemma {:induction false} StepKeepsForge(p: Parties, s: System, event: Event)
    requires ForgeInv(p, s) && Allowed(p, s, event)
    ensures ForgeInv(p, Step(p, s, event))
  {
    hide PollStep, ForgeFromHistory, DigestText, VersionsGrow, Genuine;
    match event
    case Publish(a, payload, signedAt) => PublishKeepsForge(p, s, a, payload, signedAt);
    case SignOther(payload, meta, signedAt) =>
    case RevokeAtForge(kliq, version, at) =>
      if kliq in s.forge {
        RevokeKeepsHistory(s.forge, s.history, kliq, at);
      }
    case Poll(_, _, _) =>
  }

  lemma {:induction false} RunKeepsForge(p: Parties, events: seq<Event>, states: seq<System>, i: nat)
    requires IsRun(p, events, states) && i < |states|
    ensures ForgeInv(p, states[i])
  {
    hide Step, Allowed;
    if i > 0 {
      RunKeepsForge(p, events, states, i - 1);
      assert StepsTo(p, events, states, i - 1);
      StepKeepsForge(p, states[i - 1], events[i - 1]);
    }
  }

  /** A publication takes place exactly when the key signs and the store accepts the version; it hands out the signed envelope
      of the payload, with the assignment's commit and expiry. */
  lemma {:induction false} PublishesIff(p: Parties, s: System, a: Assignment, payload: string, signedAt: Time)
    ensures
      var signed := Sign(p.Hash(), p.source.w.scheme, p.signer, payload,
                         Metadata("", a.sourceCommit, "", Some(a.expiresAt)), signedAt);
      var s' := PublishStep(p, s, a, payload, signedAt);
      && (s'.history != s.history
          <==> signed.Some?
               && ForgeStores.MemorySave(p.Hash(), s.forge, a.kliqId, a.version, signed.value).snd == ForgeStores.Done)
      && (s'.history != s.history ==>
            && s'.history == s.history + [Published(a.kliqId, a.version, signed.value, a)]
            && s'.forge == ForgeStores.MemorySave(p.Hash(), s.forge, a.kliqId, a.version, signed.value).fst)
      && (s'.history == s.history ==> s' == s) && s'.local == s.local && s'.others == s.others
  {
    hide Sign, ForgeStores.MemorySave;
  }

  /** Whatever else the key signs is remembered as signed. */
  lemma {:induction false} SignOtherRecords(p: Parties, s: System, payload: string, meta: Metadata, signedAt: Time)
    ensures var signed := Sign(p.Hash(), p.source.w.scheme, p.signer, payload, meta, signedAt);
            var s' := SignOtherStep(p, s, payload, meta, signedAt);
            s' == s.(others := s.others + if signed.Some? then [signed.value] else [])
  {
    hide Sign;
    assert s.others + [] == s.others;
  }

  /** What is stored of an artifact: everything the assignment says of it, under the assignment, as activated if its type is one
      of the eight that are known. */
  lemma {:induction false} RecordsMean(a: Assignment, at: Time, i: nat)
    requires i < |a.artifacts|
    ensures var r, art := RecordsOf(a, at)[i], a.artifacts[i];
            && r.kliqId == a.kliqId && r.assignmentId == a.id && r.version == a.version && r.artifactType == art.artifactType
            && r.artifactId == art.id && r.ref == art.ref && r.sha == art.sha && r.envelope == art.envelope
            && r.activatedAt == at
            && r.status == (if art.artifactType in {"runtime_bundle", "adapter_manifest", "context_route_pack",
                                                    "conformance_expectation", "adapter_assignment", "trust_bundle",
                                                    "management_profile", "fallback_profile"}
                            then "activated" else "unknown")
  {
    hide ArtifactMessage;
  }

  /** A bundle's source reference is the address it was polled from, whatever slashes end the base address, and the assignment. */
  lemma {:induction false} SourceRefIs(c: Config, a: Assignment, base: string, slashes: string)
    requires c.baseUrl == base + slashes && (base == "" || base[|base| - 1] != '/')
    requires forall i :: 0 <= i < |slashes| ==> slashes[i] == '/'
    ensures SourceRef(c, a) == base + "/v1/kliq/assignments/" + c.kliqId + "/latest" + "#" + a.id
  {
    TrimSlashesIs(base, slashes);
  }

  lemma {:induction false} TrimSlashesIs(base: string, slashes: string)
    requires (base == "" || base[|base| - 1] != '/') && forall i :: 0 <= i < |slashes| ==> slashes[i] == '/'
    ensures TrimSlashes(base + slashes) == base
    decreases |slashes|
  {
    if slashes == "" {
      assert base + slashes == base;
    } else {
      assert (base + slashes)[..|base + slashes| - 1] == base + slashes[..|slashes| - 1];
      TrimSlashesIs(base, slashes[..|slashes| - 1]);
    }
  }

  // ---------------------------------------------------------------- polls

  /** The envelope carries the assignment of this published entry. */
  ghost predicate Carries(p: Parties, e: Envelope, q: Published) {
    p.source.w.decodeAssignment(e.payload) == Some(q.assignment) && e.payloadSha == q.envelope.payloadSha
  }

  /** An accepted envelope carries a published assignment: nothing else that the key signed is accepted, unless the
      payload collides with a signed one. */
  lemma {:induction false} AcceptedIsPublished(p: Parties, s: System, e: Envelope, version: int, digest: string, now: Time)
    returns (i: nat)
    requires ForgeInv(p, s) && OnlySignedChecks(p, s, e) && now != ZERO_TIME
    requires VerifiedAssignment(p.source, version, digest, e, now).Some?
    ensures PollCollides(p, s, e) || (i < |s.history| && Carries(p, e, s.history[i]))
  {
    hide VerifiedAssignment, ForgeAhead, ForgeFromHistory, VersionsGrow, DigestText;
    i := 0;
    VerifiedMeans(p.source, version, digest, e, now);
    var o :| IsSigned(s, o) && SigningInput(o) == SigningInput(e);
    if o in s.others {
      var k :| 0 <= k < |s.others| && s.others[k] == o;
      assert Harmless(p, s.others[k]);
      SameHeader(p.Hash(), e, o);
    } else {
      i :| 0 <= i < |s.history| && s.history[i].envelope == o;
      assert Genuine(p, s.history[i]);
      SameHeader(p.Hash(), e, o);
    }
  }

  /** What a poll that commits leaves: the tables of the assignment that the envelope carries. */
  lemma {:induction false} PollDescribes(p: Parties, t: Tables, e: Envelope, clock: Clock, otherChecks: bool, q: Published)
    requires Activated(p, t, e, clock, otherChecks).Some? && clock.now != ZERO_TIME
    requires Carries(p, e, q) && q.kliq == q.assignment.kliqId
    ensures Describes(p, PollStep(p, t, e, clock, otherChecks), q)
  {
    hide VerifiedAssignment, Commit, Holds, DigestText, FirstBundle, FirstBundleIs, BundleCheck.Record,
         BundleCheck.Describes, Blank, ArtifactMessage, SupportedType;
    var c := p.source;
    var version, digest := ActiveVersion(t, c.kliqId), ActiveDigest(t, c.kliqId);
    VerifiedMeans(c, version, digest, e, clock.now);
    var a := VerifiedAssignment(c, version, digest, e, clock.now).value;
    var data := FirstBundle(a.artifacts).value;
    var record := p.check.Record(data, SourceRef(c, a), clock.bundleNow, clock.verifiedAt).value;
    RecordMeans(p.check, data, SourceRef(c, a), clock.bundleNow, clock.verifiedAt);
    var state, arts := StateOf(a, e.payloadSha, clock.activatedAt), RecordsOf(a, clock.stagedAt);
    CommitDescribes(p.decoders, t, record, state, arts);
    CommitStores(p.decoders, t, record, state, arts);
    assert a == q.assignment.(signatureValid := true);
    assert arts == RecordsOf(q.assignment, clock.stagedAt);
  }

  /** A poll that changes anything activates exactly one published assignment, newer than the active one, the same again
      or an approved step back, unless the polled payload collides with a signed one. */
  lemma {:induction false} PollActivates(p: Parties, s: System, event: Event)
    returns (i: nat)
    requires event.Poll? && Inv(p, s) && Allowed(p, s, event) && Step(p, s, event).local != s.local
    ensures
      || PollCollides(p, s, event.envelope)
      || (&& i < |s.history|
          && Describes(p, Step(p, s, event).local, s.history[i])
          && event.clock.now < s.history[i].assignment.expiresAt
          && var q, version := s.history[i], ActiveVersion(s.local, p.source.kliqId);
             || q.version > version
             || (q.version == version && q.envelope.payloadSha == ActiveDigest(s.local, p.source.kliqId))
             || (q.version < version && q.assignment.approvedRollback))
  {
    hide VerifiedAssignment, ForgeInv, ActiveIsPublished, Describes, DigestText, Genuine;
    var c, e, now := p.source, event.envelope, event.clock.now;
    var version, digest := ActiveVersion(s.local, c.kliqId), ActiveDigest(s.local, c.kliqId);
    VerifiedMeans(c, version, digest, e, now);
    i := AcceptedIsPublished(p, s, e, version, digest, now);
    if !PollCollides(p, s, e) {
      EntryGenuine(p, s, i);
      PollDescribes(p, s.local, e, event.clock, event.otherChecks, s.history[i]);
    }
  }

  // ---------------------------------------------------------------- exactly when a poll activates

  /** The artifact can be put into the tables: it has an identifier and a payload, and a trust bundle in it is complete. */
  predicate CanStore(d: Decoders, art: Artifact) {
    && art.id != "" && d.payload(art.envelope).Some?
    && (art.artifactType == TRUST_BUNDLE ==>
          && d.trustBundle(d.payload(art.envelope).value).Some?
          && var b := d.trustBundle(d.payload(art.envelope).value).value;
             b.purpose == "assignment_verification" && b.status == "active" ==> b.keyId != "" && b.publicKey != "")
  }

  predicate DistinctArtifactTypes(arts: seq<Artifact>) {
    forall i, j :: 0 <= i < j < |arts| ==> arts[i].artifactType != arts[j].artifactType
  }

  lemma {:induction false} RecordsStorableIff(p: Parties, a: Assignment, stagedAt: Time)
    requires a.kliqId != "" && a.id != "" && a.version > 0 && DigestsMatch(p.Hash(), a) && a.artifacts != []
    ensures (forall i :: 0 <= i < |a.artifacts| ==>
               ValidArtifact(RecordsOf(a, stagedAt)[i]) && Storable(p.decoders, RecordsOf(a, stagedAt)[i]))
            <==> stagedAt != ZERO_TIME && forall i :: 0 <= i < |a.artifacts| ==> CanStore(p.decoders, a.artifacts[i])
  {
    hide DigestText, SupportedType, ArtifactMessage, SaveTrust;
    var records := RecordsOf(a, stagedAt);
    forall i | 0 <= i < |a.artifacts|
      ensures ValidArtifact(records[i]) && Storable(p.decoders, records[i])
              <==> stagedAt != ZERO_TIME && CanStore(p.decoders, a.artifacts[i])
    {
      assert records[i].status == ArtifactStatus(a.artifacts[i].artifactType);
      if p.decoders.payload(a.artifacts[i].envelope).Some? {
        SaveTrustIff(p.decoders, map[], p.decoders.payload(a.artifacts[i].envelope).value, stagedAt, ZERO_TIME);
      }
    }
    assert ValidArtifact(records[0]) ==> stagedAt != ZERO_TIME;
  }

  /** The last step of a poll commits exactly when both stamps are real instants, the artifact types are pairwise distinct
      and every artifact can be stored. */
  lemma {:induction false} CommitsIff(p: Parties, t: Tables, record: BundleRecord, a: Assignment, digest: string, clock: Clock)
    requires a.kliqId != "" && a.id != "" && a.version > 0 && a.sourceCommit != "" && a.expiresAt != ZERO_TIME
    requires digest != "" && DigestsMatch(p.Hash(), a) && a.artifacts != []
    ensures Commit(p.decoders, t, record, StateOf(a, digest, clock.activatedAt), RecordsOf(a, clock.stagedAt)).Some?
            <==> && clock.stagedAt != ZERO_TIME && clock.activatedAt != ZERO_TIME && DistinctArtifactTypes(a.artifacts)
                 && forall i :: 0 <= i < |a.artifacts| ==> CanStore(p.decoders, a.artifacts[i])
  {
    hide Commit, DigestsMatch, CanStore, Storable, ValidArtifact;
    var records := RecordsOf(a, clock.stagedAt);
    CommitIff(p.decoders, t, record, StateOf(a, digest, clock.activatedAt), records);
    RecordsStorableIff(p, a, clock.stagedAt);
    assert DistinctTypes(records) <==> DistinctArtifactTypes(a.artifacts);
  }

  /** Exactly when a poll activates what was delivered: the assignment verifies and may follow the active one, its first
      runtime bundle verifies under the manager's key, the artifact checks pass, and its artifacts can be stored, of
      pairwise distinct types. */
  lemma {:induction false} PollActivatesIff(p: Parties, t: Tables, e: Envelope, clock: Clock, otherChecks: bool)
    requires clock.now != ZERO_TIME
    ensures
      var c := p.source;
      Activated(p, t, e, clock, otherChecks).Some?
      <==> && !Blank(c.baseUrl) && !Blank(c.kliqId)
           && Verify(c.w.hash, c.w.scheme, c.verifier, e, clock.now, clock.now).valid
           && c.w.decodeAssignment(e.payload).Some?
           && var a := c.w.decodeAssignment(e.payload).value;
           && Suits(c, a, e, clock.now)
           && (forall i :: 0 <= i < |a.artifacts| ==> Pinned(c.w.hash, a.artifacts[i]))
           && Succeeds(a, e.payloadSha, ActiveVersion(t, c.kliqId), ActiveDigest(t, c.kliqId))
           && Scene(c.w, a.sourceCommit, c.verifier, clock.now).Acceptable(multiset(a.artifacts))
           && FirstBundle(a.artifacts).Some?
           && p.check.Verified(FirstBundle(a.artifacts).value, clock.bundleNow).Some?
           && otherChecks
           && clock.stagedAt != ZERO_TIME && clock.activatedAt != ZERO_TIME && DistinctArtifactTypes(a.artifacts)
           && forall i :: 0 <= i < |a.artifacts| ==> CanStore(p.decoders, a.artifacts[i])
  {
    hide VerifiedAssignment, Commit, DigestsMatch, Pinned, CanStore, Blank, Scene.Acceptable, DistinctArtifactTypes,
         BundleCheck.Verified, FirstBundle, FirstBundleIs, Succeeds, RecordsOf, DigestText, SourceRef;
    var c := p.source;
    var version, digest := ActiveVersion(t, c.kliqId), ActiveDigest(t, c.kliqId);
    VerifiedIff(c, version, digest, e, clock.now);
    var verified := VerifiedAssignment(c, version, digest, e, clock.now);
    if verified.Some? {
      var a, decoded := verified.value, c.w.decodeAssignment(e.payload).value;
      VerifiedMeans(c, version, digest, e, clock.now);
      DigestsMatchIff(c.w.hash, a);
      if FirstBundle(a.artifacts).Some? && !Blank(c.kliqId) {
        assert a.artifacts != [] && e.payloadSha != "" && c.kliqId != "" by { Nonempty(c, a, e); }
        var record := p.check.Record(FirstBundle(a.artifacts).value, SourceRef(c, a), clock.bundleNow, clock.verifiedAt);
        if record.Some? {
          CommitsIff(p, t, record.value, a, e.payloadSha, clock);
        }
      }
    }
  }

  lemma {:induction false} Nonempty(c: Config, a: Assignment, e: Envelope)
    requires FirstBundle(a.artifacts).Some? && !Blank(c.kliqId) && e.payloadSha == DigestText(c.w.hash, e.payload)
    ensures a.artifacts != [] && e.payloadSha != "" && c.kliqId != ""
  {
  }

  /** Where the source and the manager share their verifier, as in the daemon, an assignment becomes active only if the
      artifact key it carries has the identifier of that verifier, and the one signature of the runtime bundle checks under
      both public keys. */
  lemma {:induction false} CarriedKeyIsOwn(
    p: Parties, t: Tables, e: Envelope, clock: Clock, otherChecks: bool, a: Assignment, art: Artifact)
    returns (bundle: Envelope)
    requires Activated(p, t, e, clock, otherChecks).Some? && clock.now != ZERO_TIME
    requires p.check.w == p.source.w && p.check.verifier == p.source.verifier
    requires p.source.w.decodeAssignment(e.payload) == Some(a) && art in a.artifacts
    requires Scene(p.source.w, a.sourceCommit, p.source.verifier, clock.now).CarriesKey(art)
    ensures
      var scene := Scene(p.source.w, a.sourceCommit, p.source.verifier, clock.now);
      && scene.KeyOf(art).Some? && scene.KeyOf(art).value.keyId == p.source.verifier.keyId
      && FirstBundle(a.artifacts).Some? && p.source.w.decodeEnvelope(FirstBundle(a.artifacts).value) == Some(bundle)
      && p.source.w.scheme.check(scene.KeyOf(art).value.publicKey, SigningInput(bundle), bundle.signature)
      && p.source.w.scheme.check(p.source.verifier.publicKey, SigningInput(bundle), bundle.signature)
  {
    hide Activated, Scene.Acceptable, Scene.CarriesKey, Scene.KeyOf, Pinned, CanStore, FirstBundle, Blank, Suits,
         Succeeds, DigestText;
    var scene := Scene(p.source.w, a.sourceCommit, p.source.verifier, clock.now);
    PollActivatesIff(p, t, e, clock, otherChecks);
    var data := FirstBundle(a.artifacts).value;
    var i :| 0 <= i < |a.artifacts| && a.artifacts[i].artifactType == RUNTIME_BUNDLE && a.artifacts[i].envelope == data;
    CarriedKeyVerifies(scene, a.artifacts, art, i);
    bundle := p.source.w.decodeEnvelope(data).value;
  }

  lemma {:induction false} EntryGenuine(p: Parties, s: System, i: nat)
    requires ForgeInv(p, s) && i < |s.history|
    ensures s.history[i].kliq == s.history[i].assignment.kliqId && s.history[i].version == s.history[i].assignment.version
  {
    assert Genuine(p, s.history[i]);
  }

  lemma {:induction false} StepKeepsActive(p: Parties, s: System, event: Event)
    requires Inv(p, s) && Allowed(p, s, event)
    ensures ActiveIsPublished(p, Step(p, s, event)) || (event.Poll? && PollCollides(p, s, event.envelope))
  {
    hide Describes, ForgeInv, PollStep, PollCollides, OnlySignedChecks;
    var s' := Step(p, s, event);
    HistoryGrows(p, s, event);
    if s'.local != s.local {
      OnlyPollsActivate(p, s, event);
      var i := PollActivates(p, s, event);
    } else if i :| 0 <= i < |s.history| && Describes(p, s.local, s.history[i]) {
      assert s'.history[i] == s.history[i];
    }
  }

  /** In every run the invariant holds at every point, unless some poll delivered a payload that collides with a signed
      one: everything in the history is genuine, versions grow, and what is active locally is one published assignment. */
  lemma {:induction false} RunKeepsInv(p: Parties, events: seq<Event>, states: seq<System>, i: nat)
    requires IsRun(p, events, states) && i < |states|
    ensures Inv(p, states[i]) || RunCollides(p, events, states, i)
  {
    hide ForgeInv, Step, Allowed, PollCollides;
    RunKeepsForge(p, events, states, i);
    if i > 0 {
      RunKeepsInv(p, events, states, i - 1);
      assert StepsTo(p, events, states, i - 1);
      if Inv(p, states[i - 1]) {
        StepKeepsActive(p, states[i - 1], events[i - 1]);
      }
    }
  }

  // ---------------------------------------------------------------- the guarantees

  /** What the KLIQ has active is an assignment Forge published for that KLIQ at that version, with that digest. */
  lemma {:induction false} ActiveWasPublished(p: Parties, events: seq<Event>, states: seq<System>, i: nat)
    returns (k: nat)
    requires IsRun(p, events, states) && i < |states| && p.source.kliqId in states[i].local.management
    ensures
      || RunCollides(p, events, states, i)
      || (&& k < |states[i].history|
          && Genuine(p, states[i].history[k]) && Describes(p, states[i].local, states[i].history[k])
          && states[i].history[k].version == ActiveVersion(states[i].local, p.source.kliqId)
          && states[i].history[k].envelope.payloadSha == ActiveDigest(states[i].local, p.source.kliqId))
  {
    hide IsRun, Holds, Genuine, RunCollides, Caches, VersionsGrow, ForgeAhead, ForgeFromHistory;
    k := 0;
    RunKeepsInv(p, events, states, i);
    if Inv(p, states[i]) {
      k :| 0 <= k < |states[i].history| && Describes(p, states[i].local, states[i].history[k]);
      EntryGenuine(p, states[i], k);
    }
  }

  /** What it means that the local tables describe an entry: the management row names the assignment, its version,
      digest, source and expiry; the cached bundle is the first runtime bundle of the assignment; every artifact has its
      row in both artifact tables with its own digest and payload; and every row of the KLIQ is that of an artifact of the
      assignment. */
  lemma {:induction false} DescribedTables(p: Parties, t: Tables, q: Published)
    requires Describes(p, t, q)
    ensures var s, a := t.management[p.source.kliqId], q.assignment;
            && s.assignmentId == a.id && s.version == a.version && s.sourceCommit == a.sourceCommit
            && s.expiresAt == a.expiresAt && s.digest == q.envelope.payloadSha
    ensures t.bundle.Some? && FirstBundleIs(q.assignment.artifacts, t.bundle.value.envelope)
    ensures exists e :: && p.check.w.decodeEnvelope(t.bundle.value.envelope) == Some(e)
                        && t.bundle.value.keyId == e.keyId == p.check.verifier.keyId
                        && t.bundle.value.payloadSha == DigestText(p.check.w.hash, e.payload)
    ensures forall i :: 0 <= i < |q.assignment.artifacts| ==>
              var art := q.assignment.artifacts[i];
              var key := ActiveKey(q.assignment.kliqId, art.artifactType);
              && key in t.active && t.active[key].artifactId == art.id
              && t.active[key].sha == art.sha == DigestText(p.Hash(), art.envelope)
              && p.decoders.payload(art.envelope) == Some(t.active[key].payload)
    ensures forall k :: k in t.active && k.kliqId == p.source.kliqId ==>
              exists i :: 0 <= i < |q.assignment.artifacts| && q.assignment.artifacts[i].artifactType == k.artifactType
  {
    hide DigestText, FirstBundleIs;
    var stagedAt :| Holds(p.decoders, t, p.source.kliqId, RecordsOf(q.assignment, stagedAt));
  }

  lemma {:induction false} HistoryGrows(p: Parties, s: System, event: Event)
    ensures s.history <= Step(p, s, event).history
  {
  }

  lemma {:induction false} HistoryOnlyGrows(p: Parties, events: seq<Event>, states: seq<System>, i: nat, j: nat)
    requires IsRun(p, events, states) && i <= j < |states|
    ensures states[i].history <= states[j].history
    decreases j
  {
    hide Step, Allowed, Initial;
    if i < j {
      HistoryOnlyGrows(p, events, states, i, j - 1);
      assert StepsTo(p, events, states, j - 1);
      HistoryGrows(p, states[j - 1], events[j - 1]);
    }
  }

  /** One version never carries two digests: whenever in a run the KLIQ has the same version active, it has the same
      digest active. */
  lemma {:induction false} OneDigestPerVersion(p: Parties, events: seq<Event>, states: seq<System>, i: nat, j: nat)
    requires IsRun(p, events, states) && i <= j < |states|
    requires p.source.kliqId in states[i].local.management && p.source.kliqId in states[j].local.management
    requires ActiveVersion(states[i].local, p.source.kliqId) == ActiveVersion(states[j].local, p.source.kliqId)
    ensures || RunCollides(p, events, states, j)
            || ActiveDigest(states[i].local, p.source.kliqId) == ActiveDigest(states[j].local, p.source.kliqId)
  {
    hide Genuine, Holds, Caches, ForgeAhead, ForgeFromHistory, StepsTo, PollCollides, Initial;
    RunKeepsForge(p, events, states, j);
    if !RunCollides(p, events, states, j) {
      var k := ActiveWasPublished(p, events, states, i);
      var m := ActiveWasPublished(p, events, states, j);
      HistoryOnlyGrows(p, events, states, i, j);
      assert states[j].history[k] == states[i].history[k];
      assert k < m ==> InOrder(states[j].history[k], states[j].history[m]);
      assert m < k ==> InOrder(states[j].history[m], states[j].history[k]);
    }
  }

  /** The active version goes down only onto an assignment that was published as an approved rollback. */
  lemma {:induction false} DownOnlyByRollback(p: Parties, events: seq<Event>, states: seq<System>, i: nat)
    returns (k: nat)
    requires IsRun(p, events, states) && i < |events|
    requires ActiveVersion(states[i + 1].local, p.source.kliqId) < ActiveVersion(states[i].local, p.source.kliqId)
    ensures
      || RunCollides(p, events, states, i + 1)
      || (&& k < |states[i].history|
          && Describes(p, states[i + 1].local, states[i].history[k])
          && states[i].history[k].assignment.approvedRollback
          && events[i].Poll? && events[i].clock.now < states[i].history[k].assignment.expiresAt)
  {
    hide Holds, Caches, Initial, ForgeInv, ActiveIsPublished, Step, Allowed, PollCollides;
    k := 0;
    RunKeepsInv(p, events, states, i);
    if Inv(p, states[i]) {
      assert StepsTo(p, events, states, i);
      OnlyPollsActivate(p, states[i], events[i]);
      k := PollActivates(p, states[i], events[i]);
      if k < |states[i].history| {
        EntryGenuine(p, states[i], k);
      }
    }
  }

  lemma {:induction false} OnlyPollsActivate(p: Parties, s: System, event: Event)
    ensures Step(p, s, event).local != s.local ==> event.Poll?
  {
  }

  /** What Forge serves is the newest assignment it published for the KLIQ, whatever is polled. */
  lemma {:induction false} ServesNewest(p: Parties, events: seq<Event>, states: seq<System>, i: nat, kliq: string)
    returns (k: nat)
    requires IsRun(p, events, states) && i < |states| && ForgeStores.MemoryLatest(states[i].forge, kliq).Some?
    ensures k < |states[i].history| && states[i].history[k].kliq == kliq
    ensures ForgeStores.MemoryLatest(states[i].forge, kliq) == Some(states[i].history[k].envelope)
    ensures forall j :: 0 <= j < |states[i].history| && states[i].history[j].kliq == kliq ==>
                          states[i].history[j].version <= states[i].history[k].version
  {
    hide IsRun, Genuine, VersionsGrow;
    RunKeepsForge(p, events, states, i);
    var s := states[i];
    k :| 0 <= k < |s.history| && Recorded(s.forge[kliq], s.history[k], kliq);
  }
}
