/** The atomic activation of a managed assignment (SaveManagedBundleActivation in
    internal/kliq/actionstate/sqlite.go). Tables are maps by primary key; a transaction is a new value of all tables.
 */
module Activation {
  import opened Basics
  import opened Assignment

  datatype BundleRecord = BundleRecord(
    bundleId: string, policyId: string, sourceCommit: string, correlationId: string, keyId: string,
    payloadSha: string, source: string, envelope: string, expiresAt: Time, verifiedAt: Time)

  datatype ManagementState = ManagementState(
    kliqId: string, assignmentId: string, version: int, sourceCommit: string, digest: string, expiresAt: Time,
    activatedAt: Time)

  datatype ArtifactRecord = ArtifactRecord(
    kliqId: string, assignmentId: string, version: int, artifactType: string, artifactId: string, ref: string,
    sha: string, envelope: string, status: string, message: string, activatedAt: Time)

  datatype ActiveArtifact = ActiveArtifact(
    kliqId: string, artifactType: string, artifactId: string, sha: string, payload: string, activatedAt: Time)

  datatype LocalTrust = LocalTrust(bundle: TrustBundle, persistedAt: Time)

  /** Primary keys of kliq_assignment_artifacts and kliq_active_artifacts. */
  datatype ArtifactKey = ArtifactKey(kliqId: string, assignmentId: string, artifactType: string, artifactId: string)
  datatype ActiveKey = ActiveKey(kliqId: string, artifactType: string)

  datatype Tables = Tables(
    bundle: Option<BundleRecord>,
    management: map<string, ManagementState>,
    artifacts: map<ArtifactKey, ArtifactRecord>,
    active: map<ActiveKey, ActiveArtifact>,
    trust: map<string, LocalTrust>)

  /** The JSON decoders: the non-empty payload of a signed envelope, and a trust bundle. `wallClock` stands in for a
      missing time. */
  datatype Decoders = Decoders(
    payload: string -> Option<string>, trustBundle: string -> Option<TrustBundle>, wallClock: Time)

  predicate ValidState(s: ManagementState) {
    && s.kliqId != "" && s.assignmentId != "" && s.version > 0 && s.sourceCommit != "" && s.digest != ""
    && s.expiresAt != ZERO_TIME && s.activatedAt != ZERO_TIME
  }

  predicate ValidArtifact(a: ArtifactRecord) {
    && a.kliqId != "" && a.assignmentId != "" && a.artifactType != "" && a.artifactId != "" && a.sha != ""
    && a.status != "" && a.version > 0 && a.envelope != "" && a.activatedAt != ZERO_TIME
  }

  function KeyOf(a: ArtifactRecord): ArtifactKey {
    ArtifactKey(a.kliqId, a.assignmentId, a.artifactType, a.artifactId)
  }

  function ActiveKeyOf(a: ArtifactRecord): ActiveKey {
    ActiveKey(a.kliqId, a.artifactType)
  }

  function ActiveRow(a: ArtifactRecord, payload: string): ActiveArtifact {
    ActiveArtifact(a.kliqId, a.artifactType, a.artifactId, a.sha, payload, a.activatedAt)
  }

  /** saveAssignmentTrustBundle: an active assignment-verification bundle must be complete and is kept. */
  function SaveTrust(d: Decoders, trust: map<string, LocalTrust>, payload: string, activatedAt: Time, verifiedAt: Time)
    : Option<map<string, LocalTrust>>
  {
    match d.trustBundle(payload)
    case None => None
    case Some(b) =>
      if b.purpose != "assignment_verification" || b.status != "active" then Some(trust)
      else if b.keyId == "" || b.publicKey == "" then None
      else
        var at := if activatedAt != ZERO_TIME then activatedAt else if verifiedAt != ZERO_TIME then verifiedAt
                  else d.wallClock;
        Some(trust[b.keyId := LocalTrust(b, at)])
  }

  /** One turn of the loop over the artifacts: two INSERTs and, for a trust bundle, an upsert. */
  function InsertOne(d: Decoders, t: Tables, a: ArtifactRecord, verifiedAt: Time): Option<Tables> {
    if KeyOf(a) in t.artifacts then None
    else
      match d.payload(a.envelope)
      case None => None
      case Some(payload) =>
        if ActiveKeyOf(a) in t.active then None
        else
          var t := t.(artifacts := t.artifacts[KeyOf(a) := a],
                      active := t.active[ActiveKeyOf(a) := ActiveRow(a, payload)]);
          if a.artifactType != TRUST_BUNDLE then Some(t)
          else
            match SaveTrust(d, t.trust, payload, a.activatedAt, verifiedAt)
            case None => None
            case Some(trust) => Some(t.(trust := trust))
  }

  function InsertAll(d: Decoders, t: Tables, arts: seq<ArtifactRecord>, verifiedAt: Time): Option<Tables> {
    if arts == [] then Some(t)
    else
      match InsertAll(d, t, arts[..|arts| - 1], verifiedAt)
      case None => None
      case Some(t) => InsertOne(d, t, arts[|arts| - 1], verifiedAt)
  }

  function Cleared(t: Tables, record: BundleRecord, state: ManagementState): Tables {
    t.(bundle := Some(record),
       management := t.management[state.kliqId := state],
       artifacts := map k | k in t.artifacts && k.kliqId != state.kliqId :: t.artifacts[k],
       active := map k | k in t.active && k.kliqId != state.kliqId :: t.active[k])
  }

  /** The tables a successful call commits. */
  function Commit(d: Decoders, t: Tables, record: BundleRecord, state: ManagementState, arts: seq<ArtifactRecord>)
    : Option<Tables>
  {
    if !ValidState(state) || exists i :: 0 <= i < |arts| && !ValidArtifact(arts[i]) then None
    else InsertAll(d, Cleared(t, record, state), arts, record.verifiedAt)
  }

  class StateStore {
    const decoders: Decoders
    var tables: Tables

    constructor (decoders: Decoders)
      ensures this.decoders == decoders && tables == Tables(None, map[], map[], map[], map[])
    {
      this.decoders, tables := decoders, Tables(None, map[], map[], map[], map[]);
    }

    method KLIQManagementState(kliqId: string) returns (state: Option<ManagementState>)
      ensures state == if kliqId in tables.management then Some(tables.management[kliqId]) else None
    {
      return if kliqId in tables.management then Some(tables.management[kliqId]) else None;
    }

    /** Either the whole activation is visible afterwards or nothing has changed. */
    method SaveManagedBundleActivation(record: BundleRecord, state: ManagementState, arts: seq<ArtifactRecord>)
      returns (ok: bool)
      modifies this`tables
      ensures
        var committed := Commit(decoders, old(tables), record, state, arts);
        ok == committed.Some? && tables == if ok then committed.value else old(tables)
    {
      if !ValidState(state) { return false; }
      for i := 0 to |arts|
        invariant forall j :: 0 <= j < i ==> ValidArtifact(arts[j])
      {
        if !ValidArtifact(arts[i]) { return false; }
      }
      var tx := Cleared(tables, record, state);
      ghost var start := tx;
      for i := 0 to |arts|
        invariant InsertAll(decoders, start, arts[..i], record.verifiedAt) == Some(tx)
      {
        assert arts[..i + 1][..i] == arts[..i];
        var inserted := InsertOne(decoders, tx, arts[i], record.verifiedAt);
        if inserted.None? {
          InsertAllStuck(decoders, start, arts, record.verifiedAt, i + 1);
          return false;
        }
        tx := inserted.value;
      }
      assert arts[..|arts|] == arts;
      tables := tx;
      return true;
    }
  }

  lemma {:induction false} InsertAllStuck(d: Decoders, t: Tables, arts: seq<ArtifactRecord>, v: Time, n: nat)
    requires n <= |arts| && InsertAll(d, t, arts[..n], v).None?
    ensures InsertAll(d, t, arts, v).None?
  {
    if n < |arts| {
      assert arts[..|arts| - 1][..n] == arts[..n];
      InsertAllStuck(d, t, arts[..|arts| - 1], v, n);
    } else {
      assert arts[..n] == arts;
    }
  }

  // ---------------------------------------------------------------- what a commit leaves behind

  predicate OwnedBy(arts: seq<ArtifactRecord>, kliq: string) {
    forall i :: 0 <= i < |arts| ==> arts[i].kliqId == kliq
  }

  predicate DistinctTypes(arts: seq<ArtifactRecord>) {
    forall i, j :: 0 <= i < j < |arts| ==> arts[i].artifactType != arts[j].artifactType
  }

  /** The row has a payload, and a trust bundle in it can be kept. */
  predicate Storable(d: Decoders, a: ArtifactRecord) {
    && d.payload(a.envelope).Some?
    && (a.artifactType == TRUST_BUNDLE ==>
          SaveTrust(d, map[], d.payload(a.envelope).value, a.activatedAt, ZERO_TIME).Some?)
  }

  /** The artifact tables hold exactly `arts` for the KLIQ. */
  ghost predicate Holds(d: Decoders, t: Tables, kliq: string, arts: seq<ArtifactRecord>) {
    && (forall i :: 0 <= i < |arts| ==> RowsOf(d, t, arts[i]))
    && (forall k :: k in t.artifacts && k.kliqId == kliq ==> Among(arts, t.artifacts[k]) && KeyOf(t.artifacts[k]) == k)
    && (forall k :: k in t.active && k.kliqId == kliq ==> exists i :: 0 <= i < |arts| && ActiveKeyOf(arts[i]) == k)
  }

  ghost predicate RowsOf(d: Decoders, t: Tables, a: ArtifactRecord) {
    && KeyOf(a) in t.artifacts && t.artifacts[KeyOf(a)] == a
    && d.payload(a.envelope).Some?
    && ActiveKeyOf(a) in t.active && t.active[ActiveKeyOf(a)] == ActiveRow(a, d.payload(a.envelope).value)
  }

  predicate Among(arts: seq<ArtifactRecord>, a: ArtifactRecord) {
    exists i :: 0 <= i < |arts| && arts[i] == a
  }

  /** Rows of other KLIQs are as they were. */
  ghost predicate OthersKept(t: Tables, t': Tables, kliq: string) {
    && (forall k: ArtifactKey :: k.kliqId != kliq ==>
          (k in t.artifacts <==> k in t'.artifacts) && (k in t.artifacts ==> t'.artifacts[k] == t.artifacts[k]))
    && (forall k: ActiveKey :: k.kliqId != kliq ==>
          (k in t.active <==> k in t'.active) && (k in t.active ==> t'.active[k] == t.active[k]))
  }

  lemma {:induction false} InsertOneIff(
    d: Decoders, t: Tables, kliq: string, arts: seq<ArtifactRecord>, a: ArtifactRecord, v: Time)
    requires Holds(d, t, kliq, arts) && a.kliqId == kliq && OwnedBy(arts, kliq)
    ensures InsertOne(d, t, a, v).Some?
            <==> Storable(d, a) && forall i :: 0 <= i < |arts| ==> arts[i].artifactType != a.artifactType
  {
  }

  lemma {:induction false} InsertOneHolds(
    d: Decoders, t: Tables, kliq: string, arts: seq<ArtifactRecord>, a: ArtifactRecord, v: Time)
    requires Holds(d, t, kliq, arts) && a.kliqId == kliq && OwnedBy(arts, kliq) && InsertOne(d, t, a, v).Some?
    ensures
      var t' := InsertOne(d, t, a, v).value;
      Holds(d, t', kliq, arts + [a]) && OthersKept(t, t', kliq)
      && t'.bundle == t.bundle && t'.management == t.management
  {
    hide SaveTrust;
    var t' := InsertOne(d, t, a, v).value;
    var row := ActiveRow(a, d.payload(a.envelope).value);
    assert t'.artifacts == t.artifacts[KeyOf(a) := a] && t'.active == t.active[ActiveKeyOf(a) := row];
    assert KeyOf(a) !in t.artifacts && ActiveKeyOf(a) !in t.active;
    InsertedRowsHold(d, t, t', kliq, arts, a);
  }

  lemma {:induction false} InsertedRowsHold(
    d: Decoders, t: Tables, t': Tables, kliq: string, arts: seq<ArtifactRecord>, a: ArtifactRecord)
    requires Holds(d, t, kliq, arts) && a.kliqId == kliq && d.payload(a.envelope).Some?
    requires KeyOf(a) !in t.artifacts && ActiveKeyOf(a) !in t.active
    requires t'.artifacts == t.artifacts[KeyOf(a) := a]
    requires t'.active == t.active[ActiveKeyOf(a) := ActiveRow(a, d.payload(a.envelope).value)]
    ensures Holds(d, t', kliq, arts + [a])
  {
    var more := arts + [a];
    forall i | 0 <= i < |more|
      ensures RowsOf(d, t', more[i])
    {
      if i < |arts| {
        assert RowsOf(d, t, arts[i]);
      }
    }
    forall k | k in t'.artifacts && k.kliqId == kliq
      ensures Among(more, t'.artifacts[k]) && KeyOf(t'.artifacts[k]) == k
    {
      if k == KeyOf(a) {
        assert more[|arts|] == a;
      } else {
        var i :| 0 <= i < |arts| && arts[i] == t.artifacts[k];
        assert more[i] == t'.artifacts[k];
      }
    }
    forall k | k in t'.active && k.kliqId == kliq
      ensures exists i :: 0 <= i < |more| && ActiveKeyOf(more[i]) == k
    {
      if k == ActiveKeyOf(a) {
        assert ActiveKeyOf(more[|arts|]) == k;
      } else {
        var i :| 0 <= i < |arts| && ActiveKeyOf(arts[i]) == k;
        assert ActiveKeyOf(more[i]) == k;
      }
    }
  }

  lemma {:induction false} InsertAllHolds(d: Decoders, t: Tables, kliq: string, arts: seq<ArtifactRecord>, v: Time)
    requires Holds(d, t, kliq, []) && OwnedBy(arts, kliq)
    ensures InsertAll(d, t, arts, v).Some?
            <==> DistinctTypes(arts) && forall i :: 0 <= i < |arts| ==> Storable(d, arts[i])
    ensures InsertAll(d, t, arts, v).Some? ==>
              var t' := InsertAll(d, t, arts, v).value;
              Holds(d, t', kliq, arts) && OthersKept(t, t', kliq)
              && t'.bundle == t.bundle && t'.management == t.management
  {
    hide InsertOne, Holds, Storable;
    if arts != [] {
      var last := |arts| - 1;
      InsertAllHolds(d, t, kliq, arts[..last], v);
      assert arts[..last] + [arts[last]] == arts;
      if InsertAll(d, t, arts[..last], v).Some? {
        var t1 := InsertAll(d, t, arts[..last], v).value;
        InsertOneIff(d, t1, kliq, arts[..last], arts[last], v);
        if InsertOne(d, t1, arts[last], v).Some? {
          InsertOneHolds(d, t1, kliq, arts[..last], arts[last], v);
        }
      }
    }
  }

  /** For artifacts of the activated KLIQ, the call commits exactly when the state and every artifact are complete, every
      artifact can be stored and the artifact types are pairwise distinct. */
  lemma {:induction false} CommitIff(
    d: Decoders, t: Tables, record: BundleRecord, state: ManagementState, arts: seq<ArtifactRecord>)
    requires OwnedBy(arts, state.kliqId)
    ensures Commit(d, t, record, state, arts).Some?
            <==> ValidState(state) && DistinctTypes(arts)
                 && forall i :: 0 <= i < |arts| ==> ValidArtifact(arts[i]) && Storable(d, arts[i])
  {
    hide Storable, InsertAll, ValidArtifact, ValidState;
    InsertAllHolds(d, Cleared(t, record, state), state.kliqId, arts, record.verifiedAt);
  }

  /** After a commit, bundle, management state and both artifact tables describe the given activation, with nothing left
      from earlier ones, and rows of other KLIQs are untouched. */
  lemma {:induction false} CommitDescribes(
    d: Decoders, t: Tables, record: BundleRecord, state: ManagementState, arts: seq<ArtifactRecord>)
    requires OwnedBy(arts, state.kliqId) && Commit(d, t, record, state, arts).Some?
    ensures
      var t' := Commit(d, t, record, state, arts).value;
      && t'.bundle == Some(record)
      && t'.management == t.management[state.kliqId := state]
      && Holds(d, t', state.kliqId, arts)
      && OthersKept(t, t', state.kliqId)
  {
    hide InsertAll, Storable;
    var cleared := Cleared(t, record, state);
    InsertAllHolds(d, cleared, state.kliqId, arts, record.verifiedAt);
    var t' := InsertAll(d, cleared, arts, record.verifiedAt).value;
    assert OthersKept(cleared, t', state.kliqId);
  }

  /** Any commit, whoever the artifacts belong to, stores the bundle and the management state and no other state. */
  lemma {:induction false} CommitStores(
    d: Decoders, t: Tables, record: BundleRecord, state: ManagementState, arts: seq<ArtifactRecord>)
    requires Commit(d, t, record, state, arts).Some?
    ensures
      var t' := Commit(d, t, record, state, arts).value;
      t'.bundle == Some(record) && t'.management == t.management[state.kliqId := state]
  {
    InsertAllKeeps(d, Cleared(t, record, state), arts, record.verifiedAt);
  }

  lemma {:induction false} InsertAllKeeps(d: Decoders, t: Tables, arts: seq<ArtifactRecord>, v: Time)
    requires InsertAll(d, t, arts, v).Some?
    ensures InsertAll(d, t, arts, v).value.bundle == t.bundle
    ensures InsertAll(d, t, arts, v).value.management == t.management
  {
    if arts != [] {
      InsertAllKeeps(d, t, arts[..|arts| - 1], v);
    }
  }

  // ---------------------------------------------------------------- the kept trust bundle

  /** The artifact holds an active bundle for verifying assignments. */
  predicate HoldsTrust(d: Decoders, a: ArtifactRecord, b: TrustBundle) {
    && a.artifactType == "trust_bundle" && d.payload(a.envelope).Some?
    && d.trustBundle(d.payload(a.envelope).value) == Some(b)
    && b.purpose == "assignment_verification" && b.status == "active"
  }

  /** A trust bundle can be kept exactly when it decodes and, if it is an active one for assignments, names a key. */
  lemma {:induction false} SaveTrustIff(
    d: Decoders, trust: map<string, LocalTrust>, payload: string, activatedAt: Time, v: Time)
    ensures SaveTrust(d, trust, payload, activatedAt, v).Some?
            <==> && d.trustBundle(payload).Some?
                 && var b := d.trustBundle(payload).value;
                    b.purpose == "assignment_verification" && b.status == "active" ==> b.keyId != "" && b.publicKey != ""
    ensures
      SaveTrust(d, trust, payload, activatedAt, v).Some? && d.trustBundle(payload).value.purpose == "assignment_verification"
      && d.trustBundle(payload).value.status == "active" ==>
        var b := d.trustBundle(payload).value;
        SaveTrust(d, trust, payload, activatedAt, v).value
        == trust[b.keyId := LocalTrust(b, if activatedAt != 0 then activatedAt else if v != 0 then v else d.wallClock)]
  {
  }

  lemma {:induction false} InsertOneTrust(d: Decoders, t: Tables, a: ArtifactRecord, v: Time)
    requires InsertOne(d, t, a, v).Some? && a.activatedAt != ZERO_TIME
    ensures var t' := InsertOne(d, t, a, v).value;
            && (forall b :: HoldsTrust(d, a, b) ==> t'.trust == t.trust[b.keyId := LocalTrust(b, a.activatedAt)])
            && ((forall b :: !HoldsTrust(d, a, b)) ==> t'.trust == t.trust)
  {
    if a.artifactType == TRUST_BUNDLE {
      var b := d.trustBundle(d.payload(a.envelope).value).value;
      assert b.purpose == "assignment_verification" && b.status == "active" ==> HoldsTrust(d, a, b);
    }
  }

  lemma {:induction false} InsertAllTrust(d: Decoders, t: Tables, arts: seq<ArtifactRecord>, v: Time)
    requires InsertAll(d, t, arts, v).Some? && DistinctTypes(arts)
    requires forall i :: 0 <= i < |arts| ==> arts[i].activatedAt != ZERO_TIME
    ensures var t' := InsertAll(d, t, arts, v).value;
            && (forall i, b :: 0 <= i < |arts| && HoldsTrust(d, arts[i], b) ==>
                                 t'.trust == t.trust[b.keyId := LocalTrust(b, arts[i].activatedAt)])
            && ((forall i, b :: 0 <= i < |arts| ==> !HoldsTrust(d, arts[i], b)) ==> t'.trust == t.trust)
  {
    hide InsertOne;
    if arts != [] {
      var last := |arts| - 1;
      var front := arts[..last];
      InsertAllTrust(d, t, front, v);
      var t1 := InsertAll(d, t, front, v).value;
      InsertOneTrust(d, t1, arts[last], v);
      forall i, b | 0 <= i < last && HoldsTrust(d, arts[i], b)
        ensures forall c :: !HoldsTrust(d, arts[last], c)
        ensures t1.trust == t.trust[b.keyId := LocalTrust(b, arts[i].activatedAt)]
      {
        assert front[i] == arts[i];
      }
      forall b | HoldsTrust(d, arts[last], b)
        ensures forall i, c :: 0 <= i < last ==> !HoldsTrust(d, front[i], c)
      {
        assert forall i :: 0 <= i < last ==> front[i] == arts[i] && arts[i].artifactType != arts[last].artifactType;
      }
      assert (forall i, b :: 0 <= i < |arts| ==> !HoldsTrust(d, arts[i], b)) ==>
          forall i, b :: 0 <= i < last ==> !HoldsTrust(d, front[i], b);
    }
  }

  /** A commit keeps the active assignment-verification bundle among the artifacts under its key, with the activation time,
      and otherwise leaves the local trust bundles alone. */
  lemma {:induction false} CommitKeepsTrust(
    d: Decoders, t: Tables, record: BundleRecord, state: ManagementState, arts: seq<ArtifactRecord>)
    requires OwnedBy(arts, state.kliqId) && Commit(d, t, record, state, arts).Some?
    ensures var t' := Commit(d, t, record, state, arts).value;
            && (forall i, b :: 0 <= i < |arts| && HoldsTrust(d, arts[i], b) ==>
                                 t'.trust == t.trust[b.keyId := LocalTrust(b, arts[i].activatedAt)])
            && ((forall i, b :: 0 <= i < |arts| ==> !HoldsTrust(d, arts[i], b)) ==> t'.trust == t.trust)
  {
    hide InsertAll, Storable, HoldsTrust;
    CommitIff(d, t, record, state, arts);
    InsertAllTrust(d, Cleared(t, record, state), arts, record.verifiedAt);
  }

  /** An incomplete state or artifact refuses the whole activation. */
  lemma {:induction false} IncompleteRefused(
    d: Decoders, t: Tables, record: BundleRecord, state: ManagementState, arts: seq<ArtifactRecord>)
    ensures
      || state.kliqId == "" || state.assignmentId == "" || state.version <= 0 || state.sourceCommit == ""
      || state.digest == "" || state.expiresAt == ZERO_TIME || state.activatedAt == ZERO_TIME
      ==> Commit(d, t, record, state, arts).None?
    ensures forall i :: 0 <= i < |arts| ==>
      var a := arts[i];
      || a.kliqId == "" || a.assignmentId == "" || a.artifactType == "" || a.artifactId == "" || a.sha == ""
      || a.status == "" || a.version <= 0 || a.envelope == "" || a.activatedAt == ZERO_TIME
      ==> Commit(d, t, record, state, arts).None?
  {
  }
}
