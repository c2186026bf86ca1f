/** Forge's two assignment stores: the memory store that keeps the newest record of each KLIQ
    (internal/forge/management/store.go) and the Postgres store that keeps every version
    (internal/forge/management/postgres.go).
 */
module ForgeStores {
  import opened Basics
  import opened Signing
  import opened Assignment

  /** assignmentDigest: the recorded payload digest, or a fresh one. */
  function AssignmentDigest(hash: HashFn, e: Envelope): string {
    if e.payloadSha != "" then e.payloadSha else DigestText(hash, e.payload)
  }

  /** How a call ended: accepted (possibly without effect), not found, or refused. */
  datatype Outcome = Done | NotFound | Refused

  /** An envelope is identified by the digest it carries, or that of its payload if it carries none. */
  lemma {:induction false} AssignmentDigestIs(hash: HashFn, e: Envelope)
    ensures e.payloadSha != "" ==> AssignmentDigest(hash, e) == e.payloadSha
    ensures e.payloadSha == "" ==> AssignmentDigest(hash, e) == DigestText(hash, e.payload)
  {
  }

  // ---------------------------------------------------------------- the memory store

  datatype MemoryRecord = MemoryRecord(version: int, envelope: Envelope, revokedAt: Time)

  type Memory = map<string, MemoryRecord>

  function MemoryNext(m: Memory, kliq: string): int {
    if kliq in m then m[kliq].version + 1 else 1
  }

  function MemoryLatest(m: Memory, kliq: string): Option<Envelope> {
    if kliq in m && m[kliq].revokedAt == ZERO_TIME then Some(m[kliq].envelope) else None
  }

  function MemorySave(hash: HashFn, m: Memory, kliq: string, version: int, e: Envelope): Pair<Memory, Outcome> {
    if kliq == "" || version <= 0 then Pair(m, Refused)
    else if kliq in m && version < m[kliq].version then Pair(m, Refused)
    else if kliq in m && version == m[kliq].version then
      Pair(m, if AssignmentDigest(hash, m[kliq].envelope) == AssignmentDigest(hash, e) then Done else Refused)
    else Pair(m[kliq := MemoryRecord(version, e, ZERO_TIME)], Done)
  }

  function MemoryRevoke(m: Memory, kliq: string, version: int, at: Time): Pair<Memory, Outcome> {
    if kliq !in m || m[kliq].version != version then Pair(m, NotFound)
    else Pair(m[kliq := m[kliq].(revokedAt := at)], Done)
  }

  /** A save replaces the record exactly for a named KLIQ and a positive version above the stored one; it is done
      without a change exactly when the stored record has that version and the same digest. */
  lemma {:induction false} MemorySaveIff(hash: HashFn, m: Memory, kliq: string, version: int, e: Envelope)
    ensures
      var saved := MemorySave(hash, m, kliq, version, e);
      var newer := kliq != "" && version > 0 && (kliq in m ==> m[kliq].version < version);
      var repeated := && kliq != "" && version > 0 && kliq in m && m[kliq].version == version
                      && AssignmentDigest(hash, m[kliq].envelope) == AssignmentDigest(hash, e);
      && saved.fst == (if newer then m[kliq := MemoryRecord(version, e, ZERO_TIME)] else m)
      && saved.snd == (if newer || repeated then Done else Refused)
  {
    hide AssignmentDigest;
  }

  class MemoryStore {
    const hash: HashFn
    var assignments: Memory

    constructor (hash: HashFn)
      ensures this.hash == hash && assignments == map[]
    {
      this.hash, assignments := hash, map[];
    }

    method NextAssignmentVersion(kliq: string) returns (next: int)
      ensures next == MemoryNext(assignments, kliq)
    {
      if kliq !in assignments { return 1; }
      return assignments[kliq].version + 1;
    }

    method SaveAssignment(kliq: string, version: int, e: Envelope) returns (outcome: Outcome)
      modifies this`assignments
      ensures Pair(assignments, outcome) == MemorySave(hash, old(assignments), kliq, version, e)
    {
      if kliq == "" || version <= 0 { return Refused; }
      if kliq in assignments {
        var existing := assignments[kliq];
        if version < existing.version { return Refused; }
        if version == existing.version {
          if AssignmentDigest(hash, existing.envelope) == AssignmentDigest(hash, e) { return Done; }
          return Refused;
        }
      }
      assignments := assignments[kliq := MemoryRecord(version, e, ZERO_TIME)];
      return Done;
    }

    method LatestAssignment(kliq: string) returns (e: Option<Envelope>)
      ensures e == MemoryLatest(assignments, kliq)
    {
      if kliq !in assignments { return None; }
      if assignments[kliq].revokedAt != ZERO_TIME { return None; }
      return Some(assignments[kliq].envelope);
    }

    method RevokeAssignment(kliq: string, version: int, at: Time) returns (outcome: Outcome)
      modifies this`assignments
      ensures Pair(assignments, outcome) == MemoryRevoke(old(assignments), kliq, version, at)
    {
      if kliq !in assignments || assignments[kliq].version != version { return NotFound; }
      assignments := assignments[kliq := assignments[kliq].(revokedAt := at)];
      return Done;
    }
  }

  // ---------------------------------------------------------------- the Postgres store

  /** A row of kliq_assignments. `revokedAt` is null until the row is revoked. */
  datatype Row = Row(kliq: string, version: int, envelope: Envelope, revokedAt: Option<Time>)

  type Table = seq<Row>

  /** The newest row of a KLIQ: ORDER BY assignment_version DESC LIMIT 1. */
  function NewestIndex(t: Table, kliq: string): (i: Option<nat>)
    ensures i.Some? ==> i.value < |t| && t[i.value].kliq == kliq
  {
    if t == [] then None
    else
      var last := |t| - 1;
      var rest := NewestIndex(t[..last], kliq);
      if t[last].kliq != kliq then rest
      else if rest.None? || t[rest.value].version < t[last].version then Some(last)
      else rest
  }

  /** A row of the KLIQ whose version no other row of it exceeds. */
  predicate IsNewest(t: Table, kliq: string, i: nat) {
    && i < |t| && t[i].kliq == kliq
    && forall j :: 0 <= j < |t| && t[j].kliq == kliq ==> t[j].version <= t[i].version
  }

  /** The selected row is newest, and none is selected only if the KLIQ has no row. */
  lemma {:induction false} NewestIsNewest(t: Table, kliq: string)
    ensures match NewestIndex(t, kliq)
            case None => forall j :: 0 <= j < |t| ==> t[j].kliq != kliq
            case Some(i) => IsNewest(t, kliq, i)
  {
    if t != [] {
      var front := t[..|t| - 1];
      NewestIsNewest(front, kliq);
      assert forall j :: 0 <= j < |front| ==> front[j] == t[j];
    }
  }

  function RowIndex(t: Table, kliq: string, version: int): (i: Option<nat>)
    ensures i.Some? ==> i.value < |t| && t[i.value].kliq == kliq && t[i.value].version == version
    ensures i.None? ==> forall j :: 0 <= j < |t| ==> !(t[j].kliq == kliq && t[j].version == version)
  {
    if t == [] then None
    else
      var last := |t| - 1;
      if t[last].kliq == kliq && t[last].version == version then Some(last) else RowIndex(t[..last], kliq, version)
  }

  function TableNext(t: Table, kliq: string): int {
    match NewestIndex(t, kliq)
    case None => 1
    case Some(i) => t[i].version + 1
  }

  function TableLatest(t: Table, kliq: string): Option<Envelope> {
    match NewestIndex(t, kliq)
    case None => None
    case Some(i) => if t[i].revokedAt.Some? then None else Some(t[i].envelope)
  }

  /** What the INSERTs of one save demand beyond the checks in Go: a registered KLIQ (foreign key), a payload that
      decodes, and distinct (type, id) artifacts (primary key). */
  predicate Insertable(registered: set<string>, decode: string -> Option<Assignment>, kliq: string, e: Envelope) {
    && kliq in registered
    && match decode(e.payload)
       case None => false
       case Some(a) =>
         forall i, j :: 0 <= i < j < |a.artifacts| ==>
           !(a.artifacts[i].artifactType == a.artifacts[j].artifactType && a.artifacts[i].id == a.artifacts[j].id)
  }

  function TableSave(
    hash: HashFn, registered: set<string>, decode: string -> Option<Assignment>, t: Table, kliq: string, version: int,
    e: Envelope): Pair<Table, Outcome>
  {
    if kliq == "" || version <= 0 then Pair(t, Refused)
    else
      match RowIndex(t, kliq, version)
      case Some(i) =>
        Pair(t, if AssignmentDigest(hash, t[i].envelope) == AssignmentDigest(hash, e) then Done else Refused)
      case None =>
        if version < TableNext(t, kliq) || !Insertable(registered, decode, kliq, e) then Pair(t, Refused)
        else Pair(t + [Row(kliq, version, e, None)], Done)
  }

  lemma {:induction false} InsertableIff(
    registered: set<string>, decode: string -> Option<Assignment>, kliq: string, e: Envelope)
    ensures Insertable(registered, decode, kliq, e)
            <==> && kliq in registered && decode(e.payload).Some?
                 && var arts := decode(e.payload).value.artifacts;
                 forall i, j :: 0 <= i < |arts| && 0 <= j < |arts| && i != j
                                ==> Pair(arts[i].artifactType, arts[i].id) != Pair(arts[j].artifactType, arts[j].id)
  {
    if decode(e.payload).Some? {
      var arts := decode(e.payload).value.artifacts;
      if forall i, j :: 0 <= i < |arts| && 0 <= j < |arts| && i != j
                        ==> Pair(arts[i].artifactType, arts[i].id) != Pair(arts[j].artifactType, arts[j].id) {
        forall i, j | 0 <= i < j < |arts|
          ensures !(arts[i].artifactType == arts[j].artifactType && arts[i].id == arts[j].id)
        {
          assert Pair(arts[i].artifactType, arts[i].id) != Pair(arts[j].artifactType, arts[j].id);
        }
      }
    }
  }

  /** A save adds a row exactly for a named KLIQ, a positive version above all of its rows, and an insertable envelope;
      it is done without one exactly when a row of that version has the same digest. */
  lemma {:induction false} TableSaveIff(
    hash: HashFn, registered: set<string>, decode: string -> Option<Assignment>, t: Table, kliq: string, version: int,
    e: Envelope)
    requires forall i, j :: 0 <= i < |t| && 0 <= j < |t| && i != j ==> t[i].kliq != t[j].kliq || t[i].version != t[j].version
    ensures
      var saved := TableSave(hash, registered, decode, t, kliq, version, e);
      var newer := && kliq != "" && version > 0 && Insertable(registered, decode, kliq, e)
                    && forall j :: 0 <= j < |t| && t[j].kliq == kliq ==> t[j].version < version;
      var repeated := && kliq != "" && version > 0
                      && exists j :: 0 <= j < |t| && t[j].kliq == kliq && t[j].version == version
                                     && AssignmentDigest(hash, t[j].envelope) == AssignmentDigest(hash, e);
      && saved.fst == (if newer then t + [Row(kliq, version, e, None)] else t)
      && saved.snd == (if newer || repeated then Done else Refused)
  {
    hide Insertable, AssignmentDigest, NewestIndex, RowIndex;
    NewestIsNewest(t, kliq);
  }

  function TableRevoke(t: Table, kliq: string, version: int, at: Time): Pair<Table, Outcome> {
    match RowIndex(t, kliq, version)
    case None => Pair(t, NotFound)
    case Some(i) => Pair(t[i := t[i].(revokedAt := Some(at))], Done)
  }

  class PostgresStore {
    const hash: HashFn
    const decode: string -> Option<Assignment>
    var registered: set<string>
    var rows: Table

    constructor (hash: HashFn, decode: string -> Option<Assignment>, registered: set<string>)
      ensures this.hash == hash && this.decode == decode && this.registered == registered && rows == []
    {
      this.hash, this.decode, this.registered, rows := hash, decode, registered, [];
    }

    method NextAssignmentVersion(kliq: string) returns (next: int)
      ensures next == TableNext(rows, kliq)
      ensures forall j :: 0 <= j < |rows| && rows[j].kliq == kliq ==> rows[j].version < next
      ensures || (next == 1 && forall j :: 0 <= j < |rows| ==> rows[j].kliq != kliq)
              || exists i: nat :: IsNewest(rows, kliq, i) && rows[i].version + 1 == next
    {
      NewestIsNewest(rows, kliq);
      var newest := NewestIndex(rows, kliq);
      return if newest.None? then 1 else rows[newest.value].version + 1;
    }

    method SaveAssignment(kliq: string, version: int, e: Envelope) returns (outcome: Outcome)
      modifies this`rows
      ensures Pair(rows, outcome) == TableSave(hash, registered, decode, old(rows), kliq, version, e)
    {
      if kliq == "" || version <= 0 { return Refused; }
      var existing := RowIndex(rows, kliq, version);
      if existing.Some? {
        return if AssignmentDigest(hash, rows[existing.value].envelope) == AssignmentDigest(hash, e) then Done
               else Refused;
      }
      var next := NextAssignmentVersion(kliq);
      if version < next { return Refused; }
      if !Insertable(registered, decode, kliq, e) { return Refused; }
      rows := rows + [Row(kliq, version, e, None)];
      return Done;
    }

    method LatestAssignment(kliq: string) returns (e: Option<Envelope>)
      ensures e == TableLatest(rows, kliq)
      ensures e.Some? ==> exists i: nat :: IsNewest(rows, kliq, i) && rows[i].envelope == e.value && rows[i].revokedAt.None?
      ensures e.None? ==> || (forall j :: 0 <= j < |rows| ==> rows[j].kliq != kliq)
                          || exists i: nat :: IsNewest(rows, kliq, i) && rows[i].revokedAt.Some?
    {
      NewestIsNewest(rows, kliq);
      var newest := NewestIndex(rows, kliq);
      if newest.None? || rows[newest.value].revokedAt.Some? { return None; }
      return Some(rows[newest.value].envelope);
    }

    method RevokeAssignment(kliq: string, version: int, at: Time) returns (outcome: Outcome)
      modifies this`rows
      ensures Pair(rows, outcome) == TableRevoke(old(rows), kliq, version, at)
    {
      var i := RowIndex(rows, kliq, version);
      if i.None? { return NotFound; }
      rows := rows[i.value := rows[i.value].(revokedAt := Some(at))];
      return Done;
    }
  }

  // ---------------------------------------------------------------- refinement

  /** Versions are positive and grow with insertion inside one KLIQ. */
  predicate Ordered(t: Table) {
    && (forall i :: 0 <= i < |t| ==> t[i].version > 0)
    && (forall i, j :: 0 <= i < j < |t| && t[i].kliq == t[j].kliq ==> t[i].version < t[j].version)
  }

  /** The memory record of a KLIQ is its newest row. */
  predicate Mirrors(m: Memory, t: Table, kliq: string) {
    match NewestIndex(t, kliq)
    case None => kliq !in m
    case Some(i) =>
      && kliq in m
      && m[kliq].version == t[i].version
      && m[kliq].envelope == t[i].envelope
      && (m[kliq].revokedAt != ZERO_TIME <==> t[i].revokedAt.Some?)
  }

  ghost predicate Refines(m: Memory, t: Table) {
    Ordered(t) && forall kliq :: Mirrors(m, t, kliq)
  }

  datatype Call = Save(kliq: string, version: int, envelope: Envelope) | Revoke(kliq: string, version: int, at: Time)

  /** A call both stores can carry out alike: the INSERTs of a save would succeed, a revocation names a real instant. */
  predicate Common(registered: set<string>, decode: string -> Option<Assignment>, c: Call) {
    match c
    case Save(kliq, _, e) => Insertable(registered, decode, kliq, e)
    case Revoke(_, _, at) => at != ZERO_TIME
  }

  function MemoryCall(hash: HashFn, m: Memory, c: Call): Pair<Memory, Outcome> {
    match c
    case Save(kliq, version, e) => MemorySave(hash, m, kliq, version, e)
    case Revoke(kliq, version, at) => MemoryRevoke(m, kliq, version, at)
  }

  function TableCall(
    hash: HashFn, registered: set<string>, decode: string -> Option<Assignment>, t: Table, c: Call)
    : Pair<Table, Outcome>
  {
    match c
    case Save(kliq, version, e) => TableSave(hash, registered, decode, t, kliq, version, e)
    case Revoke(kliq, version, at) => TableRevoke(t, kliq, version, at)
  }

  lemma {:induction false} NewestIsGreatest(t: Table, kliq: string, j: nat)
    requires Ordered(t) && j < |t| && t[j].kliq == kliq
    ensures NewestIndex(t, kliq).Some? && j <= NewestIndex(t, kliq).value
    ensures t[j].version <= t[NewestIndex(t, kliq).value].version
  {
    if j < |t| - 1 {
      NewestIsGreatest(t[..|t| - 1], kliq, j);
    }
  }

  lemma {:induction false} NewestAfterInsert(t: Table, r: Row, kliq: string)
    requires Ordered(t) && r.version >= TableNext(t, r.kliq)
    ensures NewestIndex(t + [r], kliq) == if kliq == r.kliq then Some(|t|) else NewestIndex(t, kliq)
  {
  }

  lemma {:induction false} NewestAfterUpdate(t: Table, i: nat, r: Row, kliq: string)
    requires i < |t| && r.kliq == t[i].kliq && r.version == t[i].version
    ensures NewestIndex(t[i := r], kliq) == NewestIndex(t, kliq)
  {
    var last := |t| - 1;
    if i < last {
      assert t[i := r][..last] == t[..last][i := r];
      NewestAfterUpdate(t[..last], i, r, kliq);
    } else {
      assert t[i := r][..last] == t[..last];
    }
  }

  /** NextAssignmentVersion is the least version at which a save changes the memory store: saving there is accepted, and
      the saved envelope is then what LatestAssignment returns; a save below it changes nothing. */
  lemma {:induction false} MemoryNextIsLeast(hash: HashFn, m: Memory, kliq: string, e: Envelope)
    requires kliq != "" && (kliq in m ==> m[kliq].version > 0)
    ensures var next := MemoryNext(m, kliq);
            var saved := MemorySave(hash, m, kliq, next, e);
            && saved.snd == Done && MemoryLatest(saved.fst, kliq) == Some(e) && MemoryNext(saved.fst, kliq) == next + 1
            && (forall other :: other != kliq ==> MemoryLatest(saved.fst, other) == MemoryLatest(m, other))
            && (forall version :: version < next ==> MemorySave(hash, m, kliq, version, e).fst == m)
  {
  }

  /** The same of the Postgres store, for a save whose rows can be inserted. */
  lemma {:induction false} TableNextIsLeast(
    hash: HashFn, registered: set<string>, decode: string -> Option<Assignment>, t: Table, kliq: string, e: Envelope)
    requires Ordered(t) && kliq != "" && Insertable(registered, decode, kliq, e)
    ensures var next := TableNext(t, kliq);
            var saved := TableSave(hash, registered, decode, t, kliq, next, e);
            && saved.snd == Done && TableLatest(saved.fst, kliq) == Some(e) && TableNext(saved.fst, kliq) == next + 1
            && (forall other :: other != kliq ==> TableLatest(saved.fst, other) == TableLatest(t, other))
            && (forall version :: version < next ==> TableSave(hash, registered, decode, t, kliq, version, e).fst == t)
  {
    hide Insertable, NewestIndex, RowIndex;
    var next := TableNext(t, kliq);
    NewestIsNewest(t, kliq);
    assert RowIndex(t, kliq, next).None?;
    forall other
      ensures NewestIndex(t + [Row(kliq, next, e, None)], other) == if other == kliq then Some(|t|) else NewestIndex(t, other)
    {
      NewestAfterInsert(t, Row(kliq, next, e, None), other);
    }
  }

  lemma {:induction false} SaveRefines(
    hash: HashFn, registered: set<string>, decode: string -> Option<Assignment>, m: Memory, t: Table, kliq: string,
    version: int, e: Envelope)
    requires Refines(m, t) && Insertable(registered, decode, kliq, e)
    ensures Refines(MemorySave(hash, m, kliq, version, e).fst,
                    TableSave(hash, registered, decode, t, kliq, version, e).fst)
  {
    hide Insertable, NewestIndex, RowIndex;
    var m', t' := MemorySave(hash, m, kliq, version, e).fst, TableSave(hash, registered, decode, t, kliq, version, e).fst;
    assert Mirrors(m, t, kliq);
    var newest := NewestIndex(t, kliq);
    var found := RowIndex(t, kliq, version);
    if found.Some? {
      NewestIsGreatest(t, kliq, found.value);
    }
    if t' != t {
      var r := Row(kliq, version, e, None);
      forall k
        ensures Mirrors(m', t', k)
      {
        assert Mirrors(m, t, k);
        NewestAfterInsert(t, r, k);
      }
      forall i | 0 <= i < |t| && t[i].kliq == kliq
        ensures t[i].version < version
      {
        NewestIsGreatest(t, kliq, i);
      }
    }
  }

  lemma {:induction false} RevokeRefines(m: Memory, t: Table, kliq: string, version: int, at: Time)
    requires Refines(m, t) && at != ZERO_TIME
    ensures Refines(MemoryRevoke(m, kliq, version, at).fst, TableRevoke(t, kliq, version, at).fst)
  {
    hide NewestIndex, RowIndex;
    var m', t' := MemoryRevoke(m, kliq, version, at).fst, TableRevoke(t, kliq, version, at).fst;
    assert Mirrors(m, t, kliq);
    var found := RowIndex(t, kliq, version);
    if found.Some? {
      var i := found.value;
      NewestIsGreatest(t, kliq, i);
      forall k
        ensures Mirrors(m', t', k)
      {
        assert Mirrors(m, t, k);
        NewestAfterUpdate(t, i, t'[i], k);
      }
    }
  }

  /** States after every prefix of a common sequence of calls. */
  ghost predicate IsRun(
    hash: HashFn, registered: set<string>, decode: string -> Option<Assignment>, calls: seq<Call>,
    ms: seq<Memory>, ts: seq<Table>)
  {
    && |ms| == |ts| == |calls| + 1 && ms[0] == map[] && ts[0] == []
    && forall i :: 0 <= i < |calls| ==> CallsTo(hash, registered, decode, calls, ms, ts, i)
  }

  ghost predicate CallsTo(
    hash: HashFn, registered: set<string>, decode: string -> Option<Assignment>, calls: seq<Call>,
    ms: seq<Memory>, ts: seq<Table>, i: nat)
    requires i < |calls| && i + 1 < |ms| && i + 1 < |ts|
  {
    && Common(registered, decode, calls[i])
    && ms[i + 1] == MemoryCall(hash, ms[i], calls[i]).fst
    && ts[i + 1] == TableCall(hash, registered, decode, ts[i], calls[i]).fst
  }

  lemma {:induction false} RunRefines(
    hash: HashFn, registered: set<string>, decode: string -> Option<Assignment>, calls: seq<Call>,
    ms: seq<Memory>, ts: seq<Table>, i: nat)
    requires IsRun(hash, registered, decode, calls, ms, ts) && i < |ms|
    ensures Refines(ms[i], ts[i])
  {
    if i > 0 {
      RunRefines(hash, registered, decode, calls, ms, ts, i - 1);
      assert CallsTo(hash, registered, decode, calls, ms, ts, i - 1);
      match calls[i - 1]
      case Save(kliq, version, e) => SaveRefines(hash, registered, decode, ms[i - 1], ts[i - 1], kliq, version, e);
      case Revoke(kliq, version, at) => RevokeRefines(ms[i - 1], ts[i - 1], kliq, version, at);
    }
  }

  /** After every common sequence of saves and revocations, both stores give the same NextAssignmentVersion and the
      same LatestAssignment for every KLIQ. */
  lemma {:induction false} SameAnswers(
    hash: HashFn, registered: set<string>, decode: string -> Option<Assignment>, calls: seq<Call>,
    ms: seq<Memory>, ts: seq<Table>, i: nat, kliq: string)
    requires IsRun(hash, registered, decode, calls, ms, ts) && i < |ms|
    ensures MemoryNext(ms[i], kliq) == TableNext(ts[i], kliq)
    ensures MemoryLatest(ms[i], kliq) == TableLatest(ts[i], kliq)
  {
    RunRefines(hash, registered, decode, calls, ms, ts, i);
    assert Mirrors(ms[i], ts[i], kliq);
  }

  /** Exactly when the two stores report different outcomes of a save: an older version repeated with its own digest,
      which Postgres accepts without effect and memory refuses. */
  lemma {:induction false} SaveOutcomesDifferIff(
    hash: HashFn, registered: set<string>, decode: string -> Option<Assignment>, m: Memory, t: Table, kliq: string,
    version: int, e: Envelope)
    requires Refines(m, t) && Insertable(registered, decode, kliq, e)
    ensures MemorySave(hash, m, kliq, version, e).snd != TableSave(hash, registered, decode, t, kliq, version, e).snd
            <==> && kliq != "" && version > 0 && version + 1 < TableNext(t, kliq)
                 && RowIndex(t, kliq, version).Some?
                 && AssignmentDigest(hash, t[RowIndex(t, kliq, version).value].envelope) == AssignmentDigest(hash, e)
  {
    hide Insertable, NewestIndex, RowIndex;
    assert Mirrors(m, t, kliq);
    var found := RowIndex(t, kliq, version);
    var newest := NewestIndex(t, kliq);
    if found.Some? {
      NewestIsGreatest(t, kliq, found.value);
    }
  }

  /** Exactly when they report different outcomes of a revocation: a stored version that is not the newest. */
  lemma {:induction false} RevokeOutcomesDifferIff(m: Memory, t: Table, kliq: string, version: int, at: Time)
    requires Refines(m, t)
    ensures MemoryRevoke(m, kliq, version, at).snd != TableRevoke(t, kliq, version, at).snd
            <==> RowIndex(t, kliq, version).Some? && version + 1 != TableNext(t, kliq)
  {
    hide NewestIndex, RowIndex;
    assert Mirrors(m, t, kliq);
    var found := RowIndex(t, kliq, version);
    if found.Some? {
      NewestIsGreatest(t, kliq, found.value);
    }
  }

  /** Revoking the served assignment keeps the stores in step exactly when the instant is not the zero time, which
      memory reads as "not revoked". */
  lemma {:induction false} RevokeServedAgreesIff(m: Memory, t: Table, kliq: string, at: Time)
    requires Refines(m, t) && MemoryLatest(m, kliq).Some?
    ensures
      var version := m[kliq].version;
      MemoryLatest(MemoryRevoke(m, kliq, version, at).fst, kliq) == TableLatest(TableRevoke(t, kliq, version, at).fst, kliq)
      <==> at != ZERO_TIME
  {
    hide NewestIndex, RowIndex;
    var version := m[kliq].version;
    assert Mirrors(m, t, kliq);
    var i := NewestIndex(t, kliq).value;
    var found := RowIndex(t, kliq, version);
    NewestIsGreatest(t, kliq, found.value);
    NewestAfterUpdate(t, found.value, t[found.value].(revokedAt := Some(at)), kliq);
  }
}
