/** Baseline versions and their promotion (internal/kliq/actionstate/sqlite.go and the decision check of
    internal/kliq/baseline/baseline.go): an upsert that clears a promotion, and a transaction that moves the promotion of
    one (view, entity) under a partial unique index and records who decided it.

    A row keeps its view and entity twice, in columns that never change and inside the stored version, which a second
    save replaces.
 */
module Promotion {
  import opened Basics

  datatype Key = Key(view: string, entity: string)

  datatype Version = Version(id: string, key: Key, createdAt: Time, promotedAt: Time)

  /** A row of baseline_versions. The column promoted_at is empty or a formatted instant. */
  datatype Row = Row(key: Key, promotedAt: Option<Time>, version: Version)

  type Table = map<string, Row>

  const PROMOTE: string := "promote"
  const REJECT: string := "reject"
  const ROLLBACK: string := "rollback"

  datatype Decision = Decision(
    id: string,
    versionId: string,
    previousId: string,
    action: string,
    approvedBy: string,
    approvedAt: Time,
    reason: string)

  /** Decisions are listed in the order they were inserted. */
  datatype State = State(rows: Table, decisions: seq<Decision>)

  const EMPTY: State := State(map[], [])

  predicate IsActive(t: Table, id: string, k: Key) {
    id in t && t[id].key == k && t[id].promotedAt.Some?
  }

  /** The index baseline_versions_active: one promoted row per (view, entity). */
  ghost predicate Unique(t: Table) {
    forall a, b, k :: IsActive(t, a, k) && IsActive(t, b, k) ==> a == b
  }

  /** PromotionDecision.Validate. */
  predicate ValidDecision(d: Decision) {
    && !Blank(d.id) && !Blank(d.versionId) && TrimSpace(d.action) in {PROMOTE, REJECT, ROLLBACK}
    && !Blank(d.approvedBy) && d.approvedAt != ZERO_TIME && !Blank(d.reason)
  }

  predicate KnownDecision(ds: seq<Decision>, id: string) {
    exists i :: 0 <= i < |ds| && ds[i].id == id
  }

  predicate Savable(v: Version, metrics: seq<string>) {
    v.id != "" && v.key.view != "" && v.key.entity != "" && v.promotedAt == ZERO_TIME && "" !in metrics
  }

  /** `metrics` are those of the statistics saved with the version; `now` stamps a version without a creation time. */
  function Save(st: State, v: Version, metrics: seq<string>, now: Time): Option<State> {
    if !Savable(v, metrics) then None
    else
      var v := if v.createdAt == ZERO_TIME then v.(createdAt := now) else v;
      var row := if v.id in st.rows then st.rows[v.id].(promotedAt := None, version := v) else Row(v.key, None, v);
      Some(st.(rows := st.rows[v.id := row]))
  }

  function Cleared(t: Table, k: Key): Table {
    map id | id in t :: if t[id].key == k then t[id].(promotedAt := None) else t[id]
  }

  /** The table after the two UPDATEs of a promotion of the stored version `v`. */
  function Moved(t: Table, v: Version, at: Time): Table {
    var cleared := Cleared(t, v.key);
    if v.id !in cleared then cleared
    else cleared[v.id := cleared[v.id].(promotedAt := Some(at), version := v.(promotedAt := at))]
  }

  /** The identifier stored in the promoted row of `k`, if there is one. */
  ghost function ActiveId(t: Table, k: Key): string {
    if id :| IsActive(t, id, k) then t[id].version.id else ""
  }

  /** The decision as it is recorded. */
  ghost function Recorded(t: Table, k: Key, d: Decision): Decision {
    d.(action := if d.action == "" then PROMOTE else d.action,
       previousId := if d.previousId == "" then ActiveId(t, k) else d.previousId)
  }

  ghost function Promote(st: State, d: Decision): Option<State> {
    if d.action !in {"", PROMOTE, ROLLBACK} || !ValidDecision(d.(action := PROMOTE)) || d.versionId !in st.rows then None
    else
      var v := st.rows[d.versionId].version;
      var t := Moved(st.rows, v, d.approvedAt);
      if !Unique(t) || KnownDecision(st.decisions, d.id) then None
      else Some(State(t, st.decisions + [Recorded(st.rows, v.key, d)]))
  }

  function Reject(st: State, d: Decision): Option<State> {
    var d := d.(action := REJECT);
    if !ValidDecision(d) || d.versionId !in st.rows || KnownDecision(st.decisions, d.id) then None
    else Some(st.(decisions := st.decisions + [d]))
  }

  class BaselineStore {
    var rows: Table
    var decisions: seq<Decision>

    ghost function Abstract(): State
      reads this
    {
      State(rows, decisions)
    }

    constructor ()
      ensures Abstract() == EMPTY
    {
      rows, decisions := map[], [];
    }

    method SaveBaselineVersion(v: Version, metrics: seq<string>, now: Time) returns (ok: bool)
      modifies this
      ensures ok == Save(old(Abstract()), v, metrics, now).Some?
      ensures Abstract() == if ok then Save(old(Abstract()), v, metrics, now).value else old(Abstract())
    {
      if v.id == "" || v.key.view == "" || v.key.entity == "" { return false; }
      if v.promotedAt != ZERO_TIME { return false; }
      var saved := v;
      if saved.createdAt == ZERO_TIME { saved := saved.(createdAt := now); }
      var written := rows[v.id := if v.id in rows then rows[v.id].(promotedAt := None, version := saved)
                                  else Row(v.key, None, saved)];
      for i := 0 to |metrics|
        invariant "" !in metrics[..i]
      {
        if metrics[i] == "" { return false; }
      }
      rows := written;
      return true;
    }

    /** SELECT … WHERE view = ? AND entity = ? AND promoted_at != '': whichever promoted row the engine meets. */
    method ActiveBaselineVersion(k: Key) returns (v: Option<Version>)
      requires Unique(rows)
      ensures v.None? <==> forall id :: !IsActive(rows, id, k)
      ensures v.Some? ==> v.value.id == ActiveId(rows, k)
      ensures v.Some? ==> exists id :: IsActive(rows, id, k) && rows[id].version == v.value
    {
      var todo := rows.Keys;
      while todo != {}
        invariant todo <= rows.Keys
        invariant forall id :: IsActive(rows, id, k) ==> id in todo
      {
        var id :| id in todo;
        if IsActive(rows, id, k) { return Some(rows[id].version); }
        todo := todo - {id};
      }
      return None;
    }

    method PromoteBaselineVersion(d: Decision) returns (v: Option<Version>)
      requires Unique(rows)
      modifies this
      ensures Unique(rows)
      ensures v.Some? == Promote(old(Abstract()), d).Some?
      ensures Abstract() == if v.Some? then Promote(old(Abstract()), d).value else old(Abstract())
      ensures v.Some? ==> d.versionId in old(rows)
                          && v.value == old(rows)[d.versionId].version.(promotedAt := d.approvedAt)
    {
      hide TrimSpace, Blank;
      var recorded := d;
      if recorded.action == "" { recorded := recorded.(action := PROMOTE); }
      if recorded.action != PROMOTE && recorded.action != ROLLBACK { return None; }
      TrimActions();
      if !ValidDecision(recorded) || d.versionId !in rows { return None; }
      var version := rows[d.versionId].version;
      if recorded.previousId == "" {
        var active := ActiveBaselineVersion(version.key);
        if active.Some? { recorded := recorded.(previousId := active.value.id); }
      }
      var cleared := Cleared(rows, version.key);
      var promoted := version.(promotedAt := d.approvedAt);
      var written := cleared;
      if version.id in cleared {
        if exists other :: other in cleared && other != version.id && IsActive(cleared, other, cleared[version.id].key) {
          RefusedByIndex(rows, version, d.approvedAt);
          return None;
        }
        written := cleared[version.id := cleared[version.id].(promotedAt := Some(d.approvedAt), version := promoted)];
      }
      assert written == Moved(rows, version, d.approvedAt);
      AcceptedByIndex(rows, version, d.approvedAt);
      if KnownDecision(decisions, d.id) { return None; }
      assert recorded == Recorded(rows, version.key, d);
      rows, decisions := written, decisions + [recorded];
      return Some(promoted);
    }

    method RejectBaselineVersion(d: Decision) returns (ok: bool)
      modifies this
      ensures ok == Reject(old(Abstract()), d).Some?
      ensures Abstract() == if ok then Reject(old(Abstract()), d).value else old(Abstract())
    {
      var recorded := d.(action := REJECT);
      if !ValidDecision(recorded) || d.versionId !in rows { return false; }
      if KnownDecision(decisions, d.id) { return false; }
      decisions := decisions + [recorded];
      return true;
    }
  }

  lemma {:induction false} TrimActions()
    ensures TrimSpace(PROMOTE) == PROMOTE && TrimSpace(ROLLBACK) == ROLLBACK && TrimSpace(REJECT) == REJECT
  {
  }

  lemma {:induction false} RefusedByIndex(t: Table, v: Version, at: Time)
    requires Unique(t) && v.id in t
    requires exists other :: other in t && other != v.id && IsActive(Cleared(t, v.key), other, t[v.id].key)
    ensures !Unique(Moved(t, v, at))
  {
    var other :| other in t && other != v.id && IsActive(Cleared(t, v.key), other, t[v.id].key);
    assert IsActive(Moved(t, v, at), other, t[v.id].key) && IsActive(Moved(t, v, at), v.id, t[v.id].key);
  }

  lemma {:induction false} AcceptedByIndex(t: Table, v: Version, at: Time)
    requires Unique(t)
    requires v.id in t ==> !exists other :: other in t && other != v.id && IsActive(Cleared(t, v.key), other, t[v.id].key)
    ensures Unique(Moved(t, v, at))
  {
    var t' := Moved(t, v, at);
    forall a, b, k | IsActive(t', a, k) && IsActive(t', b, k)
      ensures a == b
    {
      assert a != v.id ==> IsActive(Cleared(t, v.key), a, k) && IsActive(t, a, k);
      assert b != v.id ==> IsActive(Cleared(t, v.key), b, k) && IsActive(t, b, k);
    }
  }

  // ---------------------------------------------------------------- runs

  datatype Call =
    | Saving(version: Version, metrics: seq<string>, now: Time)
    | Promoting(decision: Decision)
    | Rejecting(decision: Decision)

  ghost function Attempt(st: State, c: Call): Option<State> {
    match c
    case Saving(v, metrics, now) => Save(st, v, metrics, now)
    case Promoting(d) => Promote(st, d)
    case Rejecting(d) => Reject(st, d)
  }

  ghost function Apply(st: State, c: Call): State {
    match Attempt(st, c)
    case None => st
    case Some(st') => st'
  }

  ghost function Run(calls: seq<Call>): State {
    if calls == [] then EMPTY else Apply(Run(calls[..|calls| - 1]), calls[|calls| - 1])
  }

  /** At most one version of each (view, entity) is promoted, whatever is saved, promoted or rejected. */
  lemma {:induction false} RunKeepsUnique(calls: seq<Call>)
    ensures Unique(Run(calls).rows)
  {
    if calls != [] {
      var st := Run(calls[..|calls| - 1]);
      RunKeepsUnique(calls[..|calls| - 1]);
      var c := calls[|calls| - 1];
      if c.Saving? && Attempt(st, c).Some? {
        forall a, k | IsActive(Apply(st, c).rows, a, k)
          ensures IsActive(st.rows, a, k)
        {
        }
      }
    }
  }

  // ---------------------------------------------------------------- replaying the decisions

  /** What the recorded decisions say: each promote or rollback makes its version the active one of its key. */
  function Replay(t: Table, ds: seq<Decision>): map<Key, string> {
    if ds == [] then map[]
    else
      var d, before := ds[|ds| - 1], Replay(t, ds[..|ds| - 1]);
      if d.action in {PROMOTE, ROLLBACK} && d.versionId in t then before[t[d.versionId].key := d.versionId] else before
  }

  /** The stored versions carry the key and the identifier of their row. */
  ghost predicate Keyed(t: Table) {
    forall id :: id in t ==> id != "" && t[id].version.id == id && t[id].version.key == t[id].key
  }

  ghost predicate Cited(st: State) {
    forall i :: 0 <= i < |st.decisions| ==> st.decisions[i].versionId in st.rows
  }

  /** The promoted rows are exactly what replaying the decisions gives. */
  ghost predicate Agrees(st: State) {
    var r := Replay(st.rows, st.decisions);
    forall id, k :: IsActive(st.rows, id, k) <==> k in r && r[k] == id
  }

  ghost predicate Inv(st: State) {
    Keyed(st.rows) && Cited(st) && Agrees(st)
  }

  predicate SameKeys(t: Table, t': Table) {
    forall id :: id in t ==> id in t' && t'[id].key == t[id].key
  }

  /** Replaying looks only at the keys of the versions that the decisions name. */
  lemma {:induction false} ReplayStable(t: Table, t': Table, ds: seq<Decision>)
    requires SameKeys(t, t')
    requires forall i :: 0 <= i < |ds| ==> ds[i].versionId in t
    ensures Replay(t', ds) == Replay(t, ds)
  {
    if ds != [] {
      ReplayStable(t, t', ds[..|ds| - 1]);
    }
  }

  lemma {:induction false} ReplayNext(t: Table, ds: seq<Decision>, d: Decision)
    requires d.versionId in t
    ensures Replay(t, ds + [d])
            == if d.action in {PROMOTE, ROLLBACK} then Replay(t, ds)[t[d.versionId].key := d.versionId] else Replay(t, ds)
  {
  }

  /** A save that leaves the promotions and the keys alone: a fresh identifier, or a version saved again under its own
      view and entity while it is not promoted. */
  predicate Harmless(t: Table, v: Version) {
    v.id in t ==> t[v.id].promotedAt.None? && t[v.id].key == v.key
  }

  /** An accepted save leaves the promoted rows as the decisions tell them exactly when it does not hit a promoted row:
      saving the active version again takes its promotion away, and no decision records it. */
  lemma {:induction false} SaveAgreesIff(st: State, v: Version, metrics: seq<string>, now: Time)
    requires Inv(st) && Savable(v, metrics)
    ensures Agrees(Save(st, v, metrics, now).value) <==> (v.id in st.rows ==> st.rows[v.id].promotedAt.None?)
  {
    var st' := Save(st, v, metrics, now).value;
    ReplayStable(st.rows, st'.rows, st.decisions);
    var r := Replay(st.rows, st.decisions);
    if v.id in st.rows && st.rows[v.id].promotedAt.Some? {
      var k := st.rows[v.id].key;
      assert IsActive(st.rows, v.id, k) && !IsActive(st'.rows, v.id, k);
    } else {
      forall id, k
        ensures IsActive(st'.rows, id, k) <==> k in r && r[k] == id
      {
        assert IsActive(st'.rows, id, k) <==> IsActive(st.rows, id, k);
      }
    }
  }

  /** It keeps the whole invariant exactly when it is harmless. */
  lemma {:induction false} SaveKeepsInvIff(st: State, v: Version, metrics: seq<string>, now: Time)
    requires Inv(st) && Savable(v, metrics)
    ensures Inv(Save(st, v, metrics, now).value) <==> Harmless(st.rows, v)
  {
    hide Agrees;
    SaveAgreesIff(st, v, metrics, now);
    assert Save(st, v, metrics, now).value.rows[v.id].version.key == v.key;
  }

  /** A decision that says what it must: who decided on which version, when and why. */
  predicate Complete(d: Decision) {
    && !Blank(d.id) && !Blank(d.versionId) && !Blank(d.approvedBy) && !Blank(d.reason) && d.approvedAt != ZERO_TIME
  }

  /** With the invariant, a promotion fails only on an incomplete decision or another action, an unknown version or a repeated
      decision identifier: the unique index never refuses it. */
  lemma {:induction false} PromoteAcceptedIff(st: State, d: Decision)
    requires Inv(st)
    ensures Promote(st, d).Some?
            <==> && d.action in {"", "promote", "rollback"} && Complete(d) && d.versionId in st.rows
                 && forall i :: 0 <= i < |st.decisions| ==> st.decisions[i].id != d.id
  {
    assert ValidDecision(d.(action := PROMOTE)) <==> Complete(d) by { CompleteIff(d); }
    if d.versionId in st.rows {
      var t, v := st.rows, st.rows[d.versionId].version;
      forall a, b, k | IsActive(Moved(t, v, d.approvedAt), a, k) && IsActive(Moved(t, v, d.approvedAt), b, k)
        ensures a == b
      {
        MovedActive(t, v, d.approvedAt, a, k);
        MovedActive(t, v, d.approvedAt, b, k);
      }
    }
  }

  lemma {:induction false} CompleteIff(d: Decision)
    ensures ValidDecision(d.(action := PROMOTE)) <==> Complete(d)
    ensures ValidDecision(d.(action := REJECT)) <==> Complete(d)
    ensures ValidDecision(d) <==> Complete(d) && TrimSpace(d.action) in {"promote", "reject", "rollback"}
  {
    hide Blank, TrimSpace;
    TrimActions();
  }

  /** An accepted promotion stamps the version with the approval and records the decision: its action, promote if none was
      given, and the version it replaces, the active one if none was given. */
  lemma {:induction false} PromoteStores(st: State, d: Decision)
    requires Inv(st) && Promote(st, d).Some?
    ensures var st' := Promote(st, d).value;
            && d.versionId in st'.rows && st'.rows[d.versionId].promotedAt == Some(d.approvedAt)
            && st'.rows[d.versionId].version == st.rows[d.versionId].version.(promotedAt := d.approvedAt)
            && |st'.decisions| == |st.decisions| + 1
            && var r := st'.decisions[|st.decisions|];
               && r.action == (if d.action == "" then "promote" else d.action)
               && r.previousId == (if d.previousId == "" then ActiveId(st.rows, st.rows[d.versionId].key) else d.previousId)
               && r == d.(action := r.action, previousId := r.previousId)
  {
    hide ValidDecision, Unique, KnownDecision, ActiveId, Replay;
  }

  /** A rejection is accepted under the same conditions, whatever action it names, and only adds the decision, as a
      rejection. */
  lemma {:induction false} RejectAcceptedIff(st: State, d: Decision)
    ensures Reject(st, d).Some?
            <==> Complete(d) && d.versionId in st.rows && forall i :: 0 <= i < |st.decisions| ==> st.decisions[i].id != d.id
    ensures Reject(st, d).Some? ==>
              Reject(st, d).value == State(st.rows, st.decisions + [d.(action := "reject")])
  {
    hide ValidDecision;
    CompleteIff(d);
  }

  /** A version is saved exactly when it has an identifier, a view and an entity, is not marked as promoted, and every statistic
      names its metric; what is stored is that version, created now if it says nothing else, and not promoted. */
  lemma {:induction false} SaveAcceptedIff(st: State, v: Version, metrics: seq<string>, now: Time)
    ensures Save(st, v, metrics, now).Some?
            <==> && v.id != "" && v.key.view != "" && v.key.entity != "" && v.promotedAt == ZERO_TIME
                 && forall i :: 0 <= i < |metrics| ==> metrics[i] != ""
    ensures Save(st, v, metrics, now).Some? ==>
              var st' := Save(st, v, metrics, now).value;
              && st'.decisions == st.decisions && st'.rows.Keys == st.rows.Keys + {v.id}
              && st'.rows[v.id].version == v.(createdAt := if v.createdAt == ZERO_TIME then now else v.createdAt)
              && st'.rows[v.id].promotedAt == None && st'.rows[v.id].key == (if v.id in st.rows then st.rows[v.id].key else v.key)
              && forall id :: id in st.rows && id != v.id ==> st'.rows[id] == st.rows[id]
  {
  }

  lemma {:induction false} MovedActive(t: Table, v: Version, at: Time, id: string, k: Key)
    requires v.id in t && t[v.id].key == v.key
    ensures IsActive(Moved(t, v, at), id, k) <==> if k == v.key then id == v.id else IsActive(t, id, k)
  {
  }

  lemma {:induction false} PromoteKeepsInv(st: State, d: Decision)
    requires Inv(st) && Promote(st, d).Some?
    ensures Inv(Promote(st, d).value)
  {
    hide ValidDecision, KnownDecision, Unique, Replay, IsActive, ActiveId;
    var st' := Promote(st, d).value;
    var v := st.rows[d.versionId].version;
    var recorded := st'.decisions[|st.decisions|];
    assert Keyed(st'.rows) && SameKeys(st.rows, st'.rows);
    ReplayStable(st.rows, st'.rows, st.decisions);
    hide Moved;
    ReplayNext(st'.rows, st.decisions, recorded);
    forall id, k
      ensures IsActive(st'.rows, id, k)
              <==> k in Replay(st'.rows, st'.decisions) && Replay(st'.rows, st'.decisions)[k] == id
    {
      MovedActive(st.rows, v, d.approvedAt, id, k);
    }
  }

  lemma {:induction false} RejectKeepsInv(st: State, d: Decision)
    requires Inv(st) && Reject(st, d).Some?
    ensures Inv(Reject(st, d).value)
  {
  }

  /** Every save of the run was harmless when it was made. */
  ghost predicate HarmlessRun(calls: seq<Call>) {
    forall i :: 0 <= i < |calls| ==> HarmlessAt(calls, i)
  }

  ghost predicate HarmlessAt(calls: seq<Call>, i: nat)
    requires i < |calls|
  {
    calls[i].Saving? ==> Harmless(Run(calls[..i]).rows, calls[i].version)
  }

  ghost predicate FreshRun(calls: seq<Call>) {
    forall i, j :: 0 <= i < j < |calls| && calls[i].Saving? && calls[j].Saving? ==>
                     calls[i].version.id != calls[j].version.id
  }

  lemma {:induction false} OnlySavedRows(calls: seq<Call>, id: string)
    requires id in Run(calls).rows
    ensures exists i :: 0 <= i < |calls| && calls[i].Saving? && calls[i].version.id == id
  {
    if calls != [] {
      var init := calls[..|calls| - 1];
      if id in Run(init).rows {
        OnlySavedRows(init, id);
        var i :| 0 <= i < |init| && init[i].Saving? && init[i].version.id == id;
        assert calls[i] == init[i];
      } else {
        assert calls[|calls| - 1].Saving?;
      }
    }
  }

  /** A run that never saves one identifier twice makes only harmless saves. */
  lemma {:induction false} FreshIsHarmless(calls: seq<Call>)
    requires FreshRun(calls)
    ensures HarmlessRun(calls)
  {
    forall i | 0 <= i < |calls|
      ensures HarmlessAt(calls, i)
    {
      if calls[i].Saving? && calls[i].version.id in Run(calls[..i]).rows {
        OnlySavedRows(calls[..i], calls[i].version.id);
      }
    }
  }

  lemma {:induction false} RunKeepsInv(calls: seq<Call>)
    requires HarmlessRun(calls)
    ensures Inv(Run(calls))
  {
    if calls != [] {
      var last := |calls| - 1;
      var init := calls[..last];
      PrefixHarmless(calls);
      RunKeepsInv(init);
      assert HarmlessAt(calls, last);
      if Attempt(Run(init), calls[last]).Some? {
        match calls[last]
        case Saving(v, metrics, now) => SaveKeepsInvIff(Run(init), v, metrics, now);
        case Promoting(d) => PromoteKeepsInv(Run(init), d);
        case Rejecting(d) => RejectKeepsInv(Run(init), d);
      }
    }
  }

  /** In every run whose saved identifiers are fresh, replaying the promote and rollback decisions in insertion order
      gives the active version of every (view, entity), and no other version is promoted. */
  lemma {:induction false} ReplayGivesActive(calls: seq<Call>, id: string, k: Key)
    requires FreshRun(calls)
    ensures var r := Replay(Run(calls).rows, Run(calls).decisions);
            IsActive(Run(calls).rows, id, k) <==> k in r && r[k] == id
  {
    FreshIsHarmless(calls);
    RunKeepsInv(calls);
  }

  /** No promotion of the run names the version it replaces. */
  predicate LetsStoreName(calls: seq<Call>) {
    forall i :: 0 <= i < |calls| && calls[i].Promoting? ==> calls[i].decision.previousId == ""
  }

  /** The i-th decision names the version that the decisions before it left active. */
  ghost predicate NamesPrevious(st: State, i: nat)
    requires i < |st.decisions| && st.decisions[i].versionId in st.rows
  {
    var d, r := st.decisions[i], Replay(st.rows, st.decisions[..i]);
    var k := st.rows[d.versionId].key;
    d.action in {PROMOTE, ROLLBACK} ==> d.previousId == if k in r then r[k] else ""
  }

  lemma {:induction false} PrefixHarmless(calls: seq<Call>)
    requires HarmlessRun(calls) && calls != []
    ensures HarmlessRun(calls[..|calls| - 1])
  {
    var init := calls[..|calls| - 1];
    forall i | 0 <= i < |init|
      ensures HarmlessAt(init, i)
    {
      assert HarmlessAt(calls, i) && init[..i] == calls[..i];
    }
  }

  /** A call extends the decisions by one at most and keeps the keys of the rows. */
  lemma {:induction false} ApplyExtends(st: State, c: Call)
    ensures var st' := Apply(st, c);
            && SameKeys(st.rows, st'.rows)
            && |st.decisions| <= |st'.decisions| <= |st.decisions| + 1
            && st'.decisions[..|st.decisions|] == st.decisions
  {
  }

  lemma {:induction false} EarlierNamesKept(st: State, st': State, i: nat)
    requires Cited(st) && SameKeys(st.rows, st'.rows)
    requires i < |st.decisions| <= |st'.decisions| && st'.decisions[..|st.decisions|] == st.decisions
    requires NamesPrevious(st, i)
    ensures st'.decisions[i].versionId in st'.rows && NamesPrevious(st', i)
  {
    assert st'.decisions[i] == st'.decisions[..|st.decisions|][i];
    assert st'.decisions[..i] == st'.decisions[..|st.decisions|][..i];
    ReplayStable(st.rows, st'.rows, st.decisions[..i]);
  }

  lemma {:induction false} NewNamesPrevious(st: State, c: Call)
    requires Inv(st) && (c.Promoting? ==> c.decision.previousId == "")
    requires |Apply(st, c).decisions| == |st.decisions| + 1
    ensures var st' := Apply(st, c);
            st'.decisions[|st.decisions|].versionId in st'.rows && NamesPrevious(st', |st.decisions|)
  {
    hide Agrees, Keyed, Unique, ValidDecision, KnownDecision;
    var st' := Apply(st, c);
    ApplyExtends(st, c);
    ReplayStable(st.rows, st'.rows, st.decisions);
    if c.Promoting? {
      var id := c.decision.versionId;
      assert st.rows[id].version.key == st.rows[id].key by { RowKeyed(st.rows, id); }
      ActiveIsReplay(st, st.rows[id].key);
    }
  }

  lemma {:induction false} RowKeyed(t: Table, id: string)
    requires Keyed(t) && id in t
    ensures t[id].version.key == t[id].key
  {
  }

  /** The recorded decisions form an unbroken trail: each names the version that was active until it. */
  lemma {:induction false} TrailUnbroken(calls: seq<Call>, i: nat)
    requires HarmlessRun(calls) && LetsStoreName(calls)
    requires i < |Run(calls).decisions|
    ensures Run(calls).decisions[i].versionId in Run(calls).rows && NamesPrevious(Run(calls), i)
  {
    hide Apply, Inv, HarmlessRun, NamesPrevious;
    var init, c := calls[..|calls| - 1], calls[|calls| - 1];
    PrefixHarmless(calls);
    RunKeepsInv(init);
    ApplyExtends(Run(init), c);
    if i < |Run(init).decisions| {
      TrailUnbroken(init, i);
      CitedByInv(Run(init));
      EarlierNamesKept(Run(init), Run(calls), i);
    } else {
      NewNamesPrevious(Run(init), c);
    }
  }

  lemma {:induction false} CitedByInv(st: State)
    requires Inv(st)
    ensures Cited(st)
  {
  }

  lemma {:induction false} ActiveIsReplay(st: State, k: Key)
    requires Inv(st)
    ensures var r := Replay(st.rows, st.decisions);
            ActiveId(st.rows, k) == if k in r then r[k] else ""
  {
    var r := Replay(st.rows, st.decisions);
    assert k in r ==> IsActive(st.rows, r[k], k);
  }

  // ---------------------------------------------------------------- the listed order

  /** The decision moves the promotion of this key. */
  predicate Effective(t: Table, d: Decision, k: Key) {
    d.action in {PROMOTE, ROLLBACK} && d.versionId in t && t[d.versionId].key == k
  }

  /** The i-th decision is the last of the list that moves the promotion of the key. */
  predicate IsLast(t: Table, ds: seq<Decision>, k: Key, i: nat) {
    i < |ds| && Effective(t, ds[i], k) && forall j :: i < j < |ds| ==> !Effective(t, ds[j], k)
  }

  /** Replaying a list gives each key the version of the last decision that moves its promotion, and nothing to a key that
      no decision moves. */
  lemma {:induction false} ReplayIsLast(t: Table, ds: seq<Decision>, k: Key) returns (i: nat)
    ensures k in Replay(t, ds) <==> exists j :: 0 <= j < |ds| && Effective(t, ds[j], k)
    ensures k in Replay(t, ds) ==> IsLast(t, ds, k, i) && Replay(t, ds)[k] == ds[i].versionId
  {
    i := 0;
    if ds != [] {
      var n := |ds| - 1;
      var init := ds[..n];
      i := ReplayIsLast(t, init, k);
      assert forall j :: 0 <= j < n ==> init[j] == ds[j];
      if Effective(t, ds[n], k) {
        i := n;
      }
    }
  }

  /** ORDER BY approved_at, decision_id, where `text` is the stored form of an instant. */
  predicate ListedBefore(text: Time -> string, c: Decision, d: Decision) {
    TextLess(text(c.approvedAt), text(d.approvedAt)) || (text(c.approvedAt) == text(d.approvedAt) && TextLess(c.id, d.id))
  }

  /** The answer of BaselinePromotionDecisions: the same decisions, in their listed order. */
  ghost predicate Listing(text: Time -> string, ds: seq<Decision>, listed: seq<Decision>) {
    && (forall d :: d in listed <==> d in ds)
    && (forall i, j :: 0 <= i < j < |listed| ==> ListedBefore(text, listed[i], listed[j]))
  }

  /** Of the decisions that move the promotion of the key, the j-th is listed last. */
  predicate IsListedLast(text: Time -> string, t: Table, ds: seq<Decision>, k: Key, j: nat) {
    && j < |ds| && Effective(t, ds[j], k)
    && forall i :: 0 <= i < |ds| && i != j && Effective(t, ds[i], k) ==> ListedBefore(text, ds[i], ds[j])
  }

  /** The decision inserted last and the one listed last for a key name one version. */
  ghost predicate LastsAgree(text: Time -> string, t: Table, ds: seq<Decision>, k: Key) {
    forall i: nat, j: nat :: IsLast(t, ds, k, i) && IsListedLast(text, t, ds, k, j) ==> ds[i].versionId == ds[j].versionId
  }

  predicate UniqueIds(ds: seq<Decision>) {
    forall i, j :: 0 <= i < j < |ds| ==> ds[i].id != ds[j].id
  }

  lemma {:induction false} ListedOneWay(text: Time -> string, c: Decision, d: Decision)
    ensures !(ListedBefore(text, c, d) && ListedBefore(text, d, c))
  {
    TextLessTotal(text(c.approvedAt), text(d.approvedAt));
    TextLessTotal(c.id, d.id);
  }

  /** The last moving decision of the list is the one that counts as listed last. */
  lemma {:induction false} LastOfListing(
    text: Time -> string, t: Table, ds: seq<Decision>, listed: seq<Decision>, k: Key, x: nat) returns (j: nat)
    requires UniqueIds(ds) && Listing(text, ds, listed) && IsLast(t, listed, k, x)
    ensures IsListedLast(text, t, ds, k, j) && ds[j] == listed[x]
  {
    hide ListedBefore, Effective;
    assert listed[x] in ds;
    j :| 0 <= j < |ds| && ds[j] == listed[x];
    forall i | 0 <= i < |ds| && i != j && Effective(t, ds[i], k)
      ensures ListedBefore(text, ds[i], ds[j])
    {
      assert ds[i] in listed && ds[i].id != ds[j].id;
      var y :| 0 <= y < |listed| && listed[y] == ds[i];
    }
  }

  /** For one key, replaying the listed order gives what replaying the insertion order gives exactly when the decision
      inserted last and the decision listed last name one version. */
  lemma {:induction false} ListedAgreesAt(
    text: Time -> string, t: Table, ds: seq<Decision>, listed: seq<Decision>, k: Key)
    requires UniqueIds(ds) && Listing(text, ds, listed)
    ensures (k in Replay(t, ds) <==> k in Replay(t, listed))
    ensures k in Replay(t, ds) ==> (Replay(t, ds)[k] == Replay(t, listed)[k] <==> LastsAgree(text, t, ds, k))
    ensures k !in Replay(t, ds) ==> LastsAgree(text, t, ds, k)
  {
    hide ListedBefore, Replay, Effective;
    var i := ReplayIsLast(t, ds, k);
    var x := ReplayIsLast(t, listed, k);
    SameMoves(text, t, ds, listed, k);
    if k in Replay(t, ds) {
      var j := LastOfListing(text, t, ds, listed, k, x);
      forall i': nat, j': nat | IsLast(t, ds, k, i') && IsListedLast(text, t, ds, k, j')
        ensures i' == i && j' == j
      {
        if j' != j {
          ListedOneWay(text, ds[j], ds[j']);
        }
      }
    }
  }

  lemma {:induction false} SameMoves(text: Time -> string, t: Table, ds: seq<Decision>, listed: seq<Decision>, k: Key)
    requires Listing(text, ds, listed)
    ensures (exists j :: 0 <= j < |ds| && Effective(t, ds[j], k)) <==> (exists j :: 0 <= j < |listed| && Effective(t, listed[j], k))
  {
    hide Effective, ListedBefore;
    if j :| 0 <= j < |ds| && Effective(t, ds[j], k) {
      assert ds[j] in listed;
    }
    if j :| 0 <= j < |listed| && Effective(t, listed[j], k) {
      assert listed[j] in ds;
    }
  }

  /** Replaying the listed decisions gives the active version of every key. */
  ghost predicate ListedAgrees(st: State, listed: seq<Decision>) {
    var r := Replay(st.rows, listed);
    forall id, k :: IsActive(st.rows, id, k) <==> k in r && r[k] == id
  }

  lemma {:induction false} RunKeepsIds(calls: seq<Call>)
    ensures UniqueIds(Run(calls).decisions)
  {
    if calls != [] {
      hide ValidDecision, Unique, Moved, Savable;
      RunKeepsIds(calls[..|calls| - 1]);
    }
  }

  /** In every run whose saved identifiers are fresh, replaying the decisions in the order BaselinePromotionDecisions lists
      them gives the active version of every (view, entity) exactly when, for each, the decision inserted last and the one
      listed last name the same version. */
  lemma {:induction false} ListedReplayIff(text: Time -> string, calls: seq<Call>, listed: seq<Decision>)
    requires FreshRun(calls) && Listing(text, Run(calls).decisions, listed)
    ensures
      var st := Run(calls);
      ListedAgrees(st, listed) <==> forall k :: LastsAgree(text, st.rows, st.decisions, k)
  {
    hide Run, Replay, IsActive, Listing, LastsAgree;
    var st := Run(calls);
    RunKeepsIds(calls);
    FreshIsHarmless(calls);
    RunKeepsInv(calls);
    var r, listedR := Replay(st.rows, st.decisions), Replay(st.rows, listed);
    forall k
      ensures k in r <==> k in listedR
      ensures LastsAgree(text, st.rows, st.decisions, k) <==> (k in r ==> r[k] == listedR[k])
    {
      ListedAgreesAt(text, st.rows, st.decisions, listed, k);
    }
    assert forall k :: k in r ==> IsActive(st.rows, r[k], k);
  }

  // ---------------------------------------------------------------- two runs that go wrong

  lemma {:induction false} RunSnoc(calls: seq<Call>, c: Call)
    ensures Run(calls + [c]) == Apply(Run(calls), c)
  {
    assert (calls + [c])[..|calls|] == calls;
  }

  /** A complete decision to promote the version. */
  predicate Promotes(d: Decision, v: Version) {
    d.action in {"", PROMOTE, ROLLBACK} && ValidDecision(d.(action := PROMOTE)) && d.versionId == v.id
  }

  lemma {:induction false} SaveStep(calls: seq<Call>, v: Version, now: Time)
    requires Savable(v, [])
    ensures var st, st' := Run(calls), Run(calls + [Saving(v, [], now)]);
            && v.id in st'.rows && st'.decisions == st.decisions && st'.rows.Keys == st.rows.Keys + {v.id}
            && (v.id !in st.rows ==> st'.rows[v.id].key == v.key)
            && (forall id :: id in st.rows ==> st'.rows[id].key == st.rows[id].key)
  {
    RunSnoc(calls, Saving(v, [], now));
  }

  lemma {:induction false} PromoteStep(calls: seq<Call>, v: Version, d: Decision)
    requires Inv(Run(calls)) && v.id in Run(calls).rows && Promotes(d, v) && !KnownDecision(Run(calls).decisions, d.id)
    ensures var st, st' := Run(calls), Run(calls + [Promoting(d)]);
            && Inv(st') && st'.rows.Keys == st.rows.Keys && |st'.decisions| == |st.decisions| + 1
            && st'.decisions[..|st.decisions|] == st.decisions
            && (forall id :: id in st.rows ==> st'.rows[id].key == st.rows[id].key)
            && IsActive(st'.rows, v.id, st.rows[v.id].key)
            && var r := st'.decisions[|st.decisions|];
               r.id == d.id && r.approvedAt == d.approvedAt && r.versionId == v.id && r.action in {PROMOTE, ROLLBACK}
  {
    hide ValidDecision, Unique, Replay, Blank;
    RunSnoc(calls, Promoting(d));
    CompleteIff(d);
    PromoteAcceptedIff(Run(calls), d);
    PromoteKeepsInv(Run(calls), d);
  }

  /** Save, promote, save again: the version that was active no longer is, and the one recorded decision says it is. */
  lemma {:induction false} ResaveUnpromotes(v: Version, d: Decision, now: Time)
    requires Savable(v, []) && Promotes(d, v)
    ensures var save := Saving(v, [], now);
            && IsActive(Run([save, Promoting(d)]).rows, v.id, v.key)
            && !IsActive(Run([save, Promoting(d), save]).rows, v.id, v.key) && !Agrees(Run([save, Promoting(d), save]))
  {
    hide Run, Inv, Agrees, Promotes, Promote, Savable;
    var save := Saving(v, [], now);
    assert Run([]) == EMPTY by { RunNone(); }
    SaveStep([], v, now);
    assert [] + [save] == [save] && [save] + [Promoting(d)] == [save, Promoting(d)];
    FreshIsHarmless([save]);
    RunKeepsInv([save]);
    PromoteStep([save], v, d);
    var st := Run([save, Promoting(d)]);
    assert [save, Promoting(d)] + [save] == [save, Promoting(d), save];
    RunSnoc([save, Promoting(d)], save);
    SaveAgreesIff(st, v, [], now);
    SaveClears(st, v, now);
  }

  lemma {:induction false} RunNone()
    ensures Run([]) == EMPTY
  {
  }

  lemma {:induction false} SaveClears(st: State, v: Version, now: Time)
    requires Savable(v, [])
    ensures Apply(st, Saving(v, [], now)) == Save(st, v, [], now).value
    ensures forall k :: !IsActive(Save(st, v, [], now).value.rows, v.id, k)
  {
  }

  lemma {:induction false} TwoSaved(v: Version, w: Version, now: Time)
    requires Savable(v, []) && Savable(w, []) && v.key == w.key && v.id != w.id
    ensures var st := Run([Saving(v, [], now), Saving(w, [], now)]);
            && Inv(st) && st.decisions == [] && v.id in st.rows && w.id in st.rows
            && st.rows[v.id].key == st.rows[w.id].key == v.key
  {
    hide Run, Inv, Savable, HarmlessRun;
    var c1, c2 := Saving(v, [], now), Saving(w, [], now);
    assert Run([]) == EMPTY by { RunNone(); }
    assert [] + [c1] == [c1] && [c1] + [c2] == [c1, c2];
    SaveStep([], v, now);
    SaveStep([c1], w, now);
    FreshIsHarmless([c1, c2]);
    RunKeepsInv([c1, c2]);
  }

  /** What saving two versions of one key and promoting them in turn leaves. */
  lemma {:induction false} TwoPromoted(v: Version, w: Version, d: Decision, e: Decision, now: Time)
    requires Savable(v, []) && Savable(w, []) && v.key == w.key && v.id != w.id
    requires Promotes(d, v) && Promotes(e, w) && d.id != e.id
    ensures var st := Run([Saving(v, [], now), Saving(w, [], now), Promoting(d), Promoting(e)]);
            && |st.decisions| == 2 && IsActive(st.rows, w.id, v.key) && v.id in st.rows && st.rows[v.id].key == v.key
            && var first, second := st.decisions[0], st.decisions[1];
               && first.id == d.id && first.approvedAt == d.approvedAt && first.versionId == v.id
               && first.action in {PROMOTE, ROLLBACK} && second.id == e.id && second.approvedAt == e.approvedAt
  {
    hide Run, Inv, Promotes, Savable, IsActive;
    var c1, c2, c3, c4 := Saving(v, [], now), Saving(w, [], now), Promoting(d), Promoting(e);
    assert [c1, c2] + [c3] == [c1, c2, c3] && [c1, c2, c3] + [c4] == [c1, c2, c3, c4];
    TwoSaved(v, w, now);
    PromoteStep([c1, c2], v, d);
    PromoteStep([c1, c2, c3], w, e);
    assert Run([c1, c2, c3, c4]).decisions[0] == Run([c1, c2, c3, c4]).decisions[..1][0];
  }

  /** Two versions of one key promoted in turn, the second approved at a time that is listed first: replaying the listed
      decisions gives the first version, though the second is active. */
  lemma {:induction false} ListingMisleads(
    text: Time -> string, v: Version, w: Version, d: Decision, e: Decision, now: Time)
    requires Savable(v, []) && Savable(w, []) && v.key == w.key && v.id != w.id
    requires Promotes(d, v) && Promotes(e, w) && d.id != e.id && ListedBefore(text, e, d)
    ensures var st := Run([Saving(v, [], now), Saving(w, [], now), Promoting(d), Promoting(e)]);
            && |st.decisions| == 2 && IsActive(st.rows, w.id, v.key)
            && var listed := [st.decisions[1], st.decisions[0]];
               Listing(text, st.decisions, listed) && !ListedAgrees(st, listed)
  {
    hide Run, Promotes, Savable, Replay;
    TwoPromoted(v, w, d, e, now);
    var st := Run([Saving(v, [], now), Saving(w, [], now), Promoting(d), Promoting(e)]);
    var first, second := st.decisions[0], st.decisions[1];
    TwoReplayed(st.rows, second, first);
    assert st.decisions == [first, second];
  }

  lemma {:induction false} TwoReplayed(t: Table, c: Decision, d: Decision)
    requires d.action in {PROMOTE, ROLLBACK} && d.versionId in t
    ensures t[d.versionId].key in Replay(t, [c, d]) && Replay(t, [c, d])[t[d.versionId].key] == d.versionId
  {
    assert [c, d][..1] == [c];
  }
}
