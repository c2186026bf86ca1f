/** Runtime-action leases (internal/kliq/actionstate/sqlite.go and types.go): one upsert under a primary key, a unique
    idempotency key and a partial unique index over live leases. */
module Leases {
  import opened Basics

  datatype Lease = Lease(
    id: string,
    planId: string,
    decisionId: string,
    policyId: string,
    bundleId: string,
    sourceCommit: string,
    correlationId: string,
    actionType: string,
    targetScope: string,
    targetKey: string,
    ttl: string,
    expiresAt: Time,
    reason: string,
    auditId: string,
    grantId: string,
    bindingId: string,
    bindingDigest: string,
    manifestDigest: string,
    actionDigest: string,
    adapterId: string,
    capabilityId: string,
    mode: string,
    required: bool,
    idempotencyKey: string,
    createdAt: Time,
    createdText: string,
    lastReconciledAt: Time,
    status: string)

  type Table = map<string, Lease>

  const EXPIRED: string := "expired"

  /** Lease.Validate. `createdText` is the stored form of `createdAt`. */
  predicate Valid(l: Lease) {
    && l.id != "" && l.planId != "" && l.decisionId != "" && l.policyId != "" && l.bundleId != "" && l.sourceCommit != ""
    && l.adapterId != "" && l.capabilityId != "" && l.mode != "" && l.actionType != "" && l.targetScope != ""
    && l.targetKey != "" && l.ttl != "" && l.reason != "" && l.auditId != "" && l.grantId != ""
    && l.idempotencyKey != "" && l.status != ""
    && l.expiresAt != ZERO_TIME && l.createdAt != ZERO_TIME && l.lastReconciledAt != ZERO_TIME
  }

  /** The WHERE clause of the partial index. */
  predicate Live(l: Lease) {
    l.status in {"planned", "authorized", "executing", "active", "expiring", "unknown", "compensating"}
  }

  datatype DedupKey = DedupKey(adapterId: string, capabilityId: string, actionType: string, scope: string, key: string)

  function Dedup(l: Lease): DedupKey {
    DedupKey(l.adapterId, l.capabilityId, l.actionType, l.targetScope, l.targetKey)
  }

  /** The declared constraints of the table. */
  ghost predicate Constraints(t: Table) {
    && (forall id :: id in t ==> t[id].id == id)
    && (forall a, b :: a in t && b in t && t[a].idempotencyKey == t[b].idempotencyKey ==> a == b)
    && (forall a, b :: a in t && b in t && Live(t[a]) && Live(t[b]) && Dedup(t[a]) == Dedup(t[b]) ==> a == b)
  }

  /** A row with this id can be written without breaking a unique index over the other rows. */
  predicate Fits(t: Table, l: Lease) {
    && (forall id :: id in t && id != l.id ==> t[id].idempotencyKey != l.idempotencyKey)
    && (Live(l) ==> forall id :: id in t && id != l.id && Live(t[id]) ==> Dedup(t[id]) != Dedup(l))
  }

  /** The row an upsert writes: the new lease, or the stored one with its two mutable columns replaced. */
  function Written(t: Table, l: Lease): Lease {
    if l.id in t then t[l.id].(lastReconciledAt := l.lastReconciledAt, status := l.status) else l
  }

  function Upsert(t: Table, l: Lease): Option<Table> {
    if !Valid(l) || !Fits(t, Written(t, l)) then None else Some(t[l.id := Written(t, l)])
  }

  function Expire(t: Table, id: string, at: Time): Table {
    if id in t then t[id := t[id].(status := EXPIRED, lastReconciledAt := at)] else t
  }

  class LeaseStore {
    var rows: Table

    constructor ()
      ensures rows == map[]
    {
      rows := map[];
    }

    method UpsertLease(l: Lease) returns (ok: bool)
      modifies this
      ensures ok == Upsert(old(rows), l).Some?
      ensures rows == if ok then Upsert(old(rows), l).value else old(rows)
    {
      if !Valid(l) { return false; }
      var row := l;
      if l.id in rows {
        row := rows[l.id].(lastReconciledAt := l.lastReconciledAt, status := l.status);
      }
      if !Fits(rows, row) { return false; }
      rows := rows[l.id := row];
      return true;
    }

    method ExpireLease(id: string, at: Time)
      modifies this
      ensures rows == Expire(old(rows), id, at)
    {
      if id in rows {
        rows := rows[id := rows[id].(status := EXPIRED, lastReconciledAt := at)];
      }
    }

    /** The query with LIMIT 1: whichever matching row the engine meets first. */
    method LeaseByDedupKey(key: DedupKey) returns (l: Option<Lease>)
      ensures l.Some? ==> l.value in rows.Values && Live(l.value) && Dedup(l.value) == key
      ensures l.None? ==> forall id :: id in rows ==> !(Live(rows[id]) && Dedup(rows[id]) == key)
    {
      var todo := rows.Keys;
      while todo != {}
        invariant todo <= rows.Keys
        invariant forall id :: id in rows && id !in todo ==> !(Live(rows[id]) && Dedup(rows[id]) == key)
      {
        var id :| id in todo;
        if Live(rows[id]) && Dedup(rows[id]) == key { return Some(rows[id]); }
        todo := todo - {id};
      }
      return None;
    }
  }

  // ---------------------------------------------------------------- runs

  datatype Call = Upserting(lease: Lease) | Expiring(id: string, at: Time)

  function Apply(t: Table, c: Call): Table {
    match c
    case Upserting(l) => (match Upsert(t, l) case None => t case Some(t') => t')
    case Expiring(id, at) => Expire(t, id, at)
  }

  function Run(t: Table, calls: seq<Call>): Table {
    if calls == [] then t else Apply(Run(t, calls[..|calls| - 1]), calls[|calls| - 1])
  }

  lemma {:induction false} ApplyKeepsConstraints(t: Table, c: Call)
    requires Constraints(t)
    ensures Constraints(Apply(t, c))
  {
    hide Constraints, Fits, Valid;
    match c
    case Upserting(l) =>
      WrittenId(t, l);
      FitsIff(t, Written(t, l));
    case Expiring(id, at) =>
      if id in t {
        ExpiredFits(t, id, at);
        FitsIff(t, t[id].(status := EXPIRED, lastReconciledAt := at));
      }
  }

  lemma {:induction false} WrittenId(t: Table, l: Lease)
    requires Constraints(t)
    ensures Written(t, l).id == l.id
  {
  }

  lemma {:induction false} ExpiredFits(t: Table, id: string, at: Time)
    requires Constraints(t) && id in t
    ensures t[id].id == id && Fits(t, t[id].(status := EXPIRED, lastReconciledAt := at))
  {
  }

  /** In every run from the empty table there is at most one live lease per dedup key, and idempotency keys are unique. */
  lemma {:induction false} RunKeepsConstraints(calls: seq<Call>)
    ensures Constraints(Run(map[], calls))
  {
    if calls != [] {
      RunKeepsConstraints(calls[..|calls| - 1]);
      ApplyKeepsConstraints(Run(map[], calls[..|calls| - 1]), calls[|calls| - 1]);
    }
  }

  /** Everything except status and last_reconciled_at. */
  function Immutable(l: Lease): Lease {
    l.(status := "", lastReconciledAt := ZERO_TIME)
  }

  /** Once stored, a lease stays, and only its status and last_reconciled_at ever change. */
  lemma {:induction false} OnlyStatusChanges(t: Table, calls: seq<Call>, id: string)
    requires id in t
    ensures id in Run(t, calls) && Immutable(Run(t, calls)[id]) == Immutable(t[id])
  {
    if calls != [] {
      OnlyStatusChanges(t, calls[..|calls| - 1], id);
    }
  }

  /** The index constraints are exactly what an upsert can fail on: with the constraints in force, writing the row keeps
      them precisely when it fits. */
  lemma {:induction false} FitsIff(t: Table, l: Lease)
    requires Constraints(t)
    ensures Fits(t, l) <==> Constraints(t[l.id := l])
  {
    var t' := t[l.id := l];
    if Constraints(t') {
      forall id | id in t && id != l.id
        ensures t[id].idempotencyKey != l.idempotencyKey
        ensures Live(l) && Live(t[id]) ==> Dedup(t[id]) != Dedup(l)
      {
        assert t'[id] == t[id] && t'[l.id] == l;
      }
    }
  }

  // ---------------------------------------------------------------- what the two calls do

  /** An accepted upsert stores a new lease as it is given, gives a stored one the new status and reconciliation time, and
      touches no other row. */
  lemma {:induction false} UpsertStores(t: Table, l: Lease)
    requires Upsert(t, l).Some?
    ensures var t' := Upsert(t, l).value;
            && t'.Keys == t.Keys + {l.id}
            && t'[l.id].status == l.status && t'[l.id].lastReconciledAt == l.lastReconciledAt
            && (l.id !in t ==> t'[l.id] == l)
            && (forall id :: id in t && id != l.id ==> t'[id] == t[id])
  {
  }

  /** An upsert is refused exactly for a missing field, a taken idempotency key, or a live row written under the dedup key of
      another live lease. */
  lemma {:induction false} UpsertRefusedIff(t: Table, l: Lease)
    requires Constraints(t)
    ensures Upsert(t, l).None?
            <==> || "" in {l.id, l.planId, l.decisionId, l.policyId, l.bundleId, l.sourceCommit, l.adapterId, l.capabilityId,
                           l.mode, l.actionType, l.targetScope, l.targetKey, l.ttl, l.reason, l.auditId, l.grantId,
                           l.idempotencyKey, l.status}
                 || l.expiresAt == ZERO_TIME || l.createdAt == ZERO_TIME || l.lastReconciledAt == ZERO_TIME
                 || (l.id !in t && exists id :: id in t && t[id].idempotencyKey == l.idempotencyKey)
                 || (Live(l) && exists id :: && id in t && id != l.id && Live(t[id])
                                             && SameTarget(t[id], if l.id in t then t[l.id] else l))
  {
    hide Valid;
    ValidIff(l);
    if l.id in t {
      assert forall id :: id in t && id != l.id ==> t[id].idempotencyKey != t[l.id].idempotencyKey;
    }
    var w := Written(t, l);
    assert Live(w) <==> Live(l);
    forall id | id in t
      ensures Dedup(t[id]) == Dedup(w) <==> SameTarget(t[id], if l.id in t then t[l.id] else l)
    {
    }
  }

  predicate SameTarget(a: Lease, b: Lease) {
    && a.adapterId == b.adapterId && a.capabilityId == b.capabilityId && a.actionType == b.actionType
    && a.targetScope == b.targetScope && a.targetKey == b.targetKey
  }

  lemma {:induction false} ValidIff(l: Lease)
    ensures Valid(l)
            <==> && "" !in {l.id, l.planId, l.decisionId, l.policyId, l.bundleId, l.sourceCommit, l.adapterId, l.capabilityId,
                            l.mode, l.actionType, l.targetScope, l.targetKey, l.ttl, l.reason, l.auditId, l.grantId,
                            l.idempotencyKey, l.status}
                 && l.expiresAt != ZERO_TIME && l.createdAt != ZERO_TIME && l.lastReconciledAt != ZERO_TIME
  {
  }

  /** A lease is live in every state of a runtime action but the three in which it has ended. */
  lemma {:induction false} LiveUnlessEnded(l: Lease)
    requires l.status in {"planned", "authorized", "executing", "active", "expiring", "expired", "not_found", "failed", "unknown",
                          "compensating"}
    ensures Live(l) <==> l.status !in {"expired", "not_found", "failed"}
  {
  }

  /** Expiring a stored lease ends it at the given time and touches no other row. */
  lemma {:induction false} ExpireEnds(t: Table, id: string, at: Time)
    requires id in t
    ensures var t' := Expire(t, id, at);
            && t'.Keys == t.Keys && t'[id] == t[id].(status := "expired", lastReconciledAt := at) && !Live(t'[id])
            && (forall other :: other in t && other != id ==> t'[other] == t[other])
  {
  }

  /** It frees the dedup key: any complete lease for that key, with an identifier and an idempotency key of its own, is then
      accepted. */
  lemma {:induction false} ExpireFrees(t: Table, id: string, at: Time, l: Lease)
    requires Constraints(t) && id in t && Live(t[id]) && Valid(l) && SameTarget(l, t[id]) && l.id !in t
    requires forall other :: other in t ==> t[other].idempotencyKey != l.idempotencyKey
    ensures Upsert(Expire(t, id, at), l).Some?
  {
    hide Valid;
  }

  // ---------------------------------------------------------------- queries against a plain scan

  /** An answer of AllLeases or ActiveLeases: the selected rows, each once, ordered by created_at. */
  ghost predicate Scan(t: Table, live: bool, s: seq<Lease>) {
    && (forall i :: 0 <= i < |s| ==> s[i].id in t && t[s[i].id] == s[i] && (live ==> Live(s[i])))
    && (forall i, j :: 0 <= i < j < |s| ==> s[i].id != s[j].id)
    && (forall id :: id in t && (live ==> Live(t[id])) ==> t[id] in s)
    && (forall i, j :: 0 <= i < j < |s| ==> !TextLess(s[j].createdText, s[i].createdText))
  }

  function LiveOnes(s: seq<Lease>): (r: seq<Lease>)
    ensures forall i :: 0 <= i < |r| ==> r[i] in s && Live(r[i])
    ensures forall i :: 0 <= i < |s| && Live(s[i]) ==> s[i] in r
  {
    if s == [] then []
    else (if Live(s[0]) then [s[0]] else []) + LiveOnes(s[1..])
  }

  predicate DistinctIds(s: seq<Lease>) {
    forall i, j :: 0 <= i < j < |s| ==> s[i].id != s[j].id
  }

  lemma {:induction false} LiveOnesDistinct(s: seq<Lease>)
    requires DistinctIds(s)
    ensures DistinctIds(LiveOnes(s))
  {
    if s != [] {
      LiveOnesDistinct(s[1..]);
      if Live(s[0]) {
        var r := LiveOnes(s[1..]);
        forall j | 0 <= j < |r|
          ensures r[j].id != s[0].id
        {
          var k :| 0 <= k < |s[1..]| && s[1..][k] == r[j];
          assert s[k + 1] == r[j];
        }
      }
    }
  }

  /** Two lists without repeated ids and with the same members are permutations of each other. */
  lemma {:induction false} SameMembersSameBag(a: seq<Lease>, b: seq<Lease>)
    requires DistinctIds(a) && DistinctIds(b)
    requires forall l :: l in a <==> l in b
    ensures multiset(a) == multiset(b)
    decreases |a|
  {
    hide DistinctIds;
    if a == [] {
      SomeMember(b);
    } else {
      assert a[0] in b;
      var k :| 0 <= k < |b| && b[k] == a[0];
      var a', b' := a[..0] + a[1..], b[..k] + b[k + 1..];
      RemoveAt(a, 0);
      RemoveAt(b, k);
      forall l
        ensures l in a' <==> l in b'
      {
        RestMembers(a, 0, l);
        RestMembers(b, k, l);
      }
      SameMembersSameBag(a', b');
    }
  }

  lemma {:induction false} SomeMember(s: seq<Lease>)
    ensures s == [] || exists l :: l in s
  {
    assert s != [] ==> s[0] in s;
  }

  lemma {:induction false} RemoveAt(s: seq<Lease>, k: nat)
    requires DistinctIds(s) && k < |s|
    ensures multiset(s) == multiset{s[k]} + multiset(s[..k] + s[k + 1..])
    ensures DistinctIds(s[..k] + s[k + 1..])
  {
    assert s == s[..k] + [s[k]] + s[k + 1..];
    var r := s[..k] + s[k + 1..];
    assert forall i :: 0 <= i < |r| ==> r[i] == s[if i < k then i else i + 1];
  }

  lemma {:induction false} RestMembers(s: seq<Lease>, k: nat, l: Lease)
    requires DistinctIds(s) && k < |s|
    ensures l in s[..k] + s[k + 1..] <==> l in s && l != s[k]
  {
  }

  /** ActiveLeases is a plain scan: the same leases, each once, as the live ones of AllLeases. */
  lemma {:induction false} ActiveLeasesIsScan(t: Table, all: seq<Lease>, active: seq<Lease>)
    requires Scan(t, false, all) && Scan(t, true, active)
    ensures multiset(active) == multiset(LiveOnes(all))
  {
    LiveOnesDistinct(all);
    forall l
      ensures l in active <==> l in LiveOnes(all)
    {
      if l in active {
        var i :| 0 <= i < |active| && active[i] == l;
        assert t[active[i].id] in all;
      }
    }
    SameMembersSameBag(active, LiveOnes(all));
  }

  /** LeaseByDedupKey is a plain scan: the one live lease with the key in AllLeases, if there is one. */
  lemma {:induction false} DedupLookupIsScan(t: Table, all: seq<Lease>, key: DedupKey, found: Option<Lease>)
    requires Constraints(t) && Scan(t, false, all)
    requires found.Some? ==> found.value in t.Values && Live(found.value) && Dedup(found.value) == key
    requires found.None? ==> forall id :: id in t ==> !(Live(t[id]) && Dedup(t[id]) == key)
    ensures forall i :: 0 <= i < |all| ==>
                          (Live(all[i]) && Dedup(all[i]) == key <==> found == Some(all[i]))
    ensures found.Some? ==> found.value in all
  {
  }
}
