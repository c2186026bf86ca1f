/** Trust bundles in Forge's memory store (internal/forge/management/store.go): saved, rotated and revoked by key
    identifier. Fields are compared as they were given, though their values are checked with the blanks trimmed. */
module TrustBundles {
  import opened Basics
  import opened Assignment

  const ACTIVE: string := "active"
  const PREVIOUS: string := "previous"
  const PURPOSES: set<string> := {"assignment_verification", "artifact_verification"}

  type Bundles = map<string, TrustBundle>

  function Defaulted(b: TrustBundle): TrustBundle {
    if b.status == "" then b.(status := ACTIVE) else b
  }

  /** validateNewTrustBundle. */
  predicate NewOk(b: TrustBundle) {
    && !Blank(b.keyId) && !Blank(b.publicKey) && TrimSpace(b.purpose) in PURPOSES
    && TrimSpace(b.status) in {"", ACTIVE, PREVIOUS, REVOKED}
  }

  predicate Differ(a: string, b: string) {
    a != "" && b != "" && a != b
  }

  /** validateTrustBundleUpdate. */
  predicate UpdateOk(existing: TrustBundle, incoming: TrustBundle) {
    && existing.keyId == incoming.keyId
    && !Differ(existing.publicKey, incoming.publicKey)
    && !Differ(existing.purpose, incoming.purpose)
    && !Differ(existing.issuer, incoming.issuer)
    && !(incoming.expiresAt != ZERO_TIME && existing.expiresAt != ZERO_TIME && incoming.expiresAt > existing.expiresAt)
    && (if existing.status in {"", ACTIVE, PREVIOUS} then
          && incoming.status in {"", existing.status, ACTIVE, PREVIOUS, REVOKED}
          && !(existing.status == PREVIOUS && incoming.status == ACTIVE)
        else existing.status == REVOKED && incoming.status == REVOKED)
  }

  function Save(m: Bundles, b: TrustBundle): Option<Bundles> {
    var b := Defaulted(b);
    if !NewOk(b) || (b.keyId in m && !UpdateOk(m[b.keyId], b)) then None else Some(m[b.keyId := b])
  }

  function Rotate(m: Bundles, currentId: string, next: TrustBundle): Option<Bundles> {
    var current := TrimSpace(currentId);
    var next := Defaulted(next);
    if current == "" || current !in m || m[current].status != ACTIVE || !NewOk(next) || next.keyId == current
       || next.keyId in m || (m[current].purpose != "" && next.purpose != m[current].purpose) || next.status != ACTIVE
    then None
    else Some(m[current := m[current].(status := PREVIOUS)][next.keyId := next])
  }

  function Revoke(m: Bundles, keyId: string): Option<Bundles> {
    if keyId !in m then None else Some(m[keyId := m[keyId].(status := REVOKED)])
  }

  class TrustStore {
    var trustBundles: Bundles

    constructor ()
      ensures trustBundles == map[]
    {
      trustBundles := map[];
    }

    method SaveTrustBundle(b: TrustBundle) returns (ok: bool)
      modifies this
      ensures ok == Save(old(trustBundles), b).Some?
      ensures trustBundles == if ok then Save(old(trustBundles), b).value else old(trustBundles)
    {
      var bundle := b;
      if bundle.status == "" { bundle := bundle.(status := ACTIVE); }
      if !NewOk(bundle) { return false; }
      if bundle.keyId in trustBundles && !UpdateOk(trustBundles[bundle.keyId], bundle) { return false; }
      trustBundles := trustBundles[bundle.keyId := bundle];
      return true;
    }

    method RotateTrustBundle(currentKeyId: string, nextBundle: TrustBundle) returns (ok: bool)
      modifies this
      ensures ok == Rotate(old(trustBundles), currentKeyId, nextBundle).Some?
      ensures trustBundles == if ok then Rotate(old(trustBundles), currentKeyId, nextBundle).value else old(trustBundles)
    {
      var currentId := TrimSpace(currentKeyId);
      if currentId == "" || currentId !in trustBundles { return false; }
      var current := trustBundles[currentId];
      if current.status != ACTIVE { return false; }
      var next := nextBundle;
      if next.status == "" { next := next.(status := ACTIVE); }
      if !NewOk(next) || next.keyId == currentId || next.keyId in trustBundles { return false; }
      if current.purpose != "" && next.purpose != current.purpose { return false; }
      if next.status != ACTIVE { return false; }
      current := current.(status := PREVIOUS);
      trustBundles := trustBundles[currentId := current];
      trustBundles := trustBundles[next.keyId := next];
      return true;
    }

    method RevokeTrustBundle(keyId: string) returns (ok: bool)
      modifies this
      ensures ok == Revoke(old(trustBundles), keyId).Some?
      ensures trustBundles == if ok then Revoke(old(trustBundles), keyId).value else old(trustBundles)
    {
      if keyId !in trustBundles { return false; }
      trustBundles := trustBundles[keyId := trustBundles[keyId].(status := REVOKED)];
      return true;
    }
  }

  // ---------------------------------------------------------------- runs

  datatype Call = Saving(bundle: TrustBundle) | Rotating(current: string, next: TrustBundle) | Revoking(keyId: string)

  function Attempt(m: Bundles, c: Call): Option<Bundles> {
    match c
    case Saving(b) => Save(m, b)
    case Rotating(current, next) => Rotate(m, current, next)
    case Revoking(keyId) => Revoke(m, keyId)
  }

  function Apply(m: Bundles, c: Call): Bundles {
    match Attempt(m, c)
    case None => m
    case Some(m') => m'
  }

  function Run(m: Bundles, calls: seq<Call>): Bundles {
    if calls == [] then m else Apply(Run(m, calls[..|calls| - 1]), calls[|calls| - 1])
  }

  /** Stored bundles sit under their own identifier, with a key, a purpose and a status. */
  predicate Stored(m: Bundles) {
    forall k :: k in m ==> m[k].keyId == k && m[k].publicKey != "" && m[k].purpose != "" && m[k].status != ""
  }

  /** The order of life: a status stays, becomes revoked, or goes from active to previous. */
  predicate Moves(before: string, after: string) {
    after == before || after == REVOKED || (before == ACTIVE && after == PREVIOUS)
  }

  /** What one call may do to a stored bundle. */
  predicate Evolves(before: TrustBundle, after: TrustBundle) {
    && after.keyId == before.keyId && after.publicKey == before.publicKey && after.purpose == before.purpose
    && Moves(before.status, after.status)
  }

  lemma {:induction false} ApplyKeepsStored(m: Bundles, c: Call)
    requires Stored(m)
    ensures Stored(Apply(m, c))
  {
  }

  lemma {:induction false} ApplyEvolves(m: Bundles, c: Call, k: string)
    requires Stored(m) && k in m
    ensures k in Apply(m, c) && Evolves(m[k], Apply(m, c)[k])
  {
  }

  lemma {:induction false} RunKeepsStored(m: Bundles, calls: seq<Call>)
    requires Stored(m)
    ensures Stored(Run(m, calls))
  {
    if calls != [] {
      RunKeepsStored(m, calls[..|calls| - 1]);
      ApplyKeepsStored(Run(m, calls[..|calls| - 1]), calls[|calls| - 1]);
    }
  }

  /** In every run, from any point on, a stored bundle stays, its public key and purpose never change, and its status
      only moves from active to previous to revoked. */
  lemma {:induction false} KeysNeverChange(m: Bundles, calls: seq<Call>, k: string)
    requires Stored(m) && k in m
    ensures k in Run(m, calls) && Evolves(m[k], Run(m, calls)[k])
  {
    hide Apply, Stored;
    if calls != [] {
      var init := calls[..|calls| - 1];
      KeysNeverChange(m, init, k);
      RunKeepsStored(m, init);
      ApplyEvolves(Run(m, init), calls[|calls| - 1], k);
    }
  }

  /** A bundle that is not stored yet is accepted exactly when it names a key identifier and a public key, a known purpose and a
      known status, blanks aside; without a status it becomes active. */
  lemma {:induction false} NewAcceptedIff(m: Bundles, b: TrustBundle)
    requires b.keyId !in m
    ensures Save(m, b).Some?
            <==> && !Blank(b.keyId) && !Blank(b.publicKey)
                 && TrimSpace(b.purpose) in {"assignment_verification", "artifact_verification"}
                 && TrimSpace(b.status) in {"", "active", "previous", "revoked"}
    ensures Save(m, b).Some? ==>
              Save(m, b).value == m[b.keyId := if b.status == "" then b.(status := "active") else b]
  {
    assert TrimSpace(ACTIVE) == ACTIVE by { InkIsTrimmed(ACTIVE); }
    assert TrimSpace("") == "";
  }

  /** A rotation is accepted exactly from an active bundle to an unknown, complete, active one of the same purpose. */
  lemma {:induction false} RotateAcceptedIff(m: Bundles, currentId: string, next: TrustBundle)
    requires Stored(m)
    ensures Rotate(m, currentId, next).Some?
            <==> && TrimSpace(currentId) in m && m[TrimSpace(currentId)].status == "active" && TrimSpace(currentId) != ""
                 && next.keyId !in m && next.purpose == m[TrimSpace(currentId)].purpose && next.status in {"", "active"}
                 && !Blank(next.keyId) && !Blank(next.publicKey)
                 && TrimSpace(next.purpose) in {"assignment_verification", "artifact_verification"}
    ensures Rotate(m, currentId, next).Some? ==>
              var m', current := Rotate(m, currentId, next).value, TrimSpace(currentId);
              && m'.Keys == m.Keys + {next.keyId} && m'[current] == m[current].(status := "previous")
              && m'[next.keyId] == next.(status := "active")
              && forall k :: k in m && k != current ==> m'[k] == m[k]
  {
    assert TrimSpace(ACTIVE) == ACTIVE by { InkIsTrimmed(ACTIVE); }
    hide TrimSpace, Blank;
  }

  /** An update is accepted only with the stored key and purpose, an issuer that does not contradict the stored one and an
      expiry that is not later, and never leaves the order of life. */
  lemma {:induction false} UpdateAcceptedIff(m: Bundles, b: TrustBundle)
    requires Stored(m) && b.keyId in m && NewOk(Defaulted(b))
    ensures
      var stored := m[b.keyId];
      var status := if b.status == "" then "active" else b.status;
      Save(m, b).Some?
      <==> && b.publicKey == stored.publicKey && b.purpose == stored.purpose
           && (stored.issuer == "" || b.issuer == "" || b.issuer == stored.issuer)
           && (stored.expiresAt == ZERO_TIME || b.expiresAt == ZERO_TIME || b.expiresAt <= stored.expiresAt)
           && (|| (stored.status == "active" && status in {"active", "previous", "revoked"})
               || (stored.status == "previous" && status in {"previous", "revoked"})
               || (stored.status == "revoked" && status == "revoked"))
  {
    hide TrimSpace;
    EmptyBlank();
  }

  lemma {:induction false} EmptyBlank()
    ensures Blank("") && TrimSpace("") == ""
  {
  }

  // ---------------------------------------------------------------- active bundles per purpose

  function ActiveFor(m: Bundles, purpose: string): set<string> {
    set k | k in m && m[k].status == ACTIVE && m[k].purpose == purpose
  }

  /** An accepted rotation keeps the number of active bundles of every purpose. */
  lemma {:induction false} RotationKeepsCount(m: Bundles, currentId: string, next: TrustBundle, purpose: string)
    requires Stored(m) && Rotate(m, currentId, next).Some?
    ensures |ActiveFor(Rotate(m, currentId, next).value, purpose)| == |ActiveFor(m, purpose)|
  {
    hide NewOk, TrimSpace, ActiveFor;
    ReplaceKeepsCount(m, TrimSpace(currentId), Defaulted(next), purpose);
  }

  lemma {:induction false} ReplaceKeepsCount(m: Bundles, current: string, next: TrustBundle, purpose: string)
    requires current in m && next.keyId !in m && m[current].status == next.status == ACTIVE
    requires m[current].purpose == next.purpose
    ensures |ActiveFor(m[current := m[current].(status := PREVIOUS)][next.keyId := next], purpose)|
            == |ActiveFor(m, purpose)|
  {
    var m' := m[current := m[current].(status := PREVIOUS)][next.keyId := next];
    if purpose == next.purpose {
      assert ActiveFor(m', purpose) == ActiveFor(m, purpose) - {current} + {next.keyId};
    } else {
      assert ActiveFor(m', purpose) == ActiveFor(m, purpose);
    }
  }

  /** A revocation takes one from the count of the revoked bundle's purpose exactly when the bundle was active. */
  lemma {:induction false} RevocationCount(m: Bundles, keyId: string, purpose: string)
    requires Stored(m) && keyId in m
    ensures |ActiveFor(Revoke(m, keyId).value, purpose)|
            == |ActiveFor(m, purpose)| - (if keyId in ActiveFor(m, purpose) then 1 else 0)
  {
    assert ActiveFor(Revoke(m, keyId).value, purpose) == ActiveFor(m, purpose) - {keyId};
  }

  // ---------------------------------------------------------------- issuer and expiry

  predicate AcceptedSave(m: Bundles, c: Call, k: string) {
    c.Saving? && c.bundle.keyId == k && Save(m, c.bundle).Some?
  }

  /** After the first `n` calls the bundle has the issuer it had at first. */
  predicate IssuerKept(m: Bundles, calls: seq<Call>, k: string, n: nat)
    requires k in m && n <= |calls|
  {
    k in Run(m, calls[..n]) && Run(m, calls[..n])[k].issuer == m[k].issuer
  }

  /** After the first `n` calls the bundle still expires, no later than at first. */
  predicate ExpiryKept(m: Bundles, calls: seq<Call>, k: string, n: nat)
    requires k in m && n <= |calls|
  {
    && k in Run(m, calls[..n])
    && Run(m, calls[..n])[k].expiresAt != ZERO_TIME && Run(m, calls[..n])[k].expiresAt <= m[k].expiresAt
  }

  lemma {:induction false} RunNext(m: Bundles, calls: seq<Call>, n: nat)
    requires n < |calls|
    ensures Run(m, calls[..n + 1]) == Apply(Run(m, calls[..n]), calls[n])
  {
    assert calls[..n + 1][..n] == calls[..n];
  }

  /** One call keeps a given issuer, and a given expiry unextended, exactly unless it is an accepted save of the bundle
      that leaves the field out. */
  lemma {:induction false} StepKeepsIff(m: Bundles, c: Call, k: string)
    requires Stored(m) && k in m
    ensures k in Apply(m, c)
    ensures m[k].issuer != "" ==>
              (Apply(m, c)[k].issuer == m[k].issuer <==> !(AcceptedSave(m, c, k) && c.bundle.issuer == ""))
    ensures m[k].expiresAt != ZERO_TIME ==>
              (Apply(m, c)[k].expiresAt == ZERO_TIME <==> AcceptedSave(m, c, k) && c.bundle.expiresAt == ZERO_TIME)
    ensures m[k].expiresAt != ZERO_TIME && Apply(m, c)[k].expiresAt != ZERO_TIME ==>
              Apply(m, c)[k].expiresAt <= m[k].expiresAt
  {
    hide NewOk, TrimSpace;
  }

  /** The n-th call is an accepted save of the bundle without an issuer. */
  predicate OmitsIssuer(m: Bundles, calls: seq<Call>, k: string, n: nat)
    requires n < |calls|
  {
    AcceptedSave(Run(m, calls[..n]), calls[n], k) && calls[n].bundle.issuer == ""
  }

  predicate OmitsExpiry(m: Bundles, calls: seq<Call>, k: string, n: nat)
    requires n < |calls|
  {
    AcceptedSave(Run(m, calls[..n]), calls[n], k) && calls[n].bundle.expiresAt == ZERO_TIME
  }

  lemma {:induction false} KeptNextIff(m: Bundles, calls: seq<Call>, k: string, n: nat)
    requires Stored(m) && k in m && n < |calls|
    ensures m[k].issuer != "" && IssuerKept(m, calls, k, n) ==>
              (IssuerKept(m, calls, k, n + 1) <==> !OmitsIssuer(m, calls, k, n))
    ensures m[k].expiresAt != ZERO_TIME && ExpiryKept(m, calls, k, n) ==>
              (ExpiryKept(m, calls, k, n + 1) <==> !OmitsExpiry(m, calls, k, n))
  {
    hide Apply, Run, Stored, Save;
    RunKeepsStored(m, calls[..n]);
    KeysNeverChange(m, calls[..n], k);
    RunNext(m, calls, n);
    StepKeepsIff(Run(m, calls[..n]), calls[n], k);
  }

  lemma {:induction false} KeptUntilOmitted(m: Bundles, calls: seq<Call>, k: string, n: nat)
    requires Stored(m) && k in m && n <= |calls|
    ensures m[k].issuer != "" && (forall i :: 0 <= i < n ==> !OmitsIssuer(m, calls, k, i)) ==> IssuerKept(m, calls, k, n)
    ensures m[k].expiresAt != ZERO_TIME && (forall i :: 0 <= i < n ==> !OmitsExpiry(m, calls, k, i)) ==>
              ExpiryKept(m, calls, k, n)
  {
    if n > 0 {
      hide IssuerKept, OmitsIssuer, ExpiryKept, OmitsExpiry;
      KeptUntilOmitted(m, calls, k, n - 1);
      KeptNextIff(m, calls, k, n - 1);
    }
  }

  /** The issuer of a stored bundle is constant along a run exactly when no accepted save of that bundle leaves the issuer
      out, whatever happens to other bundles. */
  lemma {:induction false} IssuerConstantIff(m: Bundles, calls: seq<Call>, k: string)
    requires Stored(m) && k in m && m[k].issuer != ""
    ensures (forall n :: 0 <= n <= |calls| ==> IssuerKept(m, calls, k, n))
            <==> (forall n :: 0 <= n < |calls| ==> !OmitsIssuer(m, calls, k, n))
  {
    hide IssuerKept, OmitsIssuer, ExpiryKept, OmitsExpiry, Stored;
    if forall n :: 0 <= n <= |calls| ==> IssuerKept(m, calls, k, n) {
      forall n | 0 <= n < |calls|
        ensures !OmitsIssuer(m, calls, k, n)
      {
        assert IssuerKept(m, calls, k, n) && IssuerKept(m, calls, k, n + 1);
        KeptNextIff(m, calls, k, n);
      }
    }
    if forall n :: 0 <= n < |calls| ==> !OmitsIssuer(m, calls, k, n) {
      forall n | 0 <= n <= |calls|
        ensures IssuerKept(m, calls, k, n)
      {
        KeptUntilOmitted(m, calls, k, n);
      }
    }
  }

  /** The expiry of a stored bundle is never extended along a run exactly when no accepted save of that bundle leaves the
      expiry out. */
  lemma {:induction false} ExpiryNeverExtendedIff(m: Bundles, calls: seq<Call>, k: string)
    requires Stored(m) && k in m && m[k].expiresAt != ZERO_TIME
    ensures (forall n :: 0 <= n <= |calls| ==> ExpiryKept(m, calls, k, n))
            <==> (forall n :: 0 <= n < |calls| ==> !OmitsExpiry(m, calls, k, n))
  {
    hide IssuerKept, OmitsIssuer, ExpiryKept, OmitsExpiry, Stored;
    if forall n :: 0 <= n <= |calls| ==> ExpiryKept(m, calls, k, n) {
      forall n | 0 <= n < |calls|
        ensures !OmitsExpiry(m, calls, k, n)
      {
        assert ExpiryKept(m, calls, k, n) && ExpiryKept(m, calls, k, n + 1);
        KeptNextIff(m, calls, k, n);
      }
    }
    if forall n :: 0 <= n < |calls| ==> !OmitsExpiry(m, calls, k, n) {
      forall n | 0 <= n <= |calls|
        ensures ExpiryKept(m, calls, k, n)
      {
        KeptUntilOmitted(m, calls, k, n);
      }
    }
  }

  /** An update without an issuer is accepted and opens the way for any issuer in the next one. */
  lemma {:induction false} IssuerReplaceable(m: Bundles, k: string, issuer: string)
    requires Stored(m) && k in m && m[k].status in {ACTIVE, PREVIOUS, REVOKED} && NewOk(m[k])
    ensures var calls := [Saving(m[k].(issuer := "")), Saving(m[k].(issuer := issuer))];
            k in Run(m, calls) && Run(m, calls)[k] == m[k].(issuer := issuer)
  {
    var first, second := Saving(m[k].(issuer := "")), Saving(m[k].(issuer := issuer));
    assert [first, second][..1] == [first] && [first][..0] == [];
    assert Run(m, []) == m;
    assert Save(m, m[k].(issuer := "")) == Some(m[k := m[k].(issuer := "")]);
  }
}
