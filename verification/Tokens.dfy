/** Enrollment tokens in Forge's memory store (internal/forge/management/store.go): one token kept under its digest and
    under its identifier, used once, and revocable. Every run carries the history of what happened. */
module Tokens {
  import opened Basics

  datatype Token = Token(
    id: string,
    sha: string,
    environment: string,
    stage: string,
    scope: string,
    createdAt: Time,
    expiresAt: Time,
    usedAt: Time,
    revokedAt: Time,
    revokedReason: string)

  datatype Tables = Tables(byHash: map<string, Token>, byId: map<string, Token>)

  /** TokenSHA256. */
  function TokenSha(hash: HashFn, secret: string): string {
    DigestText(hash, secret)
  }

  function Put(s: Tables, t: Token): Tables {
    Tables(s.byHash[t.sha := t], s.byId[t.id := t])
  }

  function Stamped(hash: HashFn, t: Token, secret: string, now: Time): Token {
    t.(sha := TokenSha(hash, secret), createdAt := if t.createdAt == ZERO_TIME then now else t.createdAt)
  }

  function Create(hash: HashFn, s: Tables, t: Token, secret: string, now: Time): Option<Tables> {
    if t.id == "" || secret == "" then None else Some(Put(s, Stamped(hash, t, secret, now)))
  }

  /** Where a token may be used. An empty field of the token allows anything. */
  datatype Place = Place(environment: string, stage: string, scope: string)

  predicate Allows(t: Token, p: Place) {
    && (t.environment == "" || t.environment == p.environment)
    && (t.stage == "" || t.stage == p.stage)
    && (t.scope == "" || t.scope == p.scope)
  }

  predicate Expired(t: Token, at: Time) {
    t.expiresAt != ZERO_TIME && at >= t.expiresAt
  }

  predicate Usable(t: Token, p: Place, at: Time) {
    !Expired(t, at) && t.usedAt == ZERO_TIME && t.revokedAt == ZERO_TIME && Allows(t, p)
  }

  function Use(hash: HashFn, s: Tables, secret: string, p: Place, at: Time): Option<Tables> {
    var h := TokenSha(hash, secret);
    if h !in s.byHash || !Usable(s.byHash[h], p, at) then None else Some(Put(s, s.byHash[h].(usedAt := at)))
  }

  function Revoke(s: Tables, id: string, reason: string, at: Time): Option<Tables> {
    if id !in s.byId then None else Some(Put(s, s.byId[id].(revokedAt := at, revokedReason := reason)))
  }

  class TokenStore {
    const hash: HashFn
    var tokensByHash: map<string, Token>
    var tokensById: map<string, Token>

    ghost function Abstract(): Tables
      reads this
    {
      Tables(tokensByHash, tokensById)
    }

    constructor (hash: HashFn)
      ensures this.hash == hash && Abstract() == Tables(map[], map[])
    {
      this.hash, tokensByHash, tokensById := hash, map[], map[];
    }

    method CreateEnrollmentToken(token: Token, secret: string, now: Time) returns (ok: bool)
      modifies this
      ensures ok == Create(hash, old(Abstract()), token, secret, now).Some?
      ensures Abstract() == if ok then Create(hash, old(Abstract()), token, secret, now).value else old(Abstract())
    {
      if token.id == "" || secret == "" { return false; }
      var t := token.(sha := TokenSha(hash, secret));
      if t.createdAt == ZERO_TIME { t := t.(createdAt := now); }
      tokensByHash := tokensByHash[t.sha := t];
      tokensById := tokensById[t.id := t];
      return true;
    }

    method UseEnrollmentToken(secret: string, p: Place, usedAt: Time) returns (t: Option<Token>)
      modifies this
      ensures t.Some? == Use(hash, old(Abstract()), secret, p, usedAt).Some?
      ensures Abstract() == if t.Some? then Use(hash, old(Abstract()), secret, p, usedAt).value else old(Abstract())
      ensures t.Some? ==> TokenSha(hash, secret) in old(tokensByHash)
                          && t.value == old(tokensByHash)[TokenSha(hash, secret)].(usedAt := usedAt)
    {
      var h := TokenSha(hash, secret);
      if h !in tokensByHash { return None; }
      var token := tokensByHash[h];
      if token.expiresAt != ZERO_TIME && !(usedAt < token.expiresAt) { return None; }
      if token.usedAt != ZERO_TIME { return None; }
      if token.revokedAt != ZERO_TIME { return None; }
      if token.environment != "" && token.environment != p.environment { return None; }
      if token.stage != "" && token.stage != p.stage { return None; }
      if token.scope != "" && token.scope != p.scope { return None; }
      token := token.(usedAt := usedAt);
      tokensByHash := tokensByHash[token.sha := token];
      tokensById := tokensById[token.id := token];
      return Some(token);
    }

    method RevokeEnrollmentToken(id: string, reason: string, revokedAt: Time) returns (ok: bool)
      modifies this
      ensures ok == Revoke(old(Abstract()), id, reason, revokedAt).Some?
      ensures Abstract() == if ok then Revoke(old(Abstract()), id, reason, revokedAt).value else old(Abstract())
    {
      if id !in tokensById { return false; }
      var token := tokensById[id].(revokedAt := revokedAt, revokedReason := reason);
      tokensById := tokensById[token.id := token];
      tokensByHash := tokensByHash[token.sha := token];
      return true;
    }
  }

  // ---------------------------------------------------------------- the two tables agree

  /** The tables hold the same tokens, each under its own digest and its own identifier. */
  predicate Agree(s: Tables) {
    && (forall id :: id in s.byId ==> s.byId[id].id == id && s.byId[id].sha in s.byHash)
    && (forall id :: id in s.byId ==> s.byHash[s.byId[id].sha] == s.byId[id])
    && (forall h :: h in s.byHash ==> s.byHash[h].sha == h && s.byHash[h].id in s.byId)
    && (forall h :: h in s.byHash ==> s.byId[s.byHash[h].id] == s.byHash[h])
  }

  /** A token that is either new in both tables or a new state of one token. */
  predicate Consistent(s: Tables, t: Token) {
    (t.id !in s.byId && t.sha !in s.byHash) || (t.id in s.byId && s.byId[t.id].sha == t.sha)
  }

  /** Writing a token to both tables keeps them in agreement exactly when the token is new in both or is one that both
      already hold. */
  lemma {:induction false} PutAgreesIff(s: Tables, t: Token)
    requires Agree(s)
    ensures Agree(Put(s, t)) <==> Consistent(s, t)
  {
    var s' := Put(s, t);
    if t.id in s.byId && s.byId[t.id].sha != t.sha {
      var h := s.byId[t.id].sha;
      assert h in s'.byHash && s'.byHash[h] == s.byId[t.id];
    }
    if t.sha in s.byHash && s.byHash[t.sha].id != t.id {
      var id := s.byHash[t.sha].id;
      assert id in s'.byId && s'.byId[id] == s.byHash[t.sha];
    }
    if Consistent(s, t) {
      forall id | id in s'.byId
        ensures s'.byId[id].id == id && s'.byId[id].sha in s'.byHash && s'.byHash[s'.byId[id].sha] == s'.byId[id]
      {
        assert id in s.byId || id == t.id;
      }
      forall h | h in s'.byHash
        ensures s'.byHash[h].sha == h && s'.byHash[h].id in s'.byId && s'.byId[s'.byHash[h].id] == s'.byHash[h]
      {
        assert h in s.byHash || h == t.sha;
      }
    }
  }

  /** Creating a token keeps the tables in agreement exactly when both its identifier and its secret's digest are new, or
      both belong to one stored token. */
  lemma {:induction false} CreateAgreesIff(hash: HashFn, s: Tables, t: Token, secret: string, now: Time)
    requires Agree(s) && t.id != "" && secret != ""
    ensures Agree(Create(hash, s, t, secret, now).value)
            <==> || (t.id !in s.byId && TokenSha(hash, secret) !in s.byHash)
                 || (t.id in s.byId && s.byId[t.id].sha == TokenSha(hash, secret))
  {
    PutAgreesIff(s, Stamped(hash, t, secret, now));
  }

  /** A token is created exactly with an identifier and a secret; it is stored as given, with the digest of the secret and, if
      it had none, the current time. */
  lemma {:induction false} CreateAcceptedIff(hash: HashFn, s: Tables, t: Token, secret: string, now: Time)
    ensures Create(hash, s, t, secret, now).Some? <==> t.id != "" && secret != ""
    ensures Create(hash, s, t, secret, now).Some? ==>
              var s' := Create(hash, s, t, secret, now).value;
              var stored := t.(sha := DigestText(hash, secret), createdAt := if t.createdAt == ZERO_TIME then now else t.createdAt);
              s'.byId == s.byId[t.id := stored] && s'.byHash == s.byHash[DigestText(hash, secret) := stored]
  {
  }

  // ---------------------------------------------------------------- runs with their history

  datatype Event = Created(token: Token, secret: string) | Used(id: string, at: Time) | Revoked(id: string, at: Time)

  datatype History = History(tables: Tables, events: seq<Event>)

  datatype Call =
    | Creating(token: Token, secret: string, now: Time)
    | Using(secret: string, place: Place, at: Time)
    | Revoking(id: string, reason: string, at: Time)

  const START: History := History(Tables(map[], map[]), [])

  function Apply(hash: HashFn, st: History, c: Call): History {
    match c
    case Creating(t, secret, now) =>
      (match Create(hash, st.tables, t, secret, now)
       case None => st
       case Some(s) => History(s, st.events + [Created(Stamped(hash, t, secret, now), secret)]))
    case Using(secret, p, at) =>
      (match Use(hash, st.tables, secret, p, at)
       case None => st
       case Some(s) => History(s, st.events + [Used(st.tables.byHash[TokenSha(hash, secret)].id, at)]))
    case Revoking(id, reason, at) =>
      (match Revoke(st.tables, id, reason, at)
       case None => st
       case Some(s) => History(s, st.events + [Revoked(id, at)]))
  }

  function Run(hash: HashFn, calls: seq<Call>): History {
    if calls == [] then START else Apply(hash, Run(hash, calls[..|calls| - 1]), calls[|calls| - 1])
  }

  /** Creations bring new identifiers and new digests; uses and revocations happen at real instants. */
  predicate Orderly(hash: HashFn, s: Tables, c: Call) {
    match c
    case Creating(t, secret, _) => t.id !in s.byId && TokenSha(hash, secret) !in s.byHash
    case Using(_, _, at) => at != ZERO_TIME
    case Revoking(_, _, at) => at != ZERO_TIME
  }

  predicate OrderlyRun(hash: HashFn, calls: seq<Call>) {
    calls != [] ==>
      var init := calls[..|calls| - 1];
      OrderlyRun(hash, init) && Orderly(hash, Run(hash, init).tables, calls[|calls| - 1])
  }

  predicate UsedIn(e: Event, id: string) {
    (e.Used? && e.id == id) || (e.Created? && e.token.id == id && e.token.usedAt != ZERO_TIME)
  }

  predicate RevokedIn(e: Event, id: string) {
    (e.Revoked? && e.id == id) || (e.Created? && e.token.id == id && e.token.revokedAt != ZERO_TIME)
  }

  predicate WasUsed(events: seq<Event>, id: string) {
    exists i :: 0 <= i < |events| && UsedIn(events[i], id)
  }

  predicate WasRevoked(events: seq<Event>, id: string) {
    exists i :: 0 <= i < |events| && RevokedIn(events[i], id)
  }

  /** What an event names exists. */
  predicate Names(s: Tables, e: Event) {
    match e
    case Created(t, _) => t.id in s.byId
    case Used(id, at) => id in s.byId && !Expired(s.byId[id], at)
    case Revoked(id, _) => id in s.byId
  }

  /** The tables agree and tell the history: a token reads as used or revoked exactly when an event says so, and every
      use was before the expiry of its token. */
  ghost predicate Inv(st: History) {
    && Agree(st.tables)
    && (forall i :: 0 <= i < |st.events| ==> Names(st.tables, st.events[i]))
    && (forall id :: id in st.tables.byId ==> Told(st, id))
  }

  predicate Told(st: History, id: string)
    requires id in st.tables.byId
  {
    var t := st.tables.byId[id];
    (t.usedAt != ZERO_TIME <==> WasUsed(st.events, id)) && (t.revokedAt != ZERO_TIME <==> WasRevoked(st.events, id))
  }

  lemma {:induction false} WasNext(events: seq<Event>, e: Event, id: string)
    ensures WasUsed(events + [e], id) <==> WasUsed(events, id) || UsedIn(e, id)
    ensures WasRevoked(events + [e], id) <==> WasRevoked(events, id) || RevokedIn(e, id)
  {
    var next := events + [e];
    assert next[|events|] == e;
    assert forall i :: 0 <= i < |events| ==> next[i] == events[i];
  }

  /** Nothing happened to an identifier that no table holds. */
  lemma {:induction false} UnknownIsUntouched(st: History, id: string)
    requires Inv(st) && id !in st.tables.byId
    ensures !WasUsed(st.events, id) && !WasRevoked(st.events, id)
  {
  }

  /** The state after one event that wrote the token `t`. */
  lemma {:induction false} EventKeepsInv(st: History, t: Token, e: Event)
    requires Inv(st) && Consistent(st.tables, t)
    requires t.id in st.tables.byId ==> t.expiresAt == st.tables.byId[t.id].expiresAt
    requires Names(Put(st.tables, t), e)
    requires forall id :: id != t.id ==> !UsedIn(e, id) && !RevokedIn(e, id)
    requires t.usedAt != ZERO_TIME <==> WasUsed(st.events, t.id) || UsedIn(e, t.id)
    requires t.revokedAt != ZERO_TIME <==> WasRevoked(st.events, t.id) || RevokedIn(e, t.id)
    ensures Inv(History(Put(st.tables, t), st.events + [e]))
  {
    hide Agree, Consistent, WasUsed, WasRevoked, UsedIn, RevokedIn;
    PutAgreesIff(st.tables, t);
    var st' := History(Put(st.tables, t), st.events + [e]);
    forall i | 0 <= i < |st'.events|
      ensures Names(st'.tables, st'.events[i])
    {
      if i < |st.events| {
        assert Names(st.tables, st.events[i]);
      }
    }
    forall id | id in st'.tables.byId
      ensures Told(st', id)
    {
      WasNext(st.events, e, id);
      assert id != t.id ==> Told(st, id);
    }
  }

  lemma {:induction false} ApplyKeepsInv(hash: HashFn, st: History, c: Call)
    requires Inv(st) && Orderly(hash, st.tables, c)
    ensures Inv(Apply(hash, st, c))
  {
    match c
    case Creating(t, secret, now) =>
      if Create(hash, st.tables, t, secret, now).Some? {
        UnknownIsUntouched(st, t.id);
        EventKeepsInv(st, Stamped(hash, t, secret, now), Created(Stamped(hash, t, secret, now), secret));
      }
    case Using(secret, p, at) =>
      if Use(hash, st.tables, secret, p, at).Some? {
        var t := st.tables.byHash[TokenSha(hash, secret)];
        assert Told(st, t.id);
        EventKeepsInv(st, t.(usedAt := at), Used(t.id, at));
      }
    case Revoking(id, reason, at) =>
      if id in st.tables.byId {
        assert Told(st, id);
        EventKeepsInv(st, st.tables.byId[id].(revokedAt := at, revokedReason := reason), Revoked(id, at));
      }
  }

  /** Every orderly run keeps the two tables in agreement and true to the history. */
  lemma {:induction false} RunKeepsInv(hash: HashFn, calls: seq<Call>)
    requires OrderlyRun(hash, calls)
    ensures Inv(Run(hash, calls))
  {
    if calls != [] {
      RunKeepsInv(hash, calls[..|calls| - 1]);
      ApplyKeepsInv(hash, Run(hash, calls[..|calls| - 1]), calls[|calls| - 1]);
    }
  }

  /** A use succeeds exactly when the secret belongs to a token that allows the place, is not expired, and was neither
      used nor revoked by any earlier event of the run. */
  lemma {:induction false} UseAcceptedIff(hash: HashFn, calls: seq<Call>, secret: string, p: Place, at: Time)
    requires OrderlyRun(hash, calls)
    ensures var st := Run(hash, calls);
            Use(hash, st.tables, secret, p, at).Some?
            <==> exists id :: && id in st.tables.byId && st.tables.byId[id].sha == TokenSha(hash, secret)
                              && var t := st.tables.byId[id];
                              && (t.expiresAt == ZERO_TIME || at < t.expiresAt)
                              && t.environment in {"", p.environment} && t.stage in {"", p.stage} && t.scope in {"", p.scope}
                              && !WasUsed(st.events, id) && !WasRevoked(st.events, id)
  {
    RunKeepsInv(hash, calls);
    var st := Run(hash, calls);
    var h := TokenSha(hash, secret);
    if h in st.tables.byHash {
      assert Told(st, st.tables.byHash[h].id);
    }
  }

  lemma {:induction false} UsedOnce(hash: HashFn, calls: seq<Call>, j: nat)
    requires OrderlyRun(hash, calls)
    requires j < |Run(hash, calls).events| && Run(hash, calls).events[j].Used?
    ensures var events := Run(hash, calls).events;
            forall i :: 0 <= i < j ==> !UsedIn(events[i], events[j].id) && !RevokedIn(events[i], events[j].id)
  {
    hide Apply, Inv, Orderly, UsedIn, RevokedIn;
    var init := calls[..|calls| - 1];
    var before, events := Run(hash, init).events, Run(hash, calls).events;
    RunKeepsInv(hash, init);
    UseIsUntouched(hash, Run(hash, init), calls[|calls| - 1]);
    assert forall i :: 0 <= i < |before| ==> events[i] == events[..|before|][i] == before[i];
    if j < |before| {
      UsedOnce(hash, init, j);
    }
  }

  /** In every orderly run each use is of a token that was never used before, never revoked before, and not expired at
      that instant. */
  lemma {:induction false} UsedOnceInTime(hash: HashFn, calls: seq<Call>, j: nat)
    requires OrderlyRun(hash, calls)
    requires j < |Run(hash, calls).events| && Run(hash, calls).events[j].Used?
    ensures var st := Run(hash, calls);
            var Used(id, at) := st.events[j];
            && id in st.tables.byId && (st.tables.byId[id].expiresAt == ZERO_TIME || at < st.tables.byId[id].expiresAt)
            && forall i :: 0 <= i < j ==> !UsedIn(st.events[i], id) && !RevokedIn(st.events[i], id)
  {
    hide Run, OrderlyRun, UsedIn, RevokedIn;
    RunKeepsInv(hash, calls);
    UsedOnce(hash, calls, j);
    assert Names(Run(hash, calls).tables, Run(hash, calls).events[j]);
  }

  /** A stored token, and only a stored one, can be revoked; afterwards its secret is never accepted again. */
  lemma {:induction false} RevokedIsRefused(
    hash: HashFn, calls: seq<Call>, id: string, reason: string, at: Time, secret: string, p: Place, now: Time)
    requires OrderlyRun(hash, calls) && at != ZERO_TIME
    ensures var s := Run(hash, calls).tables;
            && (Revoke(s, id, reason, at).Some? <==> id in s.byId)
            && (id in s.byId ==>
                  var s' := Revoke(s, id, reason, at).value;
                  && s'.byId[id].revokedAt == at && s'.byId[id].revokedReason == reason
                  && (TokenSha(hash, secret) == s.byId[id].sha ==> Use(hash, s', secret, p, now).None?))
  {
    RunKeepsInv(hash, calls);
  }

  /** An accepted use stamps the token with its time, under both of its names. */
  lemma {:induction false} UseStamps(hash: HashFn, calls: seq<Call>, secret: string, p: Place, at: Time)
    requires OrderlyRun(hash, calls) && Use(hash, Run(hash, calls).tables, secret, p, at).Some?
    ensures var s, s' := Run(hash, calls).tables, Use(hash, Run(hash, calls).tables, secret, p, at).value;
            var h := TokenSha(hash, secret);
            && h in s.byHash && h in s'.byHash && s'.byHash[h] == s.byHash[h].(usedAt := at)
            && s.byHash[h].id in s'.byId && s'.byId[s.byHash[h].id] == s'.byHash[h]
  {
    RunKeepsInv(hash, calls);
  }

  /** A step that records a use records it for a token without a past use or revocation. */
  lemma {:induction false} UseIsUntouched(hash: HashFn, st: History, c: Call)
    requires Inv(st)
    ensures var st' := Apply(hash, st, c);
            && |st.events| <= |st'.events| <= |st.events| + 1 && st'.events[..|st.events|] == st.events
            && (|st'.events| > |st.events| && st'.events[|st.events|].Used? ==>
                  var id := st'.events[|st.events|].id;
                  !WasUsed(st.events, id) && !WasRevoked(st.events, id))
  {
  }

  // ---------------------------------------------------------------- fresh secrets

  predicate CreatedWith(hash: HashFn, e: Event, h: string) {
    e.Created? && TokenSha(hash, e.secret) == h
  }

  lemma {:induction false} NewDigestWasCreated(hash: HashFn, st: History, c: Call, h: string)
    requires Inv(st) && h in Apply(hash, st, c).tables.byHash && h !in st.tables.byHash
    ensures var events := Apply(hash, st, c).events;
            |events| == |st.events| + 1 && CreatedWith(hash, events[|st.events|], h)
  {
  }

  lemma {:induction false} RunKnowsSecrets(hash: HashFn, calls: seq<Call>, h: string) returns (i: nat)
    requires OrderlyRun(hash, calls) && h in Run(hash, calls).tables.byHash
    ensures i < |Run(hash, calls).events| && CreatedWith(hash, Run(hash, calls).events[i], h)
  {
    hide Apply, Inv, Orderly, CreatedWith;
    var init, c := calls[..|calls| - 1], calls[|calls| - 1];
    RunKeepsInv(hash, init);
    var st, st' := Run(hash, init), Run(hash, calls);
    UseIsUntouched(hash, st, c);
    if h in st.tables.byHash {
      i := RunKnowsSecrets(hash, init, h);
      assert st'.events[i] == st'.events[..|st.events|][i];
    } else {
      i := |st.events|;
      NewDigestWasCreated(hash, st, c, h);
    }
  }

  /** A secret that no earlier token had gives a new digest, unless it collides with the secret of an earlier token. */
  lemma {:induction false} FreshSecretFreshDigest(hash: HashFn, calls: seq<Call>, secret: string)
    requires OrderlyRun(hash, calls)
    requires forall i :: 0 <= i < |Run(hash, calls).events| && Run(hash, calls).events[i].Created? ==>
                           Run(hash, calls).events[i].secret != secret
    ensures TokenSha(hash, secret) !in Run(hash, calls).tables.byHash
            || exists i :: && 0 <= i < |Run(hash, calls).events| && Run(hash, calls).events[i].Created?
                           && Collides(hash, Pair(secret, Run(hash, calls).events[i].secret))
  {
    var st := Run(hash, calls);
    if TokenSha(hash, secret) in st.tables.byHash {
      var i := RunKnowsSecrets(hash, calls, TokenSha(hash, secret));
      DigestTextInjective(hash, secret, st.events[i].secret);
      assert Collides(hash, Pair(secret, st.events[i].secret));
    }
  }
}
