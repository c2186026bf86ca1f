/** The refreshing key set of the API's token check (internal/api/authn/jwks.go): a cache of public keys that is
    refetched on demand, at most once per interval for unknown key identifiers. Calls run one after the other.

    A public key is a string, the outcome of decoding a modulus and an exponent; clock readings and the server's
    answers are parameters.
 */
module Jwks {
  import opened Basics

  type Keys = map<string, string>

  /** `material` is the decoded RSA key, if it decodes. */
  datatype Jwk = Jwk(kty: string, kid: string, use: string, alg: string, material: Option<string>)

  type Document = seq<Jwk>

  function Upper(s: string): string {
    seq(|s|, i requires 0 <= i < |s| => if 'a' <= s[i] <= 'z' then (s[i] as int - 32) as char else s[i])
  }

  function Decimal(n: nat): (s: string)
    ensures s != ""
  {
    var digit := [(48 + n % 10) as char];
    if n < 10 then digit else Decimal(n / 10) + digit
  }

  /** A key that the cache is interested in: RSA, for signatures, RS256. */
  predicate Relevant(k: Jwk) {
    && Upper(TrimSpace(k.kty)) == "RSA"
    && TrimSpace(k.use) in {"", "sig"}
    && TrimSpace(k.alg) in {"", "RS256"}
  }

  /** The identifier of the i-th key: its own, or one made from its position. */
  function KidAt(doc: Document, i: nat): string
    requires i < |doc|
  {
    if Blank(doc[i].kid) then "jwks.key." + Decimal(i) else TrimSpace(doc[i].kid)
  }

  /** A document the cache can use: some relevant key, all relevant keys decodable and under different identifiers. */
  predicate Usable(doc: Document) {
    && (exists i :: 0 <= i < |doc| && Relevant(doc[i]))
    && (forall i :: 0 <= i < |doc| && Relevant(doc[i]) ==> doc[i].material.Some?)
    && (forall i, j :: 0 <= i < j < |doc| && Relevant(doc[i]) && Relevant(doc[j]) ==> KidAt(doc, i) != KidAt(doc, j))
  }

  /** The keys are the relevant ones among the first `n`, each under its identifier. */
  ghost predicate Holds(doc: Document, n: nat, keys: Keys)
    requires n <= |doc|
  {
    && (forall i :: 0 <= i < n && Relevant(doc[i]) ==> KidAt(doc, i) in keys && Some(keys[KidAt(doc, i)]) == doc[i].material)
    && (forall kid :: kid in keys ==> exists i :: 0 <= i < n && Relevant(doc[i]) && KidAt(doc, i) == kid)
  }

  /** A key is of interest exactly when its type reads RSA in any case, it is for signatures or for nothing in particular, and
      for RS256 or no particular algorithm, blanks aside. */
  lemma {:induction false} RelevantIff(k: Jwk)
    ensures Relevant(k)
            <==> && ReadsRsa(TrimSpace(k.kty))
                 && TrimSpace(k.use) in {"", "sig"} && TrimSpace(k.alg) in {"", "RS256"}
  {
    hide TrimSpace;
    var t := TrimSpace(k.kty);
    if |t| == 3 {
      assert Upper(t) == "RSA" <==> Upper(t)[0] == 'R' && Upper(t)[1] == 'S' && Upper(t)[2] == 'A';
    }
  }

  predicate ReadsRsa(t: string) {
    |t| == 3 && t[0] in {'R', 'r'} && t[1] in {'S', 's'} && t[2] in {'A', 'a'}
  }

  /** A key keeps its own identifier, trimmed; one without gets a name from its position. */
  lemma {:induction false} KidAtIs(doc: Document, i: nat)
    requires i < |doc|
    ensures !Blank(doc[i].kid) ==> KidAt(doc, i) == TrimSpace(doc[i].kid)
    ensures Blank(doc[i].kid) ==> KidAt(doc, i) == "jwks.key." + Decimal(i)
  {
  }

  /** Different positions give different names. */
  lemma {:induction false} DecimalInjective(m: nat, n: nat)
    requires Decimal(m) == Decimal(n)
    ensures m == n
  {
    var a, b := Decimal(m), Decimal(n);
    assert a[|a| - 1] == (48 + m % 10) as char && b[|b| - 1] == (48 + n % 10) as char;
    if m < 10 || n < 10 {
      assert |a| == 1 <==> m < 10;
      assert |b| == 1 <==> n < 10;
    } else {
      assert a[..|a| - 1] == Decimal(m / 10) && b[..|b| - 1] == Decimal(n / 10);
      DecimalInjective(m / 10, n / 10);
    }
  }

  /** A document is usable exactly when some key in it is relevant, every relevant key decodes, and no two relevant keys have
      one identifier. */
  lemma {:induction false} UsableIff(doc: Document)
    ensures Usable(doc)
            <==> && (exists i :: 0 <= i < |doc| && Relevant(doc[i]))
                 && (forall i :: 0 <= i < |doc| && Relevant(doc[i]) ==> doc[i].material.Some?)
                 && (forall i, j :: 0 <= i < |doc| && 0 <= j < |doc| && Relevant(doc[i]) && Relevant(doc[j]) && i != j ==>
                                      KidAt(doc, i) != KidAt(doc, j))
  {
    hide Relevant, KidAt;
  }

  /** A decoded document is accepted exactly when it is usable, and gives exactly its relevant keys. */
  method ParseJWKS(doc: Document) returns (keys: Option<Keys>)
    ensures keys.Some? <==> Usable(doc)
    ensures keys.Some? ==> Holds(doc, |doc|, keys.value) && keys.value != map[]
  {
    hide Relevant, TrimSpace, Blank, KidAt;
    var found: Keys := map[];
    for index := 0 to |doc|
      invariant Holds(doc, index, found)
      invariant forall i :: 0 <= i < index && Relevant(doc[i]) ==> doc[i].material.Some?
      invariant forall i, j :: 0 <= i < j < index && Relevant(doc[i]) && Relevant(doc[j]) ==>
                                 KidAt(doc, i) != KidAt(doc, j)
    {
      if Relevant(doc[index]) {
        if doc[index].material.None? { return None; }
        var kid := KidAt(doc, index);
        if kid in found { return None; }
        found := found[kid := doc[index].material.value];
      }
    }
    if |found| == 0 { return None; }
    return Some(found);
  }

  /** Two key sets that hold one document are equal: what a document gives is determined by it. */
  lemma {:induction false} HoldsUnique(doc: Document, a: Keys, b: Keys)
    requires Holds(doc, |doc|, a) && Holds(doc, |doc|, b)
    ensures a == b
  {
  }

  // ---------------------------------------------------------------- the cache

  /** What the server sent: nothing, or a status with a body that decodes or not. */
  datatype Answer = Failed | Answered(code: int, body: Option<Document>, etag: string, modified: string)

  /** An answer with the clock when it came and the clock when an error is recorded. */
  datatype Reply = Reply(answer: Answer, at: Time, errorAt: Time)

  const NOT_MODIFIED: int := 304

  datatype Cache = Cache(keys: Keys, etag: string, modified: string, lastFetch: Time, lastOk: Time, failing: bool)

  const NO_KEYS: Cache := Cache(map[], "", "", ZERO_TIME, ZERO_TIME, false)

  ghost predicate Loads(a: Answer) {
    a.Answered? && a.code != NOT_MODIFIED && 200 <= a.code <= 299 && a.body.Some? && Usable(a.body.value)
  }

  ghost function KeysOf(doc: Document): (keys: Keys)
    requires Usable(doc)
    ensures Holds(doc, |doc|, keys) && keys != map[]
  {
    UsableHasKeys(doc);
    var keys :| Holds(doc, |doc|, keys) && keys != map[];
    keys
  }

  ghost predicate Succeeds(a: Answer) {
    Loads(a) || (a.Answered? && a.code == NOT_MODIFIED)
  }

  /** The cache after one fetch. */
  ghost function Refreshed(c: Cache, r: Reply): Cache {
    if Loads(r.answer) then
      Cache(KeysOf(r.answer.body.value), TrimSpace(r.answer.etag), TrimSpace(r.answer.modified), r.at, r.at, false)
    else if Succeeds(r.answer) then c.(lastFetch := r.at, lastOk := r.at, failing := false)
    else c.(lastFetch := r.errorAt, failing := true)
  }

  lemma {:induction false} OneKeyOnly(keys: Keys)
    requires |keys| == 1
    ensures exists a :: a in keys
    ensures forall a, b :: a in keys && b in keys ==> a == b
  {
    var a :| a in keys.Keys;
    assert keys.Keys == {a} by {
      assert |keys.Keys - {a}| == 0;
    }
  }

  /** The cached key for an identifier; without one, the only key there is. */
  function CachedKey(keys: Keys, kid: string): (key: Option<string>)
    ensures !Blank(kid) ==> key == if TrimSpace(kid) in keys then Some(keys[TrimSpace(kid)]) else None
    ensures Blank(kid) ==> (key.Some? <==> |keys| == 1) && forall k :: k in keys && key.Some? ==> key.value == keys[k]
  {
    var kid := TrimSpace(kid);
    if kid != "" then (if kid in keys then Some(keys[kid]) else None)
    else if |keys| == 1 then
      OneKeyOnly(keys);
      var only :| only in keys;
      Some(keys[only])
    else None
  }

  predicate MayRefetch(c: Cache, minInterval: int, now: Time) {
    c.keys == map[] || now - c.lastFetch >= minInterval
  }

  ghost function AfterLookup(c: Cache, minInterval: int, kid: string, now: Time, r: Reply): Cache {
    if CachedKey(c.keys, kid).None? && MayRefetch(c, minInterval, now) then Refreshed(c, r) else c
  }

  class RefreshingJwks {
    const minInterval: int
    var keys: Keys
    var etag: string
    var modified: string
    var lastFetch: Time
    var lastOk: Time
    var failing: bool

    ghost function Abstract(): Cache
      reads this
    {
      Cache(keys, etag, modified, lastFetch, lastOk, failing)
    }

    constructor (minRefreshInterval: int)
      ensures Abstract() == NO_KEYS
      ensures minInterval == (if minRefreshInterval <= 0 then 30 * SECOND else minRefreshInterval)
    {
      minInterval := if minRefreshInterval <= 0 then 30 * SECOND else minRefreshInterval;
      keys, etag, modified, lastFetch, lastOk, failing := map[], "", "", ZERO_TIME, ZERO_TIME, false;
    }

    method RecordFetchError(now: Time)
      modifies this
      ensures Abstract() == old(Abstract()).(lastFetch := now, failing := true)
    {
      lastFetch, failing := now, true;
    }

    method Refresh(r: Reply) returns (ok: bool)
      modifies this
      ensures ok <==> Succeeds(r.answer)
      ensures Abstract() == Refreshed(old(Abstract()), r)
    {
      hide Usable, Holds;
      if r.answer.Failed? {
        RecordFetchError(r.errorAt);
        return false;
      }
      if r.answer.code == NOT_MODIFIED {
        lastFetch, lastOk, failing := r.at, r.at, false;
        return true;
      }
      if r.answer.code < 200 || r.answer.code > 299 || r.answer.body.None? {
        RecordFetchError(r.errorAt);
        return false;
      }
      var parsed := ParseJWKS(r.answer.body.value);
      if parsed.None? {
        RecordFetchError(r.errorAt);
        return false;
      }
      HoldsUnique(r.answer.body.value, parsed.value, KeysOf(r.answer.body.value));
      keys, etag, modified := parsed.value, TrimSpace(r.answer.etag), TrimSpace(r.answer.modified);
      lastFetch, lastOk, failing := r.at, r.at, false;
      return true;
    }

    /** `now` is read when the key is missing, `r` is met if a fetch follows. */
    method Key(kid: string, now: Time, r: Reply) returns (key: Option<string>)
      modifies this
      ensures Abstract() == AfterLookup(old(Abstract()), minInterval, kid, now, r)
      ensures key == CachedKey(old(keys), kid)
              || (CachedKey(old(keys), kid).None? && key == CachedKey(keys, kid))
      ensures key.Some? ==> key == CachedKey(keys, kid)
    {
      key := CachedKey(keys, kid);
      if key.Some? { return; }
      if keys == map[] || now - lastFetch >= minInterval {
        var ok := Refresh(r);
        if !ok { return None; }
      }
      key := CachedKey(keys, kid);
    }
  }

  /** NewRefreshingJWKS: no provider without a first successful fetch. */
  method NewRefreshingJwks(url: string, minRefreshInterval: int, r: Reply) returns (j: Option<RefreshingJwks>)
    ensures j.Some? <==> !Blank(url) && Succeeds(r.answer)
    ensures j.Some? ==> fresh(j.value) && j.value.Abstract() == Refreshed(NO_KEYS, r) && j.value.minInterval > 0
  {
    if TrimSpace(url) == "" { return None; }
    var jwks := new RefreshingJwks(minRefreshInterval);
    var ok := jwks.Refresh(r);
    if !ok { return None; }
    return Some(jwks);
  }

  lemma {:induction false} UsableHasKeys(doc: Document)
    requires Usable(doc)
    ensures exists keys :: Holds(doc, |doc|, keys) && keys != map[]
  {
    var keys := UsableKeys(doc, |doc|);
    var i :| 0 <= i < |doc| && Relevant(doc[i]);
    assert KidAt(doc, i) in keys;
  }

  lemma {:induction false} UsableKeys(doc: Document, n: nat) returns (keys: Keys)
    requires Usable(doc) && n <= |doc|
    ensures Holds(doc, n, keys)
  {
    hide Relevant, KidAt;
    keys := map[];
    if n > 0 {
      keys := UsableKeys(doc, n - 1);
      if Relevant(doc[n - 1]) {
        keys := keys[KidAt(doc, n - 1) := doc[n - 1].material.value];
      }
    }
  }

  // ---------------------------------------------------------------- runs

  datatype Call = Refreshing(reply: Reply) | Looking(kid: string, now: Time, reply: Reply)

  /** One fetch: whether an unknown key identifier caused it, when it was decided and recorded, and the answer. */
  datatype Fetch = Fetch(miss: bool, askedAt: Time, doneAt: Time, answer: Answer)

  datatype History = History(cache: Cache, fetches: seq<Fetch>, clock: Time)

  ghost function Fetched(h: History, miss: bool, askedAt: Time, r: Reply): History {
    var c := Refreshed(h.cache, r);
    History(c, h.fetches + [Fetch(miss, askedAt, c.lastFetch, r.answer)], r.errorAt)
  }

  ghost function Apply(h: History, minInterval: int, c: Call): History {
    match c
    case Refreshing(r) => Fetched(h, false, r.at, r)
    case Looking(kid, now, r) =>
      if CachedKey(h.cache.keys, kid).Some? then h
      else if MayRefetch(h.cache, minInterval, now) then Fetched(h, true, now, r)
      else h.(clock := now)
  }

  /** The clock never goes back, inside a call and from one call to the next. */
  predicate InOrder(clock: Time, c: Call) {
    match c
    case Refreshing(r) => clock <= r.at <= r.errorAt
    case Looking(_, now, r) => clock <= now <= r.at <= r.errorAt
  }

  /** A run starts with the first fetch of NewRefreshingJWKS, made at a real instant. */
  ghost function Run(minInterval: int, first: Reply, calls: seq<Call>): History {
    if calls == [] then Fetched(History(NO_KEYS, [], ZERO_TIME), false, first.at, first)
    else Apply(Run(minInterval, first, calls[..|calls| - 1]), minInterval, calls[|calls| - 1])
  }

  ghost predicate Orderly(minInterval: int, first: Reply, calls: seq<Call>) {
    if calls == [] then first.at <= first.errorAt
    else
      var init := calls[..|calls| - 1];
      Orderly(minInterval, first, init) && InOrder(Run(minInterval, first, init).clock, calls[|calls| - 1])
  }

  /** The keys of the last answer that brought any. */
  ghost function LastLoaded(fetches: seq<Fetch>): Keys {
    if fetches == [] then map[]
    else
      var last := fetches[|fetches| - 1];
      if Loads(last.answer) then KeysOf(last.answer.body.value) else LastLoaded(fetches[..|fetches| - 1])
  }

  ghost predicate Loaded(fetches: seq<Fetch>) {
    exists i :: 0 <= i < |fetches| && Loads(fetches[i].answer)
  }

  /** If the j-th fetch was caused by an unknown key and keys had been loaded, it waited for every fetch before it. */
  ghost predicate Throttled(minInterval: int, fetches: seq<Fetch>, j: nat)
    requires j < |fetches|
  {
    fetches[j].miss && Loaded(fetches[..j]) ==>
      forall i :: 0 <= i < j ==> fetches[i].doneAt + minInterval <= fetches[j].askedAt
  }

  ghost predicate Inv(h: History, minInterval: int) {
    && h.cache.keys == LastLoaded(h.fetches)
    && h.cache.lastFetch <= h.clock
    && (forall i :: 0 <= i < |h.fetches| ==> h.fetches[i].doneAt <= h.cache.lastFetch)
    && (forall j :: 0 <= j < |h.fetches| ==> Throttled(minInterval, h.fetches, j))
  }

  lemma {:induction false} LoadedIff(fetches: seq<Fetch>)
    ensures LastLoaded(fetches) != map[] <==> Loaded(fetches)
  {
    hide Holds, Usable;
    if fetches != [] {
      var init := fetches[..|fetches| - 1];
      LoadedIff(init);
      if Loaded(init) {
        var i :| 0 <= i < |init| && Loads(init[i].answer);
        assert Loads(fetches[i].answer);
      }
      if Loaded(fetches) && !Loads(fetches[|fetches| - 1].answer) {
        var i :| 0 <= i < |fetches| && Loads(fetches[i].answer);
        assert Loads(init[i].answer);
      }
    }
  }

  lemma {:induction false} FetchedKeepsInv(h: History, minInterval: int, miss: bool, askedAt: Time, r: Reply)
    requires Inv(h, minInterval) && h.clock <= r.at <= r.errorAt
    requires miss ==> MayRefetch(h.cache, minInterval, askedAt)
    ensures Inv(Fetched(h, miss, askedAt, r), minInterval)
  {
    hide Loads, Succeeds, KeysOf, Loaded, Holds, Usable;
    var h' := Fetched(h, miss, askedAt, r);
    var n := |h.fetches|;
    assert h'.fetches[..n] == h.fetches;
    LoadedIff(h.fetches);
    forall j | 0 <= j < |h'.fetches|
      ensures Throttled(minInterval, h'.fetches, j)
    {
      if j < n {
        assert Throttled(minInterval, h.fetches, j) && h'.fetches[..j] == h.fetches[..j];
      }
    }
  }

  lemma {:induction false} ApplyKeepsInv(h: History, minInterval: int, c: Call)
    requires Inv(h, minInterval) && InOrder(h.clock, c)
    ensures Inv(Apply(h, minInterval, c), minInterval)
  {
    hide Fetched, MayRefetch;
    match c
    case Refreshing(r) => FetchedKeepsInv(h, minInterval, false, r.at, r);
    case Looking(kid, now, r) =>
      if MayRefetch(h.cache, minInterval, now) {
        FetchedKeepsInv(h, minInterval, true, now, r);
      }
  }

  lemma {:induction false} RunKeepsInv(minInterval: int, first: Reply, calls: seq<Call>)
    requires ZERO_TIME <= first.at && Orderly(minInterval, first, calls)
    ensures Inv(Run(minInterval, first, calls), minInterval)
  {
    if calls == [] {
      FetchedKeepsInv(History(NO_KEYS, [], ZERO_TIME), minInterval, false, first.at, first);
    } else {
      RunKeepsInv(minInterval, first, calls[..|calls| - 1]);
      ApplyKeepsInv(Run(minInterval, first, calls[..|calls| - 1]), minInterval, calls[|calls| - 1]);
    }
  }

  /** In every run the cache holds the keys of the last answer that brought any, whatever failed or was not modified
      since, and it is empty exactly while no answer ever brought keys. */
  lemma {:induction false} KeysAreLastLoaded(minInterval: int, first: Reply, calls: seq<Call>)
    requires ZERO_TIME <= first.at && Orderly(minInterval, first, calls)
    ensures var h := Run(minInterval, first, calls);
            h.cache.keys == LastLoaded(h.fetches) && (h.cache.keys != map[] <==> Loaded(h.fetches))
  {
    RunKeepsInv(minInterval, first, calls);
    LoadedIff(Run(minInterval, first, calls).fetches);
  }

  lemma {:induction false} FirstFetchKept(minInterval: int, first: Reply, calls: seq<Call>)
    ensures var h := Run(minInterval, first, calls);
            |h.fetches| > 0 && h.fetches[0].answer == first.answer
  {
    if calls != [] {
      FirstFetchKept(minInterval, first, calls[..|calls| - 1]);
    }
  }

  lemma {:induction false} FirstLoads(minInterval: int, first: Reply, calls: seq<Call>, n: nat)
    requires Loads(first.answer) && 0 < n <= |Run(minInterval, first, calls).fetches|
    ensures Loaded(Run(minInterval, first, calls).fetches[..n])
  {
    hide Loads;
    FirstFetchKept(minInterval, first, calls);
    assert Loads(Run(minInterval, first, calls).fetches[..n][0].answer);
  }

  /** After a first fetch that brought keys the cache is never empty again. */
  lemma {:induction false} NeverEmpty(minInterval: int, first: Reply, calls: seq<Call>)
    requires ZERO_TIME <= first.at && Orderly(minInterval, first, calls) && Loads(first.answer)
    ensures Run(minInterval, first, calls).cache.keys != map[]
  {
    hide Loads, Run, Loaded;
    var fetches := Run(minInterval, first, calls).fetches;
    FirstFetchKept(minInterval, first, calls);
    FirstLoads(minInterval, first, calls, |fetches|);
    assert fetches[..|fetches|] == fetches;
    KeysAreLastLoaded(minInterval, first, calls);
  }

  /** Then a fetch caused by an unknown key identifier comes at least the minimal interval after every fetch before it. */
  lemma {:induction false} MissesThrottled(minInterval: int, first: Reply, calls: seq<Call>, i: nat, j: nat)
    requires ZERO_TIME <= first.at && Orderly(minInterval, first, calls) && Loads(first.answer)
    requires i < j < |Run(minInterval, first, calls).fetches| && Run(minInterval, first, calls).fetches[j].miss
    ensures var fetches := Run(minInterval, first, calls).fetches;
            fetches[i].doneAt + minInterval <= fetches[j].askedAt
  {
    hide Loads, Run, Inv, Loaded;
    RunKeepsInv(minInterval, first, calls);
    FirstLoads(minInterval, first, calls, j);
    InvThrottles(Run(minInterval, first, calls), minInterval, j);
  }

  lemma {:induction false} InvThrottles(h: History, minInterval: int, j: nat)
    requires Inv(h, minInterval) && j < |h.fetches|
    ensures Throttled(minInterval, h.fetches, j)
  {
  }

  /** A call fetches exactly when it is a refresh, or a lookup that misses while the cache is empty or the minimal interval
      since the last fetch is over. */
  lemma {:induction false} FetchesIff(h: History, minInterval: int, c: Call)
    ensures |Apply(h, minInterval, c).fetches| == |h.fetches| + 1
            <==> || c.Refreshing?
                 || (&& CachedKey(h.cache.keys, c.kid).None?
                     && (h.cache.keys == map[] || c.now >= h.cache.lastFetch + minInterval))
    ensures |Apply(h, minInterval, c).fetches| != |h.fetches| + 1 ==> Apply(h, minInterval, c).fetches == h.fetches
  {
  }

  /** A lookup that hits, or that misses too soon after the last fetch, leaves the cache alone. */
  lemma {:induction false} LookupLeaves(c: Cache, minInterval: int, kid: string, now: Time, r: Reply)
    requires CachedKey(c.keys, kid).Some? || (c.keys != map[] && now < c.lastFetch + minInterval)
    ensures AfterLookup(c, minInterval, kid, now, r) == c
  {
  }

  /** A fetch succeeds exactly on a 304 or on a 2xx answer with a usable document. */
  lemma {:induction false} SucceedsIff(a: Answer)
    ensures Succeeds(a)
            <==> a.Answered? && (a.code == 304 || (200 <= a.code <= 299 && a.body.Some? && Usable(a.body.value)))
  {
  }

  /** A key that the server has rotated in is found by the first lookup after the minimal interval: if the answer carries a
      relevant key under the identifier, that is the key the lookup leaves in the cache. */
  lemma {:induction false} RotatedKeyFound(c: Cache, minInterval: int, kid: string, now: Time, r: Reply, i: nat)
    requires !Blank(kid) && TrimSpace(kid) !in c.keys && now >= c.lastFetch + minInterval && Loads(r.answer)
    requires i < |r.answer.body.value| && Relevant(r.answer.body.value[i])
    requires KidAt(r.answer.body.value, i) == TrimSpace(kid)
    ensures r.answer.body.value[i].material.Some?
    ensures CachedKey(AfterLookup(c, minInterval, kid, now, r).keys, kid) == r.answer.body.value[i].material
  {
    hide Relevant, KidAt, TrimSpace;
  }

  /** What a fetch does to the cache, by the status of the answer. */
  lemma {:induction false} RefreshedMeans(c: Cache, r: Reply)
    ensures var c' := Refreshed(c, r);
            && (r.answer.Answered? && r.answer.code == 304 ==>
                  c' == c.(lastFetch := r.at, lastOk := r.at, failing := false))
            && (r.answer.Failed? || (r.answer.code != 304 && !(200 <= r.answer.code <= 299)) ==>
                  c' == c.(lastFetch := r.errorAt, failing := true))
            && (r.answer.Answered? && 200 <= r.answer.code <= 299 ==>
                  if r.answer.body.Some? && Usable(r.answer.body.value) then
                    && Holds(r.answer.body.value, |r.answer.body.value|, c'.keys)
                    && c'.etag == TrimSpace(r.answer.etag) && c'.modified == TrimSpace(r.answer.modified)
                    && c'.lastFetch == c'.lastOk == r.at && !c'.failing
                  else c' == c.(lastFetch := r.errorAt, failing := true))
  {
    hide Usable, Holds;
  }

  // ---------------------------------------------------------------- a first answer of 304

  /** Exactly when a provider that NewRefreshingJWKS returned has keys: the first answer was not a 304. */
  lemma {:induction false} ProviderHasKeysIff(minInterval: int, first: Reply)
    requires Succeeds(first.answer)
    ensures Run(minInterval, first, []).cache.keys != map[] <==> first.answer.code != NOT_MODIFIED
  {
  }

  predicate Conditional(c: Cache) {
    c.etag != "" || c.modified != ""
  }

  /** A request carries a condition only after some answer brought keys, so a server that answers 304 to conditional
      requests alone (section 15.4.5 of RFC 9110) never leaves the cache empty by it. */
  lemma {:induction false} ConditionalOnlyAfterLoad(minInterval: int, first: Reply, calls: seq<Call>)
    ensures var h := Run(minInterval, first, calls);
            Conditional(h.cache) ==> Loaded(h.fetches)
  {
    if calls == [] {
      assert Run(minInterval, first, []).fetches[0].answer == first.answer;
    } else {
      var h, h' := Run(minInterval, first, calls[..|calls| - 1]), Run(minInterval, first, calls);
      ConditionalOnlyAfterLoad(minInterval, first, calls[..|calls| - 1]);
      FetchesGrow(h, minInterval, calls[|calls| - 1]);
    }
  }

  lemma {:induction false} FetchesGrow(h: History, minInterval: int, c: Call)
    ensures var h' := Apply(h, minInterval, c);
            && |h.fetches| <= |h'.fetches| && h'.fetches[..|h.fetches|] == h.fetches
            && (Loaded(h.fetches) ==> Loaded(h'.fetches))
            && (h'.cache.keys != h.cache.keys || Conditional(h'.cache) != Conditional(h.cache) ==> Loaded(h'.fetches))
  {
    hide Loads;
    var h' := Apply(h, minInterval, c);
    if Loaded(h.fetches) {
      var i :| 0 <= i < |h.fetches| && Loads(h.fetches[i].answer);
      assert h'.fetches[i] == h.fetches[i];
    }
    if |h'.fetches| > |h.fetches| {
      assert h'.fetches[|h.fetches|].answer == c.reply.answer;
    }
  }
}
