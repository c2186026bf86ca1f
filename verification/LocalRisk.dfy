/** From a baseline deviation to a cached risk tier: internal/kliq/localrisk/localrisk.go, internal/core/risk/risk.go,
    the local recipe of cmd/kliq/run.go and the risk cache of internal/kliq/actionstate/sqlite.go. */
module LocalRisk {
  import opened Basics
  import opened Baseline

  const LOW: string := "low"
  const MEDIUM: string := "medium"
  const HIGH: string := "high"
  const CRITICAL: string := "critical"
  const UNKNOWN: string := "unknown"
  const SCOPE_LOCAL: string := "local"

  function TrimPrefix(s: string, prefix: string): string {
    if prefix <= s then s[|prefix|..] else s
  }

  function NormalizeTier(tier: string): string {
    var t := TrimPrefix(TrimSpace(tier), "risk_tier.");
    if t in {LOW, MEDIUM, HIGH, CRITICAL} then t else UNKNOWN
  }

  function NormalizeType(riskType: string): string {
    TrimPrefix(TrimSpace(riskType), "risk_type.")
  }

  // ---------------------------------------------------------------- lower bounds of threshold expressions

  predicate Digit(c: char) { '0' <= c <= '9' }

  function SkipSpace(e: string, i: nat): (j: nat)
    requires i <= |e|
    ensures i <= j <= |e|
    decreases |e| - i
  {
    if i < |e| && IsSpace(e[i]) && e[i] as int != 11 then SkipSpace(e, i + 1) else i
  }

  function DigitsEnd(e: string, i: nat): (j: nat)
    requires i <= |e|
    ensures i <= j <= |e| && forall k :: i <= k < j ==> Digit(e[k])
    decreases |e| - i
  {
    if i < |e| && Digit(e[i]) then DigitsEnd(e, i + 1) else i
  }

  function Number(e: string, i: nat, j: nat): nat
    requires i <= j <= |e| && forall k :: i <= k < j ==> Digit(e[k])
  {
    if i == j then 0
    else
      assert Digit(e[j - 1]);
      10 * Number(e, i, j - 1) + (e[j - 1] as int - 48)
  }

  function Power10(n: nat): (p: nat)
    ensures p > 0
  {
    if n == 0 then 1 else 10 * Power10(n - 1)
  }

  predicate At(e: string, i: nat, text: string) {
    i + |text| <= |e| && e[i..i + |text|] == text
  }

  /** A match of `score\s*>=\s*([0-9]+(?:\.[0-9]+)?)` that starts at `i`, as the number it captures. */
  function MatchAt(e: string, i: nat): Option<real> {
    if !At(e, i, "score") then None
    else
      var j := SkipSpace(e, i + 5);
      if !At(e, j, ">=") then None
      else
        var k := SkipSpace(e, j + 2);
        var d := DigitsEnd(e, k);
        if d == k then None
        else if At(e, d, ".") && DigitsEnd(e, d + 1) > d + 1 then
          var f := DigitsEnd(e, d + 1);
          Some(Number(e, k, d) as real + Number(e, d + 1, f) as real / Power10(f - d - 1) as real)
        else Some(Number(e, k, d) as real)
  }

  /** The leftmost match at or after `i`. */
  function FindMatch(e: string, i: nat): Option<real>
    requires i <= |e|
    decreases |e| - i
  {
    match MatchAt(e, i)
    case Some(x) => Some(x)
    case None => if i == |e| then None else FindMatch(e, i + 1)
  }

  predicate Contains(e: string, text: string) {
    exists i :: 0 <= i <= |e| && At(e, i, text)
  }

  /** lowerBound. */
  function LowerBound(e: string): Option<real> {
    match FindMatch(e, 0)
    case Some(x) => Some(x)
    case None => if Contains(e, "score <") then Some(0.0) else None
  }

  lemma {:induction false} NoMatchWithoutAngle(e: string, i: nat)
    requires i <= |e| && '>' !in e
    ensures FindMatch(e, i) == None
    decreases |e| - i
  {
    forall j | 0 <= j
      ensures !At(e, j, ">=")
    {
      assert j + 2 <= |e| ==> e[j] == e[j..j + 2][0];
    }
    if i < |e| {
      NoMatchWithoutAngle(e, i + 1);
    }
  }

  /** The white space of the pattern. */
  predicate PatternSpace(c: char) {
    c == ' ' || c == '\t' || c == '\n' || c == '\r' || c as int == 12
  }

  lemma {:induction false} SkipSpaceIs(e: string, i: nat)
    requires i <= |e|
    ensures forall k :: i <= k < SkipSpace(e, i) ==> PatternSpace(e[k])
    ensures SkipSpace(e, i) < |e| ==> !PatternSpace(e[SkipSpace(e, i)])
    decreases |e| - i
  {
    if i < |e| && PatternSpace(e[i]) {
      SkipSpaceIs(e, i + 1);
    }
  }

  lemma {:induction false} DigitsEndIs(e: string, i: nat)
    requires i <= |e|
    ensures DigitsEnd(e, i) < |e| ==> !Digit(e[DigitsEnd(e, i)])
    decreases |e| - i
  {
    if i < |e| && Digit(e[i]) {
      DigitsEndIs(e, i + 1);
    }
  }

  /** The expression states a lower bound at `i`: `score`, white space, `>=`, white space and a number up to `d`, which a point
      and more digits up to `f` may continue. */
  ghost predicate StatesBound(e: string, i: nat, j: nat, k: nat, d: nat, f: nat) {
    && i + 5 <= j && j + 2 <= k < d <= f <= |e|
    && e[i..i + 5] == "score" && (forall n :: i + 5 <= n < j ==> PatternSpace(e[n]))
    && e[j..j + 2] == ">=" && (forall n :: j + 2 <= n < k ==> PatternSpace(e[n]))
    && (forall n :: k <= n < d ==> Digit(e[n])) && (d < |e| ==> !Digit(e[d]))
    && (if d + 1 < |e| && e[d] == '.' && Digit(e[d + 1])
        then d + 1 < f && (forall n :: d + 1 <= n < f ==> Digit(e[n])) && (f < |e| ==> !Digit(e[f]))
        else f == d)
  }

  /** The number that is stated: its digits, and those after the point as a fraction. */
  function StatedBound(e: string, k: nat, d: nat, f: nat): real
    requires k <= d <= f <= |e| && (forall n :: k <= n < d ==> Digit(e[n])) && forall n :: d + 1 <= n < f ==> Digit(e[n])
  {
    if f <= d + 1 then Number(e, k, d) as real
    else Number(e, k, d) as real + Number(e, d + 1, f) as real / Power10(f - d - 1) as real
  }

  /** A match found at a place states its number there. */
  lemma {:induction false} MatchStates(e: string, i: nat) returns (j: nat, k: nat, d: nat, f: nat)
    requires i <= |e| && MatchAt(e, i).Some?
    ensures StatesBound(e, i, j, k, d, f) && MatchAt(e, i) == Some(StatedBound(e, k, d, f))
  {
    hide SkipSpace, DigitsEnd, Number, Power10, PatternSpace, Digit;
    j := SkipSpace(e, i + 5);
    k := SkipSpace(e, j + 2);
    d := DigitsEnd(e, k);
    SkipSpaceIs(e, i + 5);
    SkipSpaceIs(e, j + 2);
    DigitsEndIs(e, k);
    f := d;
    if At(e, d, ".") {
      assert e[d] == e[d..d + 1][0];
      DigitsEndIs(e, d + 1);
      if DigitsEnd(e, d + 1) > d + 1 {
        f := DigitsEnd(e, d + 1);
      }
    } else if d < |e| {
      assert e[d..d + 1] == [e[d]];
    }
  }

  /** Where a bound is stated there is a match. */
  lemma {:induction false} StatedMatches(e: string, i: nat, j: nat, k: nat, d: nat, f: nat)
    requires StatesBound(e, i, j, k, d, f)
    ensures MatchAt(e, i).Some?
  {
    SkipSpaceIs(e, i + 5);
    assert e[j] == e[j..j + 2][0];
    SkipsTo(e, i + 5, j);
    SkipSpaceIs(e, j + 2);
    SkipsTo(e, j + 2, k);
    DigitsEndIs(e, k);
  }

  lemma {:induction false} SkipsTo(e: string, i: nat, j: nat)
    requires i <= j < |e| && (forall n :: i <= n < j ==> PatternSpace(e[n])) && !PatternSpace(e[j])
    ensures SkipSpace(e, i) == j
    decreases j - i
  {
    if i < j {
      SkipsTo(e, i + 1, j);
    }
  }

  /** The leftmost stated bound is the one that is read; without any, an expression with `score <` has the bound 0, and no
      other has one. */
  lemma {:induction false} LowerBoundIs(e: string)
    ensures (forall i :: 0 <= i <= |e| ==> MatchAt(e, i).None?) ==>
              LowerBound(e) == if exists i: nat :: SaysBelow(e, i) then Some(0.0) else None
    ensures forall i :: 0 <= i <= |e| && MatchAt(e, i).Some? && (forall j :: 0 <= j < i ==> MatchAt(e, j).None?) ==>
                          LowerBound(e) == MatchAt(e, i)
  {
    hide MatchAt;
    FindMatchIs(e, 0);
    if Contains(e, "score <") {
      var i :| 0 <= i <= |e| && At(e, i, "score <");
      assert SaysBelow(e, i);
    }
    if i: nat :| SaysBelow(e, i) {
      assert At(e, i, "score <");
    }
  }

  predicate SaysBelow(e: string, i: nat) {
    i + 7 <= |e| && e[i..i + 7] == "score <"
  }

  lemma {:induction false} FindMatchIs(e: string, i: nat)
    requires i <= |e|
    ensures (forall k :: i <= k <= |e| ==> MatchAt(e, k).None?) ==> FindMatch(e, i) == None
    ensures forall k :: i <= k <= |e| && MatchAt(e, k).Some? && (forall j :: i <= j < k ==> MatchAt(e, j).None?) ==>
                          FindMatch(e, i) == MatchAt(e, k)
    decreases |e| - i
  {
    hide MatchAt;
    if i < |e| {
      FindMatchIs(e, i + 1);
    }
  }

  // ---------------------------------------------------------------- choosing a tier

  datatype Threshold = Threshold(name: string, tier: string, min: real)

  /** The list in descending order of its bounds, equal bounds in any order. */
  function Descending(list: seq<Threshold>): (r: seq<Threshold>)
    ensures forall x :: x in r <==> x in list
    ensures forall i, j :: 0 <= i < j < |r| ==> r[i].min >= r[j].min
  {
    if list == [] then [] else Place(list[0], Descending(list[1..]))
  }

  function Place(x: Threshold, s: seq<Threshold>): (r: seq<Threshold>)
    requires forall i, j :: 0 <= i < j < |s| ==> s[i].min >= s[j].min
    ensures forall y :: y in r <==> y == x || y in s
    ensures forall i, j :: 0 <= i < j < |r| ==> r[i].min >= r[j].min
  {
    if s == [] || x.min >= s[0].min then [x] + s
    else
      var rest := Place(x, s[1..]);
      assert forall y :: y in rest ==> s[0].min >= y.min by {
        forall y | y in rest
          ensures s[0].min >= y.min
        {
          if y != x {
            var k :| 0 <= k < |s[1..]| && s[1..][k] == y;
            assert y == s[k + 1];
          }
        }
      }
      [s[0]] + rest
  }

  predicate Reached(thresholds: map<string, string>, score: real, name: string) {
    && name in thresholds
    && LowerBound(thresholds[name]).Some?
    && LowerBound(thresholds[name]).value <= score
  }

  /** The tier of a highest reached threshold, or unknown when none is reached. */
  ghost predicate TierIs(thresholds: map<string, string>, score: real, tier: string) {
    if exists name :: Reached(thresholds, score, name) then
      exists best ::
        && Reached(thresholds, score, best) && tier == NormalizeTier(best)
        && forall name :: Reached(thresholds, score, name) ==>
             LowerBound(thresholds[name]).value <= LowerBound(thresholds[best]).value
    else tier == UNKNOWN
  }

  /** tierForScore: collect in any map order, sort, take the first bound reached. */
  method TierForScore(thresholds: map<string, string>, score: real) returns (tier: string)
    ensures TierIs(thresholds, score, tier)
  {
    hide LowerBound, NormalizeTier;
    var list: seq<Threshold> := [];
    var todo := thresholds.Keys;
    while todo != {}
      invariant todo <= thresholds.Keys
      invariant forall x :: x in list ==> Collected(thresholds, x)
      invariant forall name :: name in thresholds && name !in todo && LowerBound(thresholds[name]).Some? ==>
                  Threshold(name, NormalizeTier(name), LowerBound(thresholds[name]).value) in list
    {
      var name :| name in todo;
      var min := LowerBound(thresholds[name]);
      if min.Some? {
        list := list + [Threshold(name, NormalizeTier(name), min.value)];
      }
      todo := todo - {name};
    }
    var sorted := Descending(list);
    for i := 0 to |sorted|
      invariant forall j :: 0 <= j < i ==> score < sorted[j].min
    {
      if score >= sorted[i].min {
        FirstReachedIsBest(thresholds, score, list, sorted, i);
        return sorted[i].tier;
      }
    }
    assert forall name :: !Reached(thresholds, score, name) by {
      forall name
        ensures !Reached(thresholds, score, name)
      {
        if Reached(thresholds, score, name) {
          ReachedIsListed(thresholds, score, name, list, sorted);
        }
      }
    }
    return UNKNOWN;
  }

  ghost predicate Collected(thresholds: map<string, string>, x: Threshold) {
    x.name in thresholds && x.tier == NormalizeTier(x.name) && LowerBound(thresholds[x.name]) == Some(x.min)
  }

  lemma {:induction false} ReachedIsListed(
    thresholds: map<string, string>, score: real, name: string, list: seq<Threshold>, sorted: seq<Threshold>)
    requires Reached(thresholds, score, name) && forall x :: x in sorted <==> x in list
    requires Threshold(name, NormalizeTier(name), LowerBound(thresholds[name]).value) in list
    ensures exists j :: 0 <= j < |sorted| && sorted[j].min <= score
  {
  }

  lemma {:induction false} FirstReachedIsBest(
    thresholds: map<string, string>, score: real, list: seq<Threshold>, sorted: seq<Threshold>, i: nat)
    requires i < |sorted| && score >= sorted[i].min
    requires forall j :: 0 <= j < i ==> score < sorted[j].min
    requires forall j, k :: 0 <= j < k < |sorted| ==> sorted[j].min >= sorted[k].min
    requires forall x :: x in sorted ==> Collected(thresholds, x)
    requires forall name :: name in thresholds && LowerBound(thresholds[name]).Some? ==>
               Threshold(name, NormalizeTier(name), LowerBound(thresholds[name]).value) in sorted
    ensures TierIs(thresholds, score, sorted[i].tier)
  {
    hide LowerBound, NormalizeTier;
    assert Collected(thresholds, sorted[i]);
    var best := sorted[i].name;
    assert Reached(thresholds, score, best);
    forall name | Reached(thresholds, score, name)
      ensures LowerBound(thresholds[name]).value <= LowerBound(thresholds[best]).value
    {
      var x := Threshold(name, NormalizeTier(name), LowerBound(thresholds[name]).value);
      assert x in sorted;
      var k :| 0 <= k < |sorted| && sorted[k] == x;
      assert k >= i;
    }
  }

  // ---------------------------------------------------------------- the local recipe

  const LOCAL_THRESHOLDS: map<string, string> :=
    map["low" := "score < 30",
        "medium" := "score >= 30 && score < 70",
        "high" := "score >= 70 && score < 90",
        "critical" := "score >= 90"]

  lemma {:induction false} BoundOf(e: string, d: nat)
    requires At(e, 0, "score >= ") && 11 <= |e| && Digit(e[9]) && Digit(e[10]) && (|e| == 11 || e[11] == ' ')
    requires d == 10 * (e[9] as int - 48) + (e[10] as int - 48)
    ensures LowerBound(e) == Some(d as real)
  {
    assert e[0..9] == "score >= ";
    assert e[0..5] == e[0..9][0..5] == "score";
    assert e[5] == e[0..9][5] && e[6] == e[0..9][6] && e[7] == e[0..9][7] && e[8] == e[0..9][8];
    assert SkipSpace(e, 5) == 6;
    assert e[6..8] == ">=";
    assert SkipSpace(e, 8) == 9;
    assert DigitsEnd(e, 11) == 11;
    assert DigitsEnd(e, 9) == 11;
    assert Number(e, 9, 10) == e[9] as int - 48;
    assert Number(e, 9, 11) == d;
    assert !At(e, 11, ".");
    assert MatchAt(e, 0) == Some(d as real);
  }

  lemma {:induction false} LocalBounds()
    ensures LowerBound(LOCAL_THRESHOLDS["low"]) == Some(0.0)
    ensures LowerBound(LOCAL_THRESHOLDS["medium"]) == Some(30.0)
    ensures LowerBound(LOCAL_THRESHOLDS["high"]) == Some(70.0)
    ensures LowerBound(LOCAL_THRESHOLDS["critical"]) == Some(90.0)
  {
    hide LowerBound;
    LowIsZero();
    MediumIsThirty();
    HighIsSeventy();
    CriticalIsNinety();
  }

  lemma {:induction false} LowIsZero()
    ensures LowerBound("score < 30") == Some(0.0)
  {
    var low := "score < 30";
    NoMatchWithoutAngle(low, 0);
    assert low[0..7] == "score <";
    assert At(low, 0, "score <");
  }

  lemma {:induction false} MediumIsThirty()
    ensures LowerBound("score >= 30 && score < 70") == Some(30.0)
  {
    hide LowerBound;
    var e := "score >= 30 && score < 70";
    assert e[0..9] == "score >= ";
    BoundOf(e, 30);
  }

  lemma {:induction false} HighIsSeventy()
    ensures LowerBound("score >= 70 && score < 90") == Some(70.0)
  {
    hide LowerBound;
    var e := "score >= 70 && score < 90";
    assert e[0..9] == "score >= ";
    BoundOf(e, 70);
  }

  lemma {:induction false} CriticalIsNinety()
    ensures LowerBound("score >= 90") == Some(90.0)
  {
    hide LowerBound;
    var e := "score >= 90";
    assert e[0..9] == "score >= ";
    BoundOf(e, 90);
  }

  function LocalTier(score: real): string {
    if score >= 90.0 then CRITICAL else if score >= 70.0 then HIGH else if score >= 30.0 then MEDIUM
    else if score >= 0.0 then LOW else UNKNOWN
  }

  lemma {:induction false} CanonicalTiers()
    ensures NormalizeTier(LOW) == LOW && NormalizeTier(MEDIUM) == MEDIUM && NormalizeTier(HIGH) == HIGH
    ensures NormalizeTier(CRITICAL) == CRITICAL && NormalizeTier(UNKNOWN) == UNKNOWN
  {
  }

  /** Every tier text is read as one of the five tiers: its own name, with or without the prefix and blanks, or unknown. */
  lemma {:induction false} NormalizeTierIs(tier: string)
    ensures
      var t := TrimSpace(tier);
      NormalizeTier(tier) == if t in {"low", "medium", "high", "critical"} then t
                             else if t == "risk_tier." + "low" then "low" else if t == "risk_tier." + "medium" then "medium"
                             else if t == "risk_tier." + "high" then "high"
                             else if t == "risk_tier." + "critical" then "critical" else "unknown"
  {
    hide TrimSpace;
    var t := TrimSpace(tier);
    var prefix := "risk_tier.";
    assert prefix[4] == '_' && !(prefix <= "low") && !(prefix <= "medium") && !(prefix <= "high") && !(prefix <= "critical") by {
      assert prefix[0] == 'r' && "low"[0] == 'l' && "medium"[0] == 'm' && "high"[0] == 'h' && "critical"[0] == 'c';
    }
    if prefix <= t {
      assert t == prefix + t[|prefix|..];
    }
  }

  /** A risk type loses its prefix and blanks. */
  lemma {:induction false} NormalizeTypeIs(riskType: string, rest: string)
    requires TrimSpace(riskType) == "risk_type." + rest
    ensures NormalizeType(riskType) == rest
  {
    hide TrimSpace;
    assert "risk_type." <= TrimSpace(riskType);
  }

  /** Under the local recipe the tier is fixed by the score, whatever order the map and the sort produced. */
  lemma {:induction false} LocalTierUnique(score: real, tier: string)
    requires TierIs(LOCAL_THRESHOLDS, score, tier)
    ensures tier == LocalTier(score)
  {
    hide LowerBound, NormalizeTier;
    LocalBounds();
    CanonicalTiers();
    assert Reached(LOCAL_THRESHOLDS, score, "low") <==> score >= 0.0;
    assert Reached(LOCAL_THRESHOLDS, score, "medium") <==> score >= 30.0;
    assert Reached(LOCAL_THRESHOLDS, score, "high") <==> score >= 70.0;
    assert Reached(LOCAL_THRESHOLDS, score, "critical") <==> score >= 90.0;
  }

  // ---------------------------------------------------------------- scores

  /** deviationScore. */
  function DeviationScore(score: real): real {
    var scaled := score * 25.0;
    if scaled > 100.0 then 100.0 else if scaled < 0.0 then 0.0 else scaled
  }

  /** A score is 25 times the spreads, between 0 and 100. */
  lemma {:induction false} DeviationScoreIs(score: real)
    ensures 0.0 <= DeviationScore(score) <= 100.0
    ensures 0.0 <= score <= 4.0 ==> DeviationScore(score) == 25.0 * score
    ensures score >= 4.0 ==> DeviationScore(score) == 100.0
    ensures score <= 0.0 ==> DeviationScore(score) == 0.0
  {
  }

  /** Every deviation that the baseline emits scores from 75 to 100 and is high, or critical from 3.6 spreads on. */
  lemma {:induction false} EmittedTier(value: real, e: Estimate, tier: string)
    requires EvaluateSample(value, e).Some?
    requires TierIs(LOCAL_THRESHOLDS, DeviationScore(EvaluateSample(value, e).value), tier)
    ensures 75.0 <= DeviationScore(EvaluateSample(value, e).value) <= 100.0
    ensures tier == if EvaluateSample(value, e).value >= 3.6 then CRITICAL else HIGH
  {
    hide TierIs;
    LocalTierUnique(DeviationScore(EvaluateSample(value, e).value), tier);
  }

  // ---------------------------------------------------------------- the risk cache

  datatype RiskContext = RiskContext(
    riskType: string, tier: string, score: Option<real>, confidence: real, reasons: seq<string>, source: string,
    scope: string, evaluatedAt: Time, validUntil: Time)

  datatype CacheKey = CacheKey(riskType: string, scope: string)

  type Cache = map<CacheKey, RiskContext>

  function UnknownContext(riskType: string, scope: string, source: string, now: Time, reason: string): RiskContext {
    RiskContext(NormalizeType(riskType), UNKNOWN, None, 0.0, [reason], TrimSpace(source), TrimSpace(scope), now, now)
  }

  /** ValidateContext at a clock reading; a stale context is invalid unless its tier is unknown. */
  predicate ValidContext(c: RiskContext, now: Time) {
    && !Blank(c.riskType) && !Blank(c.scope) && NormalizeTier(c.tier) == c.tier
    && c.evaluatedAt != ZERO_TIME && c.validUntil != ZERO_TIME
    && (c.validUntil > now || c.tier == UNKNOWN)
  }

  /** The key a save writes to. */
  function SaveKey(key: CacheKey, c: RiskContext): CacheKey {
    var t := NormalizeType(key.riskType);
    CacheKey(if t == "" then NormalizeType(c.riskType) else t, if key.scope == "" then c.scope else key.scope)
  }

  /** SaveRiskContext; `clock` is the wall clock its validation reads. */
  function SaveRisk(cache: Cache, key: CacheKey, c: RiskContext, clock: Time): Option<Cache> {
    if !ValidContext(c, clock) && c.tier != UNKNOWN then None else Some(cache[SaveKey(key, c) := c])
  }

  function ReadKey(key: CacheKey): CacheKey {
    CacheKey(NormalizeType(key.riskType), if key.scope == "" then SCOPE_LOCAL else key.scope)
  }

  /** RiskContext: a missing or invalid entry reads as unknown. */
  function ReadRisk(cache: Cache, key: CacheKey, now: Time): RiskContext {
    var k := ReadKey(key);
    if k !in cache then UnknownContext(k.riskType, k.scope, "risk_cache", now, "risk context missing")
    else if !ValidContext(cache[k], now) then
      UnknownContext(k.riskType, k.scope, "risk_cache", now, "risk context invalid")
    else cache[k]
  }

  class RiskCache {
    var rows: Cache

    constructor ()
      ensures rows == map[]
    {
      rows := map[];
    }

    method SaveRiskContext(key: CacheKey, c: RiskContext, clock: Time) returns (ok: bool)
      modifies this
      ensures ok == SaveRisk(old(rows), key, c, clock).Some?
      ensures rows == if ok then SaveRisk(old(rows), key, c, clock).value else old(rows)
    {
      if !ValidContext(c, clock) && c.tier != UNKNOWN { return false; }
      rows := rows[SaveKey(key, c) := c];
      return true;
    }

    method ReadRiskContext(key: CacheKey, now: Time) returns (c: RiskContext)
      ensures c == ReadRisk(rows, key, now)
      ensures c.tier != UNKNOWN ==> ReadKey(key) in rows && c == rows[ReadKey(key)] && now < c.validUntil
    {
      var k := ReadKey(key);
      if k !in rows { return UnknownContext(k.riskType, k.scope, "risk_cache", now, "risk context missing"); }
      if !ValidContext(rows[k], now) {
        return UnknownContext(k.riskType, k.scope, "risk_cache", now, "risk context invalid");
      }
      return rows[k];
    }
  }

  const RISK_TYPE: string := "runtime_anomaly"
  const LOCAL_KEY: CacheKey := CacheKey(RISK_TYPE, SCOPE_LOCAL)
  const MAX_AGE: int := 2 * MINUTE
  const EVENT_CONFIDENCE: real := 0.80
  const MINIMUM_CONFIDENCE: real := 0.70
  const EVENT_REASON: string := "sample exceeds frozen baseline by Median+MAD threshold"

  /** The context EvaluateDeviation builds under the local recipe. */
  function DeviationContext(score: real, tier: string, now: Time): RiskContext {
    RiskContext(RISK_TYPE, tier, Some(score), EVENT_CONFIDENCE, [EVENT_REASON], "baseline.local", SCOPE_LOCAL, now,
                now + MAX_AGE)
  }

  /** EvaluateDeviation under the local recipe. `now` is the evaluator's clock, `clock` the later one of the save. */
  method EvaluateDeviation(cache: RiskCache, score: real, now: Time, clock: Time)
    returns (ok: bool, c: RiskContext)
    modifies cache
    ensures c == DeviationContext(DeviationScore(score), LocalTier(DeviationScore(score)), now)
    ensures ok == SaveRisk(old(cache.rows), LOCAL_KEY, c, clock).Some?
    ensures cache.rows == if ok then SaveRisk(old(cache.rows), LOCAL_KEY, c, clock).value else old(cache.rows)
  {
    var scaled := DeviationScore(score);
    var tier := TierForScore(LOCAL_THRESHOLDS, scaled);
    LocalTierUnique(scaled, tier);
    c := DeviationContext(scaled, tier, now);
    if EVENT_CONFIDENCE < MINIMUM_CONFIDENCE {
      c := UnknownContext(RISK_TYPE, SCOPE_LOCAL, "baseline.local", now, "risk confidence below recipe minimum");
    }
    ok := cache.SaveRiskContext(LOCAL_KEY, c, clock);
  }

  /** A context is saved exactly when its tier is unknown, or it names a type, a scope and a known tier in normal form, with
      both times, and is still valid; it is saved under the given type and scope, or its own where none is given. */
  lemma {:induction false} SaveAcceptedIff(cache: Cache, key: CacheKey, c: RiskContext, clock: Time)
    ensures SaveRisk(cache, key, c, clock).Some?
            <==> || c.tier == "unknown"
                 || (&& !Blank(c.riskType) && !Blank(c.scope) && c.tier in {"low", "medium", "high", "critical"}
                     && c.evaluatedAt != ZERO_TIME && c.validUntil != ZERO_TIME && clock < c.validUntil)
    ensures SaveRisk(cache, key, c, clock).Some? ==>
              var t := if NormalizeType(key.riskType) == "" then NormalizeType(c.riskType) else NormalizeType(key.riskType);
              SaveRisk(cache, key, c, clock).value == cache[CacheKey(t, if key.scope == "" then c.scope else key.scope) := c]
  {
    hide Blank, NormalizeType, NormalizeTier;
    NormalIff(c.tier);
  }

  lemma {:induction false} NormalIff(tier: string)
    ensures NormalizeTier(tier) == tier <==> tier in {"low", "medium", "high", "critical", "unknown"}
  {
    CanonicalTiers();
  }

  /** A read looks under the normalised type and the given scope, the local one if none is given; it returns the row there if
      that is still a valid context, and otherwise an unknown context of that key that says why. */
  lemma {:induction false} ReadRiskIs(cache: Cache, key: CacheKey, now: Time)
    ensures
      var k := CacheKey(NormalizeType(key.riskType), if key.scope == "" then "local" else key.scope);
      var read := ReadRisk(cache, key, now);
      && (k !in cache ==> read == UnknownContext(k.riskType, k.scope, "risk_cache", now, "risk context missing"))
      && (k in cache && ValidContext(cache[k], now) ==> read == cache[k])
      && (k in cache && !ValidContext(cache[k], now) ==>
            read == UnknownContext(k.riskType, k.scope, "risk_cache", now, "risk context invalid"))
  {
  }

  lemma {:induction false} ValidContextIff(c: RiskContext, now: Time)
    ensures ValidContext(c, now)
            <==> && !Blank(c.riskType) && !Blank(c.scope) && c.evaluatedAt != ZERO_TIME && c.validUntil != ZERO_TIME
                 && (c.tier == "unknown" || (c.tier in {"low", "medium", "high", "critical"} && now < c.validUntil))
  {
    hide Blank, NormalizeTier;
    NormalIff(c.tier);
  }

  /** An unknown context has no score and no confidence, and is evaluated and ends now. */
  lemma {:induction false} UnknownContextIs(riskType: string, scope: string, source: string, now: Time, reason: string)
    ensures UnknownContext(riskType, scope, source, now, reason)
            == RiskContext(NormalizeType(riskType), "unknown", None, 0.0, [reason], TrimSpace(source), TrimSpace(scope), now, now)
  {
  }

  /** The context of a deviation: its score and tier, the confidence and reason of the event, valid for two minutes. */
  lemma {:induction false} DeviationContextIs(score: real, tier: string, now: Time)
    ensures DeviationContext(score, tier, now)
            == RiskContext("runtime_anomaly", tier, Some(score), 0.80,
                           ["sample exceeds frozen baseline by Median+MAD threshold"], "baseline.local", "local", now,
                           now + 120_000_000_000)
  {
  }

  datatype Write = Write(key: CacheKey, context: RiskContext, clock: Time)

  function WriteAll(cache: Cache, writes: seq<Write>): Cache {
    if writes == [] then cache
    else
      var w := writes[|writes| - 1];
      var rest := WriteAll(cache, writes[..|writes| - 1]);
      match SaveRisk(rest, w.key, w.context, w.clock)
      case None => rest
      case Some(after) => after
  }

  lemma {:induction false} OtherWritesKeep(cache: Cache, writes: seq<Write>, k: CacheKey)
    requires k in cache
    requires forall i :: 0 <= i < |writes| ==> SaveKey(writes[i].key, writes[i].context) != k
    ensures k in WriteAll(cache, writes) && WriteAll(cache, writes)[k] == cache[k]
  {
    if writes != [] {
      OtherWritesKeep(cache, writes[..|writes| - 1], k);
    }
  }

  lemma {:induction false} LocalKeyFixed(c: RiskContext)
    ensures SaveKey(LOCAL_KEY, c) == LOCAL_KEY && ReadKey(LOCAL_KEY) == LOCAL_KEY
    ensures !Blank(RISK_TYPE) && !Blank(SCOPE_LOCAL)
  {
    assert TrimSpace(RISK_TYPE) == RISK_TYPE;
    assert RISK_TYPE[1] != "risk_type."[1];
    assert NormalizeType(RISK_TYPE) == RISK_TYPE;
  }

  /** A deviation is saved exactly when the save still finds it fresh; then it is read back with its tier until two
      minutes after its evaluation, and as unknown from then on, whatever is written under other keys meanwhile. */
  lemma {:induction false} CachedUntilStale(
    cache: Cache, value: real, e: Estimate, now: Time, clock: Time, writes: seq<Write>, readAt: Time)
    requires EvaluateSample(value, e).Some? && now > ZERO_TIME
    requires forall i :: 0 <= i < |writes| ==> SaveKey(writes[i].key, writes[i].context) != LOCAL_KEY
    ensures
      var score := DeviationScore(EvaluateSample(value, e).value);
      var saved := SaveRisk(cache, LOCAL_KEY, DeviationContext(score, LocalTier(score), now), clock);
      && (saved.Some? <==> clock < now + MAX_AGE)
      && (saved.Some? ==>
            var read := ReadRisk(WriteAll(saved.value, writes), LOCAL_KEY, readAt);
            if readAt < now + MAX_AGE
            then read == DeviationContext(score, LocalTier(score), now) && read.tier in {HIGH, CRITICAL}
            else read.tier == UNKNOWN)
  {
    hide ValidContext, SaveKey, ReadKey, EvaluateSample, DeviationContext, DeviationScore, WriteAll;
    var score := DeviationScore(EvaluateSample(value, e).value);
    var c := DeviationContext(score, LocalTier(score), now);
    EmittedScore(value, e);
    LocalKeyFixed(c);
    FreshIff(score, LocalTier(score), now, clock);
    FreshIff(score, LocalTier(score), now, readAt);
    var saved := SaveRisk(cache, LOCAL_KEY, c, clock);
    if saved.Some? {
      OtherWritesKeep(saved.value, writes, LOCAL_KEY);
    }
  }

  lemma {:induction false} FreshIff(score: real, tier: string, now: Time, at: Time)
    requires tier in {HIGH, CRITICAL} && now > ZERO_TIME
    ensures var c := DeviationContext(score, tier, now);
            c.tier == tier && (ValidContext(c, at) <==> at < now + MAX_AGE)
  {
  }

  lemma {:induction false} EmittedScore(value: real, e: Estimate)
    requires EvaluateSample(value, e).Some?
    ensures 75.0 <= DeviationScore(EvaluateSample(value, e).value) <= 100.0
  {
  }
}
