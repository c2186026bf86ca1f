/** Uploading the audit spool with retries (flushAuditSpool and auditRetryDue in cmd/kliq/run.go, with the marking
    methods of internal/kliq/actionstate/sqlite.go), and what every run of appends and flushes keeps.

    A state carries, beside the table, the rows as they were inserted and every upload attempt made so far.
 */
module AuditFlush {
  import opened Basics
  import opened AuditChain

  const PENDING: string := "pending_upload"
  const UPLOADED: string := "uploaded"
  const ACCEPTED: string := "accepted"

  /** What the network answered: an error, or an acknowledgement. */
  datatype Response = PostFailed(message: string) | Ack(status: string, recordId: string, ackId: string)

  /** The clock readings and the answer met while one record is handled. */
  datatype Turn = Turn(dueClock: Time, uploadClock: Time, response: Response)

  datatype Attempt = Attempt(id: string, at: Time, response: Response)

  datatype State = State(rows: Rows, log: Rows, attempts: seq<Attempt>)

  predicate Accepts(r: Response, id: string) {
    r.Ack? && r.status == ACCEPTED && r.recordId == id && r.ackId != ""
  }

  function FailureMessage(r: Response): string {
    if r.PostFailed? then r.message else "forge audit upload acknowledgement invalid"
  }

  // ---------------------------------------------------------------- back-off

  function Pow2(n: nat): (p: nat)
    ensures p >= 1
  {
    if n == 0 then 1 else 2 * Pow2(n - 1)
  }

  function Min(a: int, b: int): int { if a < b then a else b }

  /** The wait before the next attempt of a record that failed `retries` times. */
  function Backoff(retries: nat): int
    requires retries >= 1
  {
    var wait := SECOND * Pow2(Min(retries - 1, 8));
    if wait > 5 * MINUTE then 5 * MINUTE else wait
  }

  predicate RetryDue(r: AuditRecord, now: Time) {
    r.retryCount == 0 || r.lastAttemptAt == ZERO_TIME || now >= r.lastAttemptAt + Backoff(r.retryCount)
  }

  lemma {:induction false} Pow2Monotone(m: nat, n: nat)
    requires m <= n
    ensures Pow2(m) <= Pow2(n)
  {
    if m < n {
      Pow2Monotone(m, n - 1);
    }
  }

  /** The five-minute cap is never reached: the wait is min(2^(retries-1), 256) seconds. */
  lemma {:induction false} BackoffValue(retries: nat)
    requires retries >= 1
    ensures Backoff(retries) == SECOND * Min(Pow2(retries - 1), 256)
  {
    assert Pow2(4) == 16;
    assert Pow2(8) == 16 * Pow2(4);
    if retries - 1 <= 8 {
      Pow2Monotone(retries - 1, 8);
    } else {
      Pow2Monotone(8, retries - 1);
    }
  }

  // ---------------------------------------------------------------- marking rows

  /** The two UPDATE statements, MarkAuditUploaded and MarkAuditFailed. */
  datatype Mark = Upload(at: Time) | Failure(at: Time, message: string)

  function Marked(r: AuditRecord, m: Mark): AuditRecord {
    match m
    case Upload(at) => r.(status := UPLOADED, uploadedAt := at, lastAttemptAt := at, lastError := "")
    case Failure(at, message) =>
      r.(status := PENDING, retryCount := r.retryCount + 1, lastAttemptAt := at, lastError := message)
  }

  /** The UPDATE of the rows with `WHERE id = ?`. */
  function MarkRows(rows: Rows, id: string, m: Mark): (marked: Rows)
    ensures |marked| == |rows|
    ensures forall i :: 0 <= i < |rows| ==> marked[i] == if rows[i].id == id then Marked(rows[i], m) else rows[i]
  {
    seq(|rows|, i requires 0 <= i < |rows| => if rows[i].id == id then Marked(rows[i], m) else rows[i])
  }

  /** What the daemon does with an answer: only an accepting acknowledgement that names the record uploads it. */
  function MarkFor(a: Attempt): Mark {
    if Accepts(a.response, a.id) then Upload(a.at) else Failure(a.at, FailureMessage(a.response))
  }

  /** One record of a flush. */
  function Handle(st: State, r: AuditRecord, turn: Turn): State {
    if !RetryDue(r, turn.dueClock) then st
    else
      var a := Attempt(r.id, turn.uploadClock, turn.response);
      st.(rows := MarkRows(st.rows, r.id, MarkFor(a)), attempts := st.attempts + [a])
  }

  function Flush(st: State, records: Rows, turns: seq<Turn>): State
    requires |records| == |turns|
  {
    if records == [] then st
    else
      var last := |records| - 1;
      Handle(Flush(st, records[..last], turns[..last]), records[last], turns[last])
  }

  function AppendStep(hash: HashFn, st: State, a: Append): State {
    st.(rows := AppendRow(hash, st.rows, a.record, a.now), log := AppendRow(hash, st.log, a.record, a.now))
  }

  /** The digest AppendAudit compares and stores. */
  function PayloadDigest(hash: HashFn, r: AuditRecord): string {
    if Blank(r.payloadSha) then DigestText(hash, r.payload) else r.payloadSha
  }

  // ---------------------------------------------------------------- the store and the daemon

  datatype AppendOutcome = Appended | AlreadyThere | Conflict

  class AuditSpool {
    var rows: Rows
    ghost var log: Rows
    ghost var attempts: seq<Attempt>

    constructor ()
      ensures Abstract() == State([], [], [])
    {
      rows, log, attempts := [], [], [];
    }

    ghost function Abstract(): State
      reads this
    {
      State(rows, log, attempts)
    }

    method Find(id: string) returns (index: Option<nat>)
      ensures index.None? <==> !HasId(rows, id)
      ensures index.Some? ==> index.value < |rows| && rows[index.value].id == id
    {
      for i := 0 to |rows|
        invariant forall j :: 0 <= j < i ==> rows[j].id != id
      {
        if rows[i].id == id { return Some(i); }
      }
      return None;
    }

    method AppendAudit(hash: HashFn, record: AuditRecord, now: string) returns (outcome: AppendOutcome)
      requires DistinctIds(rows)
      modifies this
      ensures DistinctIds(rows) && rows == AppendRow(hash, old(rows), record, now)
      ensures log == old(log) + rows[|old(rows)|..] && attempts == old(attempts)
      ensures outcome.Appended? <==> !HasId(old(rows), record.id)
      ensures outcome.Conflict? <==>
              exists i :: 0 <= i < |old(rows)| && old(rows)[i].id == record.id
                          && old(rows)[i].payloadSha != PayloadDigest(hash, record)
    {
      var r := record.(payloadSha := PayloadDigest(hash, record));
      var at := Find(r.id);
      if at.Some? {
        return if rows[at.value].payloadSha == r.payloadSha then AlreadyThere else Conflict;
      }
      if r.createdAt == "" { r := r.(createdAt := now); }
      if r.previousHash == "" { r := r.(previousHash := LatestHash(rows)); }
      if r.recordHash == "" { r := r.(recordHash := RecordHash(hash, r)); }
      rows := rows + [r];
      log := log + [r];
      return Appended;
    }

    method MarkAuditUploaded(id: string, uploadedAt: Time)
      modifies this`rows
      ensures rows == MarkRows(old(rows), id, Upload(uploadedAt))
    {
      rows := MarkRows(rows, id, Upload(uploadedAt));
    }

    method MarkAuditFailed(id: string, attemptedAt: Time, message: string)
      modifies this`rows
      ensures rows == MarkRows(old(rows), id, Failure(attemptedAt, message))
    {
      rows := MarkRows(rows, id, Failure(attemptedAt, message));
    }
  }

  /** The answer of PendingAudits: the pending rows, ordered by created_at. */
  predicate PendingScan(rows: Rows, records: Rows) {
    && DistinctIds(records)
    && (forall i :: 0 <= i < |records| ==> records[i] in rows && records[i].status == PENDING)
    && (forall i :: 0 <= i < |rows| && rows[i].status == PENDING ==> rows[i] in records)
    && (forall i, j :: 0 <= i < j < |records| ==> !TextLess(records[j].createdAt, records[i].createdAt))
  }

  /** flushAuditSpool over the pending records. Outside managed mode nothing is uploaded. */
  method FlushAuditSpool(spool: AuditSpool, managed: bool, records: Rows, turns: seq<Turn>)
    requires |records| == |turns| && PendingScan(spool.rows, records)
    modifies spool
    ensures spool.Abstract() == if managed then Flush(old(spool.Abstract()), records, turns) else old(spool.Abstract())
  {
    if !managed { return; }
    ghost var start := spool.Abstract();
    for i := 0 to |records|
      invariant spool.Abstract() == Flush(start, records[..i], turns[..i])
    {
      assert records[..i + 1][..i] == records[..i] && turns[..i + 1][..i] == turns[..i];
      var r := records[i];
      if RetryDue(r, turns[i].dueClock) {
        var uploadedAt, answer := turns[i].uploadClock, turns[i].response;
        if answer.PostFailed? {
          spool.MarkAuditFailed(r.id, uploadedAt, answer.message);
        } else if answer.status != ACCEPTED || answer.recordId != r.id || answer.ackId == "" {
          spool.MarkAuditFailed(r.id, uploadedAt, "forge audit upload acknowledgement invalid");
        } else {
          spool.MarkAuditUploaded(r.id, uploadedAt);
        }
        spool.attempts := spool.attempts + [Attempt(r.id, uploadedAt, answer)];
      }
    }
    assert records[..|records|] == records && turns[..|turns|] == turns;
  }

  // ---------------------------------------------------------------- what a row owes to its attempts

  /** The attempts made for one record, oldest first. */
  function AttemptsOf(attempts: seq<Attempt>, id: string): (mine: seq<Attempt>)
    ensures forall k :: 0 <= k < |mine| ==> mine[k].id == id && mine[k] in attempts
  {
    if attempts == [] then []
    else
      var last := |attempts| - 1;
      AttemptsOf(attempts[..last], id) + if attempts[last].id == id then [attempts[last]] else []
  }

  /** The k-th attempt was refused, and the next one waited for the k-th back-off. */
  predicate RefusedThenWaited(mine: seq<Attempt>, k: nat)
    requires k + 1 < |mine|
  {
    && !Accepts(mine[k].response, mine[k].id)
    && mine[k + 1].at >= mine[k].at + SECOND * Min(Pow2(k), 256)
  }

  predicate Delivered(mine: seq<Attempt>) {
    mine != [] && Accepts(mine[|mine| - 1].response, mine[|mine| - 1].id)
  }

  /** A row's delivery columns are what its attempts say: uploaded exactly when the last attempt was acknowledged, one
      retry counted for every refused attempt, attempts spaced by the back-off. */
  predicate Delivery(r: AuditRecord, mine: seq<Attempt>) {
    && (forall k :: 0 <= k < |mine| - 1 ==> RefusedThenWaited(mine, k))
    && (forall k :: 0 <= k < |mine| ==> mine[k].at != ZERO_TIME && mine[k].id == r.id)
    && r.status == (if Delivered(mine) then UPLOADED else PENDING)
    && r.retryCount == (if Delivered(mine) then |mine| - 1 else |mine|)
    && r.lastAttemptAt == (if mine == [] then ZERO_TIME else mine[|mine| - 1].at)
    && r.uploadedAt == (if Delivered(mine) then mine[|mine| - 1].at else ZERO_TIME)
    && (mine != [] ==> r.lastError == ErrorAfter(mine[|mine| - 1]))
  }

  /** What an attempt leaves as the last error: nothing on success, the network's message, or a fixed complaint. */
  function ErrorAfter(a: Attempt): string {
    match a.response
    case PostFailed(message) => message
    case Ack(_, _, _) => if Accepts(a.response, a.id) then "" else "forge audit upload acknowledgement invalid"
  }

  /** Everything but the delivery columns. */
  function Frozen(r: AuditRecord): AuditRecord {
    r.(status := "", retryCount := 0, lastAttemptAt := ZERO_TIME, uploadedAt := ZERO_TIME, lastError := "")
  }

  predicate Tracks(rows: Rows, log: Rows) {
    |rows| == |log| && forall i :: 0 <= i < |rows| ==> Frozen(rows[i]) == Frozen(log[i])
  }

  predicate Inv(st: State) {
    && DistinctIds(st.rows)
    && Tracks(st.rows, st.log)
    && (forall i :: 0 <= i < |st.log| ==> st.log[i].status == PENDING)
    && (forall i :: 0 <= i < |st.attempts| ==> HasId(st.rows, st.attempts[i].id))
    && (forall i :: 0 <= i < |st.rows| ==> Delivery(st.rows[i], AttemptsOf(st.attempts, st.rows[i].id)))
  }

  predicate ClockRuns(turn: Turn) {
    turn.dueClock <= turn.uploadClock && turn.uploadClock != ZERO_TIME
  }

  lemma {:induction false} AttemptsOfSnoc(attempts: seq<Attempt>, a: Attempt, id: string)
    ensures AttemptsOf(attempts + [a], id) == AttemptsOf(attempts, id) + if a.id == id then [a] else []
  {
  }

  /** One due attempt on a pending row keeps the row's account. */
  lemma {:induction false} AttemptKeepsDelivery(r: AuditRecord, mine: seq<Attempt>, turn: Turn)
    requires Delivery(r, mine) && r.status == PENDING && RetryDue(r, turn.dueClock) && ClockRuns(turn)
    ensures
      var a := Attempt(r.id, turn.uploadClock, turn.response);
      Delivery(Marked(r, MarkFor(a)), mine + [a])
  {
    hide RetryDue, RefusedThenWaited;
    var a := Attempt(r.id, turn.uploadClock, turn.response);
    var more := mine + [a];
    forall k | 0 <= k < |more| - 1
      ensures RefusedThenWaited(more, k)
    {
      WaitedBefore(r, mine, turn, k);
    }
  }

  lemma {:induction false} WaitedBefore(r: AuditRecord, mine: seq<Attempt>, turn: Turn, k: nat)
    requires Delivery(r, mine) && r.status == PENDING && RetryDue(r, turn.dueClock) && ClockRuns(turn) && k < |mine|
    ensures RefusedThenWaited(mine + [Attempt(r.id, turn.uploadClock, turn.response)], k)
  {
    var more := mine + [Attempt(r.id, turn.uploadClock, turn.response)];
    assert more[k] == mine[k];
    if k < |mine| - 1 {
      assert RefusedThenWaited(mine, k) && more[k + 1] == mine[k + 1];
    } else {
      BackoffValue(|mine|);
    }
  }

  lemma {:induction false} MarkKeepsFrozen(rows: Rows, id: string, m: Mark, log: Rows)
    requires Tracks(rows, log)
    ensures Tracks(MarkRows(rows, id, m), log)
    ensures forall i :: 0 <= i < |rows| ==> MarkRows(rows, id, m)[i].id == rows[i].id
  {
  }

  lemma {:induction false} SameIdsHave(rows: Rows, rows': Rows, id: string)
    requires HasId(rows, id) && |rows| <= |rows'|
    requires forall i :: 0 <= i < |rows| ==> rows'[i].id == rows[i].id
    ensures HasId(rows', id)
  {
  }

  lemma {:induction false} HandleKeepsInv(st: State, i: nat, turn: Turn)
    requires Inv(st) && i < |st.rows| && st.rows[i].status == PENDING && ClockRuns(turn)
    ensures Inv(Handle(st, st.rows[i], turn))
  {
    hide Delivery, Marked, Frozen, HasId, AttemptsOf;
    var r := st.rows[i];
    if RetryDue(r, turn.dueClock) {
      var st' := Handle(st, r, turn);
      var a := Attempt(r.id, turn.uploadClock, turn.response);
      MarkKeepsFrozen(st.rows, r.id, MarkFor(a), st.log);
      forall k | 0 <= k < |st'.rows|
        ensures Delivery(st'.rows[k], AttemptsOf(st'.attempts, st'.rows[k].id))
      {
        AttemptsOfSnoc(st.attempts, a, st.rows[k].id);
        if k == i {
          AttemptKeepsDelivery(r, AttemptsOf(st.attempts, r.id), turn);
        } else {
          assert AttemptsOf(st.attempts, st.rows[k].id) + [] == AttemptsOf(st.attempts, st.rows[k].id);
        }
      }
      forall k | 0 <= k < |st'.attempts|
        ensures HasId(st'.rows, st'.attempts[k].id)
      {
        if k == |st.attempts| {
          HasIdAt(st.rows, i);
        }
        SameIdsHave(st.rows, st'.rows, st'.attempts[k].id);
      }
    }
  }

  lemma {:induction false} HasIdAt(rows: Rows, i: nat)
    requires i < |rows|
    ensures HasId(rows, rows[i].id)
  {
  }

  // ---------------------------------------------------------------- whole flushes

  predicate Names(records: Rows, id: string) {
    exists k :: 0 <= k < |records| && records[k].id == id
  }

  /** A flush keeps every row in its place, and leaves rows it was not given as they are. */
  lemma {:induction false} FlushLeaves(st: State, records: Rows, turns: seq<Turn>, i: nat)
    requires |records| == |turns| && i < |st.rows|
    ensures
      var st' := Flush(st, records, turns);
      |st'.rows| == |st.rows| && st'.rows[i].id == st.rows[i].id && st'.log == st.log
      && (!Names(records, st.rows[i].id) ==> st'.rows[i] == st.rows[i])
  {
    if records != [] {
      var last := |records| - 1;
      FlushLeaves(st, records[..last], turns[..last], i);
      if !Names(records, st.rows[i].id) {
        assert records[last].id != st.rows[i].id;
        assert forall k :: 0 <= k < last ==> records[..last][k] == records[k];
        assert !Names(records[..last], st.rows[i].id);
      }
    }
  }

  lemma {:induction false} FlushKeepsInv(st: State, records: Rows, turns: seq<Turn>)
    requires Inv(st) && |records| == |turns| && DistinctIds(records)
    requires forall k :: 0 <= k < |records| ==> records[k] in st.rows && records[k].status == PENDING
    requires forall k :: 0 <= k < |turns| ==> ClockRuns(turns[k])
    ensures Inv(Flush(st, records, turns))
  {
    hide Inv, ClockRuns, Handle;
    if records != [] {
      var last := |records| - 1;
      var r := records[last];
      FlushKeepsInv(st, records[..last], turns[..last]);
      var st' := Flush(st, records[..last], turns[..last]);
      assert r in st.rows;
      var i :| 0 <= i < |st.rows| && st.rows[i] == r;
      FlushLeaves(st, records[..last], turns[..last], i);
      assert !Names(records[..last], r.id);
      HandleKeepsInv(st', i, turns[last]);
    }
  }

  // ---------------------------------------------------------------- runs

  datatype Event = Appending(append: Append) | Flushing(records: Rows, turns: seq<Turn>)

  /** A new record as the runtime builds it: hashes left to the store, nothing attempted yet. */
  predicate NewRecord(a: Append) {
    && LeavesHashing(a)
    && a.record.status == PENDING && a.record.retryCount == 0
    && a.record.lastAttemptAt == ZERO_TIME && a.record.uploadedAt == ZERO_TIME
  }

  predicate Allowed(st: State, e: Event) {
    match e
    case Appending(a) => NewRecord(a)
    case Flushing(records, turns) =>
      |records| == |turns| && PendingScan(st.rows, records) && forall k :: 0 <= k < |turns| ==> ClockRuns(turns[k])
  }

  function Step(hash: HashFn, st: State, e: Event): State
    requires Allowed(st, e)
  {
    match e
    case Appending(a) => AppendStep(hash, st, a)
    case Flushing(records, turns) => Flush(st, records, turns)
  }

  /** The states of a run from the empty spool, first to last. */
  ghost predicate IsRun(hash: HashFn, events: seq<Event>, states: seq<State>) {
    && |states| == |events| + 1
    && states[0] == State([], [], [])
    && forall i :: 0 <= i < |events| ==> StepsTo(hash, states, events, i)
  }

  ghost predicate StepsTo(hash: HashFn, states: seq<State>, events: seq<Event>, i: nat)
    requires i < |events| && i + 1 < |states|
  {
    Allowed(states[i], events[i]) && states[i + 1] == Step(hash, states[i], events[i])
  }

  lemma {:induction false} LatestOfTracked(rows: Rows, log: Rows)
    requires Tracks(rows, log)
    ensures LatestIndex(rows) == LatestIndex(log) && LatestHash(rows) == LatestHash(log)
  {
    if rows != [] {
      var last := |rows| - 1;
      FrozenFields(rows[last], log[last]);
      assert Tracks(rows[..last], log[..last]);
      LatestOfTracked(rows[..last], log[..last]);
      var rest := LatestIndex(rows[..last]);
      if rest.Some? {
        FrozenFields(rows[rest.value], log[rest.value]);
      }
      var m := LatestIndex(rows);
      if m.Some? {
        FrozenFields(rows[m.value], log[m.value]);
      }
    }
  }

  lemma {:induction false} FrozenFields(r: AuditRecord, s: AuditRecord)
    requires Frozen(r) == Frozen(s)
    ensures r.id == s.id && r.createdAt == s.createdAt && r.recordHash == s.recordHash
    ensures r.previousHash == s.previousHash && r.payload == s.payload && r.payloadSha == s.payloadSha
  {
  }

  /** Appending does the same to the table and to the record of insertions. */
  lemma {:induction false} AppendTracked(hash: HashFn, rows: Rows, log: Rows, a: Append)
    requires Tracks(rows, log)
    ensures HasId(rows, a.record.id) <==> HasId(log, a.record.id)
    ensures Completed(hash, rows, a.record, a.now) == Completed(hash, log, a.record, a.now)
  {
    LatestOfTracked(rows, log);
    forall i | 0 <= i < |rows|
      ensures rows[i].id == log[i].id
    {
      FrozenFields(rows[i], log[i]);
    }
  }

  lemma {:induction false} NoAttemptsFor(attempts: seq<Attempt>, id: string)
    requires forall i :: 0 <= i < |attempts| ==> attempts[i].id != id
    ensures AttemptsOf(attempts, id) == []
  {
    if attempts != [] {
      NoAttemptsFor(attempts[..|attempts| - 1], id);
    }
  }

  lemma {:induction false} CompletedIsNew(hash: HashFn, rows: Rows, a: Append)
    requires NewRecord(a)
    ensures
      var c := Completed(hash, rows, a.record, a.now);
      c.id == a.record.id && c.status == PENDING && Delivery(c, [])
  {
  }

  lemma {:induction false} AppendKeepsInv(hash: HashFn, st: State, a: Append)
    requires Inv(st) && NewRecord(a)
    ensures Inv(AppendStep(hash, st, a))
  {
    hide Delivery, Completed, NewRecord, AttemptsOf, Frozen;
    AppendTracked(hash, st.rows, st.log, a);
    if !HasId(st.rows, a.record.id) {
      var c := Completed(hash, st.rows, a.record, a.now);
      CompletedIsNew(hash, st.rows, a);
      var st' := AppendStep(hash, st, a);
      assert st'.rows == st.rows + [c] && st'.log == st.log + [c];
      NoAttemptsFor(st.attempts, c.id);
      forall i | 0 <= i < |st'.attempts|
        ensures HasId(st'.rows, st'.attempts[i].id)
      {
        SameIdsHave(st.rows, st'.rows, st.attempts[i].id);
      }
    }
  }

  /** In every run of appends and flushes, at every point: ids are unique, the table still holds every inserted record
      with its frozen columns, and every row's delivery columns are what the attempts made so far say. */
  lemma {:induction false} RunKeepsInv(hash: HashFn, events: seq<Event>, states: seq<State>, i: nat)
    requires IsRun(hash, events, states) && i < |states|
    ensures Inv(states[i])
  {
    if i == 0 {
      assert states[0].rows == [];
    } else {
      RunKeepsInv(hash, events, states, i - 1);
      assert StepsTo(hash, states, events, i - 1);
      match events[i - 1]
      case Appending(a) => AppendKeepsInv(hash, states[i - 1], a);
      case Flushing(records, turns) => FlushKeepsInv(states[i - 1], records, turns);
    }
  }

  /** No record is lost or rewritten: what was inserted by some point is still there at every later point. */
  lemma {:induction false} NothingLost(hash: HashFn, events: seq<Event>, states: seq<State>, i: nat, j: nat, k: nat)
    requires IsRun(hash, events, states) && i <= j < |states| && k < |states[i].rows|
    ensures k < |states[j].rows| && Frozen(states[j].rows[k]) == Frozen(states[i].rows[k])
    decreases j
  {
    hide Delivery, AttemptsOf, Completed, Frozen, PendingScan, NewRecord;
    if i < j {
      NothingLost(hash, events, states, i, j - 1, k);
      RunKeepsInv(hash, events, states, j - 1);
      RunKeepsInv(hash, events, states, j);
      assert StepsTo(hash, states, events, j - 1);
      match events[j - 1]
      case Appending(a) =>
      case Flushing(records, turns) =>
        FlushLeaves(states[j - 1], records, turns, k);
        assert Frozen(states[j].rows[k]) == Frozen(states[j].log[k]) == Frozen(states[j - 1].rows[k]);
    }
  }

  function Appends(events: seq<Event>): seq<Append> {
    if events == [] then []
    else
      var last := |events| - 1;
      Appends(events[..last]) + if events[last].Appending? then [events[last].append] else []
  }

  /** The insertions of a run are exactly those of its appends; uploads never touch the chain. */
  lemma {:induction false} RunLog(hash: HashFn, events: seq<Event>, states: seq<State>)
    requires IsRun(hash, events, states)
    ensures states[|events|].log == AppendAll(hash, Appends(events))
    ensures forall i :: 0 <= i < |Appends(events)| ==> LeavesHashing(Appends(events)[i])
  {
    if events != [] {
      var last := |events| - 1;
      assert StepsTo(hash, states, events, last);
      RunPrefix(hash, events, states, last);
      RunLog(hash, events[..last], states[..last + 1]);
      var appends := Appends(events[..last]);
      match events[last]
      case Appending(a) =>
        assert Appends(events) == appends + [a];
        assert Appends(events)[..|appends|] == appends;
      case Flushing(records, turns) =>
        assert Appends(events) == appends;
        FlushKeepsLog(states[last], records, turns);
    }
  }

  lemma {:induction false} FlushKeepsLog(st: State, records: Rows, turns: seq<Turn>)
    requires |records| == |turns|
    ensures Flush(st, records, turns).log == st.log
  {
    if records != [] {
      FlushKeepsLog(st, records[..|records| - 1], turns[..|records| - 1]);
    }
  }

  lemma {:induction false} RunPrefix(hash: HashFn, events: seq<Event>, states: seq<State>, n: nat)
    requires IsRun(hash, events, states) && n <= |events|
    ensures IsRun(hash, events[..n], states[..n + 1])
  {
    var front, seen := events[..n], states[..n + 1];
    forall i | 0 <= i < n
      ensures StepsTo(hash, seen, front, i)
    {
      assert StepsTo(hash, states, events, i);
    }
  }

  /** Whatever was uploaded in between, the previous_hash links of a run's table form one unbroken line exactly when
      every record but the newest, as inserted, links onward: it sorted last on arrival, or its hash input collides with
      that of the record that did. Records that sort last on arrival always form a line. */
  lemma {:induction false} RunLinearIff(hash: HashFn, events: seq<Event>, states: seq<State>)
    requires IsRun(hash, events, states)
    ensures var st := states[|events|];
            && |st.rows| == |st.log|
            && (Linked(st.rows) <==> forall n :: 0 <= n < |st.log| - 1 ==> LinksOnward(hash, st.log, n))
            && (EachSortsLast(st.rows) ==> Linked(st.rows))
  {
    hide Delivery, AttemptsOf, Completed, StepsTo, LeavesHashing, Frozen, LinksOnward;
    var st := states[|events|];
    RunLog(hash, events, states);
    RunKeepsInv(hash, events, states, |events|);
    LinearIff(hash, Appends(events));
    forall i | 0 <= i < |st.rows|
      ensures st.rows[i].id == st.log[i].id && st.rows[i].createdAt == st.log[i].createdAt
      ensures st.rows[i].recordHash == st.log[i].recordHash && st.rows[i].previousHash == st.log[i].previousHash
    {
      FrozenFields(st.rows[i], st.log[i]);
    }
    assert forall i :: 0 <= i < |st.rows| ==> (LinkedAt(st.rows, i) <==> LinkedAt(st.log, i));
    assert forall i :: 0 <= i < |st.rows| ==> (SortsLast(st.rows, i) <==> SortsLast(st.log, i));
  }

  /** A row counts as uploaded exactly when the last answer met for it was an accepting acknowledgement that named it. */
  lemma {:induction false} UploadedIffAcknowledged(hash: HashFn, events: seq<Event>, states: seq<State>, i: nat, k: nat)
    requires IsRun(hash, events, states) && i < |states| && k < |states[i].rows|
    ensures
      var r := states[i].rows[k];
      var mine := AttemptsOf(states[i].attempts, r.id);
      r.status == "uploaded"
      <==> mine != [] && exists ackId :: ackId != "" && mine[|mine| - 1].response == Ack("accepted", r.id, ackId)
  {
    hide Delivery, AttemptsOf, StepsTo;
    RunKeepsInv(hash, events, states, i);
    var r := states[i].rows[k];
    var mine := AttemptsOf(states[i].attempts, r.id);
    DeliveryStatus(r, mine);
    if mine != [] {
      AcceptsIff(mine[|mine| - 1].response, r.id);
    }
  }

  lemma {:induction false} AcceptsIff(r: Response, id: string)
    ensures Accepts(r, id) <==> exists ackId :: ackId != "" && r == Ack("accepted", id, ackId)
  {
    if Accepts(r, id) {
      assert r == Ack("accepted", id, r.ackId);
    }
  }

  // ---------------------------------------------------------------- what a flush attempts

  /** A record is due before its first attempt, and then when the back-off since its last attempt is over. */
  predicate Due(mine: seq<Attempt>, now: Time) {
    mine == [] || now >= mine[|mine| - 1].at + SECOND * Min(Pow2(|mine| - 1), 256)
  }

  lemma {:induction false} DueIff(r: AuditRecord, mine: seq<Attempt>, now: Time)
    requires Delivery(r, mine) && r.status == PENDING
    ensures RetryDue(r, now) <==> Due(mine, now)
  {
    if mine != [] {
      BackoffValue(|mine|);
    }
  }

  lemma {:induction false} FlushLeavesAttempts(st: State, records: Rows, turns: seq<Turn>, id: string)
    requires |records| == |turns| && !Names(records, id)
    ensures AttemptsOf(Flush(st, records, turns).attempts, id) == AttemptsOf(st.attempts, id)
  {
    if records != [] {
      var last := |records| - 1;
      FlushLeavesAttempts(st, records[..last], turns[..last], id);
      var st' := Flush(st, records[..last], turns[..last]);
      AttemptsOfSnoc(st'.attempts, Attempt(records[last].id, turns[last].uploadClock, turns[last].response), id);
    }
  }

  lemma {:induction false} FlushTries(st: State, records: Rows, turns: seq<Turn>, k: nat)
    requires |records| == |turns| && DistinctIds(records) && k < |records|
    ensures var id := records[k].id;
            AttemptsOf(Flush(st, records, turns).attempts, id)
            == AttemptsOf(st.attempts, id)
               + if RetryDue(records[k], turns[k].dueClock) then [Attempt(id, turns[k].uploadClock, turns[k].response)] else []
  {
    hide RetryDue, AttemptsOf;
    var last := |records| - 1;
    var id := records[k].id;
    var front := Flush(st, records[..last], turns[..last]);
    AttemptsOfSnoc(front.attempts, Attempt(records[last].id, turns[last].uploadClock, turns[last].response), id);
    if k < last {
      FlushTries(st, records[..last], turns[..last], k);
      assert records[last].id != id;
    } else {
      assert !Names(records[..last], id);
      FlushLeavesAttempts(st, records[..last], turns[..last], id);
    }
  }

  /** A flush attempts each pending record exactly when it was never attempted or its back-off is over, once, and no other
      record. */
  lemma {:induction false} FlushAttemptsIff(st: State, records: Rows, turns: seq<Turn>, i: nat)
    requires Inv(st) && |records| == |turns| && PendingScan(st.rows, records) && i < |st.rows|
    ensures
      var id := st.rows[i].id;
      var mine, after := AttemptsOf(st.attempts, id), AttemptsOf(Flush(st, records, turns).attempts, id);
      if st.rows[i].status != PENDING then after == mine
      else exists k :: && 0 <= k < |records| && records[k] == st.rows[i]
                       && after == mine + if Due(mine, turns[k].dueClock)
                                          then [Attempt(id, turns[k].uploadClock, turns[k].response)] else []
  {
    hide Delivery, Due, RetryDue, AttemptsOf, Flush;
    var r := st.rows[i];
    if r.status == PENDING {
      assert r in records;
      var k :| 0 <= k < |records| && records[k] == r;
      DueIff(r, AttemptsOf(st.attempts, r.id), turns[k].dueClock);
      FlushTries(st, records, turns, k);
    } else {
      assert !Names(records, r.id) by { OnlyPendingNamed(st.rows, records, i); }
      FlushLeavesAttempts(st, records, turns, r.id);
    }
  }

  lemma {:induction false} OnlyPendingNamed(rows: Rows, records: Rows, i: nat)
    requires DistinctIds(rows) && PendingScan(rows, records) && i < |rows| && rows[i].status != PENDING
    ensures !Names(records, rows[i].id)
  {
    forall k | 0 <= k < |records|
      ensures records[k].id != rows[i].id
    {
      assert records[k] in rows;
      var j :| 0 <= j < |rows| && rows[j] == records[k];
    }
  }

  lemma {:induction false} DeliveryStatus(r: AuditRecord, mine: seq<Attempt>)
    requires Delivery(r, mine)
    ensures r.status == UPLOADED <==> mine != [] && Accepts(mine[|mine| - 1].response, r.id)
  {
  }

  /** The status is part of the hash and the upload rewrites it: recomputing a stored row's hash gives its record_hash
      exactly while the row is pending, or when the hash inputs before and after the upload collide. */
  lemma {:induction false} RecomputesOnlyWhilePending(hash: HashFn, events: seq<Event>, states: seq<State>, k: nat)
    requires IsRun(hash, events, states) && k < |states[|events|].rows|
    ensures
      var st := states[|events|];
      && k < |st.log|
      && (RecordHash(hash, st.rows[k]) == st.rows[k].recordHash
          <==> st.rows[k].status == PENDING || InputsCollide(hash, st.rows[k], st.log[k]))
  {
    hide Delivery, AttemptsOf, Completed, StepsTo, InputsCollide, RecordHash;
    var st := states[|events|];
    RunLog(hash, events, states);
    RunKeepsInv(hash, events, states, |events|);
    AppendAllWellformed(hash, Appends(events));
    var r, s := st.rows[k], st.log[k];
    DeliveryStatusClean(r, AttemptsOf(st.attempts, r.id));
    assert r == s.(status := r.status, retryCount := r.retryCount, lastAttemptAt := r.lastAttemptAt,
                   uploadedAt := r.uploadedAt, lastError := r.lastError) by {
      FrozenAll(r, s);
    }
    SameHash(hash, r, s);
  }

  lemma {:induction false} DeliveryStatusClean(r: AuditRecord, mine: seq<Attempt>)
    requires Delivery(r, mine)
    ensures NulFree(r.status)
  {
  }

  lemma {:induction false} FrozenAll(r: AuditRecord, s: AuditRecord)
    requires Frozen(r) == Frozen(s)
    ensures r == s.(status := r.status, retryCount := r.retryCount, lastAttemptAt := r.lastAttemptAt,
                    uploadedAt := r.uploadedAt, lastError := r.lastError)
  {
  }

  /** The rows after an accepted upload of the only record. */
  lemma {:induction false} UploadOne(c: AuditRecord, turn: Turn)
    requires c.retryCount == 0 && Accepts(turn.response, c.id)
    ensures var st := Flush(State([c], [c], []), [c], [turn]);
            |st.rows| == 1 && st.rows[0].status == UPLOADED && st.log == [c]
  {
    hide Accepts;
    var s1 := State([c], [c], []);
    assert [c][..0] == [] && [turn][..0] == [];
    assert Flush(s1, [], []) == s1;
    assert Flush(s1, [c], [turn]) == Handle(s1, c, turn);
  }

  /** Append, then an accepted upload: the row is uploaded and no longer hashes to its record hash, unless its hash inputs
      before and after collide. */
  lemma {:induction false} UploadChangesHash(hash: HashFn, a: Append, turn: Turn) returns (states: seq<State>)
    requires NewRecord(a) && ClockRuns(turn) && Accepts(turn.response, a.record.id)
    ensures
      var inserted := Completed(hash, [], a.record, a.now);
      && IsRun(hash, [Appending(a), Flushing([inserted], [turn])], states)
      && |states[2].rows| == 1 && states[2].rows[0].status == UPLOADED
      && (RecordHash(hash, states[2].rows[0]) == states[2].rows[0].recordHash
          <==> InputsCollide(hash, states[2].rows[0], inserted))
  {
    hide Completed, RecordHash, InputsCollide, NewRecord, Flush, Accepts, ClockRuns;
    var c := Completed(hash, [], a.record, a.now);
    var events := [Appending(a), Flushing([c], [turn])];
    CompletedIsNew(hash, [], a);
    var s0, s1 := State([], [], []), State([c], [c], []);
    assert AppendStep(hash, s0, a) == s1;
    states := [s0, s1, Flush(s1, [c], [turn])];
    UploadOne(c, turn);
    assert StepsTo(hash, states, events, 0);
    assert StepsTo(hash, states, events, 1);
    hide StepsTo;
    RecomputesOnlyWhilePending(hash, events, states, 0);
  }
}
