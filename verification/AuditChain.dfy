/** The audit spool's hash chain (AppendAudit and auditRecordHash in internal/kliq/actionstate/sqlite.go).

    The table is the sequence of its rows in insertion order. Stored times that the store orders by are kept as text.
 */
module AuditChain {
  import opened Basics
  import opened TimeText

  /** A row of audit_spool. `createdAt` is the formatted instant, "" for Go's zero time. */
  datatype AuditRecord = AuditRecord(
    id: string,
    runtimeActionId: string,
    bindingId: string,
    bindingDigest: string,
    manifestDigest: string,
    actionDigest: string,
    status: string,
    payload: string,
    payloadSha: string,
    previousHash: string,
    recordHash: string,
    createdAt: string,
    retryCount: nat,
    lastAttemptAt: Time,
    uploadedAt: Time,
    lastError: string)

  type Rows = seq<AuditRecord>

  // ---------------------------------------------------------------- the record hash

  function HashedFields(r: AuditRecord): seq<string> {
    [r.previousHash, r.id, r.runtimeActionId, r.bindingId, r.bindingDigest, r.manifestDigest, r.actionDigest,
     r.status, r.payloadSha, r.createdAt]
  }

  function RecordHash(hash: HashFn, r: AuditRecord): (h: string)
    ensures h != "" && NulFree(h)
  {
    DigestText(hash, Join(HashedFields(r)))
  }

  predicate AllNulFree(fields: seq<string>) {
    forall i :: 0 <= i < |fields| ==> NulFree(fields[i])
  }

  /** The fields a caller supplies are free of the separator. */
  predicate CleanInput(r: AuditRecord) {
    && NulFree(r.previousHash) && NulFree(r.id) && NulFree(r.runtimeActionId) && NulFree(r.bindingId)
    && NulFree(r.bindingDigest) && NulFree(r.manifestDigest) && NulFree(r.actionDigest) && NulFree(r.status)
    && NulFree(r.payloadSha) && NulFree(r.createdAt)
  }

  lemma {:induction false} SplitAtNul(a: string, b: string, x: string, y: string)
    requires NulFree(a) && NulFree(b) && a + [NUL] + x == b + [NUL] + y
    ensures a == b && x == y
  {
    assert (a + [NUL] + x)[0] == if a == "" then NUL else a[0];
    assert (b + [NUL] + y)[0] == if b == "" then NUL else b[0];
    assert a != "" ==> a[0] in a;
    assert b != "" ==> b[0] in b;
    if a == "" {
      assert x == (a + [NUL] + x)[1..] && y == (b + [NUL] + y)[1..];
    } else {
      assert (a + [NUL] + x)[1..] == a[1..] + [NUL] + x;
      assert (b + [NUL] + y)[1..] == b[1..] + [NUL] + y;
      SplitAtNul(a[1..], b[1..], x, y);
      assert a == [a[0]] + a[1..] && b == [b[0]] + b[1..];
    }
  }

  /** NUL-free field lists of one length are recovered from their joined text. */
  lemma {:induction false} JoinInjective(a: seq<string>, b: seq<string>)
    requires |a| == |b| && a != [] && AllNulFree(a) && AllNulFree(b) && Join(a) == Join(b)
    ensures a == b
  {
    if |a| == 1 {
      assert a == [a[0]] && b == [b[0]];
    } else {
      SplitAtNul(a[0], b[0], Join(a[1..]), Join(b[1..]));
      JoinInjective(a[1..], b[1..]);
      assert a == [a[0]] + a[1..] && b == [b[0]] + b[1..];
    }
  }

  /** The two records agree in all ten fields that identify what happened and where it stands in the chain. */
  predicate SameFields(r: AuditRecord, s: AuditRecord) {
    && r.previousHash == s.previousHash && r.id == s.id && r.runtimeActionId == s.runtimeActionId
    && r.bindingId == s.bindingId && r.bindingDigest == s.bindingDigest && r.manifestDigest == s.manifestDigest
    && r.actionDigest == s.actionDigest && r.status == s.status && r.payloadSha == s.payloadSha
    && r.createdAt == s.createdAt
  }

  /** The hash inputs of the two records are different and have one digest. */
  predicate InputsCollide(hash: HashFn, r: AuditRecord, s: AuditRecord) {
    Collides(hash, Pair(Join(HashedFields(r)), Join(HashedFields(s))))
  }

  lemma {:induction false} HashedFieldsIff(r: AuditRecord, s: AuditRecord)
    ensures HashedFields(r) == HashedFields(s) <==> SameFields(r, s)
  {
    var x, y := HashedFields(r), HashedFields(s);
    if x == y {
      assert x[0] == y[0] && x[1] == y[1] && x[2] == y[2] && x[3] == y[3] && x[4] == y[4] && x[5] == y[5] && x[6] == y[6]
             && x[7] == y[7] && x[8] == y[8] && x[9] == y[9];
    }
  }

  /** Two clean records have one record hash exactly when they agree in all ten fields or their two hash inputs collide. */
  lemma {:induction false} SameHash(hash: HashFn, r: AuditRecord, s: AuditRecord)
    requires CleanInput(r) && CleanInput(s)
    ensures RecordHash(hash, r) == RecordHash(hash, s) <==> SameFields(r, s) || InputsCollide(hash, r, s)
    ensures !(SameFields(r, s) && InputsCollide(hash, r, s))
  {
    hide SameFields;
    HashedFieldsIff(r, s);
    var x, y := Join(HashedFields(r)), Join(HashedFields(s));
    if RecordHash(hash, r) == RecordHash(hash, s) {
      DigestTextInjective(hash, x, y);
      if x == y {
        JoinInjective(HashedFields(r), HashedFields(s));
      }
    }
  }

  // ---------------------------------------------------------------- linear histories

  function TipHash(log: Rows): string {
    if log == [] then "" else log[|log| - 1].recordHash
  }

  /** Every record carries its own hash, over clean fields. */
  predicate Hashed(hash: HashFn, log: Rows) {
    forall i :: 0 <= i < |log| ==> CleanInput(log[i]) && log[i].recordHash == RecordHash(hash, log[i])
  }

  predicate LinkedAt(log: Rows, i: nat)
    requires i < |log|
  {
    log[i].previousHash == if i == 0 then "" else log[i - 1].recordHash
  }

  /** Each record names the hash of the one before it. */
  predicate Linked(log: Rows) {
    forall i :: 0 <= i < |log| ==> LinkedAt(log, i)
  }

  predicate SameHistory(a: Rows, b: Rows) {
    |a| == |b| && forall i :: 0 <= i < |a| ==> SameFields(a[i], b[i])
  }

  /** Two records at one distance from the ends of the histories have colliding hash inputs. */
  predicate CollideAt(hash: HashFn, a: Rows, b: Rows, distance: nat) {
    && distance < |a| && distance < |b|
    && InputsCollide(hash, a[|a| - 1 - distance], b[|b| - 1 - distance])
  }

  ghost predicate CollideSomewhere(hash: HashFn, a: Rows, b: Rows) {
    exists distance :: CollideAt(hash, a, b, distance)
  }

  /** One hash at the end pins the whole history: two linear histories with equal last hashes have the same length and
      the same ten fields throughout, exactly unless the hash inputs of two of their records, equally far from the
      ends, collide. */
  lemma {:induction false} TipPinsHistory(hash: HashFn, a: Rows, b: Rows)
    requires Hashed(hash, a) && Linked(a) && Hashed(hash, b) && Linked(b)
    requires TipHash(a) == TipHash(b)
    ensures SameHistory(a, b) <==> !CollideSomewhere(hash, a, b)
    decreases |a|
  {
    hide RecordHash, CleanInput, InputsCollide;
    if a == [] || b == [] {
      return;
    }
    var r, s := a[|a| - 1], b[|b| - 1];
    var a', b' := a[..|a| - 1], b[..|b| - 1];
    SameHash(hash, r, s);
    if InputsCollide(hash, r, s) {
      assert CollideAt(hash, a, b, 0);
    } else {
      LinkedPrefix(a, |a'|);
      LinkedPrefix(b, |b'|);
      assert LinkedAt(a, |a'|) && LinkedAt(b, |b'|);
      assert TipHash(a') == r.previousHash == s.previousHash == TipHash(b');
      TipPinsHistory(hash, a', b');
      SameHistorySnoc(a, b);
      CollideSnoc(hash, a, b);
    }
  }

  lemma {:induction false} SameHistorySnoc(a: Rows, b: Rows)
    requires a != [] && b != [] && SameFields(a[|a| - 1], b[|b| - 1])
    ensures SameHistory(a, b) <==> SameHistory(a[..|a| - 1], b[..|b| - 1])
  {
    hide SameFields;
    var a', b' := a[..|a| - 1], b[..|b| - 1];
    if SameHistory(a', b') {
      forall i | 0 <= i < |a|
        ensures SameFields(a[i], b[i])
      {
        if i < |a'| { assert a[i] == a'[i] && b[i] == b'[i]; }
      }
    }
  }

  lemma {:induction false} CollideSnoc(hash: HashFn, a: Rows, b: Rows)
    requires a != [] && b != [] && !InputsCollide(hash, a[|a| - 1], b[|b| - 1])
    ensures CollideSomewhere(hash, a, b) <==> CollideSomewhere(hash, a[..|a| - 1], b[..|b| - 1])
  {
    hide InputsCollide;
    var a', b' := a[..|a| - 1], b[..|b| - 1];
    if distance: nat :| CollideAt(hash, a, b, distance) {
      assert CollideAt(hash, a', b', distance - 1);
    }
    if distance: nat :| CollideAt(hash, a', b', distance) {
      assert CollideAt(hash, a, b, distance + 1);
    }
  }

  lemma {:induction false} LinkedPrefix(log: Rows, n: nat)
    requires Linked(log) && n <= |log|
    ensures Linked(log[..n])
  {
    forall i | 0 <= i < n
      ensures LinkedAt(log[..n], i)
    {
      assert LinkedAt(log, i);
    }
  }

  /** With payload digests computed by the store, the pinned history pins the payloads too: they differ only if they
      collide themselves or two records do. */
  lemma {:induction false} TipPinsPayload(hash: HashFn, a: Rows, b: Rows, i: nat)
    requires Hashed(hash, a) && Linked(a) && Hashed(hash, b) && Linked(b) && TipHash(a) == TipHash(b)
    requires i < |a| && i < |b|
    requires a[i].payloadSha == DigestText(hash, a[i].payload) && b[i].payloadSha == DigestText(hash, b[i].payload)
    ensures || a[i].payload == b[i].payload
            || CollideSomewhere(hash, a, b)
            || Collides(hash, Pair(a[i].payload, b[i].payload))
  {
    TipPinsHistory(hash, a, b);
    if SameHistory(a, b) {
      DigestTextInjective(hash, a[i].payload, b[i].payload);
    }
  }

  // ---------------------------------------------------------------- the latest row

  /** ORDER BY created_at, id. */
  predicate SortsBefore(a: AuditRecord, b: AuditRecord) {
    TextLess(a.createdAt, b.createdAt) || (a.createdAt == b.createdAt && TextLess(a.id, b.id))
  }

  predicate DistinctIds(rows: Rows) {
    forall i, j :: 0 <= i < j < |rows| ==> rows[i].id != rows[j].id
  }

  lemma {:induction false} SortsBeforeOrder(a: AuditRecord, b: AuditRecord)
    requires a.id != b.id
    ensures SortsBefore(a, b) <==> !SortsBefore(b, a)
  {
    TextLessTotal(a.createdAt, b.createdAt);
    TextLessTotal(a.id, b.id);
  }

  lemma {:induction false} SortsBeforeTransitive(a: AuditRecord, b: AuditRecord, c: AuditRecord)
    requires SortsBefore(a, b) && SortsBefore(b, c)
    ensures SortsBefore(a, c)
  {
    if TextLess(a.createdAt, b.createdAt) && TextLess(b.createdAt, c.createdAt) {
      TextLessTransitive(a.createdAt, b.createdAt, c.createdAt);
    } else if a.createdAt == b.createdAt == c.createdAt {
      TextLessTotal(a.createdAt, a.createdAt);
      TextLessTransitive(a.id, b.id, c.id);
    }
  }

  /** The row that `WHERE record_hash != '' ORDER BY created_at DESC, id DESC LIMIT 1` selects. */
  function LatestIndex(rows: Rows): (latest: Option<nat>)
    ensures latest.Some? ==> latest.value < |rows| && rows[latest.value].recordHash != ""
  {
    if rows == [] then None
    else
      var last := |rows| - 1;
      var rest := LatestIndex(rows[..last]);
      if rows[last].recordHash == "" then rest
      else if rest.None? || SortsBefore(rows[rest.value], rows[last]) then Some(last)
      else rest
  }

  function LatestHash(rows: Rows): string {
    match LatestIndex(rows)
    case None => ""
    case Some(i) => rows[i].recordHash
  }

  /** The selected row is the greatest hashed row. */
  lemma {:induction false} LatestIndexIsGreatest(rows: Rows, j: nat)
    requires DistinctIds(rows) && j < |rows| && rows[j].recordHash != ""
    ensures LatestIndex(rows).Some?
    ensures j != LatestIndex(rows).value ==> SortsBefore(rows[j], rows[LatestIndex(rows).value])
  {
    var last := |rows| - 1;
    var front := rows[..last];
    var rest := LatestIndex(front);
    if j < last {
      assert front[j] == rows[j];
      LatestIndexIsGreatest(front, j);
      if rows[last].recordHash != "" && SortsBefore(rows[rest.value], rows[last]) && j != rest.value {
        SortsBeforeTransitive(rows[j], rows[rest.value], rows[last]);
      }
    } else if rest.Some? {
      SortsBeforeOrder(rows[rest.value], rows[last]);
    }
  }

  /** The row at `i` sorts after every earlier row. */
  predicate SortsLast(rows: Rows, i: nat)
    requires i < |rows|
  {
    forall j :: 0 <= j < i ==> SortsBefore(rows[j], rows[i])
  }

  lemma {:induction false} LatestIsLastIff(rows: Rows)
    requires rows != [] && DistinctIds(rows)
    requires forall i :: 0 <= i < |rows| ==> rows[i].recordHash != ""
    ensures LatestIndex(rows) == Some(|rows| - 1) <==> SortsLast(rows, |rows| - 1)
  {
    var last := |rows| - 1;
    forall j | 0 <= j < |rows|
      ensures LatestIndex(rows).Some?
      ensures j != LatestIndex(rows).value ==> SortsBefore(rows[j], rows[LatestIndex(rows).value])
    {
      LatestIndexIsGreatest(rows, j);
    }
    var m := LatestIndex(rows).value;
    if m != last {
      SortsBeforeOrder(rows[m], rows[last]);
    }
  }

  // ---------------------------------------------------------------- appending

  predicate HasId(rows: Rows, id: string) {
    exists i :: 0 <= i < |rows| && rows[i].id == id
  }

  /** The row AppendAudit inserts: digest, creation time, previous hash and own hash filled in where missing. */
  function Completed(hash: HashFn, rows: Rows, r: AuditRecord, now: string): AuditRecord {
    var r := if Blank(r.payloadSha) then r.(payloadSha := DigestText(hash, r.payload)) else r;
    var r := if r.createdAt == "" then r.(createdAt := now) else r;
    var r := if r.previousHash == "" then r.(previousHash := LatestHash(rows)) else r;
    if r.recordHash == "" then r.(recordHash := RecordHash(hash, r)) else r
  }

  /** The table after AppendAudit: an id already present leaves it alone, whether or not the digests agree. */
  function AppendRow(hash: HashFn, rows: Rows, r: AuditRecord, now: string): Rows {
    if HasId(rows, r.id) then rows else rows + [Completed(hash, rows, r, now)]
  }

  datatype Append = Append(record: AuditRecord, now: string)

  /** What the runtime hands to AppendAudit: clean fields, both hashes left to the store. */
  predicate LeavesHashing(a: Append) {
    CleanInput(a.record) && NulFree(a.now) && a.record.previousHash == "" && a.record.recordHash == ""
  }

  function AppendAll(hash: HashFn, appends: seq<Append>): Rows {
    if appends == [] then []
    else
      var a := appends[|appends| - 1];
      AppendRow(hash, AppendAll(hash, appends[..|appends| - 1]), a.record, a.now)
  }

  predicate Wellformed(hash: HashFn, rows: Rows) {
    DistinctIds(rows) && Hashed(hash, rows)
  }

  lemma {:induction false} AppendKeepsWellformed(hash: HashFn, rows: Rows, a: Append)
    requires Wellformed(hash, rows) && LeavesHashing(a)
    ensures Wellformed(hash, AppendRow(hash, rows, a.record, a.now))
  {
  }

  lemma {:induction false} AppendAllWellformed(hash: HashFn, appends: seq<Append>)
    requires forall i :: 0 <= i < |appends| ==> LeavesHashing(appends[i])
    ensures Wellformed(hash, AppendAll(hash, appends))
  {
    if appends != [] {
      AppendAllWellformed(hash, appends[..|appends| - 1]);
      AppendKeepsWellformed(hash, AppendAll(hash, appends[..|appends| - 1]), appends[|appends| - 1]);
    }
  }

  /** Every row but the newest sorts after all rows before it, in (created_at text, id) order. */
  predicate EachSortsLast(rows: Rows) {
    forall i :: 0 <= i < |rows| - 1 ==> SortsLast(rows, i)
  }

  /** The record inserted after row `n` links to row `n`: that row sorts last so far, or its hash input collides with
      that of the row that does. */
  predicate LinksOnward(hash: HashFn, rows: Rows, n: nat)
    requires n < |rows|
  {
    || SortsLast(rows, n)
    || (&& LatestIndex(rows[..n + 1]).Some?
        && InputsCollide(hash, rows[LatestIndex(rows[..n + 1]).value], rows[n]))
  }

  /** One more record extends the line exactly when the newest row links onward. */
  lemma {:induction false} LinkIff(hash: HashFn, rows: Rows, a: Append)
    requires Wellformed(hash, rows) && rows != [] && LeavesHashing(a)
    ensures Completed(hash, rows, a.record, a.now).previousHash == TipHash(rows) <==> LinksOnward(hash, rows, |rows| - 1)
  {
    hide RecordHash, InputsCollide;
    var last := |rows| - 1;
    assert rows[..last + 1] == rows;
    LatestIsLastIff(rows);
    LatestIndexIsGreatest(rows, last);
    var m := LatestIndex(rows).value;
    SameHash(hash, rows[m], rows[last]);
  }

  /** A run of appends leaves one unbroken line exactly when every record but the newest links onward: it sorted last on
      arrival, or its hash input collides with that of the record that did. So records that sort last on arrival always
      form a line. */
  lemma {:induction false} LinearIff(hash: HashFn, appends: seq<Append>)
    requires forall i :: 0 <= i < |appends| ==> LeavesHashing(appends[i])
    ensures var rows := AppendAll(hash, appends);
            && (Linked(rows) <==> forall n :: 0 <= n < |rows| - 1 ==> LinksOnward(hash, rows, n))
            && (EachSortsLast(rows) ==> Linked(rows))
  {
    hide LeavesHashing, Completed, Linked, LinksOnward;
    if appends == [] {
      assert Linked([]) by { EmptyIsLinked(); }
    } else {
      var a := appends[|appends| - 1];
      var rows := AppendAll(hash, appends[..|appends| - 1]);
      AppendAllWellformed(hash, appends[..|appends| - 1]);
      LinearIff(hash, appends[..|appends| - 1]);
      if !HasId(rows, a.record.id) {
        LinearSnoc(hash, rows, a);
      }
      LastLinksOnward(hash, AppendAll(hash, appends));
    }
  }

  lemma {:induction false} EmptyIsLinked()
    ensures Linked([])
  {
  }

  lemma {:induction false} LastLinksOnward(hash: HashFn, rows: Rows)
    ensures forall n :: 0 <= n < |rows| && SortsLast(rows, n) ==> LinksOnward(hash, rows, n)
  {
  }

  lemma {:induction false} LinearSnoc(hash: HashFn, rows: Rows, a: Append)
    requires Wellformed(hash, rows) && LeavesHashing(a)
    requires Linked(rows) <==> forall n :: 0 <= n < |rows| - 1 ==> LinksOnward(hash, rows, n)
    ensures var both := rows + [Completed(hash, rows, a.record, a.now)];
            Linked(both) <==> forall n :: 0 <= n < |both| - 1 ==> LinksOnward(hash, both, n)
  {
    hide Wellformed, LeavesHashing, Linked, LinksOnward, Completed;
    var c := Completed(hash, rows, a.record, a.now);
    LinkedSnoc(rows, c);
    forall n | 0 <= n < |rows|
      ensures LinksOnward(hash, rows + [c], n) <==> LinksOnward(hash, rows, n)
    {
      OnwardPrefix(hash, rows, c, n);
    }
    if rows == [] {
      CompletedKeeps(hash, rows, a.record, a.now);
      assert a.record.previousHash == "" by { LeavesLink(a); }
    } else {
      LinkIff(hash, rows, a);
    }
  }

  lemma {:induction false} LeavesLink(a: Append)
    requires LeavesHashing(a)
    ensures a.record.previousHash == ""
  {
  }

  lemma {:induction false} OnwardPrefix(hash: HashFn, rows: Rows, c: AuditRecord, n: nat)
    requires n < |rows|
    ensures LinksOnward(hash, rows + [c], n) <==> LinksOnward(hash, rows, n)
  {
    hide InputsCollide, SortsBefore;
    var both := rows + [c];
    assert both[..n + 1] == rows[..n + 1];
    assert forall m :: 0 <= m <= n ==> both[m] == rows[m];
  }

  lemma {:induction false} LinkedSnoc(rows: Rows, c: AuditRecord)
    ensures Linked(rows + [c]) <==> Linked(rows) && c.previousHash == TipHash(rows)
  {
    var both := rows + [c];
    forall i | 0 <= i < |rows|
      ensures LinkedAt(both, i) <==> LinkedAt(rows, i)
    {
      assert both[i] == rows[i];
    }
    assert LinkedAt(both, |rows|) <==> c.previousHash == TipHash(rows);
  }

  lemma {:induction false} CompletedKeeps(hash: HashFn, rows: Rows, r: AuditRecord, now: string)
    ensures
      var c := Completed(hash, rows, r, now);
      c.id == r.id && (r.createdAt != "" ==> c.createdAt == r.createdAt)
      && (r.previousHash == "" ==> c.previousHash == LatestHash(rows)) && c.recordHash != ""
  {
  }

  /** What the store fills in where nothing was given: the digest of the payload, the current time, the hash of the latest
      record and the record's own hash; it leaves everything that was given as it was. */
  lemma {:induction false} CompletedMeans(hash: HashFn, rows: Rows, r: AuditRecord, now: string)
    ensures
      var c := Completed(hash, rows, r, now);
      && c.payloadSha == (if Blank(r.payloadSha) then DigestText(hash, r.payload) else r.payloadSha)
      && c.createdAt == (if r.createdAt == "" then now else r.createdAt)
      && c.previousHash == (if r.previousHash == "" then LatestHash(rows) else r.previousHash)
      && c.recordHash == (if r.recordHash == "" then RecordHash(hash, c) else r.recordHash)
      && c == r.(payloadSha := c.payloadSha, createdAt := c.createdAt, previousHash := c.previousHash,
                 recordHash := c.recordHash)
  {
  }

  /** A second record that sorts before the first is skipped by the third: both link to the first. */
  lemma {:induction false} Fork(hash: HashFn, first: AuditRecord, second: AuditRecord, third: AuditRecord)
    requires first.id != second.id && second.id != third.id && first.id != third.id
    requires second.previousHash == third.previousHash == "" && first.createdAt != "" && second.createdAt != ""
    requires SortsBefore(second, first)
    ensures
      var rows := AppendAll(hash, [Append(first, ""), Append(second, ""), Append(third, "")]);
      |rows| == 3 && rows[1].previousHash == rows[2].previousHash == rows[0].recordHash
  {
    hide Completed, TextLess;
    var a, b, c := Append(first, ""), Append(second, ""), Append(third, "");
    var one := [Completed(hash, [], first, "")];
    CompletedKeeps(hash, [], first, "");
    var two := one + [Completed(hash, one, second, "")];
    CompletedKeeps(hash, one, second, "");
    var three := two + [Completed(hash, two, third, "")];
    CompletedKeeps(hash, two, third, "");
    assert [a, b, c][..2] == [a, b] && [a, b][..1] == [a] && [a][..0] == [];
    assert AppendAll(hash, [a]) == one;
    assert AppendAll(hash, [a, b]) == two;
    assert AppendAll(hash, [a, b, c]) == three;
    assert one[..0] == [] && two[..1] == one;
    assert LatestIndex(one) == Some(0);
    SortsBeforeOrder(two[1], two[0]);
    assert LatestIndex(two) == Some(0);
  }

  /** The fork in store texts: half a second after a full second sorts before it. */
  lemma {:induction false} ForkExample(
    hash: HashFn, second: string, first: AuditRecord, half: AuditRecord, third: AuditRecord)
    requires first.id != half.id && half.id != third.id && first.id != third.id
    requires half.previousHash == third.previousHash == ""
    requires |second| == 19
    requires first.createdAt == FormatTime(Instant(second, 0))
    requires half.createdAt == FormatTime(Instant(second, 500_000_000))
    ensures
      var rows := AppendAll(hash, [Append(first, ""), Append(half, ""), Append(third, "")]);
      |rows| == 3 && rows[1].previousHash == rows[2].previousHash == rows[0].recordHash
  {
    LaterSortsFirst(second);
    Fork(hash, first, half, third);
  }
}
