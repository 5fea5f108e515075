/**
 The durable outbox of session observations: its table, and the transactions of the workers that fill
 and empty it. A row's id is its position in the table.
 */
module Outbox {
  import opened Common

  type Positive = n: int | n >= 1 witness 1

  datatype Settings = Settings(maxAttempts: Positive, batch: Positive)

  datatype Observation = Observation(
    reservationKey: string, jwtJti: string, sessionId: string, gatewayId: string, accessType: string, observedAt: int)

  datatype Status = Pending | Retry | Sending | Sent | Failed

  /** Times are in seconds, on the clock that the workers and the database share. */
  datatype Row = Row(
    dedupKey: string, observation: Observation, status: Status, attempts: nat,
    nextAttempt: real, lockedAt: Option<real>)

  /** What the database calls CURRENT_TIMESTAMP: the time in whole seconds. The workers' own times have fractions. */
  function Timestamp(now: real): (timestamp: real)
    ensures timestamp <= now < timestamp + 1.0
  {
    now.Floor as real
  }

  lemma TimestampGrows(earlier: real, later: real)
    requires earlier <= later
    ensures Timestamp(earlier) <= Timestamp(later)
  {
    if earlier.Floor > later.Floor {
      assert earlier.Floor >= later.Floor + 1;
    }
  }

  type Table = seq<Row>

  /** What a worker remembers of a row that it has selected. */
  datatype Record = Record(id: nat, attempts: nat, observation: Observation)

  const LEASE := 60.0

  predicate Waiting(row: Row) {
    row.status == Pending || row.status == Retry
  }

  // ---------------------------------------------------------------------------------------------
  // Enqueueing

  function IndexOf(rows: Table, dedupKey: string): (i: nat)
    ensures i <= |rows| && (i < |rows| ==> rows[i].dedupKey == dedupKey)
    ensures forall j | 0 <= j < i :: rows[j].dedupKey != dedupKey
  {
    if rows == [] || rows[0].dedupKey == dedupKey then 0 else 1 + IndexOf(rows[1..], dedupKey)
  }

  /** A terminal failure is reopened, a retry is hurried up; anything else stays. */
  function Reopened(row: Row, now: real): Row {
    if row.status == Failed then row.(status := Retry, attempts := 0, nextAttempt := Timestamp(now), lockedAt := None)
    else if row.status == Retry then row.(nextAttempt := Timestamp(now))
    else row
  }

  function Enqueued(rows: Table, dedupKey: string, observation: Observation, now: real): Table {
    var i := IndexOf(rows, dedupKey);
    if i < |rows| then rows[i := Reopened(rows[i], now)]
    else rows + [Row(dedupKey, observation, Pending, 0, Timestamp(now), None)]
  }

  ghost predicate HasKey(rows: Table, dedupKey: string) {
    exists i :: 0 <= i < |rows| && rows[i].dedupKey == dedupKey
  }

  ghost predicate UniqueKeys(rows: Table) {
    forall i, j | 0 <= i < j < |rows| :: rows[i].dedupKey != rows[j].dedupKey
  }

  /** A new row waits for its first attempt, which may be made at once. */
  predicate IsNew(row: Row, dedupKey: string, observation: Observation, now: real) {
    && row.dedupKey == dedupKey && row.observation == observation
    && row.status == Pending && row.attempts == 0 && row.lockedAt == None && Due(row, now)
  }

  /** What enqueueing again does to a row: a failed one starts anew, a retry is due at once, all others stay. */
  predicate IsReopened(before: Row, after: Row, now: real) {
    match before.status
    case Failed =>
      && after.status == Retry && after.attempts == 0 && after.lockedAt == None && Due(after, now)
      && after.dedupKey == before.dedupKey && after.observation == before.observation
    case Retry =>
      Due(after, now) && after == before.(nextAttempt := after.nextAttempt)
    case _ => after == before
  }

  /** What an accepted observation does to the table: one more row if the key is new; else its row is reopened. */
  ghost predicate IsEnqueued(before: Table, after: Table, dedupKey: string, observation: Observation, now: real) {
    if HasKey(before, dedupKey) then
      && |after| == |before|
      && exists i ::
        && 0 <= i < |before| && before[i].dedupKey == dedupKey && IsReopened(before[i], after[i], now)
        && forall j | 0 <= j < |before| && j != i :: after[j] == before[j]
    else
      && |after| == |before| + 1 && after[..|before|] == before
      && IsNew(after[|before|], dedupKey, observation, now)
  }

  lemma EnqueuedIs(rows: Table, dedupKey: string, observation: Observation, now: real)
    ensures IsEnqueued(rows, Enqueued(rows, dedupKey, observation, now), dedupKey, observation, now)
    ensures UniqueKeys(rows) ==> UniqueKeys(Enqueued(rows, dedupKey, observation, now))
  {
    hide IndexOf;
    var i, after := IndexOf(rows, dedupKey), Enqueued(rows, dedupKey, observation, now);
    if i < |rows| {
      assert rows[i].dedupKey == dedupKey && IsReopened(rows[i], after[i], now);
      assert forall j | 0 <= j < |rows| && j != i :: after[j] == rows[j];
    }
  }

  // ---------------------------------------------------------------------------------------------
  // Claiming

  function ReclaimedRow(row: Row, cutoff: real, now: real): Row {
    if row.status == Sending && row.lockedAt.Some? && row.lockedAt.value < cutoff then
      row.(status := Retry, nextAttempt := Timestamp(now), lockedAt := None)
    else row
  }

  function Reclaimed(rows: Table, cutoff: real, now: real): (reclaimed: Table)
    ensures |reclaimed| == |rows|
    ensures forall i | 0 <= i < |rows| :: reclaimed[i] == ReclaimedRow(rows[i], cutoff, now)
  {
    seq(|rows|, i requires 0 <= i < |rows| => ReclaimedRow(rows[i], cutoff, now))
  }

  predicate Due(row: Row, now: real) {
    Waiting(row) && row.nextAttempt <= Timestamp(now)
  }

  /** The order of the queue: by the time of the next attempt, then by id. */
  predicate Before(rows: Table, i: nat, j: nat)
    requires i < |rows| && j < |rows|
  {
    rows[i].nextAttempt < rows[j].nextAttempt || (rows[i].nextAttempt == rows[j].nextAttempt && i < j)
  }

  type Ids = seq<nat>

  predicate In(rows: Table, ids: Ids) {
    forall k | 0 <= k < |ids| :: ids[k] < |rows|
  }

  function Inserted(rows: Table, ids: Ids, i: nat): (more: Ids)
    requires i < |rows| && In(rows, ids)
    ensures In(rows, more)
  {
    if ids == [] then [i]
    else if Before(rows, i, ids[0]) then [i] + ids
    else [ids[0]] + Inserted(rows, ids[1..], i)
  }

  /** The due rows among the first `n`, in the order of the queue. */
  function DueIds(rows: Table, now: real, n: nat): (ids: Ids)
    requires n <= |rows|
    ensures In(rows, ids)
  {
    if n == 0 then []
    else
      var ids := DueIds(rows, now, n - 1);
      if Due(rows[n - 1], now) then Inserted(rows, ids, n - 1) else ids
  }

  function Selected(rows: Table, now: real, limit: nat): (ids: Ids)
    ensures In(rows, ids)
  {
    var ids := DueIds(rows, now, |rows|);
    if |ids| <= limit then ids else ids[..limit]
  }

  function RecordsOf(rows: Table, ids: Ids): (records: seq<Record>)
    requires In(rows, ids)
    ensures |records| == |ids|
    ensures forall k | 0 <= k < |ids| :: records[k] == Record(ids[k], rows[ids[k]].attempts, rows[ids[k]].observation)
  {
    seq(|ids|, k requires 0 <= k < |ids| => Record(ids[k], rows[ids[k]].attempts, rows[ids[k]].observation))
  }

  function LockedRow(row: Row, now: real): Row {
    row.(status := Sending, lockedAt := Some(Timestamp(now)))
  }

  predicate Mentions(records: seq<Record>, id: nat) {
    exists k | 0 <= k < |records| :: records[k].id == id
  }

  /** All compare-and-set updates of a claim: each record's row is locked if it is still waiting. */
  function Taken(rows: Table, records: seq<Record>, now: real): (taken: Table)
    ensures |taken| == |rows|
    ensures forall i | 0 <= i < |rows| ::
              taken[i] == if Mentions(records, i) && Waiting(rows[i]) then LockedRow(rows[i], now) else rows[i]
  {
    seq(|rows|, i requires 0 <= i < |rows| =>
          if Mentions(records, i) && Waiting(rows[i]) then LockedRow(rows[i], now) else rows[i])
  }

  predicate StillWaiting(rows: Table, record: Record) {
    record.id < |rows| && Waiting(rows[record.id])
  }

  /** The records whose update went through. */
  function Won(rows: Table, records: seq<Record>): seq<Record> {
    if records == [] then []
    else
      var last := records[|records| - 1];
      Won(rows, records[..|records| - 1]) + if StillWaiting(rows, last) then [last] else []
  }

  // ---------------------------------------------------------------------------------------------
  // Marking

  function Power(n: nat): nat {
    if n == 0 then 1 else 2 * Power(n - 1)
  }

  function RetryDelay(attempts: int): int {
    var exponent := if attempts - 1 < 0 then 0 else if attempts - 1 < 6 then attempts - 1 else 6;
    var delay := 5 * Power(exponent);
    if delay < 300 then delay else 300
  }

  function Delivered(rows: Table, id: nat): Table {
    if id < |rows| && rows[id].status == Sending then rows[id := rows[id].(status := Sent, lockedAt := None)] else rows
  }

  function FailedRow(row: Row, record: Record, now: real, maxAttempts: Positive): Row {
    var attempts := record.attempts + 1;
    row.(
    status := if attempts >= maxAttempts then Failed else Retry,
    attempts := attempts,
    nextAttempt := now + RetryDelay(attempts) as real,
    lockedAt := None)
  }

  function FailureMarked(rows: Table, record: Record, now: real, maxAttempts: Positive): Table {
    if record.id < |rows| && rows[record.id].status == Sending then
      rows[record.id := FailedRow(rows[record.id], record, now, maxAttempts)]
    else rows
  }

  /** Delays double from 5 seconds and never exceed 5 minutes. */
  lemma RetryDelayGrows(attempts: int)
    ensures attempts <= 1 ==> RetryDelay(attempts) == 5
    ensures attempts >= 1 ==>
              RetryDelay(attempts + 1) == if RetryDelay(attempts) >= 150 then 300 else 2 * RetryDelay(attempts)
    ensures 5 <= RetryDelay(attempts) <= 300
    ensures RetryDelay(attempts) <= RetryDelay(attempts + 1) <= 2 * RetryDelay(attempts)
    ensures RetryDelay(attempts) == 300 <==> attempts >= 7
  {
    assert Power(6) == 64 && Power(5) == 32 && Power(4) == 16 && Power(3) == 8 && Power(2) == 4 && Power(1) == 2;
  }

  /** The row is not being sent any more; had it not been, it stays as it is, and so do all others. */
  ghost predicate Releases(before: Table, after: Table, id: nat) {
    && |after| == |before|
    && (forall i | 0 <= i < |before| && (i != id || before[i].status != Sending) :: after[i] == before[i])
    && (id < |after| ==> after[id].status != Sending)
  }

  /** Marking settles the row that was being sent: as sent, or as failed for good or to be tried again in time. */
  lemma MarksSettle(rows: Table, record: Record, now: real, maxAttempts: Positive)
    requires record.id < |rows| && rows[record.id].status == Sending
    ensures Releases(rows, Delivered(rows, record.id), record.id)
    ensures Releases(rows, FailureMarked(rows, record, now, maxAttempts), record.id)
    ensures var before, sent := rows[record.id], Delivered(rows, record.id)[record.id];
            sent == before.(status := Sent, lockedAt := None)
    ensures var before, failed := rows[record.id], FailureMarked(rows, record, now, maxAttempts)[record.id];
            && (failed.status == Failed <==> record.attempts + 1 >= maxAttempts)
            && (failed.status != Failed ==> Waiting(failed))
            && failed.nextAttempt == now + RetryDelay(record.attempts + 1) as real
            && now + 5.0 <= failed.nextAttempt <= now + 300.0
            && failed.attempts == record.attempts + 1 && failed.lockedAt == None
            && failed.observation == before.observation && failed.dedupKey == before.dedupKey
  {
    hide RetryDelay;
    RetryDelayGrows(record.attempts + 1);
  }

  // ---------------------------------------------------------------------------------------------
  // What a selection contains

  ghost predicate SortedIds(rows: Table, ids: Ids)
    requires In(rows, ids)
  {
    forall i, j | 0 <= i < j < |ids| :: Before(rows, ids[i], ids[j])
  }

  lemma {:induction false} InsertedIsSorted(rows: Table, ids: Ids, x: nat)
    requires x < |rows| && In(rows, ids) && SortedIds(rows, ids) && x !in ids
    ensures SortedIds(rows, Inserted(rows, ids, x))
    ensures forall y :: y in Inserted(rows, ids, x) <==> y in ids || y == x
  {
    if ids != [] && !Before(rows, x, ids[0]) {
      var rest := ids[1..];
      InsertedIsSorted(rows, rest, x);
      assert ids == [ids[0]] + rest;
      var more := Inserted(rows, rest, x);
      forall k | 0 <= k < |more| ensures Before(rows, ids[0], more[k]) {
        assert more[k] in more;
        if more[k] != x {
          var j :| 0 <= j < |rest| && rest[j] == more[k];
          assert Before(rows, ids[0], ids[j + 1]);
        }
      }
    } else if ids != [] {
      assert ids == [ids[0]] + ids[1..];
    }
  }

  lemma {:induction false} DueIdsAreSorted(rows: Table, now: real, n: nat)
    requires n <= |rows|
    ensures SortedIds(rows, DueIds(rows, now, n))
    ensures forall i: nat | i < |rows| :: i in DueIds(rows, now, n) <==> i < n && Due(rows[i], now)
  {
    hide Due, Before;
    if n > 0 {
      var ids := DueIds(rows, now, n - 1);
      DueIdsAreSorted(rows, now, n - 1);
      if Due(rows[n - 1], now) {
        assert n - 1 !in ids;
        InsertedIsSorted(rows, ids, n - 1);
      }
    }
  }

  ghost predicate Distinct(ids: Ids) {
    forall i, j | 0 <= i < j < |ids| :: ids[i] != ids[j]
  }

  /** A selection holds due rows, each once; a due row that is left out is behind a full batch. */
  lemma SelectedAreFirst(rows: Table, now: real, limit: nat)
    ensures var ids := Selected(rows, now, limit);
            && |ids| <= limit && SortedIds(rows, ids) && Distinct(ids)
            && (forall k | 0 <= k < |ids| :: Due(rows[ids[k]], now))
            && forall i | 0 <= i < |rows| && Due(rows[i], now) && i !in ids ::
                 |ids| == limit && forall k | 0 <= k < |ids| :: Before(rows, ids[k], i)
  {
    DueIdsAreSorted(rows, now, |rows|);
    var all, ids := DueIds(rows, now, |rows|), Selected(rows, now, limit);
    forall k | 0 <= k < |ids| ensures Due(rows[ids[k]], now) {
      assert ids[k] == all[k] && all[k] in all;
    }
    forall i | 0 <= i < |rows| && Due(rows[i], now) && i !in ids
      ensures |ids| == limit && forall k | 0 <= k < |ids| :: Before(rows, ids[k], i)
    {
      assert i in all;
      var j :| 0 <= j < |all| && all[j] == i;
      assert j >= limit;
    }
  }

  // ---------------------------------------------------------------------------------------------
  // What a claim does

  /** The lock is older than a minute. */
  predicate IsStale(row: Row, now: real) {
    row.status == Sending && row.lockedAt.Some? && now - row.lockedAt.value > 60.0
  }

  /** The row may be claimed at this time: it waits and its time has come, or its lock is stale. */
  predicate IsFree(row: Row, now: real) {
    IsStale(row, now) || (row.status in {Pending, Retry} && row.nextAttempt <= now.Floor as real)
  }

  /** The time by which free rows are ordered: a stale one counts as due now. */
  function QueueTime(row: Row, now: real): real {
    if IsStale(row, now) then now.Floor as real else row.nextAttempt
  }

  /** What becomes of a row that is claimed: it is locked now, and keeps its attempts and its observation. */
  predicate IsClaimed(before: Row, after: Row, now: real) {
    && IsFree(before, now)
    && after == before.(status := Sending, lockedAt := Some(now.Floor as real), nextAttempt := QueueTime(before, now))
  }

  /** ... and of one that is not: a stale one waits again, due now; all others stay. */
  predicate IsPassed(before: Row, after: Row, now: real) {
    if IsStale(before, now) then
      after == before.(status := Retry, lockedAt := None, nextAttempt := now.Floor as real)
    else after == before
  }

  predicate Precedes(rows: Table, i: nat, j: nat, now: real)
    requires i < |rows| && j < |rows|
  {
    var x, y := QueueTime(rows[i], now), QueueTime(rows[j], now);
    x < y || (x == y && i < j)
  }

  /** One whole claim: the first free rows, in the order of their times and ids, as many as the limit allows. */
  ghost predicate IsWholeClaim(before: Table, after: Table, claimed: seq<Record>, now: real, limit: nat) {
    && |after| == |before| && |claimed| <= limit
    && (forall k | 0 <= k < |claimed| ::
          && claimed[k].id < |before| && IsClaimed(before[claimed[k].id], after[claimed[k].id], now)
          && claimed[k].attempts == before[claimed[k].id].attempts
          && claimed[k].observation == before[claimed[k].id].observation)
    && (forall j, k | 0 <= j < k < |claimed| :: Precedes(before, claimed[j].id, claimed[k].id, now))
    && (forall i | 0 <= i < |before| && !Mentions(claimed, i) ::
          && IsPassed(before[i], after[i], now)
          && (IsFree(before[i], now) ==>
                |claimed| == limit && forall k | 0 <= k < |claimed| :: Precedes(before, claimed[k].id, i, now)))
  }

  lemma ReleasedRow(row: Row, now: real)
    ensures var released := ReclaimedRow(row, now - LEASE, now);
            && IsPassed(row, released, now) && released.nextAttempt == QueueTime(row, now)
            && released.attempts == row.attempts && released.observation == row.observation
            && (Due(released, now) <==> IsFree(row, now))
            && (Due(released, now) ==> IsClaimed(row, LockedRow(released, now), now))
  {
  }

  lemma ClaimIs(rows: Table, now: real, limit: Positive)
    ensures var released := Reclaimed(rows, now - LEASE, now);
            var records := RecordsOf(released, Selected(released, now, limit));
            IsWholeClaim(rows, Taken(released, records, now), Won(released, records), now, limit)
  {
    hide Selected, Taken, Won, Mentions, Due, ReclaimedRow, LockedRow, IsFree, IsClaimed, IsPassed, QueueTime;
    var released := Reclaimed(rows, now - LEASE, now);
    var ids := Selected(released, now, limit);
    var records := RecordsOf(released, ids);
    SelectedAreFirst(released, now, limit);
    ClaimFacts(released, now, limit);
    AllWon(released, records, now);
    forall i | 0 <= i < |rows|
      ensures released[i] == ReclaimedRow(rows[i], now - LEASE, now) && IsPassed(rows[i], released[i], now)
              && released[i].nextAttempt == QueueTime(rows[i], now)
              && released[i].attempts == rows[i].attempts && released[i].observation == rows[i].observation
              && (Due(released[i], now) <==> IsFree(rows[i], now))
              && (Due(released[i], now) ==> IsClaimed(rows[i], LockedRow(released[i], now), now))
    {
      ReleasedRow(rows[i], now);
    }
    forall i: nat ensures Mentions(records, i) <==> i in ids {
      MentionsIds(released, ids, i);
    }
    var after, claimed := Taken(released, records, now), Won(released, records);
    assert claimed == records;
    assert |claimed| <= limit;
    forall k | 0 <= k < |claimed|
      ensures claimed[k].id < |rows| && IsClaimed(rows[claimed[k].id], after[claimed[k].id], now)
    {
      assert claimed[k].id == ids[k] && Due(released[ids[k]], now);
    }
    forall j, k | 0 <= j < k < |claimed| ensures Precedes(rows, claimed[j].id, claimed[k].id, now) {
      assert Before(released, ids[j], ids[k]);
    }
    forall i | 0 <= i < |rows| && !Mentions(claimed, i)
      ensures IsPassed(rows[i], after[i], now)
      ensures IsFree(rows[i], now) ==>
                |claimed| == limit && forall k | 0 <= k < |claimed| :: Precedes(rows, claimed[k].id, i, now)
    {
      assert i !in ids && after[i] == released[i];
      if IsFree(rows[i], now) {
        forall k | 0 <= k < |claimed| ensures Precedes(rows, claimed[k].id, i, now) {
          assert Before(released, ids[k], i);
        }
      }
    }
  }

  lemma MentionsIds(rows: Table, ids: Ids, i: nat)
    requires In(rows, ids)
    ensures Mentions(RecordsOf(rows, ids), i) <==> i in ids
  {
    if i in ids {
      var k :| 0 <= k < |ids| && ids[k] == i;
      assert RecordsOf(rows, ids)[k].id == i;
    }
  }

  /** Nothing comes between the select and the updates of one transaction: all records are won. */
  lemma {:induction false} AllWon(rows: Table, records: seq<Record>, now: real)
    requires forall k | 0 <= k < |records| :: records[k].id < |rows| && Due(rows[records[k].id], now)
    ensures Won(rows, records) == records
  {
    if records != [] {
      var fewer := records[..|records| - 1];
      AllWon(rows, fewer, now);
      assert records == fewer + [records[|records| - 1]];
    }
  }

  // ---------------------------------------------------------------------------------------------
  // The transactions

  class Database {
    var rows: Table
    var clock: real

    constructor (clock: real)
      ensures rows == [] && this.clock == clock
    {
      rows, this.clock := [], clock;
    }

    /** None stands for a malformed observation; it is refused, and so is any if the database is not available. */
    method Enqueue(dedupKey: string, observation: Option<Observation>, available: bool) returns (accepted: bool)
      modifies this`rows
      ensures accepted <==> observation.Some? && available
      ensures accepted ==> rows == Enqueued(old(rows), dedupKey, observation.value, clock)
      ensures accepted ==> IsEnqueued(old(rows), rows, dedupKey, observation.value, clock)
      ensures UniqueKeys(old(rows)) ==> UniqueKeys(rows)
      ensures !accepted ==> rows == old(rows)
    {
      hide IsEnqueued;
      if observation.None? || !available {
        return false;
      }
      EnqueuedIs(rows, dedupKey, observation.value, clock);
      var i := IndexOf(rows, dedupKey);
      if i == |rows| {
        rows := rows + [Row(dedupKey, observation.value, Pending, 0, Timestamp(clock), None)];
      } else {
        var row := rows[i];
        rows := rows[i := row.(
          attempts := if row.status == Failed then 0 else row.attempts,
          nextAttempt := if row.status == Failed || row.status == Retry then Timestamp(clock) else row.nextAttempt,
          lockedAt := if row.status == Failed then None else row.lockedAt,
          status := if row.status == Failed then Retry else row.status)];
      }
      accepted := true;
    }

    /** One whole claim: stale rows are released, a batch is selected, and every row of it is locked. */
    method Claim(limit: Positive) returns (claimed: seq<Record>)
      modifies this`rows
      ensures var released := Reclaimed(old(rows), clock - LEASE, clock);
              var records := RecordsOf(released, Selected(released, clock, limit));
              rows == Taken(released, records, clock) && claimed == Won(released, records)
      ensures IsWholeClaim(old(rows), rows, claimed, clock, limit)
    {
      ClaimIs(rows, clock, limit);
      hide IsWholeClaim;
      hide Selected, Waiting, Taken, Won, LockedRow, Mentions, Reclaimed;
      rows := Reclaimed(rows, clock - LEASE, clock);
      ghost var released := rows;
      var ids := Selected(rows, clock, limit);
      assert Distinct(ids) by {
        SelectedAreFirst(rows, clock, limit);
      }
      var records := RecordsOf(rows, ids);
      assert DistinctRecords(records);
      claimed := [];
      var k := 0;
      NothingTaken(released, records[..0], clock);
      while k < |records|
        invariant 0 <= k <= |records|
        invariant rows == Taken(released, records[..k], clock)
        invariant claimed == Won(released, records[..k])
      {
        var record := records[k];
        OneMoreTaken(released, records, k, clock);
        OneMoreWon(released, records, k);
        if Waiting(rows[record.id]) {
          rows := rows[record.id := LockedRow(rows[record.id], clock)];
          claimed := claimed + [record];
        } else {
          assert claimed + [] == claimed;
        }
        k := k + 1;
      }
      assert records[..k] == records;
    }

    /** Asks the endpoint about one record; only a 2xx answer with `recorded: true` confirms it. */
    method Post(record: Record) returns (confirmed: bool)
      modifies this`clock
      ensures clock >= old(clock)
    {
      var seconds: real := *;
      if seconds > 0.0 {
        clock := clock + seconds;
      }
      confirmed := *;
    }

    /** Posts one record that is still locked, and marks its row by the answer. */
    method Settle(record: Record, maxAttempts: Positive) returns (confirmed: bool)
      requires record.id < |rows| && rows[record.id].status == Sending
      modifies this
      ensures clock >= old(clock) && |rows| == |old(rows)| && record.id < |rows|
      ensures Settled(old(rows)[record.id], rows[record.id], record, confirmed, maxAttempts, old(clock), clock)
      ensures forall i | 0 <= i < |rows| && i != record.id :: rows[i] == old(rows)[i]
    {
      hide FailedRow, RetryDelay, Settled;
      ghost var locked := rows;
      confirmed := Post(record);
      if confirmed {
        MarkDelivered(record.id);
        SettledByDelivery(locked, record, maxAttempts);
      } else {
        MarkFailure(record, maxAttempts);
        SettledByFailure(locked, record, clock, maxAttempts);
      }
    }

    /**
     Delivers one batch. Every row that was claimed is settled, by its own answer: none stays locked.
     Whatever else happens to the table meanwhile is the subject of another module.
     */
    method Deliver(settings: Settings) returns (claimed: seq<Record>, delivered: nat, ghost confirmed: set<nat>)
      modifies this
      ensures clock >= old(clock) && |rows| == |old(rows)| && delivered == |confirmed|
      ensures var released := Reclaimed(old(rows), old(clock) - LEASE, old(clock));
              && claimed == Won(released, RecordsOf(released, Selected(released, old(clock), settings.batch)))
              && (forall k | 0 <= k < |claimed| ::
                    && claimed[k].id < |rows|
                    && Settled(LockedRow(released[claimed[k].id], old(clock)), rows[claimed[k].id], claimed[k],
                               claimed[k].id in confirmed, settings.maxAttempts, old(clock), clock))
              && (forall i | 0 <= i < |rows| && !Mentions(claimed, i) :: rows[i] == released[i])
      ensures exists locked: Table ::
                && IsWholeClaim(old(rows), locked, claimed, old(clock), settings.batch) && |locked| == |rows|
                && AllSettled(locked, rows, claimed, confirmed, settings.maxAttempts, old(clock), clock)
                && forall i | 0 <= i < |rows| && !Mentions(claimed, i) :: rows[i] == locked[i]
    {
      hide Selected, Taken, Won, LockedRow, Reclaimed, Settled, AllSettled, Mentions, IsWholeClaim;
      ghost var released := Reclaimed(rows, clock - LEASE, clock);
      ghost var records := RecordsOf(released, Selected(released, clock, settings.batch));
      claimed := Claim(settings.batch);
      ghost var locked := rows;
      ghost var now := clock;
      ClaimFacts(released, now, settings.batch);
      delivered, confirmed := 0, {};
      var k := 0;
      NoneMentioned(claimed[..0]);
      NoneSettled(locked, rows, claimed[..0], settings.maxAttempts, clock);
      while k < |claimed|
        invariant 0 <= k <= |claimed| && clock >= old(clock) && |rows| == |locked|
        invariant delivered == |confirmed| && forall id | id in confirmed :: Mentions(claimed[..k], id)
        invariant AllSettled(locked, rows, claimed[..k], confirmed, settings.maxAttempts, old(clock), clock)
        invariant forall i | 0 <= i < |rows| && !Mentions(claimed[..k], i) :: rows[i] == locked[i]
      {
        var record := claimed[k];
        forall id ensures Mentions(claimed[..k + 1], id) <==> Mentions(claimed[..k], id) || record.id == id {
          MentionsOneMore(claimed, k, id);
        }
        NotMentionedBefore(claimed, k);
        ghost var before, were, moment := rows, confirmed, clock;
        var answer := Settle(record, settings.maxAttempts);
        if answer {
          delivered, confirmed := delivered + 1, confirmed + {record.id};
        }
        OneMoreSettled(locked, before, rows, claimed, k, were, answer, settings.maxAttempts, old(clock), moment, clock);
        k := k + 1;
      }
      assert claimed[..k] == claimed;
      assert IsWholeClaim(old(rows), locked, claimed, old(clock), settings.batch);
      SettledEach(locked, rows, claimed, confirmed, settings.maxAttempts, old(clock), clock);
    }

    method MarkDelivered(id: nat)
      modifies this`rows
      ensures rows == Delivered(old(rows), id) && Releases(old(rows), rows, id)
    {
      if id < |rows| && rows[id].status == Sending {
        rows := rows[id := rows[id].(status := Sent, lockedAt := None)];
      }
    }

    method MarkFailure(record: Record, maxAttempts: Positive)
      modifies this`rows
      ensures rows == FailureMarked(old(rows), record, clock, maxAttempts) && Releases(old(rows), rows, record.id)
    {
      var attempts := record.attempts + 1;
      var status := if attempts >= maxAttempts then Failed else Retry;
      var next := clock + RetryDelay(attempts) as real;
      if record.id < |rows| && rows[record.id].status == Sending {
        rows := rows[record.id := rows[record.id].(
          status := status, attempts := attempts, nextAttempt := next, lockedAt := None)];
      }
    }
  }

  /** How a delivery that asked between two times leaves a row that it had claimed. */
  predicate Settled(
      before: Row, after: Row, record: Record, confirmed: bool, maxAttempts: Positive, earliest: real, latest: real)
  {
    if confirmed then after == before.(status := Sent, lockedAt := None)
    else
      && after.dedupKey == before.dedupKey && after.observation == before.observation && after.lockedAt == None
      && after.attempts == record.attempts + 1
      && after.status == (if record.attempts + 1 >= maxAttempts then Failed else Retry)
      && earliest <= after.nextAttempt - RetryDelay(record.attempts + 1) as real <= latest
  }

  /** Every record's row is settled by its own answer. */
  ghost predicate AllSettled(
      locked: Table, rows: Table, claimed: seq<Record>, confirmed: set<nat>, maxAttempts: Positive,
      earliest: real, latest: real)
    requires |rows| == |locked|
  {
    forall j | 0 <= j < |claimed| ::
      && claimed[j].id < |rows|
      && Settled(locked[claimed[j].id], rows[claimed[j].id], claimed[j], claimed[j].id in confirmed, maxAttempts,
                 earliest, latest)
  }

  lemma NoneSettled(locked: Table, rows: Table, claimed: seq<Record>, maxAttempts: Positive, now: real)
    requires |rows| == |locked| && claimed == []
    ensures AllSettled(locked, rows, claimed, {}, maxAttempts, now, now)
  {
  }

  lemma SettledEach(
      locked: Table, rows: Table, claimed: seq<Record>, confirmed: set<nat>, maxAttempts: Positive,
      earliest: real, latest: real)
    requires |rows| == |locked| && AllSettled(locked, rows, claimed, confirmed, maxAttempts, earliest, latest)
    ensures forall k | 0 <= k < |claimed| ::
              && claimed[k].id < |rows|
              && Settled(locked[claimed[k].id], rows[claimed[k].id], claimed[k], claimed[k].id in confirmed,
                         maxAttempts, earliest, latest)
  {
  }

  lemma OneMoreSettled(
      locked: Table, before: Table, after: Table, claimed: seq<Record>, k: nat, confirmed: set<nat>, answer: bool,
      maxAttempts: Positive, start: real, earliest: real, latest: real)
    requires k < |claimed| && DistinctRecords(claimed) && claimed[k].id < |locked|
    requires |before| == |locked| && |after| == |locked| && start <= earliest <= latest
    requires AllSettled(locked, before, claimed[..k], confirmed, maxAttempts, start, earliest)
    requires before[claimed[k].id] == locked[claimed[k].id] && claimed[k].id !in confirmed
    requires Settled(before[claimed[k].id], after[claimed[k].id], claimed[k], answer, maxAttempts, earliest, latest)
    requires forall i | 0 <= i < |after| && i != claimed[k].id :: after[i] == before[i]
    ensures var more := if answer then confirmed + {claimed[k].id} else confirmed;
            AllSettled(locked, after, claimed[..k + 1], more, maxAttempts, start, latest)
  {
    hide Settled;
    var more := if answer then confirmed + {claimed[k].id} else confirmed;
    forall j | 0 <= j < k + 1
      ensures claimed[j].id < |after| &&
              Settled(locked[claimed[j].id], after[claimed[j].id], claimed[j], claimed[j].id in more, maxAttempts,
                      start, latest)
    {
      var record := claimed[j];
      if j < k {
        assert claimed[..k][j] == record;
        SettledLater(locked[record.id], before[record.id], record, record.id in confirmed, maxAttempts,
                     start, earliest, start, latest);
      } else {
        SettledLater(locked[record.id], after[record.id], record, answer, maxAttempts, earliest, latest, start, latest);
      }
    }
  }

  lemma SettledLater(
      before: Row, after: Row, record: Record, confirmed: bool, maxAttempts: Positive, earliest: real, latest: real,
      earlier: real, later: real)
    requires Settled(before, after, record, confirmed, maxAttempts, earliest, latest)
    requires earlier <= earliest && latest <= later
    ensures Settled(before, after, record, confirmed, maxAttempts, earlier, later)
  {
  }

  lemma SettledByDelivery(rows: Table, record: Record, maxAttempts: Positive)
    requires record.id < |rows| && rows[record.id].status == Sending
    ensures var after := Delivered(rows, record.id);
            forall earliest, latest ::
              Settled(rows[record.id], after[record.id], record, true, maxAttempts, earliest, latest)
  {
  }

  lemma SettledByFailure(rows: Table, record: Record, now: real, maxAttempts: Positive)
    requires record.id < |rows| && rows[record.id].status == Sending
    ensures var after := FailureMarked(rows, record, now, maxAttempts);
            forall earliest, latest | earliest <= now <= latest ::
              Settled(rows[record.id], after[record.id], record, false, maxAttempts, earliest, latest)
  {
    hide RetryDelay;
  }

  /** What a claim on a table without stale locks leaves. */
  lemma ClaimFacts(released: Table, now: real, limit: Positive)
    ensures var records := RecordsOf(released, Selected(released, now, limit));
            var claimed, locked := Won(released, records), Taken(released, records, now);
            && DistinctRecords(claimed)
            && (forall k | 0 <= k < |claimed| ::
                  && claimed[k].id < |released| && locked[claimed[k].id].status == Sending
                  && locked[claimed[k].id] == LockedRow(released[claimed[k].id], now))
            && (forall i | 0 <= i < |released| && !Mentions(claimed, i) :: locked[i] == released[i])
  {
    hide Selected, Taken, Mentions;
    SelectedAreFirst(released, now, limit);
    var records := RecordsOf(released, Selected(released, now, limit));
    WonOnce(released, records);
    WonAreLocked(released, records, now);
    forall i | 0 <= i < |released| && Mentions(records, i) && Waiting(released[i])
      ensures Mentions(Won(released, records), i)
    {
      WaitingAreWon(released, records, i);
    }
  }

  lemma {:induction false} WaitingAreWon(rows: Table, records: seq<Record>, i: nat)
    requires i < |rows| && Mentions(records, i) && Waiting(rows[i])
    ensures Mentions(Won(rows, records), i)
  {
    var fewer, last := records[..|records| - 1], records[|records| - 1];
    var won := Won(rows, records);
    if last.id == i {
      assert won[|won| - 1].id == i;
    } else {
      var k :| 0 <= k < |records| && records[k].id == i;
      assert fewer[k].id == i;
      WaitingAreWon(rows, fewer, i);
      var j :| 0 <= j < |Won(rows, fewer)| && Won(rows, fewer)[j].id == i;
      assert won[j].id == i;
    }
  }

  ghost predicate DistinctRecords(records: seq<Record>) {
    forall i, j | 0 <= i < j < |records| :: records[i].id != records[j].id
  }

  lemma {:induction false} WonAreSelected(rows: Table, records: seq<Record>)
    ensures forall k | 0 <= k < |Won(rows, records)| ::
              Won(rows, records)[k] in records && StillWaiting(rows, Won(rows, records)[k])
  {
    if records != [] {
      var fewer := records[..|records| - 1];
      WonAreSelected(rows, fewer);
      assert records == fewer + [records[|records| - 1]];
    }
  }

  /** A claim wins each row once. */
  lemma {:induction false} WonOnce(rows: Table, records: seq<Record>)
    requires DistinctRecords(records)
    ensures DistinctRecords(Won(rows, records))
  {
    hide StillWaiting;
    if records != [] {
      var fewer, last := records[..|records| - 1], records[|records| - 1];
      WonOnce(rows, fewer);
      WonAreSelected(rows, fewer);
      forall k | 0 <= k < |Won(rows, fewer)| ensures Won(rows, fewer)[k].id != last.id {
        var j :| 0 <= j < |fewer| && fewer[j] == Won(rows, fewer)[k];
        assert records[j].id != last.id;
      }
    }
  }

  lemma WonAreLocked(rows: Table, records: seq<Record>, now: real)
    requires DistinctRecords(records)
    ensures var won, taken := Won(rows, records), Taken(rows, records, now);
            forall k | 0 <= k < |won| :: won[k].id < |rows| && taken[won[k].id] == LockedRow(rows[won[k].id], now)
  {
    hide Taken, LockedRow, Waiting;
    WonAreSelected(rows, records);
    var won := Won(rows, records);
    forall k | 0 <= k < |won| ensures won[k].id < |rows| && Mentions(records, won[k].id) {
      var j :| 0 <= j < |records| && records[j] == won[k];
      assert records[j].id == won[k].id;
    }
  }

  lemma NothingTaken(rows: Table, records: seq<Record>, now: real)
    requires records == []
    ensures Taken(rows, records, now) == rows && Won(rows, records) == []
  {
  }

  lemma NoneMentioned(records: seq<Record>)
    requires records == []
    ensures forall id :: !Mentions(records, id)
  {
  }

  lemma NotMentionedBefore(records: seq<Record>, k: nat)
    requires DistinctRecords(records) && k < |records|
    ensures !Mentions(records[..k], records[k].id)
  {
  }

  lemma MentionsOneMore(records: seq<Record>, k: nat, id: nat)
    requires k < |records|
    ensures Mentions(records[..k + 1], id) <==> Mentions(records[..k], id) || records[k].id == id
  {
    if Mentions(records[..k], id) {
      var j :| 0 <= j < k && records[..k][j].id == id;
      assert records[..k + 1][j].id == id;
    }
    assert records[..k + 1][k] == records[k];
  }

  lemma OneMoreWon(rows: Table, records: seq<Record>, k: nat)
    requires k < |records| && records[k].id < |rows|
    ensures Won(rows, records[..k + 1])
         == Won(rows, records[..k]) + if Waiting(rows[records[k].id]) then [records[k]] else []
  {
    hide Waiting;
    assert records[..k + 1][..k] == records[..k];
  }

  lemma OneMoreTaken(rows: Table, records: seq<Record>, k: nat, now: real)
    requires k < |records| && records[k].id < |rows| && DistinctRecords(records)
    ensures var before, id := Taken(rows, records[..k], now), records[k].id;
            && before[id] == rows[id]
            && Taken(rows, records[..k + 1], now)
               == if Waiting(rows[id]) then before[id := LockedRow(rows[id], now)] else before
  {
    var before, after, id := Taken(rows, records[..k], now), Taken(rows, records[..k + 1], now), records[k].id;
    NotMentionedBefore(records, k);
    hide Waiting, LockedRow, Mentions, Taken, DistinctRecords;
    MentionsOneMore(records, k, id);
    forall i | 0 <= i < |rows| && i != id ensures after[i] == before[i] {
      MentionsOneMore(records, k, i);
    }
    assert after[id] == if Waiting(rows[id]) then LockedRow(rows[id], now) else before[id];
    assert after == if Waiting(rows[id]) then before[id := LockedRow(rows[id], now)] else before;
  }
}
