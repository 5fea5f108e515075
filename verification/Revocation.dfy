/**
 The queue of tokens that are to be revoked once they have expired: its transactions, and the jobs
 that work on it while tokens are enqueued and processes crash. Tokens are known by their hashes.
 */
module Revocation {
  import opened Common
  import Outbox
  import OutboxProtocol

  type Positive = Outbox.Positive

  datatype Status = Pending | Retry | Revoked | Failed

  datatype Details = Details(username: string, reservationKey: string, jwtJti: string, gatewayId: string)

  datatype Row = Row(
    tokenHash: string, details: Details, expiresAt: int,
    status: Status, attempts: nat, nextAttempt: int, observed: bool)

  type Queue = seq<Row>

  const LIMIT := 100

  predicate Waiting(row: Row) {
    row.status == Pending || row.status == Retry
  }

  // ---------------------------------------------------------------------------------------------
  // The transactions

  function IndexOf(rows: Queue, tokenHash: string): (i: nat)
    ensures i <= |rows| && (i < |rows| ==> rows[i].tokenHash == tokenHash)
    ensures forall j | 0 <= j < i :: rows[j].tokenHash != tokenHash
  {
    if rows == [] || rows[0].tokenHash == tokenHash then 0 else 1 + IndexOf(rows[1..], tokenHash)
  }

  /** A revoked token stays as it is; a failed one gets a fresh start. */
  function Renewed(row: Row, details: Details, expiresAt: int, now: int): Row {
    if row.status == Revoked then row
    else
      var updated := row.(details := details, expiresAt := expiresAt);
      if row.status == Failed then updated.(status := Retry, attempts := 0, nextAttempt := now) else updated
  }

  function Enqueued(rows: Queue, tokenHash: string, details: Details, expiresAt: int, now: int): Queue {
    var i := IndexOf(rows, tokenHash);
    if i < |rows| then rows[i := Renewed(rows[i], details, expiresAt, now)]
    else rows + [Row(tokenHash, details, expiresAt, Pending, 0, now, false)]
  }

  ghost predicate HasHash(rows: Queue, tokenHash: string) {
    exists i :: 0 <= i < |rows| && rows[i].tokenHash == tokenHash
  }

  /** A new token waits to be revoked, by its details, from the time it expires; nothing is known about its use. */
  predicate IsNew(row: Row, tokenHash: string, details: Details, expiresAt: int, now: int) {
    && row.tokenHash == tokenHash && row.details == details && row.expiresAt == expiresAt
    && row.status == Pending && row.attempts == 0 && row.nextAttempt == now && !row.observed
  }

  /** What enqueueing again does to a token: nothing once it is revoked; a failed one may be tried again at once. */
  predicate IsRenewed(before: Row, after: Row, details: Details, expiresAt: int, now: int) {
    match before.status
    case Revoked => after == before
    case Failed =>
      && after.details == details && after.expiresAt == expiresAt && after.tokenHash == before.tokenHash
      && after.status == Retry && after.attempts == 0 && after.nextAttempt == now && after.observed == before.observed
    case _ => after == before.(details := details, expiresAt := expiresAt)
  }

  /** What an accepted token does to the queue: one more row if it is new; else its row is renewed. */
  ghost predicate IsEnqueued(
      before: Queue, after: Queue, tokenHash: string, details: Details, expiresAt: int, now: int)
  {
    if HasHash(before, tokenHash) then
      && |after| == |before|
      && exists i ::
        && 0 <= i < |before| && before[i].tokenHash == tokenHash
        && IsRenewed(before[i], after[i], details, expiresAt, now)
        && forall j | 0 <= j < |before| && j != i :: after[j] == before[j]
    else
      && |after| == |before| + 1 && after[..|before|] == before
      && IsNew(after[|before|], tokenHash, details, expiresAt, now)
  }

  lemma EnqueuedIs(rows: Queue, tokenHash: string, details: Details, expiresAt: int, now: int)
    ensures var after := Enqueued(rows, tokenHash, details, expiresAt, now);
            IsEnqueued(rows, after, tokenHash, details, expiresAt, now)
    ensures UniqueHashes(rows) ==> UniqueHashes(Enqueued(rows, tokenHash, details, expiresAt, now))
  {
    hide IndexOf;
    var i, after := IndexOf(rows, tokenHash), Enqueued(rows, tokenHash, details, expiresAt, now);
    if i < |rows| {
      assert rows[i].tokenHash == tokenHash && IsRenewed(rows[i], after[i], details, expiresAt, now);
      assert forall j | 0 <= j < |rows| && j != i :: after[j] == rows[j];
    }
  }

  predicate Expired(row: Row, now: int) {
    Waiting(row) && row.expiresAt <= now && row.nextAttempt <= now
  }

  type Ids = seq<nat>

  predicate Has(ids: Ids, i: nat) {
    i in ids
  }

  /** What the job may select: at most 100 of the expired rows, the longest expired first. */
  ghost predicate IsSelection(rows: Queue, now: int, ids: Ids) {
    && |ids| <= LIMIT
    && (forall k | 0 <= k < |ids| :: ids[k] < |rows| && Expired(rows[ids[k]], now))
    && (forall j, k | 0 <= j < k < |ids| :: ids[j] != ids[k] && rows[ids[j]].expiresAt <= rows[ids[k]].expiresAt)
    && (forall i | 0 <= i < |rows| && Expired(rows[i], now) && !Has(ids, i) ::
          |ids| == LIMIT && forall k | 0 <= k < |ids| :: rows[ids[k]].expiresAt <= rows[i].expiresAt)
  }

  /** The token may be asked for: its time is over, and so is the time to the next attempt. */
  predicate MayBeAsked(row: Row, now: int) {
    row.status in {Pending, Retry} && row.expiresAt <= now && row.nextAttempt <= now
  }

  /** No token is selected before it expires, and none that has expired is left out but for a full batch of 100. */
  lemma SelectedMayBeAsked(rows: Queue, now: int, ids: Ids)
    requires IsSelection(rows, now, ids)
    ensures |ids| <= 100 && forall k | 0 <= k < |ids| :: ids[k] < |rows| && MayBeAsked(rows[ids[k]], now)
    ensures forall j, k | 0 <= j < k < |ids| :: ids[j] != ids[k] && rows[ids[j]].expiresAt <= rows[ids[k]].expiresAt
    ensures forall i: nat | i < |rows| && MayBeAsked(rows[i], now) ::
              i in ids || (|ids| == 100 && forall k | 0 <= k < |ids| :: rows[ids[k]].expiresAt <= rows[i].expiresAt)
  {
    forall i: nat | i < |rows| && MayBeAsked(rows[i], now)
      ensures i in ids || (|ids| == 100 && forall k | 0 <= k < |ids| :: rows[ids[k]].expiresAt <= rows[i].expiresAt)
    {
      assert Expired(rows[i], now) && (Has(ids, i) <==> i in ids);
    }
  }

  datatype Record = Record(tokenHash: string, attempts: nat)

  function RecordsOf(rows: Queue, ids: Ids): (records: seq<Record>)
    requires forall k | 0 <= k < |ids| :: ids[k] < |rows|
    ensures |records| == |ids|
    ensures forall k | 0 <= k < |ids| :: records[k] == Record(rows[ids[k]].tokenHash, rows[ids[k]].attempts)
  {
    seq(|ids|, k requires 0 <= k < |ids| => Record(rows[ids[k]].tokenHash, rows[ids[k]].attempts))
  }

  /** The updates after an answer look at nothing but the hash. */
  function MarkedRevoked(rows: Queue, record: Record): Queue {
    var i := IndexOf(rows, record.tokenHash);
    if i < |rows| then rows[i := rows[i].(status := Revoked, attempts := record.attempts + 1)] else rows
  }

  function FailedRow(row: Row, record: Record, now: int, maxAttempts: Positive): Row {
    var attempts := record.attempts + 1;
    row.(
    status := if attempts >= maxAttempts then Failed else Retry,
    attempts := attempts,
    nextAttempt := now + Outbox.RetryDelay(attempts))
  }

  function MarkedFailed(rows: Queue, record: Record, now: int, maxAttempts: Positive): Queue {
    var i := IndexOf(rows, record.tokenHash);
    if i < |rows| then rows[i := FailedRow(rows[i], record, now, maxAttempts)] else rows
  }

  function MarkedObserved(rows: Queue, tokenHash: string): Queue {
    var i := IndexOf(rows, tokenHash);
    if i < |rows| then rows[i := rows[i].(observed := true)] else rows
  }

  /** The evidence about a token, with the details that were read when reconciling began. */
  function ObservationOf(tokenHash: string, details: Details, observedAt: int): Outbox.Observation {
    Outbox.Observation(details.reservationKey, details.jwtJti, "guac:" + tokenHash,
                       details.gatewayId, "guacamole", observedAt)
  }

  /** The queue as the worker's functions change it, one transaction a call. */
  class RevocationQueue {
    var rows: Queue
    var clock: int

    constructor (clock: int)
      ensures rows == [] && this.clock == clock
    {
      rows, this.clock := [], clock;
    }

    /** None stands for a payload that lacks a field; it is refused, and so is any if the database is not available. */
    method Enqueue(tokenHash: string, details: Option<Details>, expiresAt: int, available: bool)
      returns (accepted: bool)
      modifies this`rows
      ensures accepted <==> details.Some? && available
      ensures accepted ==> rows == Enqueued(old(rows), tokenHash, details.value, expiresAt, clock)
      ensures accepted ==> IsEnqueued(old(rows), rows, tokenHash, details.value, expiresAt, clock)
      ensures UniqueHashes(old(rows)) ==> UniqueHashes(rows)
      ensures !accepted ==> rows == old(rows)
    {
      hide IsEnqueued;
      if details.None? || !available {
        return false;
      }
      EnqueuedIs(rows, tokenHash, details.value, expiresAt, clock);
      var i := IndexOf(rows, tokenHash);
      if i == |rows| {
        rows := rows + [Row(tokenHash, details.value, expiresAt, Pending, 0, clock, false)];
      } else if rows[i].status != Revoked {
        var row := rows[i];
        rows := rows[i := row.(
          details := details.value,
          expiresAt := expiresAt,
          attempts := if row.status == Failed then 0 else row.attempts,
          nextAttempt := if row.status == Failed then clock else row.nextAttempt,
          status := if row.status == Failed then Retry else row.status)];
      }
      accepted := true;
    }

    /** Once evidence about a token has been accepted by the outbox. */
    method SetObserved(tokenHash: string)
      modifies this`rows
      ensures rows == MarkedObserved(old(rows), tokenHash)
    {
      var i := IndexOf(rows, tokenHash);
      if i < |rows| && !rows[i].observed {
        rows := rows[i := rows[i].(observed := true)];
      }
    }

    /** Handles one selected row: asks for the token's deletion, and marks the row by the answer. */
    method Process(record: Record, answer: Option<int>, maxAttempts: Positive) returns (revoked: bool)
      modifies this`rows
      ensures revoked <==> answer == Some(204) || answer == Some(404)
      ensures rows == if revoked then MarkedRevoked(old(rows), record)
                      else MarkedFailed(old(rows), record, clock, maxAttempts)
    {
      var attempts := record.attempts + 1;
      var i := IndexOf(rows, record.tokenHash);
      revoked := answer == Some(204) || answer == Some(404);
      if i == |rows| {
        return;
      }
      if revoked {
        rows := rows[i := rows[i].(status := Revoked, attempts := attempts)];
      } else {
        var status := if attempts >= maxAttempts then Failed else Retry;
        rows := rows[i := rows[i].(
          status := status, attempts := attempts, nextAttempt := clock + Outbox.RetryDelay(attempts))];
      }
    }
  }

  // ---------------------------------------------------------------------------------------------
  // Jobs, enqueues and crashes

  /** A job works on the first record that is left; `gone` says that its token has been answered for. */
  datatype Job = Job(left: seq<Record>, gone: bool)

  /** `answered` are the tokens for which Guacamole has said 204 or 404; `accepted` is what reconciling may mark. */
  datatype World = World(
    rows: Queue, outbox: Outbox.Table, clock: int, jobs: seq<Job>, answered: set<string>, accepted: set<string>)

  datatype Step =
    | Enqueue(tokenHash: string, details: Details, expiresAt: int)
    | Look(j: nat, ids: Ids)
    | Answer(j: nat, code: int)
    | MarkRevoked(j: nat)
    | MarkFailed(j: nat)
    | Crash(j: nat)
    | Reconcile(i: nat, details: Details, observedAt: int)
    | MarkObserved(tokenHash: string)
    | OutboxMoves(outbox: Outbox.Table)
    | Tick(seconds: nat)

  predicate Contains(outbox: Outbox.Table, dedupKey: string) {
    exists i | 0 <= i < |outbox| :: outbox[i].dedupKey == dedupKey
  }

  /** The outbox, whatever else it does, loses no row: its own protocol keeps every key. */
  ghost predicate KeepsKeys(before: Outbox.Table, after: Outbox.Table) {
    |before| <= |after| && forall i | 0 <= i < |before| :: after[i].dedupKey == before[i].dedupKey
  }

  /** And so it does, in every step of every worker. */
  lemma OutboxKeepsKeys(world: OutboxProtocol.World, step: OutboxProtocol.Step, settings: Outbox.Settings)
    requires OutboxProtocol.Invariant(world, settings) && OutboxProtocol.Enabled(world, step)
    ensures KeepsKeys(world.rows, OutboxProtocol.Next(world, step, settings).rows)
  {
    hide OutboxProtocol.Invariant, OutboxProtocol.Enabled, OutboxProtocol.Next;
    OutboxProtocol.StepKeepsInvariant(world, step, settings);
    var after := OutboxProtocol.Next(world, step, settings).rows;
    forall i | 0 <= i < |world.rows| ensures after[i].dedupKey == world.rows[i].dedupKey {
      assert OutboxProtocol.Continues(world.rows[i], after[i]);
    }
  }

  ghost predicate Enabled(world: World, step: Step) {
    match step
    case Look(j, ids) => j < |world.jobs| && world.jobs[j].left == [] && IsSelection(world.rows, world.clock, ids)
    case Answer(j, _) => j < |world.jobs| && world.jobs[j].left != []
    case MarkRevoked(j) => j < |world.jobs| && world.jobs[j].left != [] && world.jobs[j].gone
    case MarkFailed(j) => j < |world.jobs| && world.jobs[j].left != []
    case Crash(j) => j < |world.jobs|
    case Reconcile(i, _, _) => i < |world.rows|
    case MarkObserved(tokenHash) => tokenHash in world.accepted
    case OutboxMoves(outbox) => KeepsKeys(world.outbox, outbox)
    case _ => true
  }

  ghost function NextRows(world: World, step: Step, maxAttempts: Positive): Queue
    requires Enabled(world, step)
  {
    match step
    case Enqueue(tokenHash, details, expiresAt) => Enqueued(world.rows, tokenHash, details, expiresAt, world.clock)
    case MarkRevoked(j) => MarkedRevoked(world.rows, world.jobs[j].left[0])
    case MarkFailed(j) => MarkedFailed(world.rows, world.jobs[j].left[0], world.clock, maxAttempts)
    case MarkObserved(tokenHash) => MarkedObserved(world.rows, tokenHash)
    case _ => world.rows
  }

  ghost function NextJobs(world: World, step: Step): seq<Job>
    requires Enabled(world, step)
  {
    match step
    case Look(j, ids) => world.jobs[j := Job(RecordsOf(world.rows, ids), false)]
    case Answer(j, code) => world.jobs[j := Job(world.jobs[j].left, code == 204 || code == 404)]
    case MarkRevoked(j) => world.jobs[j := Job(world.jobs[j].left[1..], false)]
    case MarkFailed(j) => world.jobs[j := Job(world.jobs[j].left[1..], false)]
    case Crash(j) => world.jobs[j := Job([], false)]
    case _ => world.jobs
  }

  ghost function Next(world: World, step: Step, maxAttempts: Positive): World
    requires Enabled(world, step)
  {
    World(
      NextRows(world, step, maxAttempts),
      match step
      case Reconcile(i, details, observedAt) =>
        var tokenHash := world.rows[i].tokenHash;
        Outbox.Enqueued(world.outbox, tokenHash, ObservationOf(tokenHash, details, observedAt), world.clock as real)
      case OutboxMoves(outbox) => outbox
      case _ => world.outbox,
      if step.Tick? then world.clock + step.seconds else world.clock,
      NextJobs(world, step),
      if step.Answer? && (step.code == 204 || step.code == 404) then
        world.answered + {world.jobs[step.j].left[0].tokenHash}
      else world.answered,
      if step.Reconcile? then world.accepted + {world.rows[step.i].tokenHash} else world.accepted)
  }

  // ---------------------------------------------------------------------------------------------
  // What every step keeps, with at most one job at a time

  predicate RowOk(row: Row, answered: set<string>, maxAttempts: Positive) {
    && (Waiting(row) ==> row.attempts < maxAttempts)
    && (row.status == Failed ==> row.attempts == maxAttempts)
    && (row.status == Revoked ==> 1 <= row.attempts <= maxAttempts && row.tokenHash in answered)
  }

  ghost predicate RowsOk(rows: Queue, answered: set<string>, maxAttempts: Positive) {
    && (forall i | 0 <= i < |rows| :: RowOk(rows[i], answered, maxAttempts))
    && UniqueHashes(rows)
  }

  /** The row of a record still waits, with the attempts that were read. */
  predicate Current(rows: Queue, record: Record) {
    var i := IndexOf(rows, record.tokenHash);
    i < |rows| && Waiting(rows[i]) && rows[i].attempts == record.attempts
  }

  ghost predicate JobOk(rows: Queue, job: Job, answered: set<string>) {
    && (forall k | 0 <= k < |job.left| :: Current(rows, job.left[k]))
    && (forall k, l | 0 <= k < l < |job.left| :: job.left[k].tokenHash != job.left[l].tokenHash)
    && (job.gone ==> job.left != [] && job.left[0].tokenHash in answered)
  }

  ghost predicate ObservedOk(rows: Queue, outbox: Outbox.Table, accepted: set<string>) {
    && (forall tokenHash | tokenHash in accepted :: Contains(outbox, tokenHash))
    && (forall i | 0 <= i < |rows| && rows[i].observed :: Contains(outbox, rows[i].tokenHash))
  }

  ghost predicate Invariant(world: World, maxAttempts: Positive) {
    && RowsOk(world.rows, world.answered, maxAttempts)
    && |world.jobs| <= 1 && (forall j | 0 <= j < |world.jobs| :: JobOk(world.rows, world.jobs[j], world.answered))
    && ObservedOk(world.rows, world.outbox, world.accepted)
  }

  /** A revoked token is left alone, but for the mark that it was observed; marks stay. */
  predicate Continues(before: Row, after: Row) {
    && after.tokenHash == before.tokenHash && (before.observed ==> after.observed)
    && (before.status == Revoked ==> after == before.(observed := after.observed))
  }

  ghost predicate Grows(before: Queue, after: Queue) {
    |before| <= |after| && forall i | 0 <= i < |before| :: Continues(before[i], after[i])
  }

  /** With unique hashes, a row is found by its own hash. */
  lemma {:induction false} FoundAt(rows: Queue, i: nat)
    requires i < |rows| && UniqueHashes(rows)
    ensures IndexOf(rows, rows[i].tokenHash) == i
  {
    hide IndexOf;
  }

  /** A change of one row that keeps its hash does not disturb the search for another. */
  lemma {:induction false} IndexStays(rows: Queue, i: nat, row: Row, tokenHash: string)
    requires i < |rows| && row.tokenHash == rows[i].tokenHash
    ensures IndexOf(rows[i := row], tokenHash) == IndexOf(rows, tokenHash)
  {
    if i > 0 && rows[0].tokenHash != tokenHash {
      assert rows[i := row][1..] == rows[1..][i - 1 := row];
      IndexStays(rows[1..], i - 1, row, tokenHash);
    } else {
      assert rows[i := row][1..] == if i == 0 then rows[1..] else rows[1..][i - 1 := row];
    }
  }

  lemma {:induction false} IndexInMore(rows: Queue, row: Row, tokenHash: string)
    requires IndexOf(rows, tokenHash) < |rows|
    ensures IndexOf(rows + [row], tokenHash) == IndexOf(rows, tokenHash)
  {
    if rows[0].tokenHash != tokenHash {
      assert (rows + [row])[1..] == rows[1..] + [row];
      IndexInMore(rows[1..], row, tokenHash);
    }
  }

  ghost predicate UniqueHashes(rows: Queue) {
    forall i, j | 0 <= i < j < |rows| :: rows[i].tokenHash != rows[j].tokenHash
  }

  /** No other row differs, and this one only in how its revocation stands. */
  ghost predicate OnlyStands(before: Queue, after: Queue, i: nat) {
    && |after| == |before| && i < |before|
    && (forall j | 0 <= j < |before| && j != i :: after[j] == before[j])
    && after[i] == before[i].(status := after[i].status, attempts := after[i].attempts,
       nextAttempt := after[i].nextAttempt)
  }

  /** An answer settles the token's own row: revoked, or failed for good, or to be tried again in time. */
  lemma ProcessedRow(rows: Queue, i: nat, record: Record, now: int, maxAttempts: Positive)
    requires UniqueHashes(rows) && i < |rows| && rows[i].tokenHash == record.tokenHash && record.attempts < maxAttempts
    ensures var revoked, failed := MarkedRevoked(rows, record), MarkedFailed(rows, record, now, maxAttempts);
            && OnlyStands(rows, revoked, i) && OnlyStands(rows, failed, i)
            && revoked[i].status == Revoked && revoked[i].nextAttempt == rows[i].nextAttempt
            && (failed[i].status == Failed <==> failed[i].attempts == maxAttempts)
            && (failed[i].status != Failed ==> Waiting(failed[i]))
            && failed[i].nextAttempt == now + Outbox.RetryDelay(record.attempts + 1)
            && now + 5 <= failed[i].nextAttempt <= now + 300
            && revoked[i].attempts == failed[i].attempts == record.attempts + 1
  {
    hide IndexOf, Outbox.RetryDelay;
    FoundAt(rows, i);
    Outbox.RetryDelayGrows(record.attempts + 1);
  }

  /** A mark may come before or after an answer; it makes no difference, and a second one neither. */
  lemma ObservedCommutes(rows: Queue, tokenHash: string, record: Record, now: int, maxAttempts: Positive)
    ensures MarkedObserved(MarkedRevoked(rows, record), tokenHash)
            == MarkedRevoked(MarkedObserved(rows, tokenHash), record)
    ensures MarkedObserved(MarkedFailed(rows, record, now, maxAttempts), tokenHash)
         == MarkedFailed(MarkedObserved(rows, tokenHash), record, now, maxAttempts)
    ensures MarkedObserved(MarkedObserved(rows, tokenHash), tokenHash) == MarkedObserved(rows, tokenHash)
    ensures forall i | 0 <= i < |rows| && rows[i].tokenHash == tokenHash && UniqueHashes(rows) ::
              MarkedObserved(rows, tokenHash) == rows[i := rows[i].(observed := true)]
  {
    hide IndexOf, Outbox.RetryDelay;
    forall i | 0 <= i < |rows| && rows[i].tokenHash == tokenHash && UniqueHashes(rows)
      ensures MarkedObserved(rows, tokenHash) == rows[i := rows[i].(observed := true)]
    {
      FoundAt(rows, i);
    }
    var i, j := IndexOf(rows, tokenHash), IndexOf(rows, record.tokenHash);
    if j < |rows| {
      IndexStays(rows, j, rows[j].(status := Revoked, attempts := record.attempts + 1), tokenHash);
      IndexStays(rows, j, FailedRow(rows[j], record, now, maxAttempts), tokenHash);
    }
    if i < |rows| {
      IndexStays(rows, i, rows[i].(observed := true), record.tokenHash);
      IndexStays(rows, i, rows[i].(observed := true), tokenHash);
    }
  }

  /** What is still to be done stays current while other rows change, and while waiting rows are renewed. */
  lemma ChangeKeepsCurrent(rows: Queue, i: nat, row: Row, record: Record)
    requires i < |rows| && row.tokenHash == rows[i].tokenHash && Current(rows, record)
    requires rows[i].tokenHash == record.tokenHash ==> Waiting(row) && row.attempts == rows[i].attempts
    ensures Current(rows[i := row], record)
  {
    IndexStays(rows, i, row, record.tokenHash);
  }

  lemma EnqueueKeepsCurrent(rows: Queue, tokenHash: string, details: Details, expiresAt: int, now: int, record: Record)
    requires Current(rows, record)
    ensures Current(Enqueued(rows, tokenHash, details, expiresAt, now), record)
  {
    hide IndexOf;
    var i := IndexOf(rows, tokenHash);
    if i < |rows| {
      ChangeKeepsCurrent(rows, i, Renewed(rows[i], details, expiresAt, now), record);
    } else {
      IndexInMore(rows, Row(tokenHash, details, expiresAt, Pending, 0, now, false), record.tokenHash);
    }
  }

  /** A changed row that is still in order leaves the table in order. */
  lemma ChangeKeepsRows(rows: Queue, i: nat, row: Row, answered: set<string>, maxAttempts: Positive)
    requires RowsOk(rows, answered, maxAttempts) && i < |rows|
    requires Continues(rows[i], row) && RowOk(row, answered, maxAttempts)
    ensures RowsOk(rows[i := row], answered, maxAttempts) && Grows(rows, rows[i := row])
  {
    hide RowOk;
  }

  lemma RowsKept(world: World, step: Step, maxAttempts: Positive)
    requires Invariant(world, maxAttempts) && Enabled(world, step)
    ensures RowsOk(NextRows(world, step, maxAttempts), world.answered, maxAttempts)
    ensures Grows(world.rows, NextRows(world, step, maxAttempts))
  {
    hide IndexOf, IsSelection, Contains, KeepsKeys, Outbox.RetryDelay;
    var rows := world.rows;
    match step {
      case Enqueue(tokenHash, details, expiresAt) =>
        var i := IndexOf(rows, tokenHash);
        if i < |rows| {
          ChangeKeepsRows(rows, i, Renewed(rows[i], details, expiresAt, world.clock), world.answered, maxAttempts);
        }
      case MarkRevoked(j) =>
        var record := world.jobs[j].left[0];
        var i := IndexOf(rows, record.tokenHash);
        assert Current(rows, record);
        var revoked := rows[i].(status := Revoked, attempts := record.attempts + 1);
        ChangeKeepsRows(rows, i, revoked, world.answered, maxAttempts);
      case MarkFailed(j) =>
        var record := world.jobs[j].left[0];
        var i := IndexOf(rows, record.tokenHash);
        assert Current(rows, record);
        ChangeKeepsRows(rows, i, FailedRow(rows[i], record, world.clock, maxAttempts), world.answered, maxAttempts);
      case MarkObserved(tokenHash) =>
        var i := IndexOf(rows, tokenHash);
        if i < |rows| {
          ChangeKeepsRows(rows, i, rows[i].(observed := true), world.answered, maxAttempts);
        }
      case _ =>
    }
  }

  lemma SelectionIsCurrent(rows: Queue, now: int, ids: Ids)
    requires IsSelection(rows, now, ids) && UniqueHashes(rows)
    ensures JobOk(rows, Job(RecordsOf(rows, ids), false), {})
  {
    hide IndexOf;
    forall k | 0 <= k < |ids| ensures Current(rows, RecordsOf(rows, ids)[k]) {
      FoundAt(rows, ids[k]);
    }
    forall k, l | 0 <= k < l < |ids| ensures rows[ids[k]].tokenHash != rows[ids[l]].tokenHash {
      FoundAt(rows, ids[k]);
      FoundAt(rows, ids[l]);
    }
  }

  lemma JobKept(world: World, step: Step, maxAttempts: Positive, j: nat)
    requires Invariant(world, maxAttempts) && Enabled(world, step) && j < |world.jobs|
    ensures var next := Next(world, step, maxAttempts);
            |next.jobs| == |world.jobs| && JobOk(next.rows, next.jobs[j], next.answered)
  {
    hide IndexOf, Contains, KeepsKeys, Outbox.RetryDelay, ObservedOk, RowOk, Current, IsSelection;
    var next, rows, job := Next(world, step, maxAttempts), world.rows, world.jobs[j];
    assert JobOk(rows, job, world.answered);
    if step.Look? {
      SelectionIsCurrent(rows, world.clock, step.ids);
    } else {
      forall k | 0 <= k < |next.jobs[j].left| ensures Current(next.rows, next.jobs[j].left[k]) {
        var first := if step.MarkRevoked? || step.MarkFailed? then k + 1 else k;
        assert next.jobs[j].left[k] == job.left[first];
        RecordKept(world, step, maxAttempts, job.left[first]);
      }
    }
  }

  /** A record stays current in every step but the one that deals with it. */
  lemma RecordKept(world: World, step: Step, maxAttempts: Positive, record: Record)
    requires Enabled(world, step) && Current(world.rows, record)
    requires step.MarkRevoked? || step.MarkFailed? ==> world.jobs[step.j].left[0].tokenHash != record.tokenHash
    ensures Current(NextRows(world, step, maxAttempts), record)
  {
    hide IndexOf, Contains, KeepsKeys, Outbox.RetryDelay, IsSelection;
    var rows := world.rows;
    match step {
      case Enqueue(tokenHash, details, expiresAt) =>
        EnqueueKeepsCurrent(rows, tokenHash, details, expiresAt, world.clock, record);
      case MarkRevoked(j) =>
        var done := world.jobs[j].left[0];
        var i := IndexOf(rows, done.tokenHash);
        if i < |rows| {
          ChangeKeepsCurrent(rows, i, rows[i].(status := Revoked, attempts := done.attempts + 1), record);
        }
      case MarkFailed(j) =>
        var done := world.jobs[j].left[0];
        var i := IndexOf(rows, done.tokenHash);
        if i < |rows| {
          ChangeKeepsCurrent(rows, i, FailedRow(rows[i], done, world.clock, maxAttempts), record);
        }
      case MarkObserved(tokenHash) =>
        var i := IndexOf(rows, tokenHash);
        if i < |rows| {
          SameRowIsCurrent(rows, i, record);
          ChangeKeepsCurrent(rows, i, rows[i].(observed := true), record);
        }
      case _ =>
    }
  }

  /** The row that a search for the record's hash finds is the waiting one. */
  lemma SameRowIsCurrent(rows: Queue, i: nat, record: Record)
    requires Current(rows, record) && i < |rows| && i == IndexOf(rows, rows[i].tokenHash)
    ensures rows[i].tokenHash == record.tokenHash ==> Waiting(rows[i]) && rows[i].attempts == record.attempts
  {
    hide IndexOf;
  }

  lemma ObservedKept(world: World, step: Step, maxAttempts: Positive)
    requires Invariant(world, maxAttempts) && Enabled(world, step)
    ensures var next := Next(world, step, maxAttempts);
            ObservedOk(next.rows, next.outbox, next.accepted)
  {
    hide IndexOf, RowOk, Current, JobOk, IsSelection, Outbox.IndexOf, Outbox.RetryDelay;
    var next := Next(world, step, maxAttempts);
    forall key | Contains(world.outbox, key) ensures Contains(next.outbox, key) {
      var i :| 0 <= i < |world.outbox| && world.outbox[i].dedupKey == key;
      assert next.outbox[i].dedupKey == key;
    }
    if step.Reconcile? {
      var tokenHash := world.rows[step.i].tokenHash;
      EnqueuedContains(world.outbox, tokenHash, ObservationOf(tokenHash, step.details, step.observedAt),
          world.clock as real);
    }
    hide Contains;
  }

  /** Evidence about a token that the outbox does not have: a row under its hash, with the details that were read. */
  lemma ReconciledRow(world: World, i: nat, details: Details, observedAt: int, maxAttempts: Positive)
    requires i < |world.rows| && !Contains(world.outbox, world.rows[i].tokenHash)
    ensures Enabled(world, Reconcile(i, details, observedAt))
    ensures var tokenHash := world.rows[i].tokenHash;
            var after := Next(world, Reconcile(i, details, observedAt), maxAttempts).outbox;
            && |after| == |world.outbox| + 1 && after[..|world.outbox|] == world.outbox
            && Outbox.IsNew(after[|world.outbox|], tokenHash, after[|world.outbox|].observation, world.clock as real)
            && var observation := after[|world.outbox|].observation;
               && observation.reservationKey == details.reservationKey && observation.jwtJti == details.jwtJti
               && observation.gatewayId == details.gatewayId && observation.sessionId == "guac:" + tokenHash
               && observation.accessType == "guacamole" && observation.observedAt == observedAt
  {
    var tokenHash := world.rows[i].tokenHash;
    Outbox.EnqueuedIs(world.outbox, tokenHash, ObservationOf(tokenHash, details, observedAt), world.clock as real);
  }

  lemma EnqueuedContains(outbox: Outbox.Table, dedupKey: string, observation: Outbox.Observation, now: real)
    ensures Contains(Outbox.Enqueued(outbox, dedupKey, observation, now), dedupKey)
  {
    var i := Outbox.IndexOf(outbox, dedupKey);
    assert Outbox.Enqueued(outbox, dedupKey, observation, now)[i].dedupKey == dedupKey;
  }

  /** The invariant is inductive, and no step takes a revoked token back. */
  lemma StepKeepsInvariant(world: World, step: Step, maxAttempts: Positive)
    requires Invariant(world, maxAttempts) && Enabled(world, step)
    ensures Invariant(Next(world, step, maxAttempts), maxAttempts)
    ensures Grows(world.rows, Next(world, step, maxAttempts).rows)
  {
    hide NextRows, JobOk, ObservedOk;
    RowsKept(world, step, maxAttempts);
    ObservedKept(world, step, maxAttempts);
    forall j | 0 <= j < |world.jobs|
      ensures var next := Next(world, step, maxAttempts);
              JobOk(next.rows, next.jobs[j], next.answered)
    {
      JobKept(world, step, maxAttempts, j);
    }
  }

  // ---------------------------------------------------------------------------------------------
  // Runs

  ghost predicate Follows(world: World, step: Step, next: World, maxAttempts: Positive) {
    Enabled(world, step) && next == Next(world, step, maxAttempts)
  }

  ghost predicate IsRun(worlds: seq<World>, steps: seq<Step>, maxAttempts: Positive) {
    && |worlds| == |steps| + 1
    && forall i | 0 <= i < |steps| :: Follows(worlds[i], steps[i], worlds[i + 1], maxAttempts)
  }

  const NO_JOB := Job([], false)

  predicate Initial(world: World, jobs: nat) {
    && world.rows == [] && world.answered == {} && world.accepted == {}
    && |world.jobs| == jobs && forall j | 0 <= j < jobs :: world.jobs[j] == NO_JOB
  }

  lemma {:induction false} InvariantOverRun(worlds: seq<World>, steps: seq<Step>, maxAttempts: Positive, n: nat)
    requires IsRun(worlds, steps, maxAttempts) && Initial(worlds[0], |worlds[0].jobs|) && |worlds[0].jobs| <= 1
             && n <= |steps|
    ensures Invariant(worlds[n], maxAttempts)
  {
    hide Next, Enabled;
    if n > 0 {
      hide Invariant;
      InvariantOverRun(worlds, steps, maxAttempts, n - 1);
      assert Follows(worlds[n - 1], steps[n - 1], worlds[n], maxAttempts);
      StepKeepsInvariant(worlds[n - 1], steps[n - 1], maxAttempts);
    }
  }

  lemma {:induction false} GrowsOverRun(worlds: seq<World>, steps: seq<Step>, maxAttempts: Positive, m: nat, n: nat)
    requires IsRun(worlds, steps, maxAttempts) && Initial(worlds[0], |worlds[0].jobs|) && |worlds[0].jobs| <= 1
             && m <= n <= |steps|
    ensures Grows(worlds[m].rows, worlds[n].rows)
  {
    hide Next, Enabled, Invariant;
    if m < n {
      GrowsOverRun(worlds, steps, maxAttempts, m, n - 1);
      InvariantOverRun(worlds, steps, maxAttempts, n - 1);
      assert Follows(worlds[n - 1], steps[n - 1], worlds[n], maxAttempts);
      StepKeepsInvariant(worlds[n - 1], steps[n - 1], maxAttempts);
      forall i | 0 <= i < |worlds[m].rows| ensures Continues(worlds[m].rows[i], worlds[n].rows[i]) {
        assert Continues(worlds[m].rows[i], worlds[n - 1].rows[i])
            && Continues(worlds[n - 1].rows[i], worlds[n].rows[i]);
      }
    }
  }

  /** In this step, Guacamole has said that the token is gone. */
  ghost predicate SaysGone(world: World, step: Step, tokenHash: string) {
    && Enabled(world, step) && step.Answer? && (step.code == 204 || step.code == 404)
    && world.jobs[step.j].left[0].tokenHash == tokenHash
  }

  lemma {:induction false} AnsweredByStep(
      worlds: seq<World>, steps: seq<Step>, maxAttempts: Positive, n: nat, tokenHash: string)
    requires IsRun(worlds, steps, maxAttempts) && Initial(worlds[0], |worlds[0].jobs|) && |worlds[0].jobs| <= 1
             && n <= |steps|
    requires tokenHash in worlds[n].answered
    ensures exists k :: 0 <= k < n && SaysGone(worlds[k], steps[k], tokenHash)
  {
    hide NextRows, NextJobs;
    assert n > 0;
    assert Follows(worlds[n - 1], steps[n - 1], worlds[n], maxAttempts);
    if !SaysGone(worlds[n - 1], steps[n - 1], tokenHash) {
      AnsweredByStep(worlds, steps, maxAttempts, n - 1, tokenHash);
    }
  }

  /**
   In every run with at most one job at a time: a token is revoked only after Guacamole has said that it is
   gone, and stays revoked; attempts stay within the limit; and an observed token is in the outbox.
   */
  lemma Safety(worlds: seq<World>, steps: seq<Step>, maxAttempts: Positive, m: nat, n: nat, i: nat)
    requires IsRun(worlds, steps, maxAttempts) && Initial(worlds[0], |worlds[0].jobs|) && |worlds[0].jobs| <= 1
             && m <= n <= |steps| && i < |worlds[m].rows|
    ensures i < |worlds[n].rows|
    ensures var before, after := worlds[m].rows[i], worlds[n].rows[i];
            && after.tokenHash == before.tokenHash
            && (before.status == Revoked ==> after.status == Revoked)
            && (after.status == Revoked ==> exists k :: 0 <= k < n && SaysGone(worlds[k], steps[k], before.tokenHash))
            && after.attempts <= maxAttempts && (after.attempts == maxAttempts ==> !Waiting(after))
            && (after.observed ==> Contains(worlds[n].outbox, after.tokenHash))
  {
    hide Next, Enabled, SaysGone, JobOk, Contains;
    InvariantOverRun(worlds, steps, maxAttempts, n);
    GrowsOverRun(worlds, steps, maxAttempts, m, n);
    assert Continues(worlds[m].rows[i], worlds[n].rows[i]);
    assert RowOk(worlds[n].rows[i], worlds[n].answered, maxAttempts);
    if worlds[n].rows[i].status == Revoked {
      AnsweredByStep(worlds, steps, maxAttempts, n, worlds[n].rows[i].tokenHash);
    }
  }

  /** In this step, job `j` has found the token in the queue, and its time was over. */
  ghost predicate FindsExpired(world: World, step: Step, j: nat, tokenHash: string) {
    && step.Look? && step.j == j
    && exists i ::
         0 <= i < |world.rows| && world.rows[i].tokenHash == tokenHash && MayBeAsked(world.rows[i], world.clock)
  }

  lemma {:induction false} LeftWereExpired(
      worlds: seq<World>, steps: seq<Step>, maxAttempts: Positive, n: nat, j: nat, k: nat)
    requires IsRun(worlds, steps, maxAttempts) && Initial(worlds[0], |worlds[0].jobs|) && n <= |steps|
    requires j < |worlds[n].jobs| && k < |worlds[n].jobs[j].left|
    ensures exists i :: 0 <= i < n && FindsExpired(worlds[i], steps[i], j, worlds[n].jobs[j].left[k].tokenHash)
    decreases n
  {
    hide NextRows, IsSelection, MayBeAsked;
    if n > 0 {
      var world, step := worlds[n - 1], steps[n - 1];
      assert Follows(world, step, worlds[n], maxAttempts);
      if step.Look? && step.j == j {
        SelectedMayBeAsked(world.rows, world.clock, step.ids);
        assert world.rows[step.ids[k]].tokenHash == worlds[n].jobs[j].left[k].tokenHash;
        assert FindsExpired(world, step, j, worlds[n].jobs[j].left[k].tokenHash);
      } else {
        var first := if (step.MarkRevoked? || step.MarkFailed?) && step.j == j then k + 1 else k;
        assert worlds[n].jobs[j].left[k] == world.jobs[j].left[first];
        LeftWereExpired(worlds, steps, maxAttempts, n - 1, j, first);
      }
    }
  }

  /** In every run, with any number of jobs, no token is asked to be deleted that was not found expired before. */
  lemma NeverTooEarly(worlds: seq<World>, steps: seq<Step>, maxAttempts: Positive, n: nat)
    requires IsRun(worlds, steps, maxAttempts) && Initial(worlds[0], |worlds[0].jobs|) && n < |steps|
    requires steps[n].Answer?
    ensures var j := steps[n].j;
            && j < |worlds[n].jobs| && worlds[n].jobs[j].left != []
            && exists i :: 0 <= i < n && FindsExpired(worlds[i], steps[i], j, worlds[n].jobs[j].left[0].tokenHash)
  {
    hide FindsExpired, Next;
    assert Follows(worlds[n], steps[n], worlds[n + 1], maxAttempts);
    LeftWereExpired(worlds, steps, maxAttempts, n, steps[n].j, 0);
  }

  // ---------------------------------------------------------------------------------------------
  // With more jobs

  /** Once revoked, a token is revoked in every later world. */
  ghost predicate KeepsRevocations(worlds: seq<World>) {
    forall m, n | 0 <= m <= n < |worlds| :: StillRevoked(worlds[m].rows, worlds[n].rows)
  }

  predicate StillRevoked(before: Queue, after: Queue) {
    forall i | 0 <= i < |before| && before[i].status == Revoked :: i < |after| && after[i].status == Revoked
  }

  /** A run with some number of jobs, from an empty queue on. */
  ghost predicate IsRunOf(jobs: nat, worlds: seq<World>, steps: seq<Step>, maxAttempts: Positive) {
    IsRun(worlds, steps, maxAttempts) && Initial(worlds[0], jobs)
  }

  /** Revocations are never taken back, in any run, exactly if there is at most one job at a time. */
  lemma RevocationsStayIff(jobs: nat, maxAttempts: Positive)
    ensures (forall worlds, steps | IsRunOf(jobs, worlds, steps, maxAttempts) :: KeepsRevocations(worlds))
            <==> jobs <= 1
  {
    hide IsRun, KeepsRevocations;
    if jobs <= 1 {
      forall worlds, steps | IsRunOf(jobs, worlds, steps, maxAttempts) ensures KeepsRevocations(worlds) {
        OneJobKeeps(worlds, steps, maxAttempts);
      }
    } else {
      var worlds, steps := SecondJobTakesBack(jobs, Details("", "", "", ""), maxAttempts);
    }
  }

  lemma OneJobKeeps(worlds: seq<World>, steps: seq<Step>, maxAttempts: Positive)
    requires IsRun(worlds, steps, maxAttempts) && Initial(worlds[0], |worlds[0].jobs|) && |worlds[0].jobs| <= 1
    ensures KeepsRevocations(worlds)
  {
    hide Next, Enabled, Follows;
    forall m, n | 0 <= m <= n < |worlds| ensures StillRevoked(worlds[m].rows, worlds[n].rows) {
      GrowsOverRun(worlds, steps, maxAttempts, m, n);
      forall i | 0 <= i < |worlds[m].rows| ensures Continues(worlds[m].rows[i], worlds[n].rows[i]) {}
    }
  }

  /** The updates look at nothing but the hash: a second job that comes late takes a revocation back. */
  lemma SecondJobTakesBack(jobs: nat, details: Details, maxAttempts: Positive)
    returns (worlds: seq<World>, steps: seq<Step>)
    requires jobs >= 2
    ensures IsRunOf(jobs, worlds, steps, maxAttempts) && !KeepsRevocations(worlds)
  {
    hide Next, Enabled;
    var row := Row("hash", details, 0, Pending, 0, 0, false);
    var record := Record("hash", 0);
    var job, heard := Job([record], false), Job([record], true);
    var revoked := row.(status := Revoked, attempts := 1);
    var failed := FailedRow(revoked, record, 0, maxAttempts);
    var start := World([], [], 0, seq(jobs, _ => NO_JOB), {}, {});
    var queued := start.(rows := [row]);
    var one := queued.(jobs := queued.jobs[0 := job]);
    var both := one.(jobs := one.jobs[1 := job]);
    var gone := both.(jobs := both.jobs[0 := heard], answered := both.answered + {"hash"});
    var done := gone.(rows := [revoked], jobs := gone.jobs[0 := NO_JOB]);
    var undone := done.(rows := [failed], jobs := done.jobs[1 := NO_JOB]);
    steps := [Enqueue("hash", details, 0), Look(0, [0]), Look(1, [0]), Answer(0, 204), MarkRevoked(0), MarkFailed(1)];
    worlds := [start, queued, one, both, gone, done, undone];
    QueuesFirst(start, "hash", details, maxAttempts);
    LooksAtOnly(queued, 0, row, maxAttempts);
    LooksAtOnly(one, 1, row, maxAttempts);
    HearsGone(both, 0, record, maxAttempts);
    MarksOnlyRevoked(gone, 0, row, record, maxAttempts);
    MarksOnlyFailed(done, 1, revoked, record, maxAttempts);
    assert worlds[5].rows[0] == revoked && worlds[6].rows[0] == failed;
    assert !StillRevoked(worlds[5].rows, worlds[6].rows);
  }

  lemma QueuesFirst(world: World, tokenHash: string, details: Details, maxAttempts: Positive)
    requires world.rows == []
    ensures Follows(world, Enqueue(tokenHash, details, 0),
                    world.(rows := [Row(tokenHash, details, 0, Pending, 0, world.clock, false)]), maxAttempts)
  {
  }

  lemma LooksAtOnly(world: World, j: nat, row: Row, maxAttempts: Positive)
    requires world.rows == [row] && Expired(row, world.clock) && j < |world.jobs| && world.jobs[j].left == []
    ensures Follows(world, Look(j, [0]),
                    world.(jobs := world.jobs[j := Job([Record(row.tokenHash, row.attempts)], false)]), maxAttempts)
  {
    assert Has([0], 0);
    assert RecordsOf(world.rows, [0]) == [Record(row.tokenHash, row.attempts)];
  }

  lemma HearsGone(world: World, j: nat, record: Record, maxAttempts: Positive)
    requires j < |world.jobs| && world.jobs[j].left == [record]
    ensures Follows(world, Answer(j, 204),
                    world.(jobs := world.jobs[j := Job([record], true)],
                        answered := world.answered + {record.tokenHash}),
                    maxAttempts)
  {
  }

  lemma MarksOnlyRevoked(world: World, j: nat, row: Row, record: Record, maxAttempts: Positive)
    requires world.rows == [row] && row.tokenHash == record.tokenHash
    requires j < |world.jobs| && world.jobs[j] == Job([record], true)
    ensures Follows(world, MarkRevoked(j),
                    world.(rows := [row.(status := Revoked, attempts := record.attempts + 1)],
                           jobs := world.jobs[j := NO_JOB]), maxAttempts)
  {
    assert [record][1..] == [];
  }

  lemma MarksOnlyFailed(world: World, j: nat, row: Row, record: Record, maxAttempts: Positive)
    requires world.rows == [row] && row.tokenHash == record.tokenHash
    requires j < |world.jobs| && world.jobs[j] == Job([record], false)
    ensures Follows(world, MarkFailed(j),
                    world.(rows := [FailedRow(row, record, world.clock, maxAttempts)],
                           jobs := world.jobs[j := NO_JOB]), maxAttempts)
  {
    assert [record][1..] == [];
  }
}
