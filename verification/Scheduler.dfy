/**
 The scheduler that starts reservations: which ones a scan picks, what it records, and how often a
 reservation can be started. Times are in seconds. A reservation is known by its row.
 */
module Scheduler {
  import opened Common

  datatype Status = Confirmed | Active | Other

  datatype Reservation = Reservation(startTime: int, status: Status)

  /** A `scheduler:start` operation; its column holds whole seconds. */
  datatype Operation = Operation(reservation: nat, createdAt: int)

  /** How a time of day is stored in a column of whole seconds: rounded, halves up. */
  function Stored(time: real): int {
    (time + 0.5).Floor
  }

  /** `max_batch`, `start_lead`, `lookback` and `retry_cooldown`. */
  datatype Settings = Settings(maxBatch: nat, startLead: int, lookback: int, cooldown: int)

  predicate Recent(operations: seq<Operation>, reservation: nat, cutoff: real) {
    exists k | 0 <= k < |operations| ::
      operations[k].reservation == reservation && operations[k].createdAt as real >= cutoff
  }

  /** The WHERE clause of a scan at `now`. */
  predicate Eligible(
      reservations: seq<Reservation>, operations: seq<Operation>, settings: Settings, now: real, r: nat)
  {
    && r < |reservations|
    && reservations[r].status == Confirmed
    && reservations[r].startTime as real <= now + settings.startLead as real
    && reservations[r].startTime as real >= now - settings.lookback as real
    && !Recent(operations, r, now - settings.cooldown as real)
  }

  predicate Has(rows: seq<nat>, r: nat) {
    r in rows
  }

  /** The possible answers to the query of a scan: eligible rows by start time, cut to the batch size. */
  ghost predicate IsAnswer(
      reservations: seq<Reservation>, operations: seq<Operation>, settings: Settings, now: real, rows: seq<nat>)
  {
    && |rows| <= settings.maxBatch
    && (forall k | 0 <= k < |rows| :: Eligible(reservations, operations, settings, now, rows[k]))
    && (forall j, k | 0 <= j < k < |rows| ::
          rows[j] != rows[k] && reservations[rows[j]].startTime <= reservations[rows[k]].startTime)
    && (forall r | 0 <= r < |reservations| && Eligible(reservations, operations, settings, now, r) && !Has(rows, r) ::
          |rows| == settings.maxBatch
          && forall k | 0 <= k < |rows| :: reservations[rows[k]].startTime <= reservations[r].startTime)
  }

  /** The reservation is confirmed, its start is near, and no operation has been recorded within the cooldown. */
  ghost predicate MayStart(
      reservations: seq<Reservation>, operations: seq<Operation>, settings: Settings, now: real, r: nat)
  {
    && r < |reservations| && reservations[r].status == Confirmed
    && now - settings.lookback as real <= reservations[r].startTime as real <= now + settings.startLead as real
    && forall k | 0 <= k < |operations| && operations[k].reservation == r ::
         now - operations[k].createdAt as real > settings.cooldown as real
  }

  /** Only what may be started is in an answer, and all of it but for a full batch of earlier ones. */
  lemma AnswerMayStart(
      reservations: seq<Reservation>, operations: seq<Operation>, settings: Settings, now: real, rows: seq<nat>)
    requires IsAnswer(reservations, operations, settings, now, rows)
    ensures forall k | 0 <= k < |rows| :: MayStart(reservations, operations, settings, now, rows[k])
    ensures forall j, k | 0 <= j < k < |rows| ::
              rows[j] != rows[k] && reservations[rows[j]].startTime <= reservations[rows[k]].startTime
    ensures forall r: nat | MayStart(reservations, operations, settings, now, r) && r !in rows ::
              |rows| == settings.maxBatch
              && forall k | 0 <= k < |rows| :: reservations[rows[k]].startTime <= reservations[r].startTime
  {
    forall r: nat | MayStart(reservations, operations, settings, now, r) && r !in rows
      ensures |rows| == settings.maxBatch
              && forall k | 0 <= k < |rows| :: reservations[rows[k]].startTime <= reservations[r].startTime
    {
      assert !Has(rows, r) && Eligible(reservations, operations, settings, now, r);
    }
  }

  // ---------------------------------------------------------------------------------------------
  // The dispatches of one reservation

  /** The time of the scan, of the dispatch itself, and of its record. */
  datatype Dispatch = Dispatch(scannedAt: real, at: real, recordedAt: real)

  predicate InWindow(settings: Settings, startTime: int, dispatch: Dispatch) {
    && startTime as real - settings.startLead as real <= dispatch.scannedAt
    && dispatch.scannedAt <= startTime as real + settings.lookback as real
  }

  /** What the scans let happen: within the window, each scan later than the last record and the cooldown. */
  ghost predicate Chain(settings: Settings, startTime: int, dispatches: seq<Dispatch>) {
    && (forall k | 0 <= k < |dispatches| ::
          dispatches[k].scannedAt <= dispatches[k].at <= dispatches[k].recordedAt
          && InWindow(settings, startTime, dispatches[k]))
    && (forall k | 0 < k < |dispatches| ::
          dispatches[k].scannedAt > (Stored(dispatches[k - 1].recordedAt) + settings.cooldown) as real)
  }

  lemma StoredIsNear(time: real)
    ensures time - 0.5 < Stored(time) as real <= time + 0.5
  {
  }

  lemma StoredOfWhole(n: int, time: real)
    requires n as real < time
    ensures n <= Stored(time)
  {
  }

  /** After a record made at this time, a scan at `now` may find the reservation eligible again. */
  predicate AllowsAt(settings: Settings, recordedAt: real, now: real) {
    now > (Stored(recordedAt) + settings.cooldown) as real
  }

  /**
   A dispatch is sure to be followed by the full cooldown exactly if its record is not stored as a time
   before the dispatch itself. Being rounded down is not enough: recording takes time, too.
   */
  lemma FullCooldownIff(settings: Settings, at: real, recordedAt: real)
    requires at <= recordedAt
    ensures Stored(recordedAt) as real >= at <==>
            forall now | AllowsAt(settings, recordedAt, now) :: now - at > settings.cooldown as real
  {
    if Stored(recordedAt) as real < at {
      var now := at + settings.cooldown as real;
      assert AllowsAt(settings, recordedAt, now) && now - at == settings.cooldown as real;
    }
  }

  /** Two dispatches in a row are more than the cooldown apart, less the half second that storing may lose. */
  lemma DispatchesApart(settings: Settings, startTime: int, dispatches: seq<Dispatch>, k: nat)
    requires Chain(settings, startTime, dispatches) && 0 < k < |dispatches|
    ensures dispatches[k].at - dispatches[k - 1].at > settings.cooldown as real - 0.5
    ensures Stored(dispatches[k - 1].recordedAt) as real >= dispatches[k - 1].at ==>
              dispatches[k].at - dispatches[k - 1].at > settings.cooldown as real
  {
    hide Stored;
    var last, next := dispatches[k - 1], dispatches[k];
    StoredIsNear(last.recordedAt);
    FullCooldownIff(settings, last.at, last.recordedAt);
    assert AllowsAt(settings, last.recordedAt, next.scannedAt);
  }

  /** The window is over before another scan could find the reservation eligible. */
  predicate WindowOver(settings: Settings, startTime: int, recordedAt: real) {
    Stored(recordedAt) + settings.cooldown >= startTime + settings.lookback
  }

  /**
   When the next dispatch always keeps the full cooldown: exactly if the last record is not stored as a
   time before its dispatch, or if there will be no next dispatch.
   */
  lemma NextApartIff(settings: Settings, startTime: int, dispatches: seq<Dispatch>)
    requires Chain(settings, startTime, dispatches) && dispatches != [] && settings.cooldown >= 0
    ensures var last := dispatches[|dispatches| - 1];
            Stored(last.recordedAt) as real >= last.at || WindowOver(settings, startTime, last.recordedAt) <==>
            forall next | Chain(settings, startTime, dispatches + [next]) ::
                next.at - last.at > settings.cooldown as real
  {
    hide Stored;
    var n, last := |dispatches|, dispatches[|dispatches| - 1];
    if Stored(last.recordedAt) as real >= last.at || WindowOver(settings, startTime, last.recordedAt) {
      forall next | Chain(settings, startTime, dispatches + [next])
        ensures next.at - last.at > settings.cooldown as real
      {
        var more := dispatches + [next];
        assert more[n] == next && more[n - 1] == last && InWindow(settings, startTime, more[n]);
        DispatchesApart(settings, startTime, more, n);
      }
    } else {
      var due, end := last.at + settings.cooldown as real, (startTime + settings.lookback) as real;
      var now := if due < end then due else end;
      var next := Dispatch(now, now, now);
      assert InWindow(settings, startTime, last) && InWindow(settings, startTime, next);
      assert Chain(settings, startTime, dispatches + [next]);
    }
  }

  /** A time in the first half of a second is rounded down; so the next scan may come that much too early. */
  lemma CooldownCanFallShort(settings: Settings, startTime: int) returns (dispatches: seq<Dispatch>)
    requires settings.cooldown > 0 && settings.startLead >= 0 && settings.lookback >= settings.cooldown + 1
    ensures Chain(settings, startTime, dispatches) && |dispatches| == 2
    ensures dispatches[1].at - dispatches[0].at < settings.cooldown as real
  {
    var first, second := startTime as real + 0.4, (startTime + settings.cooldown) as real + 0.1;
    dispatches := [Dispatch(first, first, first), Dispatch(second, second, second)];
  }

  /** The losses do not add up: the stored times are whole cooldowns apart. */
  lemma {:induction false} StoredApart(settings: Settings, startTime: int, dispatches: seq<Dispatch>, n: nat)
    requires Chain(settings, startTime, dispatches) && n < |dispatches|
    ensures Stored(dispatches[n].recordedAt) >= Stored(dispatches[0].recordedAt) + n * settings.cooldown
  {
    hide Stored;
    if n > 0 {
      StoredApart(settings, startTime, dispatches, n - 1);
      StoredOfWhole(Stored(dispatches[n - 1].recordedAt) + settings.cooldown, dispatches[n].recordedAt);
      assert (n - 1) * settings.cooldown + settings.cooldown == n * settings.cooldown;
    }
  }

  /** So a reservation is started at most (start_lead + lookback) / retry_cooldown + 1 times. */
  lemma AtMostSoMany(settings: Settings, startTime: int, dispatches: seq<Dispatch>)
    requires Chain(settings, startTime, dispatches) && settings.cooldown > 0
    requires settings.startLead + settings.lookback >= 0
    ensures |dispatches| <= (settings.startLead + settings.lookback) / settings.cooldown + 1
  {
    hide Stored;
    var n, span := |dispatches| - 1, settings.startLead + settings.lookback;
    if n > 0 {
      var first, last := dispatches[0], dispatches[n];
      StoredApart(settings, startTime, dispatches, n - 1);
      StoredIsNear(first.recordedAt);
      assert InWindow(settings, startTime, first) && InWindow(settings, startTime, last);
      var whole := Stored(dispatches[n - 1].recordedAt) + settings.cooldown;
      assert last.scannedAt > whole as real;
      assert whole >= Stored(first.recordedAt) + n * settings.cooldown by {
        assert (n - 1) * settings.cooldown + settings.cooldown == n * settings.cooldown;
      }
      assert last.scannedAt - first.scannedAt <= span as real;
      assert (n * settings.cooldown) as real < span as real + 0.5;
      Quotient(n, settings.cooldown, span);
    }
  }

  lemma Quotient(n: nat, divisor: int, x: int)
    requires divisor > 0 && n * divisor <= x
    ensures n <= x / divisor
  {
    if n > x / divisor {
      MultiplyBounds(x / divisor + 1, n, divisor);
      assert false;
    }
  }

  // ---------------------------------------------------------------------------------------------
  // The scheduler

  class Orchestrator {
    const settings: Settings
    var reservations: seq<Reservation>
    var operations: seq<Operation>
    var clock: real

    /** The dispatches of each reservation so far. */
    ghost var dispatches: seq<seq<Dispatch>>

    /** Every dispatch is on record, and each reservation's dispatches are a chain. */
    ghost predicate Valid()
      reads this
    {
      && |dispatches| == |reservations|
      && forall r | 0 <= r < |reservations| ::
           Chain(settings, reservations[r].startTime, dispatches[r]) && OnRecord(operations, r, dispatches[r])
    }

    constructor (settings: Settings, clock: real)
      ensures Valid() && this.settings == settings && dispatches == [] && this.clock == clock
    {
      this.settings, this.clock := settings, clock;
      reservations, operations, dispatches := [], [], [];
    }

    /** Others add reservations and change their status, but no start time. */
    method Update(updated: seq<Reservation>)
      requires Valid()
      requires |reservations| <= |updated|
      requires forall r | 0 <= r < |reservations| :: updated[r].startTime == reservations[r].startTime
      modifies this`reservations, this`dispatches
      ensures Valid() && reservations == updated && old(dispatches) <= dispatches
    {
      dispatches := dispatches + seq(|updated| - |reservations|, _ => []);
      reservations := updated;
    }

    /** Time passes, by as much as a request or a wait may take. */
    method Pass()
      modifies this`clock
      ensures clock >= old(clock)
    {
      var seconds: real := *;
      if seconds > 0.0 {
        clock := clock + seconds;
      }
    }

    /** Starts one reservation and records it, whether there is a host for it or not. */
    method DispatchStart(r: nat, ghost scannedAt: real) returns (started: bool)
      requires Valid() && r < |reservations| && scannedAt <= clock
      requires InWindow(settings, reservations[r].startTime, Dispatch(scannedAt, scannedAt, scannedAt))
      requires !Recent(operations, r, scannedAt - settings.cooldown as real)
      modifies this`reservations, this`operations, this`clock, this`dispatches
      ensures Valid() && clock >= old(clock) && |reservations| == |old(reservations)|
      ensures forall s | 0 <= s < |reservations| :: reservations[s].startTime == old(reservations[s].startTime)
      ensures forall s | 0 <= s < |reservations| && s != r ::
                reservations[s] == old(reservations)[s] && dispatches[s] == old(dispatches)[s]
      ensures reservations[r] == if started && old(reservations)[r].status == Confirmed
                                 then old(reservations)[r].(status := Active) else old(reservations)[r]
      ensures operations == old(operations) + [Operation(r, Stored(clock))]
      ensures dispatches[r] == old(dispatches)[r] + [Dispatch(scannedAt, old(clock), clock)]
    {
      hide Stored, InWindow;
      ghost var at := clock;
      var hosted: bool := *;
      started := false;
      if hosted {
        Pass();
        started := *;
      }
      ghost var dispatch := Dispatch(scannedAt, at, clock);
      NextInChain(settings, reservations[r].startTime, operations, r, dispatches[r], dispatch);
      operations := operations + [Operation(r, Stored(clock))];
      ghost var before := dispatches;
      dispatches := dispatches[r := dispatches[r] + [dispatch]];
      forall s | 0 <= s < |reservations| ensures OnRecord(operations, s, dispatches[s]) {
        OnRecordStays(old(operations), operations, s, before[s]);
        if s == r {
          OneMoreOnRecord(operations, r, before[r], dispatch);
        }
      }
      if started && reservations[r].status == Confirmed {
        reservations := reservations[r := reservations[r].(status := Active)];
      }
    }

    /** One scan: the database's answer to the query at this moment, and its dispatches one by one. */
    method ScanOnce(rows: seq<nat>)
      requires Valid() && IsAnswer(reservations, operations, settings, clock, rows)
      modifies this`reservations, this`operations, this`clock, this`dispatches
      ensures Valid() && clock >= old(clock) && |reservations| == |old(reservations)|
      ensures forall r | 0 <= r < |reservations| ::
                |dispatches[r]| == |old(dispatches)[r]| + if r in rows then 1 else 0
      ensures forall r | 0 <= r < |reservations| && |dispatches[r]| > |old(dispatches)[r]| ::
                MayStart(old(reservations), old(operations), settings, old(clock), r)
      ensures forall r: nat | MayStart(old(reservations), old(operations), settings, old(clock), r) ::
                || |dispatches[r]| == |old(dispatches)[r]| + 1
                || (|rows| == settings.maxBatch
                    && forall s | 0 <= s < |reservations| && |dispatches[s]| > |old(dispatches)[s]| ::
                         old(reservations)[s].startTime <= old(reservations)[r].startTime)
      ensures forall r | 0 <= r < |reservations| :: StatusMoves(old(reservations)[r], reservations[r], r in rows)
      ensures |operations| == |old(operations)| + |rows| && old(operations) <= operations
      ensures forall k | 0 <= k < |rows| :: operations[|old(operations)| + k].reservation == rows[k]
    {
      hide Chain, OnRecord, Recent, InWindow, MayStart, IsAnswer, Done;
      ghost var now, were, counted, recorded := clock, reservations, dispatches, operations;
      AnswerInWindow(reservations, operations, settings, clock, rows);
      DispatchAll(rows);
      DoneEach(were, reservations, counted, dispatches, recorded, operations, rows);
      ScanStarts(were, recorded, settings, now, rows, counted, dispatches);
    }

    /** Dispatches the rows of a scan that was made just now, one by one. */
    method DispatchAll(rows: seq<nat>)
      requires Valid() && CanDispatch(reservations, operations, settings, clock, rows)
      modifies this`reservations, this`operations, this`clock, this`dispatches
      ensures Valid() && clock >= old(clock)
      ensures Done(old(reservations), reservations, old(dispatches), dispatches, old(operations), operations, rows)
    {
      hide Chain, OnRecord, Recent, InWindow, Done;
      ghost var now, cutoff := clock, clock - settings.cooldown as real;
      ghost var were, counted, recorded := reservations, dispatches, operations;
      var i := 0;
      NothingDone(were, counted, recorded, rows[..0]);
      while i < |rows|
        invariant 0 <= i <= |rows| && Valid() && now <= clock && |reservations| == |were|
        invariant forall r | 0 <= r < |were| :: reservations[r].startTime == were[r].startTime
        invariant forall k | i <= k < |rows| :: !Recent(operations, rows[k], cutoff)
        invariant Done(were, reservations, counted, dispatches, recorded, operations, rows[..i])
      {
        ghost var operated, reserved, dispatched := operations, reservations, dispatches;
        assert rows[i] !in rows[..i];
        assert InWindow(settings, were[rows[i]].startTime, Dispatch(now, now, now));
        var _ := DispatchStart(rows[i], now);
        forall k | i < k < |rows| ensures !Recent(operations, rows[k], cutoff) {
          OthersStayRecent(operated, operations, rows[k], cutoff);
        }
        OneMoreDone(were, reserved, reservations, counted, dispatched, dispatches, recorded, operated, operations,
                    rows[..i], rows[i]);
        assert rows[..i + 1] == rows[..i] + [rows[i]];
        i := i + 1;
      }
      assert rows[..i] == rows;
    }

    /** Over any life of the scheduler, whatever the hosts answer. */
    lemma StartsAreBounded(r: nat)
      requires Valid() && r < |reservations| && settings.cooldown > 0 && settings.startLead + settings.lookback >= 0
      ensures |dispatches[r]| <= (settings.startLead + settings.lookback) / settings.cooldown + 1
    {
      hide Chain;
      AtMostSoMany(settings, reservations[r].startTime, dispatches[r]);
    }
  }

  /** What has to be true of rows that are dispatched one after the other. */
  ghost predicate CanDispatch(
      reservations: seq<Reservation>, operations: seq<Operation>, settings: Settings, now: real, rows: seq<nat>)
  {
    && (forall k | 0 <= k < |rows| ::
          && rows[k] < |reservations|
          && InWindow(settings, reservations[rows[k]].startTime, Dispatch(now, now, now))
          && !Recent(operations, rows[k], now - settings.cooldown as real))
    && forall j, k | 0 <= j < k < |rows| :: rows[j] != rows[k]
  }

  lemma AnswerInWindow(
      reservations: seq<Reservation>, operations: seq<Operation>, settings: Settings, now: real, rows: seq<nat>)
    requires IsAnswer(reservations, operations, settings, now, rows)
    ensures CanDispatch(reservations, operations, settings, now, rows)
  {
    hide InWindow, Recent, Eligible;
    forall k | 0 <= k < |rows| {
      EligibleInWindow(reservations, operations, settings, now, rows[k]);
    }
  }

  /** With one dispatch for each row of an answer, precisely what may be started is, up to a full batch. */
  lemma ScanStarts(
      reservations: seq<Reservation>, operations: seq<Operation>, settings: Settings, now: real, rows: seq<nat>,
      counted: seq<seq<Dispatch>>, dispatches: seq<seq<Dispatch>>)
    requires IsAnswer(reservations, operations, settings, now, rows)
    requires |reservations| == |counted| == |dispatches|
    requires forall r | 0 <= r < |reservations| :: |dispatches[r]| == |counted[r]| + if r in rows then 1 else 0
    ensures forall r | 0 <= r < |reservations| && |dispatches[r]| > |counted[r]| ::
              MayStart(reservations, operations, settings, now, r)
    ensures forall r: nat | MayStart(reservations, operations, settings, now, r) ::
              || |dispatches[r]| == |counted[r]| + 1
              || (|rows| == settings.maxBatch
                  && forall s | 0 <= s < |reservations| && |dispatches[s]| > |counted[s]| ::
                       reservations[s].startTime <= reservations[r].startTime)
  {
    hide IsAnswer;
    AnswerMayStart(reservations, operations, settings, now, rows);
  }

  /** A scan only ever makes dispatched reservations active. */
  predicate StatusMoves(before: Reservation, after: Reservation, dispatched: bool) {
    after == before || (dispatched && after == before.(status := Active))
  }

  /** What has come of a scan after some of its dispatches: one more dispatch and one more operation for each. */
  ghost predicate Done(
      were: seq<Reservation>, reservations: seq<Reservation>, counted: seq<seq<Dispatch>>,
      dispatches: seq<seq<Dispatch>>, recorded: seq<Operation>, operations: seq<Operation>, done: seq<nat>)
  {
    && |were| == |reservations| == |counted| == |dispatches|
    && (forall r | 0 <= r < |were| :: |dispatches[r]| == |counted[r]| + if r in done then 1 else 0)
    && (forall r | 0 <= r < |were| :: StatusMoves(were[r], reservations[r], r in done))
    && |operations| == |recorded| + |done| && recorded <= operations
    && forall k | 0 <= k < |done| :: operations[|recorded| + k].reservation == done[k]
  }

  lemma NothingDone(
      were: seq<Reservation>, counted: seq<seq<Dispatch>>, recorded: seq<Operation>, done: seq<nat>)
    requires |were| == |counted| && done == []
    ensures Done(were, were, counted, counted, recorded, recorded, done)
  {
  }

  lemma OneMoreDone(
      were: seq<Reservation>, before: seq<Reservation>, after: seq<Reservation>, counted: seq<seq<Dispatch>>,
      dispatched: seq<seq<Dispatch>>, dispatches: seq<seq<Dispatch>>, recorded: seq<Operation>,
      operated: seq<Operation>, operations: seq<Operation>, done: seq<nat>, r: nat)
    requires Done(were, before, counted, dispatched, recorded, operated, done) && r < |were| && r !in done
    requires |after| == |were| && |dispatches| == |were| && |dispatches[r]| == |dispatched[r]| + 1
    requires forall s | 0 <= s < |were| && s != r :: after[s] == before[s] && dispatches[s] == dispatched[s]
    requires StatusMoves(before[r], after[r], true)
    requires |operations| == |operated| + 1 && operated <= operations && operations[|operated|].reservation == r
    ensures Done(were, after, counted, dispatches, recorded, operations, done + [r])
  {
    assert forall s :: s in done + [r] <==> s in done || s == r;
    assert before[r] == were[r];
  }

  lemma DoneEach(
      were: seq<Reservation>, reservations: seq<Reservation>, counted: seq<seq<Dispatch>>,
      dispatches: seq<seq<Dispatch>>, recorded: seq<Operation>, operations: seq<Operation>, done: seq<nat>)
    requires Done(were, reservations, counted, dispatches, recorded, operations, done)
    ensures |were| == |reservations| == |counted| == |dispatches|
    ensures forall r | 0 <= r < |were| :: |dispatches[r]| == |counted[r]| + if r in done then 1 else 0
    ensures forall r | 0 <= r < |were| :: StatusMoves(were[r], reservations[r], r in done)
    ensures |operations| == |recorded| + |done| && recorded <= operations
    ensures forall k | 0 <= k < |done| :: operations[|recorded| + k].reservation == done[k]
  {
  }

  ghost predicate OnRecord(operations: seq<Operation>, r: nat, dispatches: seq<Dispatch>) {
    forall k | 0 <= k < |dispatches| :: Recorded(operations, Operation(r, Stored(dispatches[k].recordedAt)))
  }

  predicate Recorded(operations: seq<Operation>, operation: Operation) {
    operation in operations
  }

  lemma EligibleInWindow(
      reservations: seq<Reservation>, operations: seq<Operation>, settings: Settings, now: real, r: nat)
    requires Eligible(reservations, operations, settings, now, r)
    ensures r < |reservations|
    ensures InWindow(settings, reservations[r].startTime, Dispatch(now, now, now))
    ensures !Recent(operations, r, now - settings.cooldown as real)
  {
  }

  /** A scan that finds no recent record continues the chain. */
  lemma NextInChain(
      settings: Settings, startTime: int, operations: seq<Operation>, r: nat, dispatches: seq<Dispatch>,
      dispatch: Dispatch)
    requires Chain(settings, startTime, dispatches) && OnRecord(operations, r, dispatches)
    requires !Recent(operations, r, dispatch.scannedAt - settings.cooldown as real)
    requires dispatch.scannedAt <= dispatch.at <= dispatch.recordedAt
    requires InWindow(settings, startTime, Dispatch(dispatch.scannedAt, dispatch.scannedAt, dispatch.scannedAt))
    ensures Chain(settings, startTime, dispatches + [dispatch])
  {
    hide Stored;
    if dispatches != [] {
      var last := dispatches[|dispatches| - 1];
      var operation := Operation(r, Stored(last.recordedAt));
      assert Recorded(operations, operation);
      var k :| 0 <= k < |operations| && operations[k] == operation;
      assert operations[k].createdAt as real < dispatch.scannedAt - settings.cooldown as real;
    }
  }

  lemma OnRecordStays(before: seq<Operation>, after: seq<Operation>, r: nat, dispatches: seq<Dispatch>)
    requires OnRecord(before, r, dispatches) && before <= after
    ensures OnRecord(after, r, dispatches)
  {
    hide Stored;
    forall k | 0 <= k < |dispatches| ensures Recorded(after, Operation(r, Stored(dispatches[k].recordedAt))) {
      assert Recorded(before, Operation(r, Stored(dispatches[k].recordedAt)));
    }
  }

  lemma OneMoreOnRecord(operations: seq<Operation>, r: nat, dispatches: seq<Dispatch>, dispatch: Dispatch)
    requires OnRecord(operations, r, dispatches) && Recorded(operations, Operation(r, Stored(dispatch.recordedAt)))
    ensures OnRecord(operations, r, dispatches + [dispatch])
  {
    hide Stored, Recorded;
  }

  lemma OthersStayRecent(before: seq<Operation>, after: seq<Operation>, r: nat, cutoff: real)
    requires !Recent(before, r, cutoff)
    requires |after| == |before| + 1 && after[..|before|] == before && after[|before|].reservation != r
    ensures !Recent(after, r, cutoff)
  {
    forall k | 0 <= k < |after| ensures !(after[k].reservation == r && after[k].createdAt as real >= cutoff) {
      if k < |before| {
        assert after[k] == before[k];
      }
    }
  }
}
