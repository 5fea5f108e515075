/** The lease of a claim: when it keeps two workers from sending the same row, and when it does not. */
module OutboxLease {
  import opened Common
  import opened Outbox
  import opened OutboxProtocol

  /**
   How a lock's age is measured: from the time of the claim, or from the time that the database has
   recorded for it, which is up to a second earlier.
   */
  datatype Measure = FromClaim | FromRecord

  function Age(world: World, held: Held, measure: Measure): real {
    world.clock - if measure.FromRecord? then Timestamp(held.lockedAt) else held.lockedAt
  }

  /** Every lock that is held is at most `limit` seconds old. */
  ghost predicate Punctual(world: World, limit: real, measure: Measure) {
    forall w, k | 0 <= w < |world.workers| && 0 <= k < |world.workers[w].held| ::
      Age(world, world.workers[w].held[k], measure) <= limit
  }

  /** No lock that is held is stale. */
  ghost predicate Timely(world: World) {
    Punctual(world, LEASE, FromRecord)
  }

  /** How long a lock may be held: the lease, less the second that its record may lose. */
  function Allowance(measure: Measure): real {
    if measure.FromRecord? then LEASE else LEASE - 1.0
  }

  lemma PunctualIsTimely(world: World, limit: real, measure: Measure)
    requires Punctual(world, limit, measure) && limit <= Allowance(measure)
    ensures Timely(world)
  {
  }

  predicate Locks(rows: Table, held: Held) {
    && held.record.id < |rows|
    && rows[held.record.id].status == Sending
    && rows[held.record.id].lockedAt == Some(Timestamp(held.lockedAt))
  }

  predicate SameRow(x: Held, y: Held) {
    x.record.id == y.record.id
  }

  /** What workers hold is locked for them; no row is held twice, be it by two workers or by one. */
  ghost predicate Exclusive(world: World) {
    && (forall w | 0 <= w < |world.workers| :: AllLock(world.rows, world.workers[w].held))
    && (forall w | 0 <= w < |world.workers| :: NoTwice(world.workers[w].held))
    && (forall w | 0 <= w < |world.workers| :: DistinctRecords(world.workers[w].selected))
    && (forall v, w | 0 <= v < w < |world.workers| :: Apart(world.workers[v].held, world.workers[w].held))
  }

  ghost predicate AllLock(rows: Table, held: seq<Held>) {
    forall k | 0 <= k < |held| :: Locks(rows, held[k])
  }

  ghost predicate NoTwice(held: seq<Held>) {
    forall j, k | 0 <= j < k < |held| :: !SameRow(held[j], held[k])
  }

  ghost predicate Apart(x: seq<Held>, y: seq<Held>) {
    forall j, k | 0 <= j < |x| && 0 <= k < |y| :: !SameRow(x[j], y[k])
  }

  // ---------------------------------------------------------------------------------------------
  // Rows of others

  /** A row that is locked within its lease stays locked, unless it is the one being marked. */
  lemma LockStays(world: World, step: Step, settings: Settings, held: Held)
    requires Enabled(world, step) && Locks(world.rows, held) && Age(world, held, FromRecord) <= LEASE
    requires step.MarkDelivered? || step.MarkFailure? ==> !SameRow(world.workers[step.w].held[0], held)
    ensures Locks(NextRows(world, step, settings), held)
  {
    hide Mentions, IndexOf, RetryDelay;
  }

  /** What a claim wins was waiting, so nobody else holds it; from now on it is locked. */
  lemma WonIsLocked(rows: Table, records: seq<Record>, now: real)
    requires DistinctRecords(records)
    ensures var held := WithLock(Won(rows, records), now);
            && NoTwice(held) && AllLock(Taken(rows, records, now), held)
            && forall other | Locks(rows, other) :: forall k | 0 <= k < |held| :: !SameRow(other, held[k])
  {
    hide Taken;
    WonOnce(rows, records);
    WonAreSelected(rows, records);
    var held := WithLock(Won(rows, records), now);
    forall k | 0 <= k < |held| ensures Locks(Taken(rows, records, now), held[k]) {
      assert held[k].record in records;
      assert Mentions(records, held[k].record.id);
    }
  }

  lemma SelectionIsDistinct(rows: Table, clock: real, settings: Settings)
    ensures DistinctRecords(SelectedRecords(rows, clock, settings))
  {
    hide Selected;
    SelectedAreFirst(rows, clock, settings.batch);
  }

  lemma OthersStayLocked(world: World, step: Step, settings: Settings, w: nat)
    requires Exclusive(world) && Timely(world) && Enabled(world, step) && w < |world.workers|
    requires step.Enqueue? || step.Tick? || w != step.w
    ensures AllLock(NextRows(world, step, settings), world.workers[w].held)
  {
    hide NextRows, Locks;
    var held := world.workers[w].held;
    forall k | 0 <= k < |held| ensures Locks(NextRows(world, step, settings), held[k]) {
      assert AllLock(world.rows, held);
      if step.MarkDelivered? || step.MarkFailure? {
        var own := world.workers[step.w].held;
        assert if w < step.w then Apart(held, own) else Apart(own, held);
      }
      LockStays(world, step, settings, held[k]);
    }
  }

  lemma OwnStaysExclusive(world: World, step: Step, settings: Settings)
    requires Exclusive(world) && Timely(world) && Enabled(world, step) && !step.Enqueue? && !step.Tick?
    ensures var worker := NextWorker(world, step, settings);
            && AllLock(NextRows(world, step, settings), worker.held) && NoTwice(worker.held)
            && DistinctRecords(worker.selected)
  {
    hide Locks, SameRow, SelectedRecords, Taken, Won, Reclaimed, Enqueued;
    var worker := world.workers[step.w];
    assert AllLock(world.rows, worker.held) && NoTwice(worker.held) && DistinctRecords(worker.selected);
    if step.Look? {
      SelectionIsDistinct(Reclaimed(world.rows, world.clock - LEASE, world.clock), world.clock, settings);
    } else if step.Take? {
      WonIsLocked(world.rows, worker.selected, world.clock);
    } else if step.MarkDelivered? || step.MarkFailure? {
      forall k | 0 <= k < |worker.held| - 1 ensures Locks(NextRows(world, step, settings), worker.held[1..][k]) {
        LockStays(world, step, settings, worker.held[k + 1]);
      }
    }
  }

  /** Whatever a worker holds after its step, it held before or has just won, so others hold none of it. */
  lemma OwnStaysApart(world: World, step: Step, settings: Settings, w: nat)
    requires Exclusive(world) && Enabled(world, step) && !step.Enqueue? && !step.Tick?
    requires w < |world.workers| && w != step.w
    ensures Apart(NextWorker(world, step, settings).held, world.workers[w].held)
  {
    hide Locks, SameRow, SelectedRecords, Taken, Won, Reclaimed, Enqueued;
    var own, other := world.workers[step.w].held, world.workers[w].held;
    assert if w < step.w then Apart(other, own) else Apart(own, other);
    assert Apart(own, other) by {
      ApartIsSymmetric(other, own);
    }
    if step.Take? {
      assert DistinctRecords(world.workers[step.w].selected) && AllLock(world.rows, other);
      WonIsLocked(world.rows, world.workers[step.w].selected, world.clock);
      ApartIsSymmetric(other, NextWorker(world, step, settings).held);
    }
  }

  lemma ApartIsSymmetric(x: seq<Held>, y: seq<Held>)
    ensures Apart(x, y) <==> Apart(y, x)
  {
  }

  /** While every lock is marked within its lease, exclusion is inductive. */
  lemma StepKeepsExclusion(world: World, step: Step, settings: Settings)
    requires Exclusive(world) && Timely(world) && Enabled(world, step)
    ensures Exclusive(Next(world, step, settings))
  {
    hide NextRows, NextWorker, Timely, AllLock, NoTwice, DistinctRecords, Apart;
    var next := Next(world, step, settings);
    if step.Enqueue? || step.Tick? {
      forall w | 0 <= w < |world.workers| ensures AllLock(next.rows, world.workers[w].held) {
        OthersStayLocked(world, step, settings, w);
      }
    } else {
      OwnStaysExclusive(world, step, settings);
      forall w | 0 <= w < |world.workers| && w != step.w
        ensures AllLock(next.rows, world.workers[w].held) && Apart(next.workers[step.w].held, world.workers[w].held)
      {
        OthersStayLocked(world, step, settings, w);
        OwnStaysApart(world, step, settings, w);
      }
      forall v, w | 0 <= v < w < |next.workers| ensures Apart(next.workers[v].held, next.workers[w].held) {
        if v == step.w || w == step.w {
          ApartIsSymmetric(next.workers[v].held, next.workers[w].held);
        }
      }
    }
  }

  lemma {:induction false} LeaseExcludes(worlds: seq<World>, steps: seq<Step>, settings: Settings, n: nat)
    requires IsRun(worlds, steps, settings) && Initial(worlds[0]) && n <= |steps|
    requires forall i | 0 <= i < n :: Timely(worlds[i])
    ensures Exclusive(worlds[n])
  {
    hide Timely, Exclusive, Next, Enabled;
    if n == 0 {
      StartsExclusive(worlds[0]);
    } else {
      LeaseExcludes(worlds, steps, settings, n - 1);
      assert Follows(worlds[n - 1], steps[n - 1], worlds[n], settings);
      StepKeepsExclusion(worlds[n - 1], steps[n - 1], settings);
    }
  }

  lemma StartsExclusive(world: World)
    requires Initial(world)
    ensures Exclusive(world)
  {
  }

  // ---------------------------------------------------------------------------------------------
  // Exactly how punctual workers have to be

  /** No row is held by two workers. */
  ghost predicate KeepsApart(world: World) {
    forall v, w | 0 <= v < w < |world.workers| :: Apart(world.workers[v].held, world.workers[w].held)
  }

  ghost predicate AllApart(worlds: seq<World>) {
    forall i | 0 <= i < |worlds| :: KeepsApart(worlds[i])
  }

  /** A run in which every claim is marked within `limit` seconds. */
  ghost predicate IsPunctualRun(
      worlds: seq<World>, steps: seq<Step>, settings: Settings, limit: real, measure: Measure)
  {
    && IsRun(worlds, steps, settings) && Initial(worlds[0])
    && forall i | 0 <= i < |worlds| :: Punctual(worlds[i], limit, measure)
  }

  /**
   Marking every claim within some number of seconds keeps workers apart, in every run, exactly if that
   is at most 60 seconds from the recorded time of the lock, or at most 59 seconds from the claim itself.
   */
  lemma LeaseExcludesIff(settings: Settings, limit: real, measure: Measure)
    ensures (forall worlds, steps | IsPunctualRun(worlds, steps, settings, limit, measure) :: AllApart(worlds))
            <==> limit <= if measure.FromRecord? then 60.0 else 59.0
  {
    hide AllApart, IsRun, Punctual, Timestamp;
    if limit <= Allowance(measure) {
      forall worlds, steps | IsPunctualRun(worlds, steps, settings, limit, measure) ensures AllApart(worlds) {
        PunctualRunsExclude(worlds, steps, settings, limit, measure);
      }
    } else {
      var start := LatestStart(limit, measure);
      var observation := Observation("", "", "", "", "", 0);
      var worlds, steps := LateWorkerIsOvertaken(observation, settings, start, limit, measure);
    }
  }

  lemma PunctualRunsExclude(worlds: seq<World>, steps: seq<Step>, settings: Settings, limit: real, measure: Measure)
    requires IsPunctualRun(worlds, steps, settings, limit, measure) && limit <= Allowance(measure)
    ensures AllApart(worlds)
  {
    hide Punctual, Timely, Initial, Apart, Follows;
    forall i | 0 <= i < |worlds| ensures Timely(worlds[i]) {
      PunctualIsTimely(worlds[i], limit, measure);
    }
    forall i | 0 <= i < |worlds| ensures KeepsApart(worlds[i]) {
      LeaseExcludes(worlds, steps, settings, i);
    }
  }

  // ---------------------------------------------------------------------------------------------
  // From the time of one request to the time of a batch

  /** No worker takes longer than `request` seconds over the record it works on. */
  ghost predicate Paced(world: World, request: real) {
    forall w | 0 <= w < |world.workers| && world.workers[w].held != [] ::
      world.clock <= world.workers[w].since + request
  }

  /** A worker that has done some of its batch has used up at most their time. */
  ghost predicate Steady(worker: Worker, batch: nat, request: real) {
    && |worker.selected| <= batch && |worker.held| <= batch
    && forall k | 0 <= k < |worker.held| ::
         worker.since <= worker.held[k].lockedAt + (batch - |worker.held|) as real * request
  }

  lemma WonIsNoMore(rows: Table, records: seq<Record>)
    ensures |Won(rows, records)| <= |records|
  {
    if records != [] {
      WonIsNoMore(rows, records[..|records| - 1]);
    }
  }

  lemma StepIsSteady(world: World, step: Step, settings: Settings, request: real)
    requires Enabled(world, step) && !step.Enqueue? && !step.Tick? && request >= 0.0 && Paced(world, request)
    requires Steady(world.workers[step.w], settings.batch, request)
    ensures Steady(NextWorker(world, step, settings), settings.batch, request)
  {
    hide Selected, Won, Reclaimed;
    var worker, batch: int := world.workers[step.w], settings.batch;
    if step.Look? {
      SelectedAreFirst(Reclaimed(world.rows, world.clock - LEASE, world.clock), world.clock, settings.batch);
    } else if step.Take? {
      WonIsNoMore(world.rows, worker.selected);
      var left := batch - |Won(world.rows, worker.selected)|;
      assert left as real * request >= 0.0;
    } else if step.MarkDelivered? || step.MarkFailure? {
      var n := |worker.held|;
      OneMoreRequest(batch - n, request);
      assert |worker.held[1..]| == n - 1;
      forall k | 0 <= k < n - 1
        ensures world.clock <= worker.held[1..][k].lockedAt + (batch - (n - 1)) as real * request
      {
        assert worker.held[1..][k] == worker.held[k + 1];
      }
    }
  }

  lemma OneMoreRequest(n: int, request: real)
    ensures (n + 1) as real * request == n as real * request + request
  {
  }

  ghost predicate AllSteady(world: World, batch: nat, request: real) {
    forall w | 0 <= w < |world.workers| :: Steady(world.workers[w], batch, request)
  }

  lemma {:induction false} PacedRunsAreSteady(
      worlds: seq<World>, steps: seq<Step>, settings: Settings, request: real, n: nat)
    requires IsRun(worlds, steps, settings) && Initial(worlds[0]) && n <= |steps| && request >= 0.0
    requires forall i | 0 <= i < n :: Paced(worlds[i], request)
    ensures AllSteady(worlds[n], settings.batch, request)
  {
    hide Paced, NextRows, NextWorker, Enabled;
    if n == 0 {
    } else {
      hide Steady;
      PacedRunsAreSteady(worlds, steps, settings, request, n - 1);
      var world, step := worlds[n - 1], steps[n - 1];
      assert Follows(world, step, worlds[n], settings);
      if !step.Enqueue? && !step.Tick? {
        WorkerExists(world, step);
        StepIsSteady(world, step, settings, request);
      }
    }
  }

  lemma WorkerExists(world: World, step: Step)
    requires Enabled(world, step) && !step.Enqueue? && !step.Tick?
    ensures step.w < |world.workers|
  {
  }

  /** Whoever takes at most so long over one request has marked every claim within a batch of them. */
  lemma PacedIsPunctual(world: World, batch: nat, request: real, limit: real)
    requires Paced(world, request) && AllSteady(world, batch, request) && request >= 0.0
    requires limit == batch as real * request
    ensures Punctual(world, limit, FromClaim)
  {
    forall w, k | 0 <= w < |world.workers| && 0 <= k < |world.workers[w].held|
      ensures Age(world, world.workers[w].held[k], FromClaim) <= batch as real * request
    {
      var worker := world.workers[w];
      assert Steady(worker, batch, request);
      var done := batch - |worker.held|;
      OneMoreRequest(done, request);
      assert (done + 1) as real * request <= batch as real * request;
    }
  }

  /**
   So the lease is safe whenever a whole batch of requests, one after the other, takes at most 59
   seconds. (The defaults, 20 requests of up to 5 seconds, do not keep to that.)
   */
  lemma ShortBatchesExclude(worlds: seq<World>, steps: seq<Step>, settings: Settings, request: real)
    requires IsRun(worlds, steps, settings) && Initial(worlds[0]) && request >= 0.0
    requires forall i | 0 <= i < |worlds| :: Paced(worlds[i], request)
    requires settings.batch as real * request <= 59.0
    ensures AllApart(worlds)
  {
    hide Paced, AllSteady, Punctual, Follows, Initial, AllApart;
    var limit := settings.batch as real * request;
    forall i | 0 <= i < |worlds| ensures Punctual(worlds[i], limit, FromClaim) {
      PacedRunsAreSteady(worlds, steps, settings, request, i);
      PacedIsPunctual(worlds[i], settings.batch, request, limit);
    }
    PunctualRunsExclude(worlds, steps, settings, limit, FromClaim);
  }

  // ---------------------------------------------------------------------------------------------
  // Without that

  /** A time of the claim, within its second, from which the limit is too long. */
  lemma LatestStart(limit: real, measure: Measure) returns (start: real)
    requires limit > Allowance(measure)
    ensures 0.0 <= start < 1.0 && start + limit > LEASE
    ensures measure.FromRecord? ==> start == 0.0
  {
    start := if limit > LEASE then 0.0 else 1.0 - (limit - (LEASE - 1.0)) / 2.0;
  }

  /** One row, and two workers of which the first takes all the time it is given. */
  lemma LateWorkerIsOvertaken(
      observation: Observation, settings: Settings, start: real, limit: real, measure: Measure)
    returns (worlds: seq<World>, steps: seq<Step>)
    requires 0.0 <= start < 1.0 && limit > LEASE - 1.0 && start + limit > LEASE
    requires measure.FromRecord? ==> start == 0.0
    ensures IsPunctualRun(worlds, steps, settings, limit, measure) && !AllApart(worlds)
  {
    hide Next, Enabled, Timestamp, Initial, Punctual, KeepsApart;
    TimestampOfStart(start);
    var end := start + limit;
    var row := Row("key", observation, Pending, 0, 0.0, None);
    var record := Record(0, 0, observation);
    var locked := row.(status := Sending, lockedAt := Some(0.0));
    var retried := row.(status := Retry, nextAttempt := Timestamp(end));
    var looking := Worker([record], [], false, 0.0);
    var late, other := Worker([], [Held(record, start)], false, start), Worker([], [Held(record, end)], false, end);
    var empty := World([], start, [IDLE, IDLE], {});
    var queued := empty.(rows := [row]);
    var selected := queued.(workers := queued.workers[0 := looking]);
    var taken := selected.(rows := [locked], workers := selected.workers[0 := late]);
    var waited := taken.(clock := start + limit);
    var released := waited.(rows := [retried], workers := waited.workers[1 := looking]);
    var retaken := released.(rows := [LockedRow(retried, end)], workers := released.workers[1 := other]);
    worlds := [empty, queued, selected, taken, waited, released, retaken];
    steps := [Enqueue("key", observation), Look(0), Take(0), Tick(limit), Look(1), Take(1)];
    FirstRow(empty, "key", observation, settings);
    LookFollows(queued, 0, row, row, settings);
    TakeOne(selected, 0, row, record, settings);
    Waits(taken, limit, settings);
    LookFollows(waited, 1, locked, retried, settings);
    TakeOne(released, 1, retried, record, settings);
    assert Initial(empty) by {
      StartsEmpty(empty);
    }
    forall i | 0 <= i < |worlds| ensures Punctual(worlds[i], limit, measure) {
      HoldersArePunctual(worlds[i], late, other, looking, limit, measure);
    }
    assert !KeepsApart(worlds[6]) by {
      HoldTheSame(worlds[6], late, other);
    }
  }

  lemma TimestampOfStart(start: real)
    requires 0.0 <= start < 1.0
    ensures Timestamp(start) == 0.0
  {
  }

  lemma StartsEmpty(world: World)
    requires world.rows == [] && world.confirmed == {} && world.workers == [IDLE, IDLE]
    ensures Initial(world)
  {
  }

  lemma HoldTheSame(world: World, late: Worker, other: Worker)
    requires world.workers == [late, other] && late.held != [] && other.held != []
             && SameRow(late.held[0], other.held[0])
    ensures !KeepsApart(world)
  {
    assert !Apart(world.workers[0].held, world.workers[1].held);
  }

  lemma HoldersArePunctual(
      world: World, late: Worker, other: Worker, looking: Worker, limit: real, measure: Measure)
    requires |world.workers| == 2 && world.workers[0] in [IDLE, looking, late]
             && world.workers[1] in [IDLE, looking, other]
    requires |late.held| == 1 && |other.held| == 1 && looking.held == [] && limit > 1.0
    requires late in world.workers ==> Age(world, late.held[0], measure) <= limit
    requires other in world.workers ==> other.held[0].lockedAt == world.clock
    ensures Punctual(world, limit, measure)
  {
  }

  lemma FirstRow(world: World, dedupKey: string, observation: Observation, settings: Settings)
    requires world.rows == []
    ensures Enabled(world, Enqueue(dedupKey, observation))
    ensures Next(world, Enqueue(dedupKey, observation), settings)
         == world.(rows := [Row(dedupKey, observation, Pending, 0, Timestamp(world.clock), None)])
  {
  }

  lemma Waits(world: World, seconds: real, settings: Settings)
    requires seconds >= 0.0
    ensures Enabled(world, Tick(seconds))
    ensures Next(world, Tick(seconds), settings) == world.(clock := world.clock + seconds)
  {
  }

  lemma LookFollows(world: World, w: nat, row: Row, released: Row, settings: Settings)
    requires world.rows == [row] && w < |world.workers| && world.workers[w] == IDLE
    requires released == ReclaimedRow(row, world.clock - LEASE, world.clock) && Due(released, world.clock)
    ensures Enabled(world, Look(w))
    ensures Next(world, Look(w), settings)
         == world.(rows := [released],
                   workers := world.workers[w := Worker([Record(0, row.attempts, row.observation)], [], false, 0.0)])
  {
    assert Reclaimed(world.rows, world.clock - LEASE, world.clock) == [released];
    assert DueIds([released], world.clock, 0) == [];
    assert DueIds([released], world.clock, 1) == [0];
    assert SelectedRecords([released], world.clock, settings) == [Record(0, row.attempts, row.observation)];
  }

  lemma TakeOne(world: World, w: nat, row: Row, record: Record, settings: Settings)
    requires world.rows == [row] && Waiting(row) && record.id == 0
    requires w < |world.workers| && world.workers[w] == Worker([record], [], false, 0.0)
    ensures Enabled(world, Take(w))
    ensures Next(world, Take(w), settings)
         == world.(rows := [LockedRow(row, world.clock)],
                   workers := world.workers[w := Worker([], [Held(record, world.clock)], false, world.clock)])
  {
    assert [record][0] == record && Mentions([record], 0);
    assert Won(world.rows, []) == [];
    assert [record][..0] == [];
    assert Won(world.rows, [record]) == [record];
    assert WithLock([record], world.clock) == [Held(record, world.clock)];
    assert Taken(world.rows, [record], world.clock) == [LockedRow(row, world.clock)];
  }
}
