/**
 Any number of workers over one outbox: they enqueue, select, lock, deliver, mark and crash in any
 order. A select and the updates that follow it are separate steps, with anything in between.
 */
module OutboxProtocol {
  import opened Common
  import opened Outbox

  /** A record that a worker has locked, when it did, and not yet marked. */
  datatype Held = Held(record: Record, lockedAt: real)

  /**
   A worker works on the first record it holds, since the time `since`; `recorded` says that the endpoint
   has confirmed that one.
   */
  datatype Worker = Worker(selected: seq<Record>, held: seq<Held>, recorded: bool, since: real)

  const IDLE := Worker([], [], false, 0.0)

  /** `confirmed` are the rows and observations for which a 2xx answer said `recorded: true`. */
  datatype World = World(rows: Table, clock: real, workers: seq<Worker>, confirmed: set<(nat, Observation)>)

  datatype Step =
    | Enqueue(dedupKey: string, observation: Observation)
    | Look(w: nat)
    | Take(w: nat)
    | Answer(w: nat, recorded: bool)
    | MarkDelivered(w: nat)
    | MarkFailure(w: nat)
    | Crash(w: nat)
    | Tick(seconds: real)

  predicate Enabled(world: World, step: Step) {
    match step
    case Enqueue(_, _) => true
    case Tick(seconds) => seconds >= 0.0
    case Look(w) => w < |world.workers| && world.workers[w].held == []
    case Take(w) => w < |world.workers| && world.workers[w].held == []
    case Answer(w, _) => w < |world.workers| && world.workers[w].held != [] && !world.workers[w].recorded
    case MarkDelivered(w) => w < |world.workers| && world.workers[w].held != [] && world.workers[w].recorded
    case MarkFailure(w) => w < |world.workers| && world.workers[w].held != []
    case Crash(w) => w < |world.workers|
  }

  function WithLock(records: seq<Record>, lockedAt: real): (held: seq<Held>)
    ensures |held| == |records| && forall k | 0 <= k < |held| :: held[k] == Held(records[k], lockedAt)
  {
    seq(|records|, k requires 0 <= k < |records| => Held(records[k], lockedAt))
  }

  /** The selection of a claim is made on the table without stale locks. */
  function SelectedRecords(rows: Table, clock: real, settings: Settings): seq<Record> {
    RecordsOf(rows, Selected(rows, clock, settings.batch))
  }

  function NextRows(world: World, step: Step, settings: Settings): Table
    requires Enabled(world, step)
  {
    var World(rows, clock, workers, _) := world;
    match step
    case Enqueue(dedupKey, observation) => Enqueued(rows, dedupKey, observation, clock)
    case Look(w) => Reclaimed(rows, clock - LEASE, clock)
    case Take(w) => Taken(rows, workers[w].selected, clock)
    case MarkDelivered(w) => Delivered(rows, workers[w].held[0].record.id)
    case MarkFailure(w) => FailureMarked(rows, workers[w].held[0].record, clock, settings.maxAttempts)
    case _ => rows
  }

  function NextWorker(world: World, step: Step, settings: Settings): Worker
    requires Enabled(world, step) && !step.Enqueue? && !step.Tick?
  {
    var worker := world.workers[step.w];
    match step
    case Look(w) =>
      var released := Reclaimed(world.rows, world.clock - LEASE, world.clock);
      worker.(selected := SelectedRecords(released, world.clock, settings))
    case Take(w) => Worker([], WithLock(Won(world.rows, worker.selected), world.clock), false, world.clock)
    case Answer(w, recorded) => worker.(recorded := recorded)
    case MarkDelivered(w) => Worker(worker.selected, worker.held[1..], false, world.clock)
    case MarkFailure(w) => Worker(worker.selected, worker.held[1..], false, world.clock)
    case Crash(w) => IDLE
  }

  function Next(world: World, step: Step, settings: Settings): World
    requires Enabled(world, step)
  {
    World(
      NextRows(world, step, settings),
      if step.Tick? then world.clock + step.seconds else world.clock,
      if step.Enqueue? || step.Tick? then world.workers
      else world.workers[step.w := NextWorker(world, step, settings)],
      if step.Answer? && step.recorded then
        var record := world.workers[step.w].held[0].record;
        world.confirmed + {(record.id, record.observation)}
      else world.confirmed)
  }

  // ---------------------------------------------------------------------------------------------
  // What every step keeps

  type Confirmed = set<(nat, Observation)>

  predicate RowOk(row: Row, id: nat, confirmed: Confirmed, maxAttempts: Positive) {
    && (if row.status == Failed then row.attempts == maxAttempts else row.attempts < maxAttempts)
    && (row.lockedAt.Some? <==> row.status == Sending)
    && (row.status == Sent ==> (id, row.observation) in confirmed)
  }

  ghost predicate RowsOk(rows: Table, confirmed: Confirmed, maxAttempts: Positive) {
    && (forall i | 0 <= i < |rows| :: RowOk(rows[i], i, confirmed, maxAttempts))
    && (forall i, j | 0 <= i < j < |rows| :: rows[i].dedupKey != rows[j].dedupKey)
  }

  predicate RecordOk(rows: Table, record: Record, maxAttempts: Positive) {
    record.id < |rows| && record.attempts < maxAttempts && record.observation == rows[record.id].observation
  }

  ghost predicate WorkerOk(rows: Table, worker: Worker, confirmed: Confirmed, maxAttempts: Positive) {
    && (forall k | 0 <= k < |worker.selected| :: RecordOk(rows, worker.selected[k], maxAttempts))
    && (forall k | 0 <= k < |worker.held| :: RecordOk(rows, worker.held[k].record, maxAttempts))
    && (worker.recorded ==> worker.held != [] &&
                            (worker.held[0].record.id, worker.held[0].record.observation) in confirmed)
  }

  ghost predicate Invariant(world: World, settings: Settings) {
    && RowsOk(world.rows, world.confirmed, settings.maxAttempts)
    && forall w | 0 <= w < |world.workers| ::
       WorkerOk(world.rows, world.workers[w], world.confirmed, settings.maxAttempts)
  }

  /** No row disappears or changes what it is for, and a delivered row is left alone. */
  predicate Continues(before: Row, after: Row) {
    && after.dedupKey == before.dedupKey && after.observation == before.observation
    && (before.status == Sent ==> after == before)
  }

  ghost predicate Grows(before: Table, after: Table) {
    |before| <= |after| && forall i | 0 <= i < |before| :: Continues(before[i], after[i])
  }

  lemma EnqueuedKeeps(
      rows: Table, dedupKey: string, observation: Observation, now: real, confirmed: Confirmed, maxAttempts: Positive)
    requires RowsOk(rows, confirmed, maxAttempts)
    ensures var after := Enqueued(rows, dedupKey, observation, now);
            RowsOk(after, confirmed, maxAttempts) && Grows(rows, after)
  {
    hide IndexOf;
    var i, after := IndexOf(rows, dedupKey), Enqueued(rows, dedupKey, observation, now);
    assert forall j | 0 <= j < |rows| && j != i :: after[j] == rows[j];
  }

  lemma ReclaimedKeeps(rows: Table, cutoff: real, now: real, confirmed: Confirmed, maxAttempts: Positive)
    requires RowsOk(rows, confirmed, maxAttempts)
    ensures var after := Reclaimed(rows, cutoff, now);
            RowsOk(after, confirmed, maxAttempts) && Grows(rows, after)
  {
    hide Reclaimed;
  }

  lemma TakenKeeps(rows: Table, records: seq<Record>, now: real, confirmed: Confirmed, maxAttempts: Positive)
    requires RowsOk(rows, confirmed, maxAttempts)
    ensures var after := Taken(rows, records, now);
            RowsOk(after, confirmed, maxAttempts) && Grows(rows, after)
  {
    hide Taken, Mentions;
  }

  lemma DeliveredKeeps(rows: Table, record: Record, confirmed: Confirmed, maxAttempts: Positive)
    requires RowsOk(rows, confirmed, maxAttempts) && RecordOk(rows, record, maxAttempts)
    requires (record.id, record.observation) in confirmed
    ensures var after := Delivered(rows, record.id);
            RowsOk(after, confirmed, maxAttempts) && Grows(rows, after)
  {
  }

  lemma FailureKeeps(rows: Table, record: Record, now: real, confirmed: Confirmed, maxAttempts: Positive)
    requires RowsOk(rows, confirmed, maxAttempts) && RecordOk(rows, record, maxAttempts)
    ensures var after := FailureMarked(rows, record, now, maxAttempts);
            RowsOk(after, confirmed, maxAttempts) && Grows(rows, after)
  {
    hide RetryDelay;
  }

  /** More confirmations and a table that has grown leave a worker's knowledge true. */
  lemma StillOk(
      before: Table, after: Table, worker: Worker, confirmed: Confirmed, more: Confirmed, maxAttempts: Positive)
    requires WorkerOk(before, worker, confirmed, maxAttempts) && Grows(before, after) && confirmed <= more
    ensures WorkerOk(after, worker, more, maxAttempts)
  {
    forall record | RecordOk(before, record, maxAttempts) ensures RecordOk(after, record, maxAttempts) {
      assert Continues(before[record.id], after[record.id]);
    }
  }

  lemma SelectionIsOk(rows: Table, clock: real, settings: Settings, confirmed: Confirmed)
    requires RowsOk(rows, confirmed, settings.maxAttempts)
    ensures var records := SelectedRecords(rows, clock, settings);
            forall k | 0 <= k < |records| :: RecordOk(rows, records[k], settings.maxAttempts)
  {
    hide Selected;
    var ids := Selected(rows, clock, settings.batch);
    SelectedAreFirst(rows, clock, settings.batch);
    forall k | 0 <= k < |ids| ensures RecordOk(rows, SelectedRecords(rows, clock, settings)[k], settings.maxAttempts) {
      assert Due(rows[ids[k]], clock);
      assert RowOk(rows[ids[k]], ids[k], confirmed, settings.maxAttempts);
    }
  }

  lemma RowsKept(world: World, step: Step, settings: Settings)
    requires Invariant(world, settings) && Enabled(world, step)
    ensures RowsOk(NextRows(world, step, settings), Next(world, step, settings).confirmed, settings.maxAttempts)
    ensures Grows(world.rows, NextRows(world, step, settings))
  {
    hide RecordOk, RowOk, Continues, Enqueued, Reclaimed, Taken, Delivered, FailureMarked;
    var World(rows, clock, workers, confirmed) := world;
    var max := settings.maxAttempts;
    match step {
      case Enqueue(dedupKey, observation) => EnqueuedKeeps(rows, dedupKey, observation, clock, confirmed, max);
      case Look(w) => ReclaimedKeeps(rows, clock - LEASE, clock, confirmed, max);
      case Take(w) => TakenKeeps(rows, workers[w].selected, clock, confirmed, max);
      case MarkDelivered(w) =>
        assert WorkerOk(rows, workers[w], confirmed, max);
        DeliveredKeeps(rows, workers[w].held[0].record, confirmed, max);
      case MarkFailure(w) =>
        assert WorkerOk(rows, workers[w], confirmed, max);
        FailureKeeps(rows, workers[w].held[0].record, clock, confirmed, max);
      case _ =>
        MoreConfirmed(rows, confirmed, Next(world, step, settings).confirmed, max);
    }
  }

  lemma MoreConfirmed(rows: Table, confirmed: Confirmed, more: Confirmed, maxAttempts: Positive)
    requires RowsOk(rows, confirmed, maxAttempts) && confirmed <= more
    ensures RowsOk(rows, more, maxAttempts) && Grows(rows, rows)
  {
  }

  lemma WorkerKept(world: World, step: Step, settings: Settings)
    requires Invariant(world, settings) && Enabled(world, step) && !step.Enqueue? && !step.Tick?
    ensures var next := Next(world, step, settings);
            WorkerOk(next.rows, NextWorker(world, step, settings), next.confirmed, settings.maxAttempts)
  {
    hide RowOk, Reclaimed, Won, RecordsOf, SelectedRecords, RowsOk, NextRows, RecordOk, Grows, Taken;
    var next, worker, max := Next(world, step, settings), world.workers[step.w], settings.maxAttempts;
    RowsKept(world, step, settings);
    assert WorkerOk(world.rows, worker, world.confirmed, max);
    StillOk(world.rows, next.rows, worker, world.confirmed, next.confirmed, max);
    if step.Look? {
      LookRows(world, step, settings);
      SelectionIsOk(next.rows, world.clock, settings, next.confirmed);
    } else if step.Take? {
      WonAreSelected(world.rows, worker.selected);
    }
  }

  lemma LookRows(world: World, step: Step, settings: Settings)
    requires Enabled(world, step) && step.Look?
    ensures NextRows(world, step, settings) == Reclaimed(world.rows, world.clock - LEASE, world.clock)
  {
  }

  /** The invariant is inductive; along with it, every step lets the table only grow. */
  lemma StepKeepsInvariant(world: World, step: Step, settings: Settings)
    requires Invariant(world, settings) && Enabled(world, step)
    ensures Invariant(Next(world, step, settings), settings)
    ensures Grows(world.rows, Next(world, step, settings).rows)
  {
    hide RowsOk, WorkerOk, NextRows, NextWorker, Grows;
    var next := Next(world, step, settings);
    RowsKept(world, step, settings);
    if !step.Enqueue? && !step.Tick? {
      WorkerKept(world, step, settings);
    }
    forall w | 0 <= w < |next.workers|
      ensures WorkerOk(next.rows, next.workers[w], next.confirmed, settings.maxAttempts)
    {
      if step.Enqueue? || step.Tick? || w != step.w {
        StillOk(world.rows, next.rows, world.workers[w], world.confirmed, next.confirmed, settings.maxAttempts);
      }
    }
  }

  // ---------------------------------------------------------------------------------------------
  // Runs

  ghost predicate IsRun(worlds: seq<World>, steps: seq<Step>, settings: Settings) {
    && |worlds| == |steps| + 1
    && forall i | 0 <= i < |steps| :: Follows(worlds[i], steps[i], worlds[i + 1], settings)
  }

  predicate Follows(world: World, step: Step, next: World, settings: Settings) {
    Enabled(world, step) && next == Next(world, step, settings)
  }

  predicate Initial(world: World) {
    world.rows == [] && world.confirmed == {} && forall w | 0 <= w < |world.workers| :: world.workers[w] == IDLE
  }

  lemma {:induction false} InvariantOverRun(worlds: seq<World>, steps: seq<Step>, settings: Settings, n: nat)
    requires IsRun(worlds, steps, settings) && Initial(worlds[0]) && n <= |steps|
    ensures Invariant(worlds[n], settings)
  {
    hide Next, Enabled;
    if n == 0 {
      hide Invariant;
      InitialInvariant(worlds[0], settings);
    } else {
      hide Invariant;
      InvariantOverRun(worlds, steps, settings, n - 1);
      assert Follows(worlds[n - 1], steps[n - 1], worlds[n], settings);
      StepKeepsInvariant(worlds[n - 1], steps[n - 1], settings);
    }
  }

  lemma InitialInvariant(world: World, settings: Settings)
    requires Initial(world)
    ensures Invariant(world, settings)
  {
  }

  lemma {:induction false} GrowsOverRun(worlds: seq<World>, steps: seq<Step>, settings: Settings, m: nat, n: nat)
    requires IsRun(worlds, steps, settings) && Initial(worlds[0]) && m <= n <= |steps|
    ensures Grows(worlds[m].rows, worlds[n].rows)
  {
    hide Next, Enabled, Invariant;
    if m < n {
      GrowsOverRun(worlds, steps, settings, m, n - 1);
      InvariantOverRun(worlds, steps, settings, n - 1);
      assert Follows(worlds[n - 1], steps[n - 1], worlds[n], settings);
      StepKeepsInvariant(worlds[n - 1], steps[n - 1], settings);
      forall i | 0 <= i < |worlds[m].rows| ensures Continues(worlds[m].rows[i], worlds[n].rows[i]) {
        assert Continues(worlds[m].rows[i], worlds[n - 1].rows[i])
            && Continues(worlds[n - 1].rows[i], worlds[n].rows[i]);
      }
    }
  }

  /** The endpoint has said `recorded: true` about this row and observation in this step. */
  predicate Confirms(world: World, step: Step, id: nat, observation: Observation) {
    && Enabled(world, step) && step.Answer? && step.recorded
    && world.workers[step.w].held[0].record.id == id
    && world.workers[step.w].held[0].record.observation == observation
  }

  lemma {:induction false} ConfirmedByAnswer(
      worlds: seq<World>, steps: seq<Step>, settings: Settings, n: nat, id: nat, observation: Observation)
    requires IsRun(worlds, steps, settings) && Initial(worlds[0]) && n <= |steps|
    requires (id, observation) in worlds[n].confirmed
    ensures exists k :: 0 <= k < n && Confirms(worlds[k], steps[k], id, observation)
  {
    hide NextRows, NextWorker;
    assert n > 0;
    assert Follows(worlds[n - 1], steps[n - 1], worlds[n], settings);
    if !Confirms(worlds[n - 1], steps[n - 1], id, observation) {
      ConfirmedByAnswer(worlds, steps, settings, n - 1, id, observation);
    }
  }

  /**
   In every run: a delivered row was confirmed with its own observation and stays delivered, a row's
   observation never changes, and retries stop exactly at the limit.
   */
  lemma Safety(worlds: seq<World>, steps: seq<Step>, settings: Settings, m: nat, n: nat, i: nat)
    requires IsRun(worlds, steps, settings) && Initial(worlds[0]) && m <= n <= |steps| && i < |worlds[m].rows|
    ensures i < |worlds[n].rows|
    ensures var before, after := worlds[m].rows[i], worlds[n].rows[i];
            && after.dedupKey == before.dedupKey && after.observation == before.observation
            && (before.status == Sent ==> after == before)
            && (after.status == Sent ==> exists k :: 0 <= k < n && Confirms(worlds[k], steps[k], i, before.observation))
            && (after.status == Failed ==> after.attempts == settings.maxAttempts)
            && (after.status != Failed ==> after.attempts < settings.maxAttempts)
  {
    hide Next, Enabled, Confirms;
    InvariantOverRun(worlds, steps, settings, n);
    GrowsOverRun(worlds, steps, settings, m, n);
    assert Continues(worlds[m].rows[i], worlds[n].rows[i]);
    assert RowOk(worlds[n].rows[i], i, worlds[n].confirmed, settings.maxAttempts);
    if worlds[n].rows[i].status == Sent {
      ConfirmedByAnswer(worlds, steps, settings, n, i, worlds[n].rows[i].observation);
    }
  }
}
