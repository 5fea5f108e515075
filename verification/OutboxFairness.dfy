/** No starvation in the outbox: a row that is due is claimed after a bounded number of claims. */
module OutboxFairness {
  import opened Common
  import opened Outbox
  import opened OutboxProtocol

  /** The waiting rows that the queue puts before row `r`. */
  function Ahead(rows: Table, r: nat): set<nat>
    requires r < |rows|
  {
    set i | 0 <= i < |rows| && Waiting(rows[i]) && Before(rows, i, r)
  }

  /** Row `r` waits, its time has strictly passed, and nobody enqueues it again in this step. */
  predicate Pending(world: World, step: Step, r: nat) {
    && r < |world.rows| && Waiting(world.rows[r]) && world.rows[r].nextAttempt < Timestamp(world.clock)
    && !(step.Enqueue? && step.dedupKey == world.rows[r].dedupKey)
  }

  /** What a row becomes in one step, as far as the order of the queue goes. */
  predicate NoCloser(before: Row, after: Row, clock: real) {
    Waiting(after) ==>
      || (Waiting(before) && after.nextAttempt == before.nextAttempt)
      || Timestamp(clock) <= after.nextAttempt
  }

  /** Rows that begin to wait, or wait anew, do so from now on. */
  lemma RowsComeNoCloser(world: World, step: Step, settings: Settings, i: nat)
    requires Enabled(world, step) && i < |NextRows(world, step, settings)|
    ensures if i < |world.rows| then NoCloser(world.rows[i], NextRows(world, step, settings)[i], world.clock)
            else Timestamp(world.clock) <= NextRows(world, step, settings)[i].nextAttempt
  {
    hide Mentions, IndexOf;
    if step.MarkFailure? {
      RetryDelayGrows(world.workers[step.w].held[0].record.attempts + 1);
    }
    hide RetryDelay;
  }

  /** A pending row keeps its place until it is claimed. */
  lemma KeepsItsPlace(world: World, step: Step, settings: Settings, r: nat)
    requires Enabled(world, step) && Pending(world, step, r)
    ensures r < |NextRows(world, step, settings)|
    ensures var after := NextRows(world, step, settings)[r];
            if Waiting(after) then
              after.nextAttempt == world.rows[r].nextAttempt && after.dedupKey == world.rows[r].dedupKey
            else step.Take? && after == LockedRow(world.rows[r], world.clock)
  {
    hide Mentions, RetryDelay;
  }

  /** The rows ahead of a pending row never gain a member. */
  lemma AheadNeverGains(world: World, step: Step, settings: Settings, r: nat)
    requires Enabled(world, step) && Pending(world, step, r)
    requires r < |NextRows(world, step, settings)| && Waiting(NextRows(world, step, settings)[r])
    ensures Ahead(NextRows(world, step, settings), r) <= Ahead(world.rows, r)
  {
    hide NextRows, Enabled;
    KeepsItsPlace(world, step, settings, r);
    var before, after := world.rows, NextRows(world, step, settings);
    forall i | i in Ahead(after, r) ensures i in Ahead(before, r) {
      RowsComeNoCloser(world, step, settings, i);
    }
  }

  function SetOf(ids: Ids): set<nat> {
    set i | i in ids
  }

  lemma {:induction false} SizeOfSet(ids: Ids)
    requires Distinct(ids)
    ensures |SetOf(ids)| == |ids|
  {
    if ids != [] {
      SizeOfSet(ids[1..]);
      assert SetOf(ids) == {ids[0]} + SetOf(ids[1..]);
      assert ids[0] !in ids[1..];
    }
  }

  /** A selection either holds the row or is a full batch of rows that are ahead of it. */
  lemma SelectionIsAhead(rows: Table, clock: real, settings: Settings, r: nat)
    requires r < |rows| && Due(rows[r], clock)
    ensures var ids := Selected(rows, clock, settings.batch);
            && Distinct(ids)
            && (r !in ids ==> |ids| == settings.batch && SetOf(ids) <= Ahead(rows, r))
  {
    hide Selected;
    SelectedAreFirst(rows, clock, settings.batch);
    var ids := Selected(rows, clock, settings.batch);
    if r !in ids {
      forall i | i in ids ensures i in Ahead(rows, r) {
        var k :| 0 <= k < |ids| && ids[k] == i;
        assert Due(rows[ids[k]], clock) && Before(rows, ids[k], r);
      }
    }
  }

  // ---------------------------------------------------------------------------------------------
  // Claims in a run

  /** Row `r` waits through the whole run, past its time, and is not enqueued again. */
  ghost predicate WaitsThrough(worlds: seq<World>, steps: seq<Step>, r: nat)
    requires |worlds| == |steps| + 1
  {
    && (forall i | 0 <= i < |steps| :: Pending(worlds[i], steps[i], r))
    && (forall i | 0 <= i < |worlds| :: r < |worlds[i].rows| && Waiting(worlds[i].rows[r]))
  }

  /** A claim: worker `w` selects in one step and locks in a later one, and does nothing in between. */
  datatype Claim = Claim(w: nat, look: nat, take: nat)

  predicate Disturbs(step: Step, w: nat) {
    !step.Enqueue? && !step.Tick? && step.w == w
  }

  ghost predicate IsClaim(steps: seq<Step>, claim: Claim) {
    && claim.look < claim.take < |steps|
    && steps[claim.look] == Look(claim.w) && steps[claim.take] == Take(claim.w)
    && forall k | claim.look < k < claim.take :: !Disturbs(steps[k], claim.w)
  }

  lemma {:induction false} AheadShrinksOver(
      worlds: seq<World>, steps: seq<Step>, settings: Settings, r: nat, m: nat, n: nat)
    requires IsRun(worlds, steps, settings) && WaitsThrough(worlds, steps, r) && m <= n <= |steps|
    ensures Ahead(worlds[n].rows, r) <= Ahead(worlds[m].rows, r)
  {
    hide Ahead, NextRows, NextWorker, Enabled, Waiting;
    if m < n {
      AheadShrinksOver(worlds, steps, settings, r, m, n - 1);
      assert Follows(worlds[n - 1], steps[n - 1], worlds[n], settings);
      assert Pending(worlds[n - 1], steps[n - 1], r);
      AheadNeverGains(worlds[n - 1], steps[n - 1], settings, r);
    }
  }

  lemma {:induction false} SelectionStays(
      worlds: seq<World>, steps: seq<Step>, settings: Settings, claim: Claim, n: nat)
    requires IsRun(worlds, steps, settings) && IsClaim(steps, claim) && claim.look < n <= claim.take
    ensures claim.w < |worlds[claim.look].workers| && claim.w < |worlds[n].workers|
    ensures worlds[n].workers[claim.w].selected == worlds[claim.look + 1].workers[claim.w].selected
  {
    hide NextRows, NextWorker;
    assert Follows(worlds[claim.look], steps[claim.look], worlds[claim.look + 1], settings);
    if n > claim.look + 1 {
      SelectionStays(worlds, steps, settings, claim, n - 1);
      assert Follows(worlds[n - 1], steps[n - 1], worlds[n], settings);
      assert !Disturbs(steps[n - 1], claim.w);
    }
  }

  /** The selection that a claim will lock, all in terms of the table at its first step. */
  lemma ClaimSelection(worlds: seq<World>, steps: seq<Step>, settings: Settings, claim: Claim)
    requires IsRun(worlds, steps, settings) && IsClaim(steps, claim)
    ensures claim.look < claim.take < |steps| && |worlds| == |steps| + 1
    ensures claim.w < |worlds[claim.take].workers|
    ensures var released := worlds[claim.look + 1].rows;
            var ids := Selected(released, worlds[claim.look].clock, settings.batch);
            worlds[claim.take].workers[claim.w].selected == RecordsOf(released, ids)
    ensures worlds[claim.look + 1].rows == NextRows(worlds[claim.look], steps[claim.look], settings)
    ensures worlds[claim.take + 1].rows
         == Taken(worlds[claim.take].rows, worlds[claim.take].workers[claim.w].selected, worlds[claim.take].clock)
  {
    hide Selected, Taken, Reclaimed, Won;
    assert Follows(worlds[claim.look], steps[claim.look], worlds[claim.look + 1], settings);
    assert Follows(worlds[claim.take], steps[claim.take], worlds[claim.take + 1], settings);
    SelectionStays(worlds, steps, settings, claim, claim.take);
  }

  /** What has been locked no longer waits. */
  lemma LockedNoLongerWaits(rows: Table, records: seq<Record>, clock: real, i: nat)
    requires i < |rows| && Mentions(records, i)
    ensures !Waiting(Taken(rows, records, clock)[i])
  {
  }

  /** A claim that leaves row `r` waiting has taken a full batch of the rows ahead of it. */
  lemma ClaimTakesBatch(worlds: seq<World>, steps: seq<Step>, settings: Settings, r: nat, claim: Claim)
    requires IsRun(worlds, steps, settings) && WaitsThrough(worlds, steps, r) && IsClaim(steps, claim)
    ensures |Ahead(worlds[claim.take + 1].rows, r)| + settings.batch <= |Ahead(worlds[claim.look].rows, r)|
  {
    hide Selected, NextRows, NextWorker, Enabled, Ahead, Taken, Before, IsRun, IsClaim, Mentions;
    ClaimSelection(worlds, steps, settings, claim);
    var released, clock := worlds[claim.look + 1].rows, worlds[claim.look].clock;
    var ids := Selected(released, clock, settings.batch);
    var records := worlds[claim.take].workers[claim.w].selected;
    var last := worlds[claim.take + 1].rows;
    RowIsDue(worlds, steps, settings, r, claim);
    SelectionIsAhead(released, clock, settings, r);
    forall i | i in ids && i < |last| ensures !Waiting(last[i]) {
      var k :| 0 <= k < |ids| && ids[k] == i;
      MentionsAt(records, k);
      LockedNoLongerWaits(worlds[claim.take].rows, records, worlds[claim.take].clock, i);
    }
    assert r !in ids;
    AheadShrinksOver(worlds, steps, settings, r, claim.look, claim.look + 1);
    AheadShrinksOver(worlds, steps, settings, r, claim.look + 1, claim.take + 1);
    NotAhead(last, r, ids);
    SizeOfSet(ids);
    Disjoint(Ahead(last, r), SetOf(ids), Ahead(released, r));
    Smaller(Ahead(released, r), Ahead(worlds[claim.look].rows, r));
  }

  lemma RowIsDue(worlds: seq<World>, steps: seq<Step>, settings: Settings, r: nat, claim: Claim)
    requires IsRun(worlds, steps, settings) && WaitsThrough(worlds, steps, r) && IsClaim(steps, claim)
    ensures r < |worlds[claim.look + 1].rows| && Due(worlds[claim.look + 1].rows[r], worlds[claim.look].clock)
  {
    hide NextRows, NextWorker, Enabled;
    assert Follows(worlds[claim.look], steps[claim.look], worlds[claim.look + 1], settings);
    assert Pending(worlds[claim.look], steps[claim.look], r);
    KeepsItsPlace(worlds[claim.look], steps[claim.look], settings, r);
  }

  lemma MentionsAt(records: seq<Record>, k: nat)
    requires k < |records|
    ensures Mentions(records, records[k].id)
  {
  }

  lemma NotAhead(rows: Table, r: nat, ids: Ids)
    requires r < |rows| && forall i | i in ids && i < |rows| :: !Waiting(rows[i])
    ensures Ahead(rows, r) !! SetOf(ids)
  {
  }

  lemma Disjoint(x: set<nat>, y: set<nat>, all: set<nat>)
    requires x <= all && y <= all && x !! y
    ensures |x| + |y| <= |all|
  {
    Smaller(x + y, all);
  }

  lemma Smaller(x: set<nat>, all: set<nat>)
    requires x <= all
    ensures |x| <= |all|
  {
    assert all == x + (all - x);
  }

  // ---------------------------------------------------------------------------------------------
  // The bound

  /** Claims one after the other, each begun when the one before it was over. */
  ghost predicate Successive(steps: seq<Step>, claims: seq<Claim>) {
    && (forall k | 0 <= k < |claims| :: IsClaim(steps, claims[k]))
    && (forall k | 0 < k < |claims| :: claims[k - 1].take < claims[k].look)
  }

  lemma {:induction false} ClaimsTakeBatches(
      worlds: seq<World>, steps: seq<Step>, settings: Settings, r: nat, claims: seq<Claim>)
    requires IsRun(worlds, steps, settings) && WaitsThrough(worlds, steps, r) && Successive(steps, claims)
    ensures var end := if claims == [] then 0 else claims[|claims| - 1].take + 1;
            && end < |worlds|
            && |Ahead(worlds[end].rows, r)| + |claims| * settings.batch <= |Ahead(worlds[0].rows, r)|
  {
    hide Ahead, Follows, Waiting, Pending, Disturbs;
    if claims != [] {
      var n := |claims| - 1;
      ClaimsTakeBatches(worlds, steps, settings, r, claims[..n]);
      ClaimTakesBatch(worlds, steps, settings, r, claims[n]);
      var before := if n == 0 then 0 else claims[n - 1].take + 1;
      AheadShrinksOver(worlds, steps, settings, r, before, claims[n].look);
      Smaller(Ahead(worlds[claims[n].look].rows, r), Ahead(worlds[before].rows, r));
    }
  }

  /**
   A row past its time that is not enqueued again is claimed within (rows ahead of it / batch) + 1
   claims, whatever other workers do meanwhile.
   */
  lemma NoStarvation(worlds: seq<World>, steps: seq<Step>, settings: Settings, r: nat, claims: seq<Claim>)
    requires IsRun(worlds, steps, settings) && Successive(steps, claims)
    requires r < |worlds[0].rows| && Waiting(worlds[0].rows[r])
             && worlds[0].rows[r].nextAttempt < Timestamp(worlds[0].clock)
    requires forall i | 0 <= i < |steps| && steps[i].Enqueue? :: steps[i].dedupKey != worlds[0].rows[r].dedupKey
    requires |claims| >= |Ahead(worlds[0].rows, r)| / settings.batch + 1
    ensures exists i | 0 <= i < |steps| :: Locked(worlds[i], steps[i], worlds[i + 1], r)
  {
    hide Follows, Ahead, Successive;
    if forall i | 0 <= i < |steps| :: !Locked(worlds[i], steps[i], worlds[i + 1], r) {
      UnlockedWaits(worlds, steps, settings, r, |steps|);
      assert worlds[..|steps| + 1] == worlds && steps[..|steps|] == steps;
      ClaimsTakeBatches(worlds, steps, settings, r, claims);
      TooMany(|claims|, |Ahead(worlds[0].rows, r)|, settings.batch);
      assert false;
    }
  }

  lemma TooMany(n: nat, ahead: nat, batch: nat)
    requires batch > 0 && n >= ahead / batch + 1
    ensures n * batch > ahead
  {
    MultiplyBounds(ahead / batch + 1, n, batch);
  }

  /** In this step, row `r` is claimed. */
  predicate Locked(world: World, step: Step, next: World, r: nat) {
    && step.Take? && r < |world.rows| && r < |next.rows|
    && next.rows[r] == LockedRow(world.rows[r], world.clock)
  }

  lemma TimeGoesOn(world: World, step: Step, settings: Settings)
    requires Enabled(world, step)
    ensures Timestamp(world.clock) <= Timestamp(Next(world, step, settings).clock)
  {
    hide NextRows, NextWorker, Timestamp;
    TimestampGrows(world.clock, Next(world, step, settings).clock);
  }

  lemma {:induction false} UnlockedWaits(worlds: seq<World>, steps: seq<Step>, settings: Settings, r: nat, n: nat)
    requires IsRun(worlds, steps, settings) && n <= |steps|
    requires r < |worlds[0].rows| && Waiting(worlds[0].rows[r])
             && worlds[0].rows[r].nextAttempt < Timestamp(worlds[0].clock)
    requires forall i | 0 <= i < |steps| && steps[i].Enqueue? :: steps[i].dedupKey != worlds[0].rows[r].dedupKey
    requires forall i | 0 <= i < |steps| :: !Locked(worlds[i], steps[i], worlds[i + 1], r)
    ensures WaitsThrough(worlds[..n + 1], steps[..n], r)
    ensures worlds[n].rows[r].nextAttempt == worlds[0].rows[r].nextAttempt < Timestamp(worlds[n].clock)
    ensures worlds[n].rows[r].dedupKey == worlds[0].rows[r].dedupKey
  {
    hide NextRows, NextWorker, Enabled, Waiting, LockedRow, Timestamp;
    if n > 0 {
      UnlockedWaits(worlds, steps, settings, r, n - 1);
      var world, step := worlds[n - 1], steps[n - 1];
      assert Follows(world, step, worlds[n], settings);
      assert world == worlds[..n][n - 1];
      assert Pending(world, step, r);
      KeepsItsPlace(world, step, settings, r);
      TimeGoesOn(world, step, settings);
      assert !Locked(world, step, worlds[n], r);
      forall i | 0 <= i < n ensures Pending(worlds[i], steps[i], r) {
        if i < n - 1 {
          assert Pending(worlds[..n][i], steps[..n - 1][i], r);
        }
      }
      forall i | 0 <= i < n + 1 ensures r < |worlds[i].rows| && Waiting(worlds[i].rows[r]) {
        if i < n {
          assert Waiting(worlds[..n][i].rows[r]);
        }
      }
    }
  }
}
