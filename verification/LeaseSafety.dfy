/**
 * Exclusion over rows: in every state any interleaving of steps can reach, with
 * any clock readings, an owner has at most one leased or running row, at most
 * three rows are in flight, and each of those carries a lease.
 */
module LeaseSafety {
  import opened Wrappers
  import opened TaskTable
  import opened TaskStore
  import WaitingQueue

  predicate Leasing(task: Task) {
    task.leaseOwner.Some? && task.leaseExpires.Some?
  }

  ghost predicate Exclusive(t: Table) {
    && (forall a, b | a in InFlightIds(t) && b in InFlightIds(t) && t[a].owner == t[b].owner :: a == b)
    && |InFlightIds(t)| <= HARD_CAP
    && (forall id | id in InFlightIds(t) :: Leasing(t[id]))
  }

  // The step takes no new row in flight and strips no lease off one that stays.
  ghost predicate NoNewLeases(t: Table, after: Table) {
    forall id | id in after && InFlight(after[id]) ::
      id in t && InFlight(t[id]) && t[id].owner == after[id].owner && (Leasing(t[id]) ==> Leasing(after[id]))
  }

  lemma {:induction false} SubsetIsNoLarger(small: set<nat>, large: set<nat>)
    requires small <= large
    ensures |small| <= |large|
  {
    if small != {} {
      var x :| x in small;
      SubsetIsNoLarger(small - {x}, large - {x});
    }
  }

  lemma NoNewLeasesKeepsExclusion(t: Table, after: Table)
    requires Exclusive(t) && NoNewLeases(t, after)
    ensures Exclusive(after)
  {
    assert InFlightIds(after) <= InFlightIds(t);
    SubsetIsNoLarger(InFlightIds(after), InFlightIds(t));
  }

  lemma ClaimKeepsExclusion(t: Table, worker: string, leaseSeconds: int, maxActive: int, now: Instant)
    requires Exclusive(t)
    ensures Exclusive(Claim(t, worker, leaseSeconds, maxActive, now).0)
  {
    var requeued := RequeueExpired(t, now);
    NoNewLeasesKeepsExclusion(t, requeued);
    var picked := Pick(requeued, maxActive, now);
    if picked.Some? {
      var id := picked.value;
      assert id in ClaimableIds(requeued, now);
      WaitingQueue.RequeueLeavesNoneExpired(t, now);
      WaitingQueue.BusyMeansInFlight(requeued, requeued[id].owner, now);
      LeasingKeepsExclusion(requeued, id, LeaseRow(requeued[id], worker, leaseSeconds, now));
    }
  }

  lemma LeasingKeepsExclusion(t: Table, id: nat, leased: Task)
    requires Exclusive(t) && |InFlightIds(t)| < HARD_CAP
    requires id in t && Waiting(t[id]) && InFlight(leased) && Leasing(leased) && leased.owner == t[id].owner
    requires !exists other :: other in t && t[other].owner == t[id].owner && InFlight(t[other])
    ensures Exclusive(t[id := leased])
  {
    assert InFlightIds(t[id := leased]) == InFlightIds(t) + {id};
  }

  lemma {:induction false} PromotionLeasesNothing(s: Store, ids: seq<nat>, now: Instant)
    requires AllDue(s, ids, now)
    requires forall id | id in s.tasks :: id < s.nextTask
    ensures NoNewLeases(s.tasks, PromoteJobs(s, ids, now).tasks)
    ensures forall id | id in PromoteJobs(s, ids, now).tasks :: id < PromoteJobs(s, ids, now).nextTask
    decreases |ids|
  {
    if ids != [] {
      assert forall i | 0 <= i < |ids| - 1 :: ids[1..][i] == ids[i + 1];
      assert forall id | id in ids[1..] :: id in ids && id != ids[0];
      PromotionLeasesNothing(PromoteJob(s, ids[0], now), ids[1..], now);
    }
  }

  // Row ids come from an AUTOINCREMENT counter.
  ghost predicate IdsIssued(s: Store) {
    forall id | id in s.tasks :: id < s.nextTask
  }

  lemma MoveLeasesNothing(t: Table, id: nat, owner: string, offset: int, now: Instant)
    requires offset == -1 || offset == 1
    ensures NoNewLeases(t, MoveWaiting(t, id, owner, offset, now))
    ensures MoveWaiting(t, id, owner, offset, now).Keys == t.Keys
  {
    WaitingQueue.MoveTouchesOnlyPriorities(t, id, owner, offset, now);
  }

  lemma PromotionKeepsExclusion(s: Store, now: Instant)
    requires IdsIssued(s) && Exclusive(s.tasks)
    ensures IdsIssued(PromoteDue(s, now)) && Exclusive(PromoteDue(s, now).tasks)
  {
    var legacy := s.(tasks := PromoteLegacy(s.tasks, now));
    NoNewLeasesKeepsExclusion(s.tasks, legacy.tasks);
    PromotionLeasesNothing(legacy, DueList(legacy, now), now);
    NoNewLeasesKeepsExclusion(legacy.tasks, PromoteDue(s, now).tasks);
  }

  predicate IsReport(step: Step) {
    step.StartRunning? || step.Beat? || step.Checkpointing? || step.Touching?
  }

  predicate IsOutcome(step: Step) {
    step.Finish? || step.Retry?
  }

  lemma ReportsLeaseNothing(s: Store, step: Step, now: Instant)
    requires IdsIssued(s) && IsReport(step)
    ensures NoNewLeases(s.tasks, Next(s, step, now).tasks)
    ensures IdsIssued(Next(s, step, now))
  {
  }

  lemma OutcomesLeaseNothing(s: Store, step: Step, now: Instant)
    requires IdsIssued(s) && IsOutcome(step)
    ensures NoNewLeases(s.tasks, Next(s, step, now).tasks)
    ensures IdsIssued(Next(s, step, now))
  {
  }

  lemma OtherStepsLeaseNothing(s: Store, step: Step, now: Instant)
    requires IdsIssued(s)
    requires !step.ClaimNext? && !step.Moving? && !step.Promote? && !IsReport(step) && !IsOutcome(step)
    ensures NoNewLeases(s.tasks, Next(s, step, now).tasks)
    ensures IdsIssued(Next(s, step, now))
  {
  }

  lemma StepKeepsExclusion(s: Store, step: Step, now: Instant)
    requires IdsIssued(s) && Exclusive(s.tasks)
    ensures IdsIssued(Next(s, step, now)) && Exclusive(Next(s, step, now).tasks)
  {
    if step.ClaimNext? {
      ClaimKeepsExclusion(s.tasks, step.worker, step.leaseSeconds, step.maxActive, now);
    } else if step.Promote? {
      PromotionKeepsExclusion(s, now);
    } else {
      if step.Moving? {
        MoveLeasesNothing(s.tasks, step.id, step.owner, if step.up then -1 else 1, now);
      } else if IsReport(step) {
        ReportsLeaseNothing(s, step, now);
      } else if IsOutcome(step) {
        OutcomesLeaseNothing(s, step, now);
      } else {
        OtherStepsLeaseNothing(s, step, now);
      }
      NoNewLeasesKeepsExclusion(s.tasks, Next(s, step, now).tasks);
    }
  }

  // The main result: no run, whatever its interleaving and clock readings,
  // reaches a table that breaks exclusion.  No enabling condition is used.
  lemma {:induction false} EveryRunIsExclusive(events: seq<Event>)
    ensures IdsIssued(Run(events).store) && Exclusive(Run(events).store.tasks)
    decreases |events|
  {
    if events == [] {
      assert InFlightIds(EMPTY.tasks) == {};
    } else {
      var last := events[|events| - 1];
      EveryRunIsExclusive(events[..|events| - 1]);
      StepKeepsExclusion(Run(events[..|events| - 1]).store, last.step, last.now);
    }
  }

  // Exclusion is over rows, not over executors: every worker claims under the
  // same lease owner, so after a lease runs out a second claim can hand out the
  // same row, and both executors pass `mark_running` and keep the lease alive.
  lemma OneRowTwoExecutors()
    ensures var worker := "legacy-worker";
            var row := NewTask("owner", Queued, 0, 0, None, None, None);
            var first := Claim(map[1 := row], worker, 120, 3, 0);
            var started := MarkRunning(first.0, 1, worker, 1);
            var second := Claim(started, worker, 120, 3, 120 * SECOND);
            var restarted := MarkRunning(second.0, 1, worker, 121 * SECOND);
            && first.1 == Some(1) && started[1].status == Running
            && second.1 == Some(1) && restarted[1].status == Running
            && Heartbeat(restarted, 1, worker, 120, 150 * SECOND) != restarted
  {
    var worker := "legacy-worker";
    var row := NewTask("owner", Queued, 0, 0, None, None, None);
    var leased := LeaseRow(row, worker, 120, 0);
    OnlyRowIsClaimed(row, row, worker, 0);
    var running := leased.(status := Running, heartbeatAt := Some(1), updatedAt := 1);
    OnlyRowStarts(leased, worker, 1);
    var requeued := running.(status := Queued, leaseOwner := None, leaseExpires := None, heartbeatAt := None,
                             updatedAt := 120 * SECOND, lastError := Some(LEASE_EXPIRED));
    OnlyRowIsClaimed(running, requeued, worker, 120 * SECOND);
    OnlyRowStarts(LeaseRow(requeued, worker, 120, 120 * SECOND), worker, 121 * SECOND);
  }

  lemma OnlyRowStarts(row: Task, worker: string, now: Instant)
    requires row.status == Leased && row.leaseOwner == Some(worker)
    ensures var started := row.(status := Running, heartbeatAt := Some(now), updatedAt := now);
            && MarkRunning(map[1 := row], 1, worker, now) == map[1 := started]
            && Heartbeat(map[1 := started], 1, worker, 120, now + 29 * SECOND) != map[1 := started]
  {
    var started := row.(status := Running, heartbeatAt := Some(now), updatedAt := now);
    assert Heartbeat(map[1 := started], 1, worker, 120, now + 29 * SECOND)[1].updatedAt == now + 29 * SECOND;
  }

  lemma OnlyRowIsClaimed(row: Task, requeued: Task, worker: string, now: Instant)
    requires RequeueExpired(map[1 := row], now)[1] == requeued
    requires requeued.status == Queued && requeued.nextAttemptAt == None
    ensures Claim(map[1 := row], worker, 120, 3, now) == (map[1 := LeaseRow(requeued, worker, 120, now)], Some(1))
  {
    var t := RequeueExpired(map[1 := row], now);
    assert t == map[1 := requeued];
    OnlyRowIsPicked(t, now);
    var leased := LeaseRow(requeued, worker, 120, now);
    assert t[1 := leased] == map[1 := leased];
  }

  lemma OnlyRowIsPicked(t: Table, now: Instant)
    requires t.Keys == {1} && t[1].status == Queued && t[1].nextAttemptAt == None
    ensures Pick(t, 3, now) == Some(1)
  {
    assert InFlightIds(t) == {};
    assert Claimable(t, 1, now);
    assert ClaimableIds(t, now) == {1};
  }
}
