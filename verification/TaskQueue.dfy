/**
 * The queue store as the application uses it: an object whose methods change
 * the rows statement by statement.  Each method is proved to take the step of
 * TaskStore that the run theorems are about.  A method that reads a row before
 * it takes the lock appears as two: the read and the write.
 */
module TaskQueue {
  import opened Wrappers
  import opened RowOrder
  import opened TaskTable
  import opened TaskStore

  class TaskQueueStore {
    var tasks: Table
    var nextTask: nat
    var jobs: map<nat, Job>
    var nextJob: nat
    var occurrences: set<(nat, Instant)>

    function Contents(): Store
      reads this
    {
      Store(tasks, nextTask, jobs, nextJob, occurrences)
    }

    constructor ()
      ensures Contents() == EMPTY
    {
      tasks, nextTask := map[], 1;
      jobs, nextJob := map[], 1;
      occurrences := {};
    }

    method Enqueue(owner: string, createdAt: Instant, priority: int, job: Option<nat>, now: Instant)
      returns (id: nat)
      modifies this
      ensures Contents() == Next(old(Contents()), Step.Enqueue(owner, createdAt, priority, job), now)
      ensures id == old(nextTask)
    {
      id := nextTask;
      tasks := tasks[id := NewTask(owner, Queued, createdAt, priority, None, None, job)];
      nextTask := nextTask + 1;
    }

    // One transaction: requeue expired leases, check the cap, pick, lease.
    method ClaimNext(worker: string, leaseSeconds: int, maxActive: int, now: Instant) returns (claimed: Option<nat>)
      modifies this
      ensures Contents() == Next(old(Contents()), Step.ClaimNext(worker, leaseSeconds, maxActive), now)
      ensures claimed == Claim(old(tasks), worker, leaseSeconds, maxActive, now).1
      ensures claimed.Some? ==> claimed.value in tasks && tasks[claimed.value].status == Leased
                                && tasks[claimed.value].leaseOwner == Some(worker)
    {
      var leaseUntil := now + Max(10, leaseSeconds) * SECOND;
      tasks := RequeueExpired(tasks, now);
      var active := |InFlightIds(tasks)|;
      if active >= Max(1, Min(maxActive, HARD_CAP)) {
        return None;
      }
      var candidates := ClaimableIds(tasks, now);
      if candidates == {} {
        return None;
      }
      var id := First(QueueKeys(tasks), candidates);
      var row := tasks[id];
      tasks := tasks[id := row.(status := Leased, leaseOwner := Some(worker), leaseExpires := Some(leaseUntil),
                                heartbeatAt := Some(now), attempt := row.attempt + 1, updatedAt := now,
                                startedAt := if row.startedAt.Some? then row.startedAt else Some(now))];
      claimed := Some(id);
    }

    method MarkRunning(id: nat, worker: string, now: Instant) returns (started: bool)
      modifies this
      ensures Contents() == Next(old(Contents()), StartRunning(id, worker), now)
      ensures started <==> id in old(tasks) && old(tasks)[id].status == Leased
                           && old(tasks)[id].leaseOwner == Some(worker)
    {
      started := id in tasks && tasks[id].status == Leased && tasks[id].leaseOwner == Some(worker);
      if started {
        tasks := tasks[id := tasks[id].(status := Running, heartbeatAt := Some(now), updatedAt := now)];
      }
    }

    method Heartbeat(id: nat, worker: string, leaseSeconds: int, now: Instant) returns (alive: bool)
      modifies this
      ensures Contents() == Next(old(Contents()), Beat(id, worker, leaseSeconds), now)
      ensures alive <==> id in old(tasks) && InFlight(old(tasks)[id]) && old(tasks)[id].leaseOwner == Some(worker)
    {
      alive := id in tasks && tasks[id].leaseOwner == Some(worker) && InFlight(tasks[id]);
      if alive {
        tasks := tasks[id := tasks[id].(heartbeatAt := Some(now), leaseExpires := Some(LeaseUntil(now, leaseSeconds)),
                                        updatedAt := now)];
      }
    }

    // `finish` after its read: `seen` is the row version it acts on.
    method FinishSeen(id: nat, seen: Task, success: bool, error: Option<string>, now: Instant)
      modifies this
      ensures Contents() == Next(old(Contents()), Finish(id, seen, success, error), now)
    {
      if IsRecurring(seen) {
        var period := seen.repeatSeconds.value;
        var nextDue := if seen.dueAt.Some? then seen.dueAt.value else now;
        ghost var due := nextDue;
        while nextDue <= now
          invariant NextDue(nextDue, now, period) == NextDue(due, now, period)
        {
          nextDue := nextDue + period * SECOND;
        }
        if id in tasks && tasks[id].status != Cancelled {
          tasks := tasks[id := tasks[id].(status := Scheduled, dueAt := Some(nextDue), updatedAt := now,
                                          startedAt := None, completedAt := Some(now),
                                          lastError := if success then None else error, checkpoint := Blank,
                                          leaseOwner := None, leaseExpires := None, heartbeatAt := None,
                                          nextAttemptAt := None)];
        }
      } else if KeepsRecord(seen) {
        if id in tasks && tasks[id].status != Cancelled {
          tasks := tasks[id := tasks[id].(status := if success then Completed else Failed, updatedAt := now,
                                          completedAt := Some(now), lastError := error, leaseOwner := None,
                                          leaseExpires := None, heartbeatAt := None, nextAttemptAt := None)];
        }
      } else if id in tasks && tasks[id].status != Cancelled {
        tasks := tasks - {id};
      }
    }

    // `retry_or_dead_letter` after its read.
    method RetrySeen(id: nat, seen: Task, plan: RetryPlan, now: Instant)
      modifies this
      ensures Contents() == Next(old(Contents()), Retry(id, seen, plan), now)
    {
      var terminal := GivesUp(seen, plan);
      if terminal && !KeepsRecord(seen) {
        if id in tasks && Live(tasks[id]) {
          tasks := tasks - {id};
        }
        return;
      }
      var status, nextAttempt := DeadLetter, None;
      if !terminal {
        status, nextAttempt := Retrying, Some(now + RetryDelay(seen.attempt, plan));
      }
      if id in tasks && Live(tasks[id]) {
        tasks := tasks[id := tasks[id].(status := status, nextAttemptAt := nextAttempt, leaseOwner := None,
                                        leaseExpires := None, heartbeatAt := None, updatedAt := now,
                                        completedAt := if terminal then Some(now) else None,
                                        lastError := Some(plan.error),
                                        checkpoint := WrittenCheckpoint(seen, plan))];
      }
    }

    method Cancel(id: nat, owner: string, now: Instant) returns (cancelled: bool)
      modifies this
      ensures Contents() == Next(old(Contents()), Cancelling(id, owner), now)
      ensures cancelled <==> id in old(tasks) && old(tasks)[id].owner == owner && !Terminal(old(tasks)[id])
      ensures cancelled && id in tasks ==> tasks[id].status == Cancelled && KeepsRecord(tasks[id])
    {
      if id !in tasks || tasks[id].owner != owner || !(Live(tasks[id]) || tasks[id].status == Scheduled) {
        return false;
      }
      var snapshot := tasks[id];
      if KeepsRecord(snapshot) {
        tasks := tasks[id := snapshot.(status := Cancelled, updatedAt := now, completedAt := Some(now))];
      } else {
        tasks := tasks - {id};
      }
      cancelled := true;
    }

    method RecoverInterrupted(now: Instant) returns (interrupted: nat)
      modifies this
      ensures Contents() == Next(old(Contents()), Recover, now)
      ensures interrupted == |InFlightIds(old(tasks))|
      ensures InFlightIds(tasks) == {}
    {
      interrupted := |InFlightIds(tasks)|;
      tasks := map id | id in tasks :: if InFlight(tasks[id]) then Interrupt(tasks[id], now) else tasks[id];
      tasks := map id | id in tasks && !InterruptionLeftover(tasks[id], now) :: tasks[id];
    }

    // The UPDATE loop of `move_waiting`.
    method RenumberRows(ordered: seq<nat>, now: Instant)
      requires forall row | row in ordered :: row in tasks
      modifies this`tasks
      ensures tasks == Renumber(old(tasks), ordered, now)
    {
      ghost var start := tasks;
      assert ordered[0..] == ordered;
      for index := 0 to |ordered|
        invariant forall row | row in ordered :: row in tasks
        invariant RenumberFrom(tasks, ordered[index..], |ordered| - index, now)
                  == RenumberFrom(start, ordered, |ordered|, now)
      {
        var row := ordered[index];
        assert ordered[index..][0] == row && ordered[index..][1..] == ordered[index + 1..];
        tasks := tasks[row := tasks[row].(priority := |ordered| - (index + 1), updatedAt := now)];
      }
    }

    method MoveWaiting(id: nat, owner: string, offset: int, now: Instant)
      requires offset == -1 || offset == 1
      modifies this`tasks
      ensures tasks == TaskTable.MoveWaiting(old(tasks), id, owner, offset, now)
    {
      var ids := WaitingList(tasks, owner);
      var position := IndexOf(ids, id);
      if position == |ids| {
        return;
      }
      var target := position + offset;
      if !(0 <= target < |ids|) {
        return;
      }
      SwapRows(owner, position, target, now);
    }

    method SwapRows(owner: string, i: nat, j: nat, now: Instant)
      requires i < |WaitingList(tasks, owner)| && j < |WaitingList(tasks, owner)|
      modifies this`tasks
      ensures tasks == SwapWaiting(old(tasks), owner, i, j, now)
    {
      var ids := WaitingList(tasks, owner);
      WaitingListMembers(tasks, owner);
      SwapKeepsMembers(ids, i, j);
      RenumberRows(Swapped(ids, i, j), now);
    }

    // One turn of the loop in `promote_due`; `added` counts the new rows.
    method PromoteOne(id: nat, now: Instant) returns (added: nat)
      requires id in jobs && JobDue(jobs[id], now)
      modifies this
      ensures Contents() == PromoteJob(old(Contents()), id, now)
      ensures nextTask == old(nextTask) + added
    {
      added := 0;
      var job := jobs[id];
      var occurrence := (id, job.nextRun.value);
      if occurrence in occurrences {
        return;
      }
      if !HasLiveTask(tasks, id) {
        tasks := tasks[nextTask := SpawnedTask(job.owner, id, now)];
        nextTask := nextTask + 1;
        added := 1;
      }
      occurrences := occurrences + {occurrence};
      if JobRepeats(job) {
        var period := job.repeatSeconds.value;
        var nextDue := job.nextRun.value;
        while nextDue <= now
          invariant NextDue(nextDue, now, period) == NextDue(job.nextRun.value, now, period)
        {
          nextDue := nextDue + period * SECOND;
        }
        jobs := jobs[id := job.(nextRun := Some(nextDue))];
      } else {
        jobs := jobs[id := job.(enabled := false, nextRun := None)];
      }
    }

    // Materializes every due schedule; returns how many rows became queued.
    method PromoteDue(now: Instant) returns (promoted: int)
      modifies this
      ensures Contents() == TaskStore.PromoteDue(old(Contents()), now)
      ensures promoted == |LegacyDue(old(tasks), now)| + nextTask - old(nextTask)
    {
      promoted := |LegacyDue(tasks, now)|;
      tasks := PromoteLegacy(tasks, now);
      var rows := DueList(Contents(), now);
      ghost var start, legacy := Contents(), promoted;
      assert rows[0..] == rows;
      for i := 0 to |rows|
        invariant AllDue(Contents(), rows[i..], now)
        invariant PromoteJobs(Contents(), rows[i..], now) == PromoteJobs(start, rows, now)
        invariant promoted == legacy + nextTask - old(nextTask)
      {
        PromoteJobsTurn(Contents(), rows, i, now);
        var added := PromoteOne(rows[i], now);
        promoted := promoted + added;
      }
    }
  }

  function LegacyDue(t: Table, now: Instant): set<nat> {
    set id | id in t && t[id].status == Scheduled && t[id].dueAt.Some? && t[id].dueAt.value <= now
  }

  // Unfolds the recursion of PromoteJobs by one job.
  lemma PromoteJobsTurn(s: Store, rows: seq<nat>, i: nat, now: Instant)
    requires i < |rows| && AllDue(s, rows[i..], now)
    ensures rows[i] in s.jobs && JobDue(s.jobs[rows[i]], now)
    ensures AllDue(PromoteJob(s, rows[i], now), rows[i + 1..], now)
    ensures PromoteJobs(s, rows[i..], now) == PromoteJobs(PromoteJob(s, rows[i], now), rows[i + 1..], now)
  {
    var rest := rows[i..];
    assert rest[0] == rows[i] && rest[1..] == rows[i + 1..];
    assert forall k | 0 <= k < |rest| - 1 :: rest[1..][k] == rest[k + 1];
    assert forall id | id in rest[1..] :: id in rest && id != rest[0];
  }
}
