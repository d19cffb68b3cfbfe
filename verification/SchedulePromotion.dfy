/**
 * Scheduled jobs: `promote_due` records each due occurrence exactly once, moves
 * its job along its grid, and changes nothing when it is called again.
 */
module SchedulePromotion {
  import opened Wrappers
  import opened TaskTable
  import opened TaskStore
  import LeaseSafety

  // ------------------------------------------------------------ catch-up loop

  // The catch-up loop ends on the grid of the old due time, in (now, now + period].
  lemma {:induction false} NextDueIsOnGrid(due: Instant, now: Instant, period: nat) returns (k: nat)
    requires period > 0
    ensures NextDue(due, now, period) == due + k * (period * SECOND)
    ensures NextDue(due, now, period) > now
    ensures due <= now ==> NextDue(due, now, period) <= now + period * SECOND
    decreases now - due
  {
    if due > now {
      k := 0;
    } else {
      var rest := NextDueIsOnGrid(due + period * SECOND, now, period);
      k := rest + 1;
      assert k * (period * SECOND) == rest * (period * SECOND) + period * SECOND;
    }
  }

  lemma MultiplesAreSpaced(a: int, b: int, step: int)
    requires step > 0
    ensures a < b ==> a * step + step <= b * step
  {
    if a < b {
      assert (a + 1) * step <= b * step;
    }
  }

  // ... and that window holds no other point of the grid.
  lemma NextDueIsUnique(due: Instant, now: Instant, period: nat, j: int)
    requires period > 0 && due <= now
    requires now < due + j * (period * SECOND) <= now + period * SECOND
    ensures due + j * (period * SECOND) == NextDue(due, now, period)
  {
    var k := NextDueIsOnGrid(due, now, period);
    MultiplesAreSpaced(j, k, period * SECOND);
    MultiplesAreSpaced(k, j, period * SECOND);
  }

  // --------------------------------------------------------------- promotion

  // A due job whose current occurrence was not recorded before.
  predicate Fires(s: Store, job: nat, now: Instant) {
    job in s.jobs && JobDue(s.jobs[job], now) && (job, s.jobs[job].nextRun.value) !in s.occurrences
  }

  predicate Spawns(s: Store, job: nat, now: Instant) {
    Fires(s, job, now) && !HasLiveTask(s.tasks, job)
  }

  ghost predicate JobsAdvanced(s: Store, p: Store, ids: seq<nat>, now: Instant) {
    && p.nextJob == s.nextJob
    && p.jobs.Keys == s.jobs.Keys
    && forall job | job in s.jobs ::
         p.jobs[job] == if job in ids && Fires(s, job, now) then Advance(s.jobs[job], now) else s.jobs[job]
  }

  ghost predicate OccurrencesRecorded(s: Store, p: Store, ids: seq<nat>, now: Instant) {
    forall job, at :: (job, at) in p.occurrences <==>
      (job, at) in s.occurrences || (job in ids && Fires(s, job, now) && at == s.jobs[job].nextRun.value)
  }

  // The new rows: one queued task for each job that spawns, and no other row.
  ghost predicate TasksSpawned(s: Store, p: Store, ids: seq<nat>, now: Instant) {
    && (forall id | id in s.tasks :: id in p.tasks && p.tasks[id] == s.tasks[id])
    && (forall id | id in p.tasks && id !in s.tasks :: SpawnedFor(s, p.tasks[id], ids, now))
    && (forall a, b | a in p.tasks && a !in s.tasks && b in p.tasks && b !in s.tasks
                      && p.tasks[a].scheduleJob == p.tasks[b].scheduleJob :: a == b)
    && (forall job | job in ids && Spawns(s, job, now) ::
          exists id :: id in p.tasks && id !in s.tasks && p.tasks[id].scheduleJob == Some(job))
  }

  predicate SpawnedFor(s: Store, task: Task, ids: seq<nat>, now: Instant) {
    task.scheduleJob.Some? && var job := task.scheduleJob.value;
    job in ids && Spawns(s, job, now) && task == SpawnedTask(s.jobs[job].owner, job, now)
  }

  lemma PromoteJobLeavesOthers(s: Store, id: nat, now: Instant, other: nat)
    requires LeaseSafety.IdsIssued(s)
    requires id in s.jobs && JobDue(s.jobs[id], now) && other != id
    ensures Fires(PromoteJob(s, id, now), other, now) <==> Fires(s, other, now)
    ensures HasLiveTask(PromoteJob(s, id, now).tasks, other) <==> HasLiveTask(s.tasks, other)
    ensures other in s.jobs ==> PromoteJob(s, id, now).jobs[other] == s.jobs[other]
  {
    var p := PromoteJob(s, id, now);
    if HasLiveTask(s.tasks, other) {
      var row :| row in s.tasks && s.tasks[row].scheduleJob == Some(other) && Live(s.tasks[row]);
      assert row in p.tasks && p.tasks[row] == s.tasks[row];
    }
  }

  lemma {:induction false} PromotionAdvancesJobs(s: Store, ids: seq<nat>, now: Instant)
    requires AllDue(s, ids, now) && LeaseSafety.IdsIssued(s)
    ensures JobsAdvanced(s, PromoteJobs(s, ids, now), ids, now)
    ensures OccurrencesRecorded(s, PromoteJobs(s, ids, now), ids, now)
    decreases |ids|
  {
    if ids != [] {
      var first := PromoteJob(s, ids[0], now);
      assert forall i | 0 <= i < |ids| - 1 :: ids[1..][i] == ids[i + 1];
      assert forall id | id in ids[1..] :: id in ids && id != ids[0];
      assert forall id | id in ids :: id == ids[0] || id in ids[1..];
      forall other | other != ids[0]
        ensures Fires(first, other, now) <==> Fires(s, other, now)
        ensures other in s.jobs ==> first.jobs[other] == s.jobs[other]
      {
        PromoteJobLeavesOthers(s, ids[0], now, other);
      }
      PromotionAdvancesJobs(first, ids[1..], now);
    }
  }

  lemma {:induction false} PromotionSpawnsTasks(s: Store, ids: seq<nat>, now: Instant)
    requires AllDue(s, ids, now) && LeaseSafety.IdsIssued(s)
    ensures TasksSpawned(s, PromoteJobs(s, ids, now), ids, now)
    decreases |ids|
  {
    if ids != [] {
      var first, rest := PromoteJob(s, ids[0], now), ids[1..];
      assert forall i | 0 <= i < |rest| :: rest[i] == ids[i + 1];
      assert forall id | id in rest :: id in ids && id != ids[0];
      assert forall id | id in ids :: id == ids[0] || id in rest;
      PromotionSpawnsTasks(first, rest, now);
      SpawningComposes(s, PromoteJobs(first, rest, now), ids[0], ids, rest, now);
    }
  }

  // What one job spawns and what the rest of the list spawns, together.
  lemma SpawningComposes(s: Store, p: Store, job: nat, ids: seq<nat>, rest: seq<nat>, now: Instant)
    requires LeaseSafety.IdsIssued(s) && job in s.jobs && JobDue(s.jobs[job], now)
    requires forall id :: id in ids <==> id == job || id in rest
    requires job !in rest && TasksSpawned(PromoteJob(s, job, now), p, rest, now)
    ensures TasksSpawned(s, p, ids, now)
  {
    var first := PromoteJob(s, job, now);
    forall other | other != job
      ensures Spawns(first, other, now) <==> Spawns(s, other, now)
      ensures other in s.jobs ==> first.jobs[other] == s.jobs[other]
    {
      PromoteJobLeavesOthers(s, job, now, other);
    }
    forall id | id in p.tasks && id !in s.tasks
      ensures SpawnedFor(s, p.tasks[id], ids, now)
      ensures p.tasks[id].scheduleJob == Some(job) ==> id == s.nextTask
    {
      if id !in first.tasks {
        assert SpawnedFor(first, p.tasks[id], rest, now);
      }
    }
    SpawnedRowsExist(s, p, job, ids, rest, now);
  }

  lemma SpawnedRowsExist(s: Store, p: Store, job: nat, ids: seq<nat>, rest: seq<nat>, now: Instant)
    requires LeaseSafety.IdsIssued(s) && job in s.jobs && JobDue(s.jobs[job], now)
    requires forall id :: id in ids <==> id == job || id in rest
    requires job !in rest && TasksSpawned(PromoteJob(s, job, now), p, rest, now)
    ensures forall other | other in ids && Spawns(s, other, now) ::
              exists id :: id in p.tasks && id !in s.tasks && p.tasks[id].scheduleJob == Some(other)
  {
    var first := PromoteJob(s, job, now);
    forall other | other in ids && Spawns(s, other, now)
      ensures exists id :: id in p.tasks && id !in s.tasks && p.tasks[id].scheduleJob == Some(other)
    {
      if other == job {
        assert s.nextTask in p.tasks && s.nextTask !in s.tasks;
      } else {
        PromoteJobLeavesOthers(s, job, now, other);
        var id :| id in p.tasks && id !in first.tasks && p.tasks[id].scheduleJob == Some(other);
        assert id !in s.tasks;
      }
    }
  }

  // ------------------------------------------------------------ jobs in order

  // Every recorded occurrence of a job is earlier than its next run.
  ghost predicate Ahead(s: Store) {
    forall job, at | (job, at) in s.occurrences && job in s.jobs && s.jobs[job].nextRun.Some? ::
      at < s.jobs[job].nextRun.value
  }

  // Job ids come from an AUTOINCREMENT counter, and a period is at least five minutes.
  ghost predicate JobsWellFormed(s: Store) {
    && LeaseSafety.IdsIssued(s)
    && (forall job | job in s.jobs :: job < s.nextJob)
    && (forall job, at | (job, at) in s.occurrences :: job < s.nextJob)
    && (forall job | job in s.jobs && s.jobs[job].repeatSeconds.Some? ::
          s.jobs[job].repeatSeconds.value >= MIN_REPEAT)
  }

  function Legacy(s: Store, now: Instant): Store {
    s.(tasks := PromoteLegacy(s.tasks, now))
  }

  ghost predicate ExactlyPromoted(s: Store, p: Store, now: Instant) {
    && (forall job, at :: (job, at) in p.occurrences <==>
          (job, at) in s.occurrences || (job in DueJobs(s, now) && at == s.jobs[job].nextRun.value))
    && (forall job | job in DueJobs(s, now) :: (job, s.jobs[job].nextRun.value) !in s.occurrences)
    && p.nextJob == s.nextJob
    && p.jobs.Keys == s.jobs.Keys
    && (forall job | job in s.jobs ::
          p.jobs[job] == if job in DueJobs(s, now) then Advance(s.jobs[job], now) else s.jobs[job])
  }

  // `promote_due(now)`, completely: it records the current occurrence of each
  // due job and nothing else, and none of them was on record; it moves each
  // recurring job past now on its grid and retires the others; and it adds one
  // queued task exactly for the due jobs that have no live row.
  lemma PromotionIsExact(s: Store, now: Instant)
    requires JobsWellFormed(s) && Ahead(s)
    ensures ExactlyPromoted(s, PromoteDue(s, now), now)
    ensures TasksSpawned(Legacy(s, now), PromoteDue(s, now), DueList(Legacy(s, now), now), now)
    ensures forall job :: job in DueList(Legacy(s, now), now) <==> job in DueJobs(s, now)
    ensures forall job | job in DueJobs(s, now) ::
              Spawns(Legacy(s, now), job, now) <==> !HasLiveTask(PromoteLegacy(s.tasks, now), job)
  {
    var legacy := Legacy(s, now);
    var ids := DueList(legacy, now);
    PromotionAdvancesJobs(legacy, ids, now);
    PromotionSpawnsTasks(legacy, ids, now);
    assert forall job | job in DueJobs(s, now) :: Fires(legacy, job, now);
  }

  lemma AdvancedIsLater(job: Job, now: Instant)
    requires JobDue(job, now) && (job.repeatSeconds.Some? ==> job.repeatSeconds.value >= MIN_REPEAT)
    ensures !JobDue(Advance(job, now), now)
    ensures Advance(job, now).nextRun.Some? ==> Advance(job, now).nextRun.value > now
  {
    if JobRepeats(job) {
      var k := NextDueIsOnGrid(job.nextRun.value, now, job.repeatSeconds.value);
    }
  }

  lemma PromotedJobsAreNotDue(s: Store, p: Store, now: Instant)
    requires JobsWellFormed(s) && ExactlyPromoted(s, p, now)
    ensures DueJobs(p, now) == {}
    ensures forall job | job in DueJobs(s, now) && p.jobs[job].nextRun.Some? :: p.jobs[job].nextRun.value > now
  {
    forall job | job in p.jobs
      ensures !JobDue(p.jobs[job], now)
      ensures job in DueJobs(s, now) && p.jobs[job].nextRun.Some? ==> p.jobs[job].nextRun.value > now
    {
      if JobDue(s.jobs[job], now) {
        AdvancedIsLater(s.jobs[job], now);
      }
    }
  }

  lemma NothingDueNothingChanges(s: Store, now: Instant)
    requires DueJobs(s, now) == {} && PromoteLegacy(s.tasks, now) == s.tasks
    ensures PromoteDue(s, now) == s
  {
    RowOrder.EmptyOrInhabited(DueList(s, now));
  }

  // A second call at the same reading changes nothing.
  lemma PromotionIsIdempotent(s: Store, now: Instant)
    requires JobsWellFormed(s) && Ahead(s)
    ensures PromoteDue(PromoteDue(s, now), now) == PromoteDue(s, now)
  {
    var legacy := Legacy(s, now);
    PromotionIsExact(s, now);
    PromotedJobsAreNotDue(s, PromoteDue(s, now), now);
    PromotedTasksAreSettled(s, PromoteDue(s, now), now);
    NothingDueNothingChanges(PromoteDue(s, now), now);
  }

  lemma PromotedTasksAreSettled(s: Store, p: Store, now: Instant)
    requires TasksSpawned(Legacy(s, now), p, DueList(Legacy(s, now), now), now)
    ensures PromoteLegacy(p.tasks, now) == p.tasks
  {
    forall id | id in p.tasks
      ensures PromoteLegacy(p.tasks, now)[id] == p.tasks[id]
    {
      if id !in s.tasks {
        assert SpawnedFor(Legacy(s, now), p.tasks[id], DueList(Legacy(s, now), now), now);
      }
    }
  }

  // ------------------------------------------------------- column by column

  // Where a due job stands after a promotion, `k` periods further on its grid.
  predicate StaysOnGrid(job: Job, after: Job, k: nat, now: Instant)
    requires job.nextRun.Some?
  {
    && after.owner == job.owner && after.repeatSeconds == job.repeatSeconds
    && if job.repeatSeconds.Some? && job.repeatSeconds.value > 0 then
         var step := job.repeatSeconds.value * SECOND;
         && after.enabled == job.enabled
         && after.nextRun == Some(job.nextRun.value + k * step)
         && now < after.nextRun.value <= now + step
       else
         !after.enabled && after.nextRun.None?
  }

  // Every due job with a period next runs on its own grid, at the first point
  // after now; one without is retired; every other job is as it was.
  lemma PromotedJobStaysOnGrid(s: Store, job: nat, now: Instant) returns (k: nat)
    requires JobsWellFormed(s) && Ahead(s) && job in s.jobs
    ensures job in PromoteDue(s, now).jobs
    ensures var before := s.jobs[job];
            var after := PromoteDue(s, now).jobs[job];
            if before.enabled && before.nextRun.Some? && before.nextRun.value <= now
            then StaysOnGrid(before, after, k, now)
            else after == before
  {
    PromotionIsExact(s, now);
    k := ExactlyPromotedStaysOnGrid(s, PromoteDue(s, now), job, now);
  }

  lemma ExactlyPromotedStaysOnGrid(s: Store, p: Store, job: nat, now: Instant) returns (k: nat)
    requires ExactlyPromoted(s, p, now) && job in s.jobs
    ensures if JobDue(s.jobs[job], now) then StaysOnGrid(s.jobs[job], p.jobs[job], k, now)
            else p.jobs[job] == s.jobs[job]
  {
    k := 0;
    if JobDue(s.jobs[job], now) && JobRepeats(s.jobs[job]) {
      k := NextDueIsOnGrid(s.jobs[job].nextRun.value, now, s.jobs[job].repeatSeconds.value);
    }
  }

  // The row a promotion adds for a job.
  predicate FreshRow(row: Task, owner: string, job: nat, now: Instant) {
    && row.owner == owner && row.status == Queued && row.scheduleJob == Some(job)
    && row.createdAt == now && row.updatedAt == now && row.priority == 0 && row.attempt == 0
    && row.dueAt.None? && row.repeatSeconds.None? && row.startedAt.None? && row.completedAt.None?
    && row.lastError.None? && row.leaseOwner.None? && row.leaseExpires.None? && row.heartbeatAt.None?
    && row.nextAttemptAt.None? && row.checkpoint == Blank
  }

  // The old rows stay, but scheduled ones that came due now wait.
  predicate OldRowsStay(t: Table, after: Table, now: Instant) {
    forall id | id in t ::
      && id in after
      && if t[id].status == Scheduled && t[id].dueAt.Some? && t[id].dueAt.value <= now
         then after[id] == t[id].(status := Queued, updatedAt := now)
         else after[id] == t[id]
  }

  predicate DueAt(s: Store, job: nat, now: Instant) {
    job in s.jobs && s.jobs[job].enabled && s.jobs[job].nextRun.Some? && s.jobs[job].nextRun.value <= now
  }

  // Each new row is the one row of a due job that had no live row.
  predicate NewRowIsDue(s: Store, after: Table, id: nat, now: Instant)
    requires id in after
  {
    after[id].scheduleJob.Some? && var job := after[id].scheduleJob.value;
    && DueAt(s, job, now) && FreshRow(after[id], s.jobs[job].owner, job, now)
    && forall row | row in s.tasks && row in after && after[row].scheduleJob == Some(job) ::
         after[row].status !in {Queued, Leased, Running, Retrying}
  }

  predicate HasLiveRow(t: Table, job: nat) {
    exists id :: id in t && t[id].scheduleJob == Some(job) && t[id].status in {Queued, Leased, Running, Retrying}
  }

  lemma OldRowsAreLegacy(s: Store, p: Store, ids: seq<nat>, now: Instant)
    requires TasksSpawned(Legacy(s, now), p, ids, now)
    ensures OldRowsStay(s.tasks, p.tasks, now)
  {
  }

  lemma NewRowsAreDue(s: Store, p: Store, ids: seq<nat>, now: Instant)
    requires TasksSpawned(Legacy(s, now), p, ids, now)
    requires forall job | job in ids :: DueAt(s, job, now)
    ensures forall id | id in p.tasks && id !in s.tasks :: NewRowIsDue(s, p.tasks, id, now)
  {
    var legacy := Legacy(s, now);
    forall id | id in p.tasks && id !in s.tasks
      ensures NewRowIsDue(s, p.tasks, id, now)
    {
      assert SpawnedFor(legacy, p.tasks[id], ids, now);
      assert !HasLiveTask(legacy.tasks, p.tasks[id].scheduleJob.value);
    }
  }

  // The rows after a promotion: the old ones, and one fresh queued row for each
  // due job none of whose rows was live.
  lemma PromotedRowsAreFresh(s: Store, now: Instant)
    requires JobsWellFormed(s) && Ahead(s)
    ensures var after := PromoteDue(s, now).tasks;
            && OldRowsStay(s.tasks, after, now)
            && (forall id | id in after && id !in s.tasks :: NewRowIsDue(s, after, id, now))
            && (forall a, b | a in after && a !in s.tasks && b in after && b !in s.tasks && a != b ::
                  after[a].scheduleJob != after[b].scheduleJob)
            && (forall job: nat | DueAt(s, job, now) :: HasLiveRow(after, job))
  {
    var legacy, p := Legacy(s, now), PromoteDue(s, now);
    var ids := DueList(legacy, now);
    PromotionIsExact(s, now);
    OldRowsAreLegacy(s, p, ids, now);
    NewRowsAreDue(s, p, ids, now);
    forall job: nat | DueAt(s, job, now)
      ensures HasLiveRow(p.tasks, job)
    {
      DueJobHasLiveRow(legacy, p, ids, job, now);
    }
  }

  lemma DueJobHasLiveRow(s: Store, p: Store, ids: seq<nat>, job: nat, now: Instant)
    requires TasksSpawned(s, p, ids, now) && job in ids && Fires(s, job, now)
    ensures HasLiveRow(p.tasks, job)
  {
    if Spawns(s, job, now) {
      var id :| id in p.tasks && id !in s.tasks && p.tasks[id].scheduleJob == Some(job);
      assert SpawnedFor(s, p.tasks[id], ids, now);
    } else {
      var id :| id in s.tasks && s.tasks[id].scheduleJob == Some(job) && Live(s.tasks[id]);
      assert id in p.tasks;
    }
  }

  predicate IsNew(s: Store, p: Store, id: nat) { id in p.tasks && id !in s.tasks }

  // New rows have new ids, and the ids follow the list.
  ghost predicate InListOrder(s: Store, p: Store, ids: seq<nat>) {
    && (forall id: nat | IsNew(s, p, id) ::
          id >= s.nextTask && exists i :: 0 <= i < |ids| && p.tasks[id].scheduleJob == Some(ids[i]))
    && forall a, b | IsNew(s, p, a) && IsNew(s, p, b) && a < b ::
         exists i, j :: 0 <= i < j < |ids| && p.tasks[a].scheduleJob == Some(ids[i])
                        && p.tasks[b].scheduleJob == Some(ids[j])
  }

  lemma {:induction false} NewRowsFollowList(s: Store, ids: seq<nat>, now: Instant)
    requires AllDue(s, ids, now) && LeaseSafety.IdsIssued(s)
    ensures InListOrder(s, PromoteJobs(s, ids, now), ids)
    decreases |ids|
  {
    if ids != [] {
      var first, rest := PromoteJob(s, ids[0], now), ids[1..];
      assert forall i | 0 <= i < |rest| :: rest[i] == ids[i + 1];
      assert forall id | id in rest :: id in ids && id != ids[0];
      NewRowsFollowList(first, rest, now);
      PromotionSpawnsTasks(first, rest, now);
      ListOrderComposes(s, first, PromoteJobs(first, rest, now), ids);
    }
  }

  // The first job adds at most the row with the next id, the rest what follows.
  lemma ListOrderComposes(s: Store, first: Store, p: Store, ids: seq<nat>)
    requires ids != [] && InListOrder(first, p, ids[1..])
    requires s.tasks.Keys <= first.tasks.Keys <= p.tasks.Keys && first.nextTask >= s.nextTask
    requires forall id | id in first.tasks && id !in s.tasks ::
               id == s.nextTask < first.nextTask && p.tasks[id].scheduleJob == Some(ids[0])
    ensures InListOrder(s, p, ids)
  {
    var rest := ids[1..];
    forall id: nat | IsNew(s, p, id)
      ensures id >= s.nextTask && exists i :: 0 <= i < |ids| && p.tasks[id].scheduleJob == Some(ids[i])
    {
      if IsNew(first, p, id) {
        var i :| 0 <= i < |rest| && p.tasks[id].scheduleJob == Some(rest[i]);
        assert rest[i] == ids[i + 1];
      }
    }
    forall a, b | IsNew(s, p, a) && IsNew(s, p, b) && a < b
      ensures exists i, j :: 0 <= i < j < |ids| && p.tasks[a].scheduleJob == Some(ids[i])
                             && p.tasks[b].scheduleJob == Some(ids[j])
    {
      if IsNew(first, p, a) {
        assert IsNew(first, p, b);
        var i, j :| 0 <= i < j < |rest| && p.tasks[a].scheduleJob == Some(rest[i])
                    && p.tasks[b].scheduleJob == Some(rest[j]);
        assert rest[i] == ids[i + 1] && rest[j] == ids[j + 1];
      } else {
        assert IsNew(first, p, b);
        var j :| 0 <= j < |rest| && p.tasks[b].scheduleJob == Some(rest[j]);
        assert rest[j] == ids[j + 1];
      }
    }
  }

  predicate EarlierDue(s: Store, a: nat, b: nat) {
    && a in s.jobs && b in s.jobs && s.jobs[a].nextRun.Some? && s.jobs[b].nextRun.Some?
    && (s.jobs[a].nextRun.value < s.jobs[b].nextRun.value
        || (s.jobs[a].nextRun == s.jobs[b].nextRun && a < b))
  }

  // The new rows get their ids in the order in which their jobs fell due, the
  // smaller job id first where two fell due together.
  lemma NewRowsFollowDueTimes(s: Store, now: Instant)
    requires JobsWellFormed(s)
    ensures var p := PromoteDue(s, now);
            forall a, b | IsNew(s, p, a) && IsNew(s, p, b) && a < b ::
              && p.tasks[a].scheduleJob.Some? && p.tasks[b].scheduleJob.Some?
              && EarlierDue(s, p.tasks[a].scheduleJob.value, p.tasks[b].scheduleJob.value)
  {
    var legacy, p := Legacy(s, now), PromoteDue(s, now);
    var ids := DueList(legacy, now);
    NewRowsFollowList(legacy, ids, now);
    forall a, b | IsNew(s, p, a) && IsNew(s, p, b) && a < b
      ensures p.tasks[a].scheduleJob.Some? && p.tasks[b].scheduleJob.Some?
      ensures EarlierDue(s, p.tasks[a].scheduleJob.value, p.tasks[b].scheduleJob.value)
    {
      assert IsNew(legacy, p, a) && IsNew(legacy, p, b);
      var i, j :| 0 <= i < j < |ids| && p.tasks[a].scheduleJob == Some(ids[i])
                  && p.tasks[b].scheduleJob == Some(ids[j]);
      DueListOrder(legacy, now, i, j);
    }
  }

  lemma DueListOrder(s: Store, now: Instant, i: nat, j: nat)
    requires i < j < |DueList(s, now)|
    ensures EarlierDue(s, DueList(s, now)[i], DueList(s, now)[j])
  {
    var ids := DueList(s, now);
    assert ids[i] in ids && ids[j] in ids;
    assert RowOrder.Before(JobKeys(s), ids[i], ids[j]);
  }

  // ---------------------------------------------------------------- stranding

  // A due job moves on if and only if its current occurrence is not on record.
  lemma DueJobMovesExactlyIfUnrecorded(s: Store, job: nat, now: Instant)
    requires JobsWellFormed(s) && job in s.jobs && JobDue(s.jobs[job], now)
    ensures job in PromoteDue(s, now).jobs
    ensures PromoteDue(s, now).jobs[job] != s.jobs[job]
            <==> (job, s.jobs[job].nextRun.value) !in s.occurrences
  {
    var legacy := Legacy(s, now);
    PromotionAdvancesJobs(legacy, DueList(legacy, now), now);
    assert job in DueJobs(legacy, now);
    if Fires(legacy, job, now) {
      AdvancedIsLater(s.jobs[job], now);
    }
  }
}
