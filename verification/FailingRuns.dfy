/**
 * Runs of the store, each from the empty one, on which a property fails that
 * holds only under a condition.
 */
module FailingRuns {
  import opened Wrappers
  import opened TaskTable
  import opened TaskStore
  import LeaseSafety
  import RecordingPolicy
  import RowOrder
  import WaitingQueue

  const WORKER := "legacy-worker"
  const PLAN := RetryPlan("quota", true, None, None, 0, None)

  ghost predicate Reaches(events: seq<Event>, sys: System) {
    Possible(events) && Run(events) == sys
  }

  // A run gone on by one enabled step.
  lemma GoOn(events: seq<Event>, sys: System, step: Step, now: Instant) returns (longer: seq<Event>)
    requires Reaches(events, sys) && Enabled(sys, Event(step, now))
    ensures longer == events + [Event(step, now)] && Reaches(longer, Perform(sys, Event(step, now)))
  {
    OneMoreEvent(events, Event(step, now));
    longer := events + [Event(step, now)];
  }

  // The systems of these runs: no jobs, and as many ids issued as there are rows.
  function Holding(tasks: Table, next: nat, seen: set<(nat, Task)>): System {
    System(Store(tasks, next, map[], 1, {}), seen)
  }

  function Fresh(owner: string, at: Instant, priority: int): Task {
    NewTask(owner, Queued, at, priority, None, None, None)
  }

  function Started(leased: Task, now: Instant): Task {
    leased.(status := Running, heartbeatAt := Some(now), updatedAt := now)
  }

  // The row as a retry on the version `seen` leaves it.
  function Deferred(row: Task, seen: Task, now: Instant): Task {
    row.(status := Retrying, nextAttemptAt := Some(now + RetryDelay(seen.attempt, PLAN)), leaseOwner := None,
         leaseExpires := None, heartbeatAt := None, updatedAt := now, completedAt := None,
         lastError := Some(PLAN.error), checkpoint := seen.checkpoint)
  }

  // --------------------------------------------------------- one row, one step

  lemma Enqueues(tasks: Table, next: nat, seen: set<(nat, Task)>, owner: string, at: Instant, priority: int)
    ensures Perform(Holding(tasks, next, seen), Event(Enqueue(owner, at, priority, None), at))
            == Holding(tasks[next := Fresh(owner, at, priority)], next + 1, seen)
  {
  }

  lemma Claims(row: Task, next: nat, seen: set<(nat, Task)>, now: Instant)
    requires row.status == Queued && row.nextAttemptAt == None
    ensures Perform(Holding(map[1 := row], next, seen), Event(ClaimNext(WORKER, 120, 3), now))
            == Holding(map[1 := LeaseRow(row, WORKER, 120, now)], next, seen)
  {
    LeaseSafety.OnlyRowIsClaimed(row, row, WORKER, now);
  }

  lemma Starts(leased: Task, next: nat, seen: set<(nat, Task)>, now: Instant)
    requires leased.status == Leased && leased.leaseOwner == Some(WORKER)
    ensures Perform(Holding(map[1 := leased], next, seen), Event(StartRunning(1, WORKER), now))
            == Holding(map[1 := Started(leased, now)], next, seen)
  {
    LeaseSafety.OnlyRowStarts(leased, WORKER, now);
  }

  lemma Reads(tasks: Table, next: nat, seen: set<(nat, Task)>, id: nat, now: Instant)
    requires id in tasks && tasks[id].status != Cancelled
    ensures Perform(Holding(tasks, next, seen), Event(Read(id), now))
            == Holding(tasks, next, seen + {(id, tasks[id])})
  {
  }

  lemma Defers(tasks: Table, next: nat, seen: set<(nat, Task)>, id: nat, version: Task, now: Instant)
    requires id in tasks && Live(tasks[id])
    ensures Perform(Holding(tasks, next, seen), Event(Retry(id, version, PLAN), now))
            == Holding(tasks[id := Deferred(tasks[id], version, now)], next, seen)
  {
  }

  // A row enqueued, claimed and started.
  lemma OneRunning(owner: string) returns (events: seq<Event>, running: Task)
    ensures running == Started(LeaseRow(Fresh(owner, 0, 0), WORKER, 120, 0), 1)
    ensures |events| == 3 && Reaches(events, Holding(map[1 := running], 2, {}))
  {
    var queued := Fresh(owner, 0, 0);
    var leased := LeaseRow(queued, WORKER, 120, 0);
    Enqueues(map[], 1, {}, owner, 0, 0);
    assert map[][1 := queued] == map[1 := queued];
    events := GoOn([], START, Enqueue(owner, 0, 0, None), 0);
    Claims(queued, 2, {}, 0);
    events := GoOn(events, Holding(map[1 := queued], 2, {}), ClaimNext(WORKER, 120, 3), 0);
    Starts(leased, 2, {}, 1);
    events := GoOn(events, Holding(map[1 := leased], 2, {}), StartRunning(1, WORKER), 1);
    running := Started(leased, 1);
  }

  // ------------------------------------------------------------ lost daily flag

  lemma Checkpoints(row: Task, next: nat, seen: set<(nat, Task)>, now: Instant)
    requires Live(row)
    ensures Perform(Holding(map[1 := row], next, seen), Event(Checkpointing(1, Saved(true)), now))
            == Holding(map[1 := row.(checkpoint := Saved(true), updatedAt := now)], next, seen)
  {
    var daily := row.(checkpoint := Saved(true), updatedAt := now);
    assert map[1 := row][1 := daily] == map[1 := daily];
  }

  // A running row whose version was read before and after it became daily.
  lemma DailyReadTwice(owner: string) returns (events: seq<Event>, running: Task, daily: Task)
    ensures running.status == Running && running.checkpoint == Blank && running.attempt == 1
    ensures running.repeatSeconds == None && running.scheduleJob == None
    ensures daily == running.(checkpoint := Saved(true), updatedAt := 3)
    ensures |events| == 6
    ensures Reaches(events, Holding(map[1 := daily], 2, {(1, running), (1, daily)}))
  {
    events, running := OneRunning(owner);
    daily := running.(checkpoint := Saved(true), updatedAt := 3);
    Reads(map[1 := running], 2, {}, 1, 2);
    events := GoOn(events, Holding(map[1 := running], 2, {}), Read(1), 2);
    var early := {(1 as nat, running)};
    Checkpoints(running, 2, early, 3);
    events := GoOn(events, Holding(map[1 := running], 2, early), Checkpointing(1, Saved(true)), 3);
    Reads(map[1 := daily], 2, early, 1, 4);
    events := GoOn(events, Holding(map[1 := daily], 2, early), Read(1), 4);
    assert {} + early == early && early + {(1 as nat, daily)} == {(1, running), (1, daily)};
  }

  // A retry acts on a version read before the daily flag was saved and writes
  // the old checkpoint back; a finish that saw the flag then completes a row
  // that no longer has it.
  lemma StaleRetryLosesTheFlag(owner: string) returns (events: seq<Event>)
    ensures |events| == 8 && Possible(events)
    ensures events[6].step.Retry? && events[7].step.Finish?
    ensures RecordingPolicy.RecordedAt(events, 7) && !RecordingPolicy.RecordedAt(events, 8)
  {
    var before, running, daily := DailyReadTwice(owner);
    var seen, retried := {(1 as nat, running), (1, daily)}, Deferred(daily, running, 5);
    Defers(map[1 := daily], 2, seen, 1, running, 5);
    assert map[1 := daily][1 := retried] == map[1 := retried];
    before := GoOn(before, Holding(map[1 := daily], 2, seen), Retry(1, running, PLAN), 5);
    FinishLosesTheFlag(retried, daily, seen, 6);
    events := GoOn(before, Holding(map[1 := retried], 2, seen), Finish(1, daily, true, None), 6);
    assert events[..7] == before && events[..8] == events;
  }

  lemma FinishLosesTheFlag(row: Task, version: Task, seen: set<(nat, Task)>, now: Instant)
    requires row.status == Retrying && !KeepsRecord(row) && version.checkpoint == Saved(true) && !IsRecurring(version)
    ensures RecordingPolicy.Recorded(map[1 := row])
    ensures !RecordingPolicy.Recorded(
               Perform(Holding(map[1 := row], 2, seen), Event(Finish(1, version, true, None), now)).store.tasks)
  {
    var finished := FinishWrite(map[1 := row], 1, version, true, None, now);
    assert Terminal(finished[1]) && !KeepsRecord(finished[1]);
  }

  // ---------------------------------------------------------------- zero period

  lemma PromotesLegacy(tasks: Table, next: nat, seen: set<(nat, Task)>, now: Instant)
    ensures Perform(Holding(tasks, next, seen), Event(Promote, now)) == Holding(PromoteLegacy(tasks, now), next, seen)
  {
    RowOrder.EmptyOrInhabited(DueList(Holding(PromoteLegacy(tasks, now), next, seen).store, now));
  }

  lemma Schedules(owner: string)
    ensures Perform(START, Event(Schedule(owner, 1, Some(0)), 0))
            == Holding(map[1 := NewTask(owner, Scheduled, 0, 0, Some(1), Some(0), None)], 2, {})
  {
    var waiting := NewTask(owner, Scheduled, 0, 0, Some(1), Some(0), None);
    assert map[][1 := waiting] == map[1 := waiting];
  }

  // A row of period zero, queued when it became due.
  lemma ZeroPeriodQueued(owner: string) returns (events: seq<Event>, queued: Task)
    ensures queued.status == Queued && queued.nextAttemptAt == None && queued.repeatSeconds == Some(0)
    ensures queued.checkpoint == Blank && queued.scheduleJob == None
    ensures |events| == 2 && Reaches(events, Holding(map[1 := queued], 2, {}))
  {
    var waiting := NewTask(owner, Scheduled, 0, 0, Some(1), Some(0), None);
    queued := waiting.(status := Queued, updatedAt := 1);
    Schedules(owner);
    events := GoOn([], START, Schedule(owner, 1, Some(0)), 0);
    PromotesLegacy(map[1 := waiting], 2, {}, 1);
    assert PromoteLegacy(map[1 := waiting], 1) == map[1 := queued];
    events := GoOn(events, Holding(map[1 := waiting], 2, {}), Promote, 1);
  }

  // A period of zero is falsy for `keeps_record` but not NULL for the clean-up
  // after a restart, which leaves the failed row behind.
  lemma ZeroPeriodLeavesAFailedRow(owner: string) returns (events: seq<Event>)
    ensures |events| == 5 && Possible(events) && events[4].step == Recover
    ensures RecordingPolicy.RecordedAt(events, 4) && !RecordingPolicy.RecordedAt(events, 5)
  {
    var before, queued := ZeroPeriodQueued(owner);
    var leased := LeaseRow(queued, WORKER, 120, 1);
    var running := Started(leased, 2);
    Claims(queued, 2, {}, 1);
    before := GoOn(before, Holding(map[1 := queued], 2, {}), ClaimNext(WORKER, 120, 3), 1);
    Starts(leased, 2, {}, 2);
    before := GoOn(before, Holding(map[1 := leased], 2, {}), StartRunning(1, WORKER), 2);
    RecoveryLeavesFailed(running, {}, 3);
    events := GoOn(before, Holding(map[1 := running], 2, {}), Recover, 3);
    assert events[..4] == before && events[..5] == events;
  }

  lemma RecoveryLeavesFailed(running: Task, seen: set<(nat, Task)>, now: Instant)
    requires running.status == Running && running.checkpoint == Blank && running.repeatSeconds == Some(0)
    requires running.scheduleJob == None
    ensures RecordingPolicy.Recorded(map[1 := running])
    ensures !RecordingPolicy.Recorded(Perform(Holding(map[1 := running], 2, seen), Event(Recover, now)).store.tasks)
  {
    RecordingPolicy.RecoveryBreaksExactly(map[1 := running], now);
    assert 1 in map[1 := running];
  }

  // --------------------------------------------------------- list and claim order

  // The waiting list starts with one row, a claim takes the other.
  predicate ListAndClaimDiffer(t: Table, owner: string, head: nat, taken: nat, now: Instant) {
    head != taken && WaitingList(t, owner) == [head, taken] && Claim(t, WORKER, 120, 3, now).1 == Some(taken)
  }

  lemma TwoRowsDiffer(t: Table, owner: string, head: nat, taken: nat, now: Instant)
    requires t.Keys == {head, taken} && Waiting(t[head]) && Waiting(t[taken])
    requires t[head].owner == t[taken].owner == owner && t[head].priority > t[taken].priority
    requires WaitingQueue.HeldBack(t, head) || !AttemptDue(t[head], now)
    requires AttemptDue(t[taken], now) && !WaitingQueue.HeldBack(t, taken)
    ensures ListAndClaimDiffer(t, owner, head, taken, now)
  {
    assert RequeueExpired(t, now) == t;
    WaitingQueue.ClaimableExactly(t, head, now);
    WaitingQueue.ClaimableExactly(t, taken, now);
    WaitingQueue.TwoWaitingRows(t, head, taken, now);
  }

  lemma OneRetrying(owner: string) returns (events: seq<Event>, retried: Task, seen: set<(nat, Task)>)
    ensures var running := Started(LeaseRow(Fresh(owner, 0, 0), WORKER, 120, 0), 1);
            retried == Deferred(running, running, 3)
    ensures Reaches(events, Holding(map[1 := retried], 2, seen))
  {
    var before, running := OneRunning(owner);
    seen := {} + {(1 as nat, running)};
    Reads(map[1 := running], 2, {}, 1, 2);
    before := GoOn(before, Holding(map[1 := running], 2, {}), Read(1), 2);
    retried := Deferred(running, running, 3);
    Defers(map[1 := running], 2, seen, 1, running, 3);
    assert map[1 := running][1 := retried] == map[1 := retried];
    events := GoOn(before, Holding(map[1 := running], 2, seen), Retry(1, running, PLAN), 3);
  }

  // A retrying row whose backoff is over holds back the head of the list, which
  // was enqueued later and more urgently.
  lemma ListAndClaimCanDisagree(owner: string) returns (events: seq<Event>)
    ensures Possible(events) && ListAndClaimDiffer(Run(events).store.tasks, owner, 2, 1, 2 * SECOND)
  {
    var before, retried, seen := OneRetrying(owner);
    Enqueues(map[1 := retried], 2, seen, owner, 4, 5);
    events := GoOn(before, Holding(map[1 := retried], 2, seen), Enqueue(owner, 4, 5, None), 4);
    var t := map[1 := retried][2 := Fresh(owner, 4, 5)];
    assert t[1] == retried && WaitingQueue.HeldBack(t, 2);
    TwoRowsDiffer(t, owner, 2, 1, 2 * SECOND);
  }

  lemma TwoQueued(owner: string) returns (events: seq<Event>, t: Table)
    ensures t == map[1 := Fresh(owner, 0, 0), 2 := Fresh(owner, 1, 5)]
    ensures Reaches(events, Holding(t, 3, {}))
  {
    var plain, urgent := Fresh(owner, 0, 0), Fresh(owner, 1, 5);
    t := map[1 := plain, 2 := urgent];
    Enqueues(map[], 1, {}, owner, 0, 0);
    assert map[][1 := plain] == map[1 := plain];
    events := GoOn([], START, Enqueue(owner, 0, 0, None), 0);
    Enqueues(map[1 := plain], 2, {}, owner, 1, 5);
    events := GoOn(events, Holding(map[1 := plain], 2, {}), Enqueue(owner, 1, 5, None), 1);
    assert map[1 := plain][2 := urgent] == t;
  }

  lemma UrgentClaims(t: Table, seen: set<(nat, Task)>, now: Instant)
    requires t.Keys == {1, 2} && t[1].status == t[2].status == Queued && t[1].priority < t[2].priority
    requires t[1].nextAttemptAt == t[2].nextAttemptAt == None
    ensures Perform(Holding(t, 3, seen), Event(ClaimNext(WORKER, 120, 3), now))
            == Holding(t[2 := LeaseRow(t[2], WORKER, 120, now)], 3, seen)
  {
    UrgentIsClaimed(t, now);
  }

  lemma UrgentLeased(owner: string) returns (events: seq<Event>, t: Table)
    ensures t == map[1 := Fresh(owner, 0, 0), 2 := LeaseRow(Fresh(owner, 1, 5), WORKER, 120, 2)]
    ensures Reaches(events, Holding(t, 3, {}))
  {
    var before, queued := TwoQueued(owner);
    t := queued[2 := LeaseRow(queued[2], WORKER, 120, 2)];
    UrgentClaims(queued, {}, 2);
    events := GoOn(before, Holding(queued, 3, {}), ClaimNext(WORKER, 120, 3), 2);
  }

  lemma UrgentRead(owner: string) returns (events: seq<Event>, t: Table, leased: Task)
    ensures leased == LeaseRow(Fresh(owner, 1, 5), WORKER, 120, 2)
    ensures t == map[1 := Fresh(owner, 0, 0), 2 := leased]
    ensures Reaches(events, Holding(t, 3, {(2, leased)}))
  {
    var before;
    before, t := UrgentLeased(owner);
    leased := t[2];
    Reads(t, 3, {}, 2, 3);
    events := GoOn(before, Holding(t, 3, {}), Read(2), 3);
  }

  // The head of the list is itself still backing off.
  lemma HeadBackingOffIsPassedOver(owner: string) returns (events: seq<Event>)
    ensures Possible(events) && ListAndClaimDiffer(Run(events).store.tasks, owner, 2, 1, 5)
    ensures !WaitingQueue.HeldBack(Run(events).store.tasks, 2)
  {
    var before, t, leased := UrgentRead(owner);
    Defers(t, 3, {(2 as nat, leased)}, 2, leased, 4);
    events := GoOn(before, Holding(t, 3, {(2 as nat, leased)}), Retry(2, leased, PLAN), 4);
    TwoRowsDiffer(t[2 := Deferred(leased, leased, 4)], owner, 2, 1, 5);
  }

  lemma UrgentIsClaimed(t: Table, now: Instant)
    requires t.Keys == {1, 2} && t[1].status == t[2].status == Queued && t[1].priority < t[2].priority
    requires t[1].nextAttemptAt == t[2].nextAttemptAt == None
    ensures Claim(t, WORKER, 120, 3, now) == (t[2 := LeaseRow(t[2], WORKER, 120, now)], Some(2))
  {
    assert RequeueExpired(t, now) == t;
    assert InFlightIds(t) == {};
    assert Claimable(t, 1, now) && Claimable(t, 2, now);
    assert ClaimableIds(t, now) == {1, 2};
    assert RowOrder.IsFirst(QueueKeys(t), {1, 2}, RowOrder.First(QueueKeys(t), {1, 2}));
  }
}
