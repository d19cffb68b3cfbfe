/**
 * What each step of the store does to the rows, told by their columns alone:
 * which row a claim picks, how a row ends, and when it is due again.  Nothing
 * here is said through the functions that compute it.
 */
module StepOutcomes {
  import opened Wrappers
  import opened RowOrder
  import opened TaskTable
  import opened TaskStore
  import SchedulePromotion
  import WaitingQueue

  // Every row but one, and everything beside the rows, is as it was.
  predicate OnlyRow(s: Store, p: Store, id: nat) {
    && p == s.(tasks := p.tasks)
    && p.tasks.Keys - {id} == s.tasks.Keys - {id}
    && forall other | other in s.tasks && other != id :: other in p.tasks && p.tasks[other] == s.tasks[other]
  }

  predicate Unleased(row: Task) {
    row.leaseOwner.None? && row.leaseExpires.None? && row.heartbeatAt.None?
  }

  // The columns that say what the work is and how it is ranked.
  predicate SameWork(row: Task, after: Task) {
    && after.owner == row.owner && after.createdAt == row.createdAt && after.repeatSeconds == row.repeatSeconds
    && after.scheduleJob == row.scheduleJob && after.attempt == row.attempt && after.priority == row.priority
  }

  // ------------------------------------------------------------------- claims

  predicate ComesFirst(a: nat, x: Task, b: nat, y: Task) {
    || x.priority > y.priority
    || (x.priority == y.priority && x.createdAt < y.createdAt)
    || (x.priority == y.priority && x.createdAt == y.createdAt && a < b)
  }

  // A due waiting row whose owner has nothing in flight and no retry with a smaller id.
  predicate Eligible(t: Table, id: nat, now: Instant) {
    && id in t && t[id].status in {Queued, Retrying}
    && (t[id].nextAttemptAt.None? || t[id].nextAttemptAt.value <= now)
    && forall row | row in t && t[row].owner == t[id].owner ::
         t[row].status !in {Leased, Running} && (t[row].status == Retrying ==> id <= row)
  }

  // Rows whose lease ran out wait again; the rest is as it was.
  predicate Requeued(t: Table, back: Table, now: Instant) {
    && back.Keys == t.Keys
    && forall id | id in t ::
         if t[id].status in {Leased, Running} && t[id].leaseExpires.Some? && t[id].leaseExpires.value <= now then
           && back[id].status == Queued && Unleased(back[id]) && SameWork(t[id], back[id])
           && back[id].updatedAt == now && back[id].lastError == Some("worker lease expired")
           && back[id].dueAt == t[id].dueAt && back[id].startedAt == t[id].startedAt
           && back[id].completedAt == t[id].completedAt && back[id].checkpoint == t[id].checkpoint
           && back[id].nextAttemptAt == t[id].nextAttemptAt
         else
           back[id] == t[id]
  }

  predicate LeasedTo(row: Task, after: Task, worker: string, leaseSeconds: int, now: Instant) {
    && after.status == Leased && after.leaseOwner == Some(worker) && after.attempt == row.attempt + 1
    && after.leaseExpires == Some(now + (if leaseSeconds < 10 then 10 else leaseSeconds) * SECOND)
    && after.heartbeatAt == Some(now) && after.updatedAt == now
    && after.startedAt == (if row.startedAt.Some? then row.startedAt else Some(now))
    && SameWork(row, after.(attempt := row.attempt))
    && after.dueAt == row.dueAt && after.completedAt == row.completedAt && after.lastError == row.lastError
    && after.checkpoint == row.checkpoint && after.nextAttemptAt == row.nextAttemptAt
  }

  lemma RequeueIsExact(t: Table, now: Instant)
    ensures Requeued(t, RequeueExpired(t, now), now)
  {
  }

  lemma EligibleIsClaimable(t: Table, id: nat, now: Instant)
    requires id in t && forall row | row in t && t[row].status in {Leased, Running} ::
               t[row].leaseExpires.Some? ==> t[row].leaseExpires.value > now
    ensures Claimable(t, id, now) <==> Eligible(t, id, now)
  {
  }

  lemma ClaimableAreEligible(t: Table, now: Instant)
    ensures forall id :: id in ClaimableIds(RequeueExpired(t, now), now) <==> Eligible(RequeueExpired(t, now), id, now)
  {
    var back := RequeueExpired(t, now);
    forall id | id in back
      ensures id in ClaimableIds(back, now) <==> Eligible(back, id, now)
    {
      EligibleIsClaimable(back, id, now);
    }
  }

  // A claim takes the eligible row that comes before every other one.
  lemma ClaimPicksFirst(t: Table, worker: string, leaseSeconds: int, maxActive: int, now: Instant)
    ensures var back := RequeueExpired(t, now);
            var claimed := Claim(t, worker, leaseSeconds, maxActive, now).1;
            claimed.Some? ==>
              && Eligible(back, claimed.value, now)
              && forall id | Eligible(back, id, now) && id != claimed.value ::
                   ComesFirst(claimed.value, back[claimed.value], id, back[id])
  {
    var back := RequeueExpired(t, now);
    ClaimableAreEligible(t, now);
    var claimed := Pick(back, maxActive, now);
    if claimed.Some? {
      assert IsFirst(QueueKeys(back), ClaimableIds(back, now), claimed.value);
      forall id | Eligible(back, id, now) && id != claimed.value
        ensures ComesFirst(claimed.value, back[claimed.value], id, back[id])
      {
        assert Before(QueueKeys(back), claimed.value, id);
      }
    }
  }

  // As many rows are in flight as the caller allows, at least one and at most three.
  predicate Full(t: Table, maxActive: int) {
    |set id | id in t && t[id].status in {Leased, Running}|
      >= if maxActive < 1 then 1 else if maxActive > 3 then 3 else maxActive
  }

  lemma FullMeansCapReached(t: Table, maxActive: int)
    ensures CapReached(t, maxActive) <==> Full(t, maxActive)
  {
    assert (set id | id in t && t[id].status in {Leased, Running}) == InFlightIds(t);
  }

  lemma NoneClaimableMeansNoneEligible(t: Table, now: Instant)
    ensures var back := RequeueExpired(t, now);
            ClaimableIds(back, now) == {} <==> forall id | id in back :: !Eligible(back, id, now)
  {
    ClaimableAreEligible(t, now);
  }

  // A claim comes back empty exactly when enough rows are in flight or no row
  // is eligible.
  lemma ClaimIsRefusedExactly(t: Table, worker: string, leaseSeconds: int, maxActive: int, now: Instant)
    ensures var back := RequeueExpired(t, now);
            Claim(t, worker, leaseSeconds, maxActive, now).1.None?
            <==> Full(back, maxActive) || forall id | id in back :: !Eligible(back, id, now)
  {
    var back := RequeueExpired(t, now);
    FullMeansCapReached(back, maxActive);
    NoneClaimableMeansNoneEligible(t, now);
  }

  // It leases the row it returns, besides requeueing, and touches no other.
  lemma ClaimLeasesExactly(t: Table, worker: string, leaseSeconds: int, maxActive: int, now: Instant)
    ensures var back := RequeueExpired(t, now);
            var (after, claimed) := Claim(t, worker, leaseSeconds, maxActive, now);
            && (claimed.None? ==> after == back)
            && (claimed.Some? ==>
                  && claimed.value in back && after.Keys == back.Keys
                  && LeasedTo(back[claimed.value], after[claimed.value], worker, leaseSeconds, now)
                  && forall other | other in back && other != claimed.value :: after[other] == back[other])
  {
  }

  // The step of the store changes the rows so, and nothing beside them.
  lemma ClaimingClaims(s: Store, worker: string, leaseSeconds: int, maxActive: int, now: Instant)
    ensures Next(s, ClaimNext(worker, leaseSeconds, maxActive), now)
            == s.(tasks := Claim(s.tasks, worker, leaseSeconds, maxActive, now).0)
  {
  }

  // The list an owner sees, pair by pair.
  lemma WaitingListOrder(t: Table, owner: string)
    ensures var list := WaitingList(t, owner);
            && (forall id :: id in list <==> id in t && t[id].owner == owner && t[id].status in {Queued, Retrying})
            && forall i, j | 0 <= i < j < |list| ::
                 list[i] in t && list[j] in t && ComesFirst(list[i], t[list[i]], list[j], t[list[j]])
  {
    var list := WaitingList(t, owner);
    forall i, j | 0 <= i < j < |list|
      ensures list[i] in t && list[j] in t && ComesFirst(list[i], t[list[i]], list[j], t[list[j]])
    {
      assert list[i] in list && list[j] in list;
      assert Before(QueueKeys(t), list[i], list[j]);
    }
  }

  // -------------------------------------------------------------- worker reports

  // The recording policy of the owner: recurring, scheduled and daily work.
  predicate Repeats(seen: Task) { seen.repeatSeconds.Some? && seen.repeatSeconds.value > 0 }

  predicate Recorded(seen: Task) {
    Repeats(seen) || seen.scheduleJob.Some? || seen.checkpoint == Saved(true)
  }

  predicate Ended(row: Task, after: Task, success: bool, error: Option<string>, now: Instant) {
    && (success ==> after.status == Completed) && (!success ==> after.status == Failed)
    && after.completedAt == Some(now) && after.updatedAt == now && after.lastError == error
    && Unleased(after) && after.nextAttemptAt.None? && SameWork(row, after)
    && after.dueAt == row.dueAt && after.startedAt == row.startedAt && after.checkpoint == row.checkpoint
  }

  // Waiting for the grid point `k` periods after the due time that was read,
  // the first one after now.
  predicate Rescheduled(row: Task, after: Task, seen: Task, k: nat, success: bool, error: Option<string>, now: Instant)
    requires Repeats(seen)
  {
    var due := if seen.dueAt.Some? then seen.dueAt.value else now;
    var step := seen.repeatSeconds.value * SECOND;
    && after.status == Scheduled && after.dueAt == Some(due + k * step)
    && after.dueAt.value > now && (k > 0 ==> after.dueAt.value <= now + step)
    && after.completedAt == Some(now) && after.updatedAt == now && after.startedAt.None?
    && after.lastError == (if success then None else error) && after.checkpoint == Blank
    && Unleased(after) && after.nextAttemptAt.None? && SameWork(row, after)
  }

  // A finished row waits for its next grid point if it repeats, ends as the
  // outcome says if it is to be recorded, and is gone otherwise; a cancelled or
  // missing row stays so.
  lemma FinishIsExact(s: Store, id: nat, seen: Task, success: bool, error: Option<string>, now: Instant)
    returns (k: nat)
    ensures var p := Next(s, Finish(id, seen, success, error), now);
            if id !in s.tasks || s.tasks[id].status == Cancelled then
              p == s
            else
              && OnlyRow(s, p, id)
              && (id in p.tasks <==> Recorded(seen))
              && (Repeats(seen) ==> Rescheduled(s.tasks[id], p.tasks[id], seen, k, success, error, now))
              && (Recorded(seen) && !Repeats(seen) ==> Ended(s.tasks[id], p.tasks[id], success, error, now))
  {
    k := 0;
    if id in s.tasks && s.tasks[id].status != Cancelled && Repeats(seen) {
      var due := if seen.dueAt.Some? then seen.dueAt.value else now;
      k := SchedulePromotion.NextDueIsOnGrid(due, now, seen.repeatSeconds.value);
      if due > now {
        k := 0;
      }
    }
  }

  function Doubled(n: nat): nat { if n == 0 then 1 else 2 * Doubled(n - 1) }

  lemma {:induction false} DoubledGrows(n: nat)
    requires n >= 6
    ensures Doubled(n) >= 64
    decreases n
  {
    if n == 6 {
      assert Doubled(1) == 2 && Doubled(2) == 4 && Doubled(3) == 8 && Doubled(4) == 16 && Doubled(5) == 32;
    } else {
      DoubledGrows(n - 1);
    }
  }

  // The base delay doubles with every attempt, from a second up to a minute.
  lemma BackoffDoubles(attempt: nat)
    ensures attempt == 0 ==> BackoffBase(attempt) == SECOND
    ensures attempt > 0 ==>
              BackoffBase(attempt) == (if Doubled(attempt - 1) < 60 then Doubled(attempt - 1) else 60) * SECOND
  {
    assert Doubled(1) == 2 && Doubled(2) == 4 && Doubled(3) == 8 && Doubled(4) == 16 && Doubled(5) == 32;
    if attempt >= 7 {
      DoubledGrows(attempt - 1);
    }
  }

  // The delay is the base plus at most a fifth, never above a minute; or what
  // the provider asks for, if that is longer than the base.
  predicate Delayed(delay: int, attempt: nat, plan: RetryPlan) {
    var base := (if attempt == 0 then 1 else if Doubled(attempt - 1) < 60 then Doubled(attempt - 1) else 60) * SECOND;
    && base <= delay
    && (plan.retryAfter.Some? ==> plan.retryAfter.value <= delay && (delay == base || delay == plan.retryAfter.value))
    && (plan.retryAfter.None? ==>
          && delay <= 60 * SECOND && 5 * (delay - base) <= base
          && (0 <= plan.jitter && 5 * plan.jitter <= base && base + plan.jitter <= 60 * SECOND ==>
                delay == base + plan.jitter))
  }

  lemma DelayIsExact(attempt: nat, plan: RetryPlan)
    ensures Delayed(RetryDelay(attempt, plan), attempt, plan)
  {
    BackoffDoubles(attempt);
  }

  predicate NoMoreAttempts(seen: Task, plan: RetryPlan) {
    || !plan.retryable
    || (plan.maxAttempts.Some? && seen.attempt >= 1 && seen.attempt >= plan.maxAttempts.value)
  }

  predicate Failing(row: Task, after: Task, seen: Task, plan: RetryPlan, now: Instant) {
    && (if NoMoreAttempts(seen, plan) then
          after.status == DeadLetter && after.completedAt == Some(now) && after.nextAttemptAt.None?
        else
          && after.status == Retrying && after.completedAt.None? && after.nextAttemptAt.Some?
          && Delayed(after.nextAttemptAt.value - now, seen.attempt, plan))
    && after.lastError == Some(plan.error) && after.updatedAt == now && Unleased(after) && SameWork(row, after)
    && after.checkpoint == (if plan.checkpoint.Some? then plan.checkpoint.value else seen.checkpoint)
    && after.dueAt == row.dueAt && after.startedAt == row.startedAt
  }

  // A failed attempt of a live row is tried again after the delay unless it may
  // not be, or its attempts are used up; then it is a dead letter, or gone if
  // the version read was not to be recorded.
  lemma RetryIsExact(s: Store, id: nat, seen: Task, plan: RetryPlan, now: Instant)
    ensures var p := Next(s, Retry(id, seen, plan), now);
            if id !in s.tasks || s.tasks[id].status !in {Queued, Leased, Running, Retrying} then
              p == s
            else
              && OnlyRow(s, p, id)
              && (id in p.tasks <==> !NoMoreAttempts(seen, plan) || Recorded(seen))
              && (id in p.tasks ==> Failing(s.tasks[id], p.tasks[id], seen, plan, now))
  {
    DelayIsExact(seen.attempt, plan);
  }

  // Only the worker that holds the lease moves it on, to the same length from now.
  lemma ReportsAreExact(s: Store, id: nat, worker: string, leaseSeconds: int, now: Instant)
    ensures var held := id in s.tasks && s.tasks[id].leaseOwner == Some(worker);
            var p := Next(s, Beat(id, worker, leaseSeconds), now);
            if held && s.tasks[id].status in {Leased, Running} then
              && OnlyRow(s, p, id) && id in p.tasks
              && p.tasks[id].leaseExpires == Some(now + (if leaseSeconds < 10 then 10 else leaseSeconds) * SECOND)
              && p.tasks[id].heartbeatAt == Some(now) && p.tasks[id].updatedAt == now
              && p.tasks[id].(leaseExpires := None, heartbeatAt := None, updatedAt := 0)
                 == s.tasks[id].(leaseExpires := None, heartbeatAt := None, updatedAt := 0)
            else
              p == s
    ensures var held := id in s.tasks && s.tasks[id].leaseOwner == Some(worker);
            var p := Next(s, StartRunning(id, worker), now);
            if held && s.tasks[id].status == Leased then
              && OnlyRow(s, p, id) && id in p.tasks
              && p.tasks[id].status == Running
              && p.tasks[id].heartbeatAt == Some(now) && p.tasks[id].updatedAt == now
              && p.tasks[id].(status := Leased, heartbeatAt := None, updatedAt := 0)
                 == s.tasks[id].(heartbeatAt := None, updatedAt := 0)
            else
              p == s
  {
  }

  // ------------------------------------------------------------ owner, restart

  // A row of the owner that has not ended is cancelled if it is to be recorded
  // and gone otherwise; any other row stays.
  lemma CancelIsExact(s: Store, id: nat, owner: string, now: Instant)
    ensures var p := Next(s, Cancelling(id, owner), now);
            if id in s.tasks && s.tasks[id].owner == owner
               && s.tasks[id].status !in {Completed, Failed, DeadLetter, Cancelled} then
              && OnlyRow(s, p, id)
              && (id in p.tasks <==> Recorded(s.tasks[id]))
              && (id in p.tasks ==>
                    && p.tasks[id].status == Cancelled
                    && p.tasks[id].completedAt == Some(now) && p.tasks[id].updatedAt == now
                    && p.tasks[id].(status := s.tasks[id].status, completedAt := None, updatedAt := 0)
                       == s.tasks[id].(completedAt := None, updatedAt := 0))
            else
              p == s
  {
  }

  // A failed or dead row of the owner waits again at once, with its attempts,
  // its rank and its saved progress; any other row stays.
  lemma RetryFailedIsExact(s: Store, id: nat, owner: string, now: Instant)
    ensures var p := Next(s, RetryingFailed(id, owner), now);
            if id in s.tasks && s.tasks[id].owner == owner && s.tasks[id].status in {Failed, DeadLetter} then
              && OnlyRow(s, p, id) && id in p.tasks
              && p.tasks[id].status == Queued && Unleased(p.tasks[id]) && p.tasks[id].nextAttemptAt.None?
              && p.tasks[id].completedAt.None? && p.tasks[id].lastError.None? && p.tasks[id].updatedAt == now
              && SameWork(s.tasks[id], p.tasks[id]) && p.tasks[id].checkpoint == s.tasks[id].checkpoint
              && p.tasks[id].dueAt == s.tasks[id].dueAt && p.tasks[id].startedAt == s.tasks[id].startedAt
            else
              p == s
  {
  }

  // A waiting row moves in rank within a hundred either way of zero.
  lemma ReprioritizingIsExact(s: Store, id: nat, owner: string, delta: int, now: Instant)
    ensures var p := Next(s, Reprioritizing(id, owner, delta), now);
            if id in s.tasks && s.tasks[id].owner == owner && s.tasks[id].status in {Queued, Retrying} then
              var wanted := s.tasks[id].priority + delta;
              && OnlyRow(s, p, id) && id in p.tasks
              && (-100 <= wanted <= 100 ==> p.tasks[id].priority == wanted)
              && (wanted > 100 ==> p.tasks[id].priority == 100)
              && (wanted < -100 ==> p.tasks[id].priority == -100)
              && p.tasks[id] == s.tasks[id].(priority := p.tasks[id].priority, updatedAt := now)
            else
              p == s
  {
  }

  predicate Exchanged(before: seq<nat>, after: seq<nat>, i: nat, j: int)
    requires i < |before|
  {
    if 0 <= j < |before| then
      && |after| == |before| && after[i] == before[j] && after[j] == before[i]
      && forall k | 0 <= k < |before| && k != i && k != j :: after[k] == before[k]
    else
      after == before
  }

  lemma SwappedIsExchanged(before: seq<nat>, i: nat, j: nat)
    requires i < |before| && j < |before|
    ensures Exchanged(before, Swapped(before, i, j), i, j)
  {
  }

  lemma MovingMoves(s: Store, id: nat, owner: string, up: bool, now: Instant)
    ensures Next(s, Moving(id, owner, up), now)
            == s.(tasks := MoveWaiting(s.tasks, id, owner, if up then -1 else 1, now))
  {
  }

  // Moving the row at place `i` of its owner's list exchanges it with the row
  // one place further up or down, if there is one, and nothing else in the list.
  lemma MovingIsExact(s: Store, p: Store, owner: string, i: nat, up: bool, now: Instant)
    requires i < |WaitingList(s.tasks, owner)|
    requires p == Next(s, Moving(WaitingList(s.tasks, owner)[i], owner, up), now)
    ensures p == s.(tasks := p.tasks)
    ensures Exchanged(WaitingList(s.tasks, owner), WaitingList(p.tasks, owner), i, if up then i - 1 else i + 1)
  {
    MovingMoves(s, WaitingList(s.tasks, owner)[i], owner, up, now);
    MovedListIsExchanged(s.tasks, owner, i, if up then -1 else 1, now);
  }

  lemma MovedListIsExchanged(t: Table, owner: string, i: nat, offset: int, now: Instant)
    requires i < |WaitingList(t, owner)| && (offset == -1 || offset == 1)
    ensures var before := WaitingList(t, owner);
            Exchanged(before, WaitingList(MoveWaiting(t, before[i], owner, offset, now), owner), i, i + offset)
  {
    var before := WaitingList(t, owner);
    WaitingQueue.ListHasNoRepeats(t, owner);
    WaitingQueue.IndexOfMember(before, i);
    WaitingQueue.MoveSwapsNeighbours(t, before[i], owner, offset, now);
    if 0 <= i + offset < |before| {
      SwappedIsExchanged(before, i, i + offset);
    }
  }

  // An owner can delete rows that are neither in flight nor dead letters, and
  // all the waiting ones at once.
  lemma DeletingIsExact(s: Store, id: nat, owner: string, now: Instant)
    ensures var p := Next(s, DeletingTask(id, owner), now);
            if id in s.tasks && s.tasks[id].owner == owner
               && !(s.tasks[id].status == Leased || s.tasks[id].status == Running || s.tasks[id].status == DeadLetter)
            then OnlyRow(s, p, id) && id !in p.tasks
            else p == s
    ensures var p := Next(s, DeletingWaiting(owner), now);
            && p == s.(tasks := p.tasks) && p.tasks.Keys <= s.tasks.Keys
            && forall row | row in s.tasks ::
                 && (row in p.tasks <==> s.tasks[row].owner != owner || s.tasks[row].status !in {Queued, Retrying})
                 && (row in p.tasks ==> p.tasks[row] == s.tasks[row])
  {
  }

  // After a restart no row is in flight.  A leased row, or one with saved
  // progress, waits again; any other running row has failed, and stays on
  // record only if it repeats or belongs to a job.
  predicate Recovered(row: Task, after: Option<Task>, now: Instant) {
    if row.status == Leased || (row.status == Running && row.checkpoint != Blank) then
      && after.Some? && after.value.status == Queued && after.value.completedAt.None?
      && Interrupted(row, after.value, now)
    else if row.status == Running && (row.repeatSeconds.Some? || row.scheduleJob.Some?) then
      && after.Some? && after.value.status == Failed && after.value.completedAt == Some(now)
      && Interrupted(row, after.value, now)
    else if row.status == Running then
      after.None?
    else
      // the second statement cannot tell these from rows it failed itself
      after == if row.status == Failed && row.completedAt == Some(now) && row.updatedAt == now
                  && row.lastError == Some(INTERRUPTED) && row.repeatSeconds.None? && row.scheduleJob.None?
               then None else Some(row)
  }

  predicate Interrupted(row: Task, after: Task, now: Instant) {
    && after.updatedAt == now && after.lastError == Some(INTERRUPTED) && Unleased(after) && SameWork(row, after)
    && after.dueAt == row.dueAt && after.startedAt == row.startedAt && after.checkpoint == row.checkpoint
    && after.nextAttemptAt == row.nextAttemptAt
  }

  lemma RecoveryIsExact(s: Store, now: Instant)
    ensures var p := Next(s, Recover, now);
            && p == s.(tasks := p.tasks) && p.tasks.Keys <= s.tasks.Keys
            && forall id | id in s.tasks ::
                 Recovered(s.tasks[id], if id in p.tasks then Some(p.tasks[id]) else None, now)
  {
    forall id | id in s.tasks
      ensures var p := Next(s, Recover, now);
              Recovered(s.tasks[id], if id in p.tasks then Some(p.tasks[id]) else None, now)
    {
      RowRecovers(s.tasks, id, now);
    }
  }

  lemma RowRecovers(t: Table, id: nat, now: Instant)
    requires id in t
    ensures var p := RecoverInterrupted(t, now);
            Recovered(t[id], if id in p then Some(p[id]) else None, now)
  {
  }

  // --------------------------------------------------------------- new work

  // What a new row says beside its rank and its times.
  predicate Untried(row: Task) {
    && row.startedAt.None? && row.completedAt.None? && row.lastError.None? && Unleased(row)
    && row.attempt == 0 && row.checkpoint == Blank && row.nextAttemptAt.None?
  }

  // New work gets the next id: queued at once, or scheduled for a time that is
  // still to come.
  lemma AddingIsExact(s: Store, owner: string, createdAt: Instant, priority: int, job: Option<nat>,
                      dueAt: Instant, period: Option<nat>, now: Instant)
    ensures var p := Next(s, Enqueue(owner, createdAt, priority, job), now);
            && OnlyRow(s, p.(nextTask := s.nextTask), s.nextTask) && p.nextTask == s.nextTask + 1
            && s.nextTask in p.tasks && var row := p.tasks[s.nextTask];
            && row.owner == owner && row.status == Queued && row.priority == priority && row.scheduleJob == job
            && row.createdAt == row.updatedAt == createdAt && row.dueAt.None? && row.repeatSeconds.None? && Untried(row)
    ensures var p := Next(s, Schedule(owner, dueAt, period), now);
            if dueAt <= now then p == s else
            && OnlyRow(s, p.(nextTask := s.nextTask), s.nextTask) && p.nextTask == s.nextTask + 1
            && s.nextTask in p.tasks && var row := p.tasks[s.nextTask];
            && row.owner == owner && row.status == Scheduled && row.priority == 0 && row.scheduleJob.None?
            && row.createdAt == row.updatedAt == now && row.dueAt == Some(dueAt) && row.repeatSeconds == period
            && Untried(row)
  {
  }

  // Progress is saved on live rows only; a status message on any.
  lemma SavingIsExact(s: Store, id: nat, checkpoint: Checkpoint, now: Instant)
    ensures var p := Next(s, Checkpointing(id, checkpoint), now);
            if id in s.tasks && s.tasks[id].status in {Queued, Leased, Running, Retrying} then
              && OnlyRow(s, p, id) && id in p.tasks && p.tasks[id].checkpoint == checkpoint
              && p.tasks[id].updatedAt == now
              && p.tasks[id].(checkpoint := Blank, updatedAt := 0) == s.tasks[id].(checkpoint := Blank, updatedAt := 0)
            else
              p == s
    ensures var p := Next(s, Touching(id), now);
            if id in s.tasks then
              && OnlyRow(s, p, id) && id in p.tasks
              && p.tasks[id].updatedAt == now && p.tasks[id].(updatedAt := 0) == s.tasks[id].(updatedAt := 0)
            else
              p == s
  {
  }

  // ------------------------------------------------------------ scheduled jobs

  // Every job but one, and everything beside the jobs, is as it was.
  predicate OnlyJob(s: Store, p: Store, job: nat) {
    && p == s.(jobs := p.jobs)
    && p.jobs.Keys - {job} == s.jobs.Keys - {job}
    && forall other | other in s.jobs && other != job :: other in p.jobs && p.jobs[other] == s.jobs[other]
  }

  // Enabling a job whose run was missing or past when it was read sets the run
  // a period ahead, or a second where it has none; otherwise the time read is
  // written back.
  lemma EnablingIsExact(s: Store, job: nat, enable: bool, version: Job, comparedAt: Instant, addedAt: Instant,
                        look: nat, now: Instant)
    ensures var p := Next(s, Enabling(job, enable, version, comparedAt, addedAt, look), now);
            if job !in s.jobs then p == s else
            && OnlyJob(s, p, job) && job in p.jobs && var after := p.jobs[job];
            && after.enabled == enable && after.owner == s.jobs[job].owner
            && after.repeatSeconds == s.jobs[job].repeatSeconds
            && if !enable || (version.nextRun.Some? && version.nextRun.value > comparedAt) then
                 after.nextRun == version.nextRun
               else if version.repeatSeconds.Some? && version.repeatSeconds.value > 0 then
                 after.nextRun == Some(addedAt + version.repeatSeconds.value * SECOND)
               else
                 after.nextRun == Some(addedAt + SECOND)
  {
  }

  // Creating, retiming and deleting a job.
  lemma JobWritesAreExact(s: Store, job: nat, owner: string, nextRun: Instant, period: Option<nat>,
                          checkedAt: Instant, look: nat, now: Instant)
    ensures var p := Next(s, CreatingJob(owner, nextRun, period), now);
            && OnlyJob(s, p.(nextJob := s.nextJob), s.nextJob) && p.nextJob == s.nextJob + 1
            && s.nextJob in p.jobs && var after := p.jobs[s.nextJob];
            && after.owner == owner && after.enabled && after.nextRun == Some(nextRun) && after.repeatSeconds == period
    ensures var p := Next(s, Retiming(job, nextRun, period, checkedAt, look), now);
            if job !in s.jobs then p == s else
            && OnlyJob(s, p, job) && job in p.jobs && var after := p.jobs[job];
            && after.owner == s.jobs[job].owner && after.enabled == s.jobs[job].enabled
            && after.nextRun == Some(nextRun) && after.repeatSeconds == period
    ensures var p := Next(s, DeletingJob(job), now);
            OnlyJob(s, p, job) && job !in p.jobs
  {
  }
}
