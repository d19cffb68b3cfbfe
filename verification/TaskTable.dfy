/**
 * The `agent_tasks` table and the SQL statements that change it.
 *
 * One function per statement or per locked transaction; each takes the table
 * and the clock reading the caller made, and yields the table afterwards.
 */
module TaskTable {
  import opened Wrappers
  import opened RowOrder

  // Microseconds.  TimeText shows that comparing stored texts compares these.
  type Instant = int

  const SECOND: Instant := 1_000_000
  const HARD_CAP := 3
  const LEASE_EXPIRED := "worker lease expired"
  const INTERRUPTED := "انقطع تشغيل البوت قبل اكتمال المهمة"

  datatype Status = Scheduled | Queued | Leased | Running | Retrying
                  | Completed | Failed | DeadLetter | Cancelled

  // `{}` or a saved object; only its `daily_continuation` flag matters here.
  datatype Checkpoint = Blank | Saved(daily: bool)

  // A negative period would make `finish` loop forever, so periods are natural.
  datatype Task = Task(owner: string,
                       status: Status,
                       createdAt: Instant,
                       updatedAt: Instant,
                       dueAt: Option<Instant>,
                       repeatSeconds: Option<nat>,
                       scheduleJob: Option<nat>,
                       startedAt: Option<Instant>,
                       completedAt: Option<Instant>,
                       lastError: Option<string>,
                       leaseOwner: Option<string>,
                       leaseExpires: Option<Instant>,
                       heartbeatAt: Option<Instant>,
                       attempt: nat,
                       priority: int,
                       checkpoint: Checkpoint,
                       nextAttemptAt: Option<Instant>)

  type Table = map<nat, Task>

  function Max(a: int, b: int): int { if a < b then b else a }

  function Min(a: int, b: int): int { if a < b then a else b }

  predicate Waiting(task: Task) { task.status in {Queued, Retrying} }

  predicate InFlight(task: Task) { task.status in {Leased, Running} }

  predicate Live(task: Task) { Waiting(task) || InFlight(task) }

  predicate Terminal(task: Task) { task.status in {Completed, Failed, DeadLetter, Cancelled} }

  predicate IsRecurring(task: Task) { task.repeatSeconds.Some? && task.repeatSeconds.value != 0 }

  // The recording policy: which tasks leave a row behind once they end.
  predicate KeepsRecord(task: Task) {
    || IsRecurring(task)
    || task.scheduleJob.Some?
    || (task.checkpoint.Saved? && task.checkpoint.daily)
  }

  function InFlightIds(t: Table): set<nat> {
    set id | id in t && InFlight(t[id])
  }

  // The next point of the grid `due + k * period` after `now`: the catch-up loop.
  function NextDue(due: Instant, now: Instant, period: nat): (next: Instant)
    requires period > 0
    decreases now - due
  {
    if due > now then due else NextDue(due + period * SECOND, now, period)
  }

  // ----------------------------------------------------------------- inserts

  function NewTask(owner: string, status: Status, now: Instant, priority: int,
                   dueAt: Option<Instant>, repeatSeconds: Option<nat>, job: Option<nat>): Task {
    Task(owner, status, now, now, dueAt, repeatSeconds, job, None, None, None,
         None, None, None, 0, priority, Blank, None)
  }

  // ------------------------------------------------------------------- claim

  predicate LeaseExpired(task: Task, now: Instant) {
    task.leaseExpires.Some? && task.leaseExpires.value <= now
  }

  function RequeueExpired(t: Table, now: Instant): Table {
    map id | id in t ::
      if InFlight(t[id]) && LeaseExpired(t[id], now)
      then t[id].(status := Queued, leaseOwner := None, leaseExpires := None, heartbeatAt := None,
                  updatedAt := now, lastError := Some(LEASE_EXPIRED))
      else t[id]
  }

  predicate AttemptDue(task: Task, now: Instant) {
    task.nextAttemptAt.None? || task.nextAttemptAt.value <= now
  }

  // First NOT EXISTS of the claim query.
  predicate OwnerBusy(t: Table, owner: string, now: Instant) {
    exists id | id in t :: t[id].owner == owner && InFlight(t[id]) && !LeaseExpired(t[id], now)
  }

  // Second NOT EXISTS of the claim query.
  predicate HasEarlier(t: Table, id: nat)
    requires id in t
  {
    exists earlier | earlier in t ::
      && t[earlier].owner == t[id].owner
      && t[earlier].status in {Retrying, Leased, Running}
      && earlier < id
  }

  predicate Claimable(t: Table, id: nat, now: Instant)
    requires id in t
  {
    && Waiting(t[id])
    && AttemptDue(t[id], now)
    && !OwnerBusy(t, t[id].owner, now)
    && !HasEarlier(t, id)
  }

  function ClaimableIds(t: Table, now: Instant): set<nat> {
    set id | id in t && Claimable(t, id, now)
  }

  // ORDER BY priority DESC, created_at, id.
  function QueueKeys(t: Table): Keys {
    map id | id in t :: (-t[id].priority, t[id].createdAt)
  }

  function LeaseUntil(now: Instant, leaseSeconds: int): Instant {
    now + Max(10, leaseSeconds) * SECOND
  }

  function LeaseRow(task: Task, worker: string, leaseSeconds: int, now: Instant): Task {
    task.(status := Leased, leaseOwner := Some(worker), leaseExpires := Some(LeaseUntil(now, leaseSeconds)),
          heartbeatAt := Some(now), attempt := task.attempt + 1, updatedAt := now,
          startedAt := if task.startedAt.Some? then task.startedAt else Some(now))
  }

  predicate CapReached(t: Table, maxActive: int) {
    |InFlightIds(t)| >= Max(1, Min(maxActive, HARD_CAP))
  }

  // The row `claim_next` leases on a table whose expired leases are requeued.
  function Pick(t: Table, maxActive: int, now: Instant): Option<nat> {
    if CapReached(t, maxActive) || ClaimableIds(t, now) == {} then
      None
    else
      Some(First(QueueKeys(t), ClaimableIds(t, now)))
  }

  function Claim(t: Table, worker: string, leaseSeconds: int, maxActive: int, now: Instant)
    : (Table, Option<nat>)
  {
    var requeued := RequeueExpired(t, now);
    match Pick(requeued, maxActive, now)
    case None => (requeued, None)
    case Some(id) => (requeued[id := LeaseRow(requeued[id], worker, leaseSeconds, now)], Some(id))
  }

  // ---------------------------------------------------------- worker reports

  function MarkRunning(t: Table, id: nat, worker: string, now: Instant): Table {
    if id in t && t[id].status == Leased && t[id].leaseOwner == Some(worker) then
      t[id := t[id].(status := Running, heartbeatAt := Some(now), updatedAt := now)]
    else
      t
  }

  function Heartbeat(t: Table, id: nat, worker: string, leaseSeconds: int, now: Instant): Table {
    if id in t && t[id].leaseOwner == Some(worker) && InFlight(t[id]) then
      t[id := t[id].(heartbeatAt := Some(now), leaseExpires := Some(LeaseUntil(now, leaseSeconds)),
                     updatedAt := now)]
    else
      t
  }

  function SaveCheckpoint(t: Table, id: nat, checkpoint: Checkpoint, now: Instant): Table {
    if id in t && Live(t[id]) then
      t[id := t[id].(checkpoint := checkpoint, updatedAt := now)]
    else
      t
  }

  // `update_activity` and `set_status_message_id`: no modelled column but this.
  function Touch(t: Table, id: nat, now: Instant): Table {
    if id in t then t[id := t[id].(updatedAt := now)] else t
  }

  // The second half of `finish`; `seen` is the row its first half read.
  function FinishWrite(t: Table, id: nat, seen: Task, success: bool, error: Option<string>, now: Instant): Table {
    if id !in t || t[id].status == Cancelled then
      t
    else if IsRecurring(seen) then
      var due := if seen.dueAt.Some? then seen.dueAt.value else now;
      t[id := t[id].(status := Scheduled, dueAt := Some(NextDue(due, now, seen.repeatSeconds.value)),
                     updatedAt := now, startedAt := None, completedAt := Some(now),
                     lastError := if success then None else error, checkpoint := Blank,
                     leaseOwner := None, leaseExpires := None, heartbeatAt := None, nextAttemptAt := None)]
    else if KeepsRecord(seen) then
      t[id := t[id].(status := if success then Completed else Failed, updatedAt := now,
                     completedAt := Some(now), lastError := error,
                     leaseOwner := None, leaseExpires := None, heartbeatAt := None, nextAttemptAt := None)]
    else
      t - {id}
  }

  // How a failed attempt is to be handled, beyond what the row says.
  datatype RetryPlan = RetryPlan(error: string,
                                 retryable: bool,
                                 maxAttempts: Option<int>,
                                 retryAfter: Option<Instant>,
                                 jitter: Instant,
                                 checkpoint: Option<Checkpoint>)

  predicate GivesUp(seen: Task, plan: RetryPlan) {
    !plan.retryable || (plan.maxAttempts.Some? && seen.attempt >= Max(1, plan.maxAttempts.value))
  }

  function BackoffBase(attempt: nat): Instant {
    var doublings := Min(6, Max(0, attempt - 1));
    Min(60, [1, 2, 4, 8, 16, 32, 64][doublings]) * SECOND
  }

  // `plan.jitter` is the random share, anywhere from 0 to a fifth of the base.
  function RetryDelay(attempt: nat, plan: RetryPlan): Instant {
    var base := BackoffBase(attempt);
    if plan.retryAfter.Some? then
      Max(plan.retryAfter.value, base)
    else
      Min(60 * SECOND, base + Max(0, Min(plan.jitter, base / 5)))
  }

  function WrittenCheckpoint(seen: Task, plan: RetryPlan): Checkpoint {
    if plan.checkpoint.Some? then plan.checkpoint.value else seen.checkpoint
  }

  // The second half of `retry_or_dead_letter`; `seen` is the row it read first.
  function RetryWrite(t: Table, id: nat, seen: Task, plan: RetryPlan, now: Instant): Table {
    if id !in t || !Live(t[id]) then
      t
    else if GivesUp(seen, plan) && !KeepsRecord(seen) then
      t - {id}
    else
      var terminal := GivesUp(seen, plan);
      t[id := t[id].(status := if terminal then DeadLetter else Retrying,
                     nextAttemptAt := if terminal then None else Some(now + RetryDelay(seen.attempt, plan)),
                     leaseOwner := None, leaseExpires := None, heartbeatAt := None, updatedAt := now,
                     completedAt := if terminal then Some(now) else None,
                     lastError := Some(plan.error), checkpoint := WrittenCheckpoint(seen, plan))]
  }

  // --------------------------------------------------------- owner's requests

  function Cancel(t: Table, id: nat, owner: string, now: Instant): Table {
    if id !in t || t[id].owner != owner || !(Live(t[id]) || t[id].status == Scheduled) then
      t
    else if KeepsRecord(t[id]) then
      t[id := t[id].(status := Cancelled, updatedAt := now, completedAt := Some(now))]
    else
      t - {id}
  }

  function WaitingIds(t: Table, owner: string): set<nat> {
    set id | id in t && t[id].owner == owner && Waiting(t[id])
  }

  function DeleteWaiting(t: Table, owner: string): Table {
    t - WaitingIds(t, owner)
  }

  function DeleteUserTask(t: Table, id: nat, owner: string): Table {
    if id in t && t[id].owner == owner
       && t[id].status in {Queued, Scheduled, Retrying, Cancelled, Completed, Failed}
    then t - {id}
    else t
  }

  function ChangePriority(t: Table, id: nat, owner: string, delta: int, now: Instant): Table {
    if id in t && t[id].owner == owner && Waiting(t[id]) then
      t[id := t[id].(priority := Min(100, Max(-100, t[id].priority + delta)), updatedAt := now)]
    else
      t
  }

  // The rows of one owner waiting for their turn, in queue order.
  function WaitingList(t: Table, owner: string): seq<nat> {
    OrderBy(QueueKeys(t), WaitingIds(t, owner))
  }

  lemma WaitingListMembers(t: Table, owner: string)
    ensures forall id :: id in WaitingList(t, owner) <==> id in WaitingIds(t, owner)
    ensures forall id | id in WaitingList(t, owner) :: id in t
  {
  }

  // Give the listed rows the priorities |ids| - 1, ..., 0.
  function Renumber(t: Table, ids: seq<nat>, now: Instant): Table
    requires forall id | id in ids :: id in t
  {
    RenumberFrom(t, ids, |ids|, now)
  }

  function RenumberFrom(t: Table, ids: seq<nat>, top: int, now: Instant): Table
    requires forall id | id in ids :: id in t
  {
    if ids == [] then
      t
    else
      RenumberFrom(t[ids[0] := t[ids[0]].(priority := top - 1, updatedAt := now)], ids[1..], top - 1, now)
  }

  function IndexOf(ids: seq<nat>, id: nat): (index: nat)
    ensures index <= |ids|
    ensures index < |ids| ==> ids[index] == id
  {
    if ids == [] || ids[0] == id then 0 else 1 + IndexOf(ids[1..], id)
  }

  function Swapped(ids: seq<nat>, i: nat, j: nat): seq<nat>
    requires i < |ids| && j < |ids|
  {
    ids[i := ids[j]][j := ids[i]]
  }

  lemma SwapKeepsMembers(ids: seq<nat>, i: nat, j: nat)
    requires i < |ids| && j < |ids|
    ensures forall id :: id in Swapped(ids, i, j) <==> id in ids
  {
    var swapped := Swapped(ids, i, j);
    assert forall k | 0 <= k < |ids| :: swapped[k] == ids[if k == i then j else if k == j then i else k];
    assert forall k | 0 <= k < |ids| :: ids[k] == swapped[if k == i then j else if k == j then i else k];
  }

  // Renumber the waiting list with two of its places swapped.
  function SwapWaiting(t: Table, owner: string, i: nat, j: nat, now: Instant): Table
    requires i < |WaitingList(t, owner)| && j < |WaitingList(t, owner)|
  {
    WaitingListMembers(t, owner);
    SwapKeepsMembers(WaitingList(t, owner), i, j);
    Renumber(t, Swapped(WaitingList(t, owner), i, j), now)
  }

  function MoveWaiting(t: Table, id: nat, owner: string, offset: int, now: Instant): Table
    requires offset == -1 || offset == 1
  {
    var ids := WaitingList(t, owner);
    var position := IndexOf(ids, id);
    if position == |ids| || !(0 <= position + offset < |ids|) then
      t
    else
      SwapWaiting(t, owner, position, position + offset, now)
  }

  function RetryFailed(t: Table, id: nat, owner: string, now: Instant): Table {
    if id in t && t[id].owner == owner && t[id].status in {Failed, DeadLetter} then
      t[id := t[id].(status := Queued, nextAttemptAt := None, completedAt := None, leaseOwner := None,
                     leaseExpires := None, heartbeatAt := None, lastError := None, updatedAt := now)]
    else
      t
  }

  // ----------------------------------------------------------- restart, legacy

  function Interrupt(task: Task, now: Instant): Task {
    var resumes := task.status == Leased || task.checkpoint != Blank;
    task.(status := if resumes then Queued else Failed,
          completedAt := if resumes then None else Some(now),
          updatedAt := now, leaseOwner := None, leaseExpires := None, heartbeatAt := None,
          lastError := Some(INTERRUPTED))
  }

  predicate InterruptionLeftover(task: Task, now: Instant) {
    && task.status == Failed && task.updatedAt == now && task.completedAt == Some(now)
    && task.lastError == Some(INTERRUPTED)
    && task.repeatSeconds.None? && task.scheduleJob.None?
  }

  function RecoverInterrupted(t: Table, now: Instant): Table {
    var interrupted: Table := map id | id in t :: if InFlight(t[id]) then Interrupt(t[id], now) else t[id];
    map id | id in interrupted && !InterruptionLeftover(interrupted[id], now) :: interrupted[id]
  }

  // The legacy statement that opens `promote_due`.
  function PromoteLegacy(t: Table, now: Instant): Table {
    map id | id in t ::
      if t[id].status == Scheduled && t[id].dueAt.Some? && t[id].dueAt.value <= now
      then t[id].(status := Queued, updatedAt := now)
      else t[id]
  }
}
