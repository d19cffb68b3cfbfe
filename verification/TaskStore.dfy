/**
 * The whole persistent store: tasks, scheduled jobs and recorded occurrences,
 * the promotion of due schedules, and every step that can change the store.
 */
module TaskStore {
  import opened Wrappers
  import opened RowOrder
  import opened TaskTable

  datatype Job = Job(owner: string, enabled: bool, nextRun: Option<Instant>, repeatSeconds: Option<nat>)

  // An occurrence is a job and the moment it was due; it is recorded at most once.
  datatype Store = Store(tasks: Table, nextTask: nat,
                         jobs: map<nat, Job>, nextJob: nat,
                         occurrences: set<(nat, Instant)>)

  const MIN_REPEAT := 300
  const EMPTY := Store(map[], 1, map[], 1, {})

  function Insert(s: Store, task: Task): Store {
    s.(tasks := s.tasks[s.nextTask := task], nextTask := s.nextTask + 1)
  }

  // --------------------------------------------------------------- promotion

  predicate JobDue(job: Job, now: Instant) {
    job.enabled && job.nextRun.Some? && job.nextRun.value <= now
  }

  predicate JobRepeats(job: Job) {
    job.repeatSeconds.Some? && job.repeatSeconds.value != 0
  }

  predicate HasLiveTask(t: Table, job: nat) {
    exists id | id in t :: t[id].scheduleJob == Some(job) && Live(t[id])
  }

  function Advance(job: Job, now: Instant): Job
    requires job.nextRun.Some?
  {
    if JobRepeats(job) then
      job.(nextRun := Some(NextDue(job.nextRun.value, now, job.repeatSeconds.value)))
    else
      job.(enabled := false, nextRun := None)
  }

  function SpawnedTask(owner: string, job: nat, now: Instant): Task {
    NewTask(owner, Queued, now, 0, None, None, Some(job))
  }

  // One turn of the promotion loop.  A recorded occurrence skips the job
  // altogether; a live task of the job suppresses the new one.
  function PromoteJob(s: Store, id: nat, now: Instant): Store
    requires id in s.jobs && JobDue(s.jobs[id], now)
  {
    var job := s.jobs[id];
    var occurrence := (id, job.nextRun.value);
    if occurrence in s.occurrences then
      s
    else
      var spawned := if HasLiveTask(s.tasks, id) then s else Insert(s, SpawnedTask(job.owner, id, now));
      spawned.(occurrences := s.occurrences + {occurrence}, jobs := s.jobs[id := Advance(job, now)])
  }

  function DueJobs(s: Store, now: Instant): set<nat> {
    set id | id in s.jobs && JobDue(s.jobs[id], now)
  }

  // ORDER BY next_run_at, id.
  function JobKeys(s: Store): Keys {
    map id | id in s.jobs :: (if s.jobs[id].nextRun.Some? then s.jobs[id].nextRun.value else 0, 0)
  }

  ghost predicate Distinct(ids: seq<nat>) {
    forall i, j | 0 <= i < j < |ids| :: ids[i] != ids[j]
  }

  ghost predicate AllDue(s: Store, ids: seq<nat>, now: Instant) {
    Distinct(ids) && forall id | id in ids :: id in s.jobs && JobDue(s.jobs[id], now)
  }

  function PromoteJobs(s: Store, ids: seq<nat>, now: Instant): Store
    requires AllDue(s, ids, now)
    decreases |ids|
  {
    if ids == [] then
      s
    else
      var promoted := PromoteJob(s, ids[0], now);
      assert forall i | 0 <= i < |ids| - 1 :: ids[1..][i] == ids[i + 1];
      assert forall id | id in ids[1..] :: id in ids && id != ids[0];
      PromoteJobs(promoted, ids[1..], now)
  }

  function DueList(s: Store, now: Instant): (ids: seq<nat>)
    ensures AllDue(s, ids, now)
    ensures forall id :: id in ids <==> id in DueJobs(s, now)
  {
    var ids := OrderBy(JobKeys(s), DueJobs(s, now));
    assert forall i, j | 0 <= i < j < |ids| :: Before(JobKeys(s), ids[i], ids[j]);
    ids
  }

  function PromoteDue(s: Store, now: Instant): Store {
    var legacy := s.(tasks := PromoteLegacy(s.tasks, now));
    PromoteJobs(legacy, DueList(legacy, now), now)
  }

  // -------------------------------------------------------- job administration

  // The check of `create_scheduled_job` and `update_scheduled_job_timing`,
  // made on a clock reading taken before the lock.
  predicate TimingAccepted(nextRun: Instant, repeatSeconds: Option<nat>, checkedAt: Instant) {
    nextRun > checkedAt && (repeatSeconds.Some? ==> repeatSeconds.value >= MIN_REPEAT)
  }

  function CreateJob(s: Store, owner: string, nextRun: Instant, repeatSeconds: Option<nat>): Store {
    s.(jobs := s.jobs[s.nextJob := Job(owner, true, Some(nextRun), repeatSeconds)], nextJob := s.nextJob + 1)
  }

  function WriteTiming(s: Store, id: nat, nextRun: Instant, repeatSeconds: Option<nat>): Store {
    if id in s.jobs then
      s.(jobs := s.jobs[id := s.jobs[id].(nextRun := Some(nextRun), repeatSeconds := repeatSeconds)])
    else
      s
  }

  // What `set_scheduled_job_enabled` decides to write, from the row it read and
  // the two clock readings it makes: one to compare with, one to add to.
  function EnabledRun(seen: Job, enable: bool, comparedAt: Instant, addedAt: Instant): Option<Instant> {
    if enable && (seen.nextRun.None? || seen.nextRun.value <= comparedAt) then
      Some(addedAt + (if JobRepeats(seen) then seen.repeatSeconds.value else 1) * SECOND)
    else
      seen.nextRun
  }

  function WriteEnabled(s: Store, id: nat, enable: bool, nextRun: Option<Instant>): Store {
    if id in s.jobs then
      s.(jobs := s.jobs[id := s.jobs[id].(enabled := enable, nextRun := nextRun)])
    else
      s
  }

  function DeleteJob(s: Store, id: nat): Store {
    s.(jobs := s.jobs - {id})
  }

  // --------------------------------------------------------------- all steps

  // One atomic step: one transaction, or one half of a method that reads the
  // row before it takes the lock.  `seen` is whatever such a read returned; a
  // `look` says how many events of the run came before the read or the check.
  datatype Step =
    | Enqueue(owner: string, createdAt: Instant, priority: int, forJob: Option<nat>)
    | Schedule(owner: string, dueAt: Instant, repeatSeconds: Option<nat>)
    | ClaimNext(worker: string, leaseSeconds: int, maxActive: int)
    | StartRunning(id: nat, worker: string)
    | Beat(id: nat, worker: string, leaseSeconds: int)
    | Checkpointing(id: nat, checkpoint: Checkpoint)
    | Touching(id: nat)
    | Read(id: nat)
    | Finish(id: nat, seen: Task, success: bool, error: Option<string>)
    | Retry(id: nat, seen: Task, plan: RetryPlan)
    | Cancelling(id: nat, owner: string)
    | Recover
    | RetryingFailed(id: nat, owner: string)
    | DeletingWaiting(owner: string)
    | DeletingTask(id: nat, owner: string)
    | Reprioritizing(id: nat, owner: string, delta: int)
    | Moving(id: nat, owner: string, up: bool)
    | Promote
    | CreatingJob(owner: string, nextRun: Instant, repeatSeconds: Option<nat>)
    | Retiming(job: nat, nextRun: Instant, repeatSeconds: Option<nat>, checkedAt: Instant, look: nat)
    | Enabling(job: nat, enable: bool, version: Job, comparedAt: Instant, addedAt: Instant, look: nat)
    | DeletingJob(job: nat)

  function Next(s: Store, step: Step, now: Instant): Store {
    match step
    case Enqueue(owner, createdAt, priority, job) =>
      Insert(s, NewTask(owner, Queued, createdAt, priority, None, None, job))
    case Schedule(owner, dueAt, repeatSeconds) =>
      if dueAt <= now then s
      else Insert(s, NewTask(owner, Scheduled, now, 0, Some(dueAt), repeatSeconds, None))
    case ClaimNext(worker, leaseSeconds, maxActive) =>
      s.(tasks := Claim(s.tasks, worker, leaseSeconds, maxActive, now).0)
    case StartRunning(id, worker) => s.(tasks := MarkRunning(s.tasks, id, worker, now))
    case Beat(id, worker, leaseSeconds) => s.(tasks := Heartbeat(s.tasks, id, worker, leaseSeconds, now))
    case Checkpointing(id, checkpoint) => s.(tasks := SaveCheckpoint(s.tasks, id, checkpoint, now))
    case Touching(id) => s.(tasks := Touch(s.tasks, id, now))
    case Read(_) => s
    case Finish(id, seen, success, error) => s.(tasks := FinishWrite(s.tasks, id, seen, success, error, now))
    case Retry(id, seen, plan) => s.(tasks := RetryWrite(s.tasks, id, seen, plan, now))
    case Cancelling(id, owner) => s.(tasks := Cancel(s.tasks, id, owner, now))
    case Recover => s.(tasks := RecoverInterrupted(s.tasks, now))
    case RetryingFailed(id, owner) => s.(tasks := RetryFailed(s.tasks, id, owner, now))
    case DeletingWaiting(owner) => s.(tasks := DeleteWaiting(s.tasks, owner))
    case DeletingTask(id, owner) => s.(tasks := DeleteUserTask(s.tasks, id, owner))
    case Reprioritizing(id, owner, delta) => s.(tasks := ChangePriority(s.tasks, id, owner, delta, now))
    case Moving(id, owner, up) => s.(tasks := MoveWaiting(s.tasks, id, owner, if up then -1 else 1, now))
    case Promote => PromoteDue(s, now)
    case CreatingJob(owner, nextRun, repeatSeconds) => CreateJob(s, owner, nextRun, repeatSeconds)
    case Retiming(job, nextRun, repeatSeconds, _, _) => WriteTiming(s, job, nextRun, repeatSeconds)
    case Enabling(job, enable, version, comparedAt, addedAt, _) =>
      WriteEnabled(s, job, enable, EnabledRun(version, enable, comparedAt, addedAt))
    case DeletingJob(job) => DeleteJob(s, job)
  }

  // The store together with every row version that a `get` ever returned:
  // `finish` and `retry_or_dead_letter` may act on any of them, however old.
  datatype System = System(store: Store, seen: set<(nat, Task)>)

  // A step and the clock reading it used.
  datatype Event = Event(step: Step, now: Instant)

  const START := System(EMPTY, {})

  // What the code checks before it reaches the step's write.
  predicate Enabled(sys: System, event: Event) {
    match event.step
    case Finish(id, seen, _, _) => (id, seen) in sys.seen
    case Retry(id, seen, _) => (id, seen) in sys.seen
    case CreatingJob(_, _, repeatSeconds) => repeatSeconds.Some? ==> repeatSeconds.value >= MIN_REPEAT
    case Retiming(_, nextRun, repeatSeconds, checkedAt, _) => TimingAccepted(nextRun, repeatSeconds, checkedAt)
    case _ => true
  }

  function Perform(sys: System, event: Event): System {
    var learned :=
      if event.step.Read? && event.step.id in sys.store.tasks
         && sys.store.tasks[event.step.id].status != Cancelled
      then {(event.step.id, sys.store.tasks[event.step.id])}
      else {};
    System(Next(sys.store, event.step, event.now), sys.seen + learned)
  }

  // The state after each prefix of a run; the readings need not be ordered.
  function Run(events: seq<Event>): System {
    if events == [] then
      START
    else
      Perform(Run(events[..|events| - 1]), events[|events| - 1])
  }

  ghost predicate Possible(events: seq<Event>) {
    forall i | 0 <= i < |events| :: Enabled(Run(events[..i]), events[i])
  }

  lemma OneMoreEvent(events: seq<Event>, next: Event)
    requires Possible(events) && Enabled(Run(events), next)
    ensures Possible(events + [next]) && Run(events + [next]) == Perform(Run(events), next)
  {
    var more := events + [next];
    assert more[..|events|] == events;
    assert forall i | 0 <= i < |events| :: more[..i] == events[..i] && more[i] == events[i];
  }
}
