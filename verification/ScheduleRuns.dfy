/**
 * Scheduled jobs over whole runs.  Administration writes a run time from a job
 * version it read, or a clock it checked, before it takes the lock; a promotion
 * that gets in between can overtake the write.  Exactly then does a recorded
 * occurrence end up ahead of its job, and the job may be stranded for good.
 */
module ScheduleRuns {
  import opened Wrappers
  import opened TaskTable
  import opened TaskStore
  import opened SchedulePromotion
  import LeaseSafety
  import Moments

  // --------------------------------------------------------------- one step

  predicate IsWrite(step: Step) {
    step.Retiming? || step.Enabling?
  }

  // The run time an administrative write puts in place.
  function Written(step: Step): Option<Instant>
    requires IsWrite(step)
  {
    if step.Retiming? then Some(step.nextRun) else EnabledRun(step.version, step.enable, step.comparedAt, step.addedAt)
  }

  // Every occurrence on record is earlier than the time the step writes.
  ghost predicate WritesAhead(s: Store, step: Step) {
    IsWrite(step) && step.job in s.jobs && Written(step).Some? ==>
      forall at | (step.job, at) in s.occurrences :: at < Written(step).value
  }

  ghost predicate OccurrencesPast(s: Store, latest: Instant) {
    forall job, at | (job, at) in s.occurrences :: at <= latest
  }

  // `latest` is the latest clock reading of any step so far.
  ghost predicate InOrder(s: Store, latest: Instant) {
    JobsWellFormed(s) && Ahead(s) && OccurrencesPast(s, latest)
  }

  lemma ExactPromotionKeepsOrder(s: Store, p: Store, before: Instant, now: Instant)
    requires InOrder(s, before) && ExactlyPromoted(s, p, now) && LeaseSafety.IdsIssued(p)
    ensures InOrder(p, Max(before, now))
  {
    PromotedJobsAreNotDue(s, p, now);
  }

  lemma PromotionKeepsOrder(s: Store, before: Instant, now: Instant)
    requires InOrder(s, before)
    ensures InOrder(PromoteDue(s, now), Max(before, now))
  {
    PromotionIsExact(s, now);
    LeaseSafety.PromotionLeasesNothing(Legacy(s, now), DueList(Legacy(s, now), now), now);
    ExactPromotionKeepsOrder(s, PromoteDue(s, now), before, now);
  }

  predicate KeepsPeriods(step: Step) {
    step.CreatingJob? || step.Retiming? ==> step.repeatSeconds.Some? ==> step.repeatSeconds.value >= MIN_REPEAT
  }

  lemma PromotionKeepsJobsWellFormed(s: Store, now: Instant)
    requires JobsWellFormed(s)
    ensures JobsWellFormed(PromoteDue(s, now))
  {
    var legacy := Legacy(s, now);
    PromotionAdvancesJobs(legacy, DueList(legacy, now), now);
    LeaseSafety.PromotionLeasesNothing(legacy, DueList(legacy, now), now);
    AdvancedJobsAreWellFormed(legacy, PromoteDue(s, now), DueList(legacy, now), now);
  }

  lemma AdvancedJobsAreWellFormed(s: Store, p: Store, ids: seq<nat>, now: Instant)
    requires JobsWellFormed(s) && LeaseSafety.IdsIssued(p)
    requires JobsAdvanced(s, p, ids, now) && OccurrencesRecorded(s, p, ids, now)
    ensures JobsWellFormed(p)
  {
  }

  lemma OtherStepsKeepJobs(s: Store, step: Step, now: Instant)
    requires JobsWellFormed(s) && KeepsPeriods(step) && !step.Promote? && !step.Moving?
    ensures JobsWellFormed(Next(s, step, now))
    ensures Next(s, step, now).occurrences == s.occurrences
  {
  }

  lemma StepKeepsJobs(s: Store, step: Step, now: Instant)
    requires JobsWellFormed(s) && KeepsPeriods(step)
    ensures JobsWellFormed(Next(s, step, now))
    ensures !step.Promote? ==> Next(s, step, now).occurrences == s.occurrences
  {
    if step.Promote? {
      PromotionKeepsJobsWellFormed(s, now);
    } else if step.Moving? {
      LeaseSafety.MoveLeasesNothing(s.tasks, step.id, step.owner, if step.up then -1 else 1, now);
    } else {
      OtherStepsKeepJobs(s, step, now);
    }
  }

  lemma WritesKeepOrder(s: Store, step: Step, now: Instant)
    requires JobsWellFormed(s) && Ahead(s) && IsWrite(step)
    ensures Ahead(Next(s, step, now)) <==> WritesAhead(s, step)
  {
    var after := Next(s, step, now);
    if step.job in s.jobs && !WritesAhead(s, step) {
      var at :| (step.job, at) in s.occurrences && at >= Written(step).value;
      assert (step.job, at) in after.occurrences && after.jobs[step.job].nextRun == Written(step);
    }
  }

  lemma OtherStepsKeepOrder(s: Store, step: Step, now: Instant)
    requires JobsWellFormed(s) && Ahead(s) && !step.Promote? && !IsWrite(step) && !step.Moving?
    ensures Ahead(Next(s, step, now))
  {
  }

  lemma NonWritesKeepOrder(s: Store, step: Step, before: Instant, now: Instant)
    requires InOrder(s, before) && KeepsPeriods(step) && !IsWrite(step)
    ensures InOrder(Next(s, step, now), Max(before, now))
  {
    if step.Promote? {
      PromotionKeepsOrder(s, before, now);
    } else {
      StepKeepsJobs(s, step, now);
      if step.Moving? {
        assert Next(s, step, now).jobs == s.jobs;
      } else {
        OtherStepsKeepOrder(s, step, now);
      }
    }
  }

  lemma StepKeepsOrder(s: Store, step: Step, before: Instant, now: Instant)
    requires InOrder(s, before) && KeepsPeriods(step)
    ensures InOrder(Next(s, step, now), Max(before, now)) <==> WritesAhead(s, step)
  {
    if IsWrite(step) {
      StepKeepsJobs(s, step, now);
      WritesKeepOrder(s, step, now);
    } else {
      NonWritesKeepOrder(s, step, before, now);
    }
  }

  // ------------------------------------------------------- where records come from

  // Readings may be committed in another order than they were made, because a
  // step makes its own before or after it waits for the lock.
  function LatestReading(events: seq<Event>): Instant {
    if events == [] then 0 else Max(LatestReading(events[..|events| - 1]), events[|events| - 1].now)
  }

  // A write to a job acts on what it saw after `look` events of the run, or
  // checked on a clock reading made no earlier than theirs.
  predicate Informed(before: seq<Event>, event: Event) {
    match event.step
    case Retiming(_, _, _, checkedAt, look) => look <= |before| && LatestReading(before[..look]) <= checkedAt
    case Enabling(job, _, version, comparedAt, addedAt, look) =>
      && look <= |before|
      && job in Run(before[..look]).store.jobs && version == Run(before[..look]).store.jobs[job]
      && LatestReading(before[..look]) <= comparedAt <= addedAt
    case _ => true
  }

  ghost predicate AllInformed(events: seq<Event>) {
    forall i | 0 <= i < |events| :: Informed(events[..i], events[i])
  }

  lemma RunUnfolds(events: seq<Event>, n: nat)
    requires n < |events|
    ensures Run(events[..n + 1]) == Perform(Run(events[..n]), events[n])
    ensures LatestReading(events[..n + 1]) == Max(LatestReading(events[..n]), events[n].now)
  {
    assert events[..n + 1][..n] == events[..n];
  }

  // Event `j` is a promotion that records the occurrence `at` of the job.
  ghost predicate RecordsAt(events: seq<Event>, j: nat, job: nat, at: Instant)
    requires j < |events|
  {
    var s := Run(events[..j]).store;
    events[j].step.Promote? && Fires(s, job, events[j].now) && s.jobs[job].nextRun == Some(at)
  }

  lemma EventRecordsExactly(events: seq<Event>, j: nat, job: nat, at: Instant)
    requires Possible(events) && j < |events|
    ensures RecordedAt(events, j + 1, job, at) <==> RecordedAt(events, j, job, at) || RecordsAt(events, j, job, at)
  {
    var s, now := Run(events[..j]).store, events[j].now;
    RunUnfolds(events, j);
    WellFormedThroughout(events, j);
    if events[j].step.Promote? {
      var legacy := Legacy(s, now);
      PromotionAdvancesJobs(legacy, DueList(legacy, now), now);
      assert Fires(s, job, now) ==> job in DueJobs(legacy, now);
    } else {
      assert Enabled(Run(events[..j]), events[j]);
      StepKeepsJobs(s, events[j].step, now);
    }
  }

  lemma {:induction false} WellFormedThroughout(events: seq<Event>, n: nat)
    requires Possible(events) && n <= |events|
    ensures JobsWellFormed(Run(events[..n]).store)
  {
    if n > 0 {
      WellFormedThroughout(events, n - 1);
      RunUnfolds(events, n - 1);
      assert Enabled(Run(events[..n - 1]), events[n - 1]);
      StepKeepsJobs(Run(events[..n - 1]).store, events[n - 1].step, events[n - 1].now);
    }
  }

  ghost predicate RecordedAt(events: seq<Event>, n: nat, job: nat, at: Instant)
    requires n <= |events|
  {
    (job, at) in Run(events[..n]).store.occurrences
  }

  // Between two moments of a run exactly the promotions in between put
  // occurrences on record.
  lemma OccurrencesComeFromPromotions(events: seq<Event>, from: nat, n: nat, job: nat, at: Instant)
    requires Possible(events) && from <= n <= |events|
    ensures RecordedAt(events, n, job, at)
            <==> RecordedAt(events, from, job, at) || exists j: nat :: from <= j < n && RecordsAt(events, j, job, at)
  {
    var there := seq(n + 1, i requires 0 <= i <= n => RecordedAt(events, i, job, at));
    var added := seq(n, i requires 0 <= i < n => RecordsAt(events, i, job, at));
    forall i | from <= i < n
      ensures there[i + 1] <==> there[i] || added[i]
    {
      EventRecordsExactly(events, i, job, at);
    }
    Moments.ComesFromSomewhere(there, added, from, n);
    assert forall j | from <= j < n :: added[j] == RecordsAt(events, j, job, at);
  }

  // -------------------------------------------------------------- overtaken writes

  // Between the look and the write a promotion recorded an occurrence of the job
  // that is not earlier than the time written.
  ghost predicate Overtaken(events: seq<Event>, i: nat)
    requires i < |events|
  {
    var step := events[i].step;
    && IsWrite(step) && step.job in Run(events[..i]).store.jobs && Written(step).Some?
    && exists j: nat, at :: step.look <= j < i && at >= Written(step).value && RecordsAt(events, j, step.job, at)
  }

  ghost predicate InOrderAt(events: seq<Event>, n: nat)
    requires n <= |events|
  {
    InOrder(Run(events[..n]).store, LatestReading(events[..n]))
  }

  // What was on record at the look is earlier than what is written.
  lemma KnownOccurrencesAreEarlier(events: seq<Event>, i: nat, at: Instant)
    requires Possible(events) && AllInformed(events)
    requires i < |events| && IsWrite(events[i].step) && Written(events[i].step).Some?
    requires events[i].step.look <= i && InOrderAt(events, events[i].step.look)
    requires RecordedAt(events, events[i].step.look, events[i].step.job, at)
    ensures at < Written(events[i].step).value
  {
    var step := events[i].step;
    assert Enabled(Run(events[..i]), events[i]) && Informed(events[..i], events[i]);
    assert events[..i][..step.look] == events[..step.look];
  }

  lemma WriteIsAheadUnlessOvertaken(events: seq<Event>, i: nat)
    requires Possible(events) && AllInformed(events) && i < |events|
    requires forall n | 0 <= n <= i :: InOrderAt(events, n)
    ensures WritesAhead(Run(events[..i]).store, events[i].step) <==> !Overtaken(events, i)
  {
    var step, s := events[i].step, Run(events[..i]).store;
    assert Informed(events[..i], events[i]);
    if IsWrite(step) && step.job in s.jobs && Written(step).Some? {
      var written := Written(step).value;
      forall at
        ensures (step.job, at) in s.occurrences && at >= written
                <==> at >= written && exists j: nat :: step.look <= j < i && RecordsAt(events, j, step.job, at)
      {
        OccurrencesComeFromPromotions(events, step.look, i, step.job, at);
        assert InOrderAt(events, step.look);
        if RecordedAt(events, step.look, step.job, at) {
          KnownOccurrencesAreEarlier(events, i, at);
        }
      }
    }
  }

  lemma NextStaysInOrderExactly(events: seq<Event>, i: nat)
    requires Possible(events) && AllInformed(events) && i < |events|
    requires forall n | 0 <= n <= i :: InOrderAt(events, n)
    ensures InOrderAt(events, i + 1) <==> !Overtaken(events, i)
  {
    assert InOrderAt(events, i) && Enabled(Run(events[..i]), events[i]);
    RunUnfolds(events, i);
    StepKeepsOrder(Run(events[..i]).store, events[i].step, LatestReading(events[..i]), events[i].now);
    WriteIsAheadUnlessOvertaken(events, i);
  }

  lemma {:induction false} InOrderUpTo(events: seq<Event>, n: nat)
    requires Possible(events) && AllInformed(events) && n <= |events|
    requires forall i | 0 <= i < n :: !Overtaken(events, i)
    ensures forall k | 0 <= k <= n :: InOrderAt(events, k)
  {
    if n > 0 {
      InOrderUpTo(events, n - 1);
      NextStaysInOrderExactly(events, n - 1);
    }
  }

  // The main result: over any run, whatever the order of its readings, every
  // recorded occurrence stays earlier than the next run of its job, in every
  // state, if and only if no administrative write of the run is overtaken by a
  // promotion.
  lemma {:induction false} RunStaysInOrderExactly(events: seq<Event>)
    requires Possible(events) && AllInformed(events)
    ensures (forall n | 0 <= n <= |events| :: InOrderAt(events, n))
            <==> (forall i | 0 <= i < |events| :: !Overtaken(events, i))
  {
    if forall i | 0 <= i < |events| :: !Overtaken(events, i) {
      InOrderUpTo(events, |events|);
    } else if forall n | 0 <= n <= |events| :: InOrderAt(events, n) {
      forall i | 0 <= i < |events|
        ensures !Overtaken(events, i)
      {
        assert InOrderAt(events, i + 1);
        NextStaysInOrderExactly(events, i);
      }
    }
  }

  // A write that commits before any step has read the time it writes is not overtaken.
  lemma PromptWriteIsNotOvertaken(events: seq<Event>, i: nat)
    requires i < |events| && IsWrite(events[i].step)
    requires Written(events[i].step).Some? ==> LatestReading(events[..i]) < Written(events[i].step).value
    ensures !Overtaken(events, i)
  {
    forall j: nat, at | j < i && RecordsAt(events, j, events[i].step.job, at)
      ensures at <= LatestReading(events[..i])
    {
      LatestIsLatest(events, j, i);
    }
  }

  lemma {:induction false} LatestIsLatest(events: seq<Event>, j: nat, n: nat)
    requires j < n <= |events|
    ensures events[j].now <= LatestReading(events[..n])
    decreases n
  {
    RunUnfolds(events, n - 1);
    if j < n - 1 {
      LatestIsLatest(events, j, n - 1);
    }
  }

  // ---------------------------------------------------------------- stranding

  // The current occurrence is on record already.
  predicate Stuck(s: Store, job: nat) {
    job in s.jobs && s.jobs[job].nextRun.Some? && (job, s.jobs[job].nextRun.value) in s.occurrences
  }

  // One promotion between the read and the write of enabling: the write is
  // overtaken, and the job stuck, if and only if the promotion found the job due
  // and the run time it read is written back.
  lemma OverlapStrandsExactly(s: Store, job: nat, enable: bool, readAt: Instant, comparedAt: Instant, addedAt: Instant,
                              now: Instant)
    requires InOrder(s, readAt) && job in s.jobs && readAt <= comparedAt <= addedAt
    ensures var written := EnabledRun(s.jobs[job], enable, comparedAt, addedAt);
            var after := WriteEnabled(PromoteDue(s, now), job, enable, written);
            && (Ahead(after) <==> !(JobDue(s.jobs[job], now) && written == s.jobs[job].nextRun))
            && (Stuck(after, job) <==> JobDue(s.jobs[job], now) && written == s.jobs[job].nextRun)
  {
    PromotionIsExact(s, now);
    PromotionKeepsOrder(s, readAt, now);
    OverlapStrands(s, PromoteDue(s, now), job, enable, readAt, comparedAt, addedAt, now);
  }

  lemma OverlapStrands(s: Store, p: Store, job: nat, enable: bool, readAt: Instant, comparedAt: Instant,
                       addedAt: Instant, now: Instant)
    requires InOrder(s, readAt) && Ahead(p) && ExactlyPromoted(s, p, now) && job in s.jobs
    requires readAt <= comparedAt <= addedAt
    ensures var written := EnabledRun(s.jobs[job], enable, comparedAt, addedAt);
            var after := WriteEnabled(p, job, enable, written);
            && (Ahead(after) <==> !(JobDue(s.jobs[job], now) && written == s.jobs[job].nextRun))
            && (Stuck(after, job) <==> JobDue(s.jobs[job], now) && written == s.jobs[job].nextRun)
  {
    var after := WriteEnabled(p, job, enable, EnabledRun(s.jobs[job], enable, comparedAt, addedAt));
    assert forall at :: (job, at) in s.occurrences ==> at <= readAt;
    if JobDue(s.jobs[job], now) {
      assert (job, s.jobs[job].nextRun.value) in after.occurrences;
    }
  }

  predicate Rewrites(step: Step, job: nat) {
    (step.Retiming? || step.Enabling? || step.DeletingJob?) && step.job == job
  }

  lemma PromotionLeavesStuck(s: Store, now: Instant, job: nat)
    requires JobsWellFormed(s) && Stuck(s, job)
    ensures Stuck(PromoteDue(s, now), job) && PromoteDue(s, now).jobs[job] == s.jobs[job]
  {
    var legacy, p, at := Legacy(s, now), PromoteDue(s, now), s.jobs[job].nextRun.value;
    PromotionAdvancesJobs(legacy, DueList(legacy, now), now);
    assert !Fires(legacy, job, now);
    assert (job, at) in p.occurrences;
  }

  lemma OtherStepsLeaveStuck(s: Store, step: Step, now: Instant, job: nat)
    requires JobsWellFormed(s) && Stuck(s, job) && !Rewrites(step, job) && !step.Promote?
    ensures Stuck(Next(s, step, now), job) && Next(s, step, now).jobs[job] == s.jobs[job]
  {
  }

  lemma StepLeavesStuck(s: Store, step: Step, now: Instant, job: nat)
    requires JobsWellFormed(s) && Stuck(s, job) && !Rewrites(step, job)
    ensures Stuck(Next(s, step, now), job) && Next(s, step, now).jobs[job] == s.jobs[job]
    ensures !Fires(s, job, now)
  {
    if step.Promote? {
      PromotionLeavesStuck(s, now, job);
    } else {
      OtherStepsLeaveStuck(s, step, now, job);
    }
  }

  ghost predicate StuckAt(events: seq<Event>, n: nat, job: nat, row: Job)
    requires n <= |events|
  {
    var s := Run(events[..n]).store;
    Stuck(s, job) && s.jobs[job] == row
  }

  // Event `i`, if it is a promotion, records an occurrence of the job.
  ghost predicate FiresAt(events: seq<Event>, i: nat, job: nat)
    requires i < |events|
  {
    Fires(Run(events[..i]).store, job, events[i].now)
  }

  ghost predicate WellFormedAt(events: seq<Event>, n: nat)
    requires n <= |events|
  {
    JobsWellFormed(Run(events[..n]).store)
  }

  lemma NextLeavesStuck(events: seq<Event>, i: nat, job: nat, row: Job)
    requires i < |events| && WellFormedAt(events, i)
    requires StuckAt(events, i, job, row) && !Rewrites(events[i].step, job)
    ensures StuckAt(events, i + 1, job, row) && !FiresAt(events, i, job)
  {
    RunUnfolds(events, i);
    StepLeavesStuck(Run(events[..i]).store, events[i].step, events[i].now, job);
  }

  // A stuck job stays exactly as it is, and no promotion of the run records an
  // occurrence of it or adds a task for it, until its row is written or deleted.
  lemma StuckUntilRewritten(events: seq<Event>, from: nat, n: nat, job: nat, row: Job)
    requires Possible(events) && from <= n <= |events| && StuckAt(events, from, job, row)
    requires forall i | from <= i < n :: !Rewrites(events[i].step, job)
    ensures StuckAt(events, n, job, row)
    ensures forall i | from <= i < n :: !FiresAt(events, i, job)
  {
    var stuck := seq(n + 1, i requires 0 <= i <= n => StuckAt(events, i, job, row));
    forall i | from <= i < n && stuck[i]
      ensures stuck[i + 1] && !FiresAt(events, i, job)
    {
      WellFormedThroughout(events, i);
      NextLeavesStuck(events, i, job, row);
    }
    Moments.Persists(stuck, from, n);
    assert stuck[n] == StuckAt(events, n, job, row);
  }

  // It does happen: a job is created, enabling it reads its row, a promotion
  // records the occurrence at its due time, and the write puts that time back.
  function OvertakingRun(owner: string, due: Instant, readAt: Instant): seq<Event> {
    [Event(CreatingJob(owner, due, None), 0), Event(Promote, due),
     Event(Enabling(1, true, Job(owner, true, Some(due), None), readAt, readAt, 1), due)]
  }

  lemma NextStore(events: seq<Event>, n: nat)
    requires n < |events|
    ensures Run(events[..n + 1]).store == Next(Run(events[..n]).store, events[n].step, events[n].now)
  {
    RunUnfolds(events, n);
  }

  lemma ThreeStores(events: seq<Event>)
    requires |events| == 3
    ensures var first := Next(EMPTY, events[0].step, events[0].now);
            var second := Next(first, events[1].step, events[1].now);
            && Run(events[..1]).store == first && Run(events[..2]).store == second
            && Run(events[..3]).store == Next(second, events[2].step, events[2].now)
  {
    NextStore(events, 0);
    NextStore(events, 1);
    NextStore(events, 2);
    assert events[..0] == [];
  }

  lemma NextOfCreate(s: Store, owner: string, due: Instant, now: Instant)
    ensures Next(s, CreatingJob(owner, due, None), now) == CreateJob(s, owner, due, None)
  {
  }

  lemma NextOfEnable(s: Store, job: nat, version: Job, readAt: Instant, look: nat, now: Instant)
    ensures Next(s, Enabling(job, true, version, readAt, readAt, look), now)
            == WriteEnabled(s, job, true, EnabledRun(version, true, readAt, readAt))
  {
  }

  lemma OvertakingStores(owner: string, due: Instant, readAt: Instant)
    ensures var events := OvertakingRun(owner, due, readAt);
            var created := CreateJob(EMPTY, owner, due, None);
            && Run(events[..1]).store == created
            && Run(events[..2]).store == PromoteDue(created, due)
            && Run(events[..3]).store
               == WriteEnabled(PromoteDue(created, due), 1, true,
                               EnabledRun(Job(owner, true, Some(due), None), true, readAt, readAt))
  {
    var created, version := CreateJob(EMPTY, owner, due, None), Job(owner, true, Some(due), None);
    ThreeStores(OvertakingRun(owner, due, readAt));
    NextOfCreate(EMPTY, owner, due, 0);
    NextOfEnable(PromoteDue(created, due), 1, version, readAt, 1, due);
  }

  lemma OneMoreInformed(events: seq<Event>, next: Event)
    requires AllInformed(events) && Informed(events, next)
    ensures AllInformed(events + [next])
  {
    var more := events + [next];
    assert more[..|events|] == events;
    assert forall i | 0 <= i < |events| :: more[..i] == events[..i] && more[i] == events[i];
  }

  lemma CreatePromoteEnable(create: Event, promote: Event, enable: Event)
    requires create.step.CreatingJob? && create.step.repeatSeconds.None? && promote.step == Promote
    requires enable.step.Enabling? && enable.step.look == 1
    requires var write, jobs := enable.step, Run([create]).store.jobs;
             && write.job in jobs && write.version == jobs[write.job]
             && Max(0, create.now) <= write.comparedAt <= write.addedAt
    ensures Possible([create, promote, enable]) && AllInformed([create, promote, enable])
  {
    var one, two := [] + [create], [create] + [promote];
    assert one == [create] && [create][..0] == [] && two[..1] == [create];
    OneMoreEvent([], create);
    OneMoreEvent([create], promote);
    OneMoreEvent(two, enable);
    OneMoreInformed([], create);
    OneMoreInformed([create], promote);
    OneMoreInformed(two, enable);
    assert two + [enable] == [create, promote, enable];
  }

  lemma OvertakingIsPossible(owner: string, due: Instant, readAt: Instant)
    requires 0 <= readAt < due
    ensures Possible(OvertakingRun(owner, due, readAt)) && AllInformed(OvertakingRun(owner, due, readAt))
  {
    CreatedJobIsInOrder(owner, due);
    NextStore(OvertakingRun(owner, due, readAt), 0);
    var events := OvertakingRun(owner, due, readAt);
    assert events[..0] == [] && events[..1] == [events[0]];
    CreatePromoteEnable(events[0], events[1], events[2]);
  }

  lemma CreatedJobIsInOrder(owner: string, due: Instant)
    ensures InOrder(CreateJob(EMPTY, owner, due, None), 0)
    ensures CreateJob(EMPTY, owner, due, None).jobs == map[1 := Job(owner, true, Some(due), None)]
  {
  }

  lemma OvertakenWriteStrands(owner: string, due: Instant, readAt: Instant)
    requires 0 <= readAt < due
    ensures var events := OvertakingRun(owner, due, readAt);
            && Possible(events) && AllInformed(events)
            && Overtaken(events, 2) && StuckAt(events, 3, 1, Job(owner, true, Some(due), None))
  {
    var events, created := OvertakingRun(owner, due, readAt), CreateJob(EMPTY, owner, due, None);
    OvertakingIsPossible(owner, due, readAt);
    OvertakingStores(owner, due, readAt);
    CreatedJobIsInOrder(owner, due);
    OverlapStrandsExactly(created, 1, true, 0, readAt, readAt, due);
    PromotionIsExact(created, due);
    assert RecordsAt(events, 1, 1, due);
    assert events[2].step.look <= 1 < 2 && due >= Written(events[2].step).value;
  }
}
