/**
 * The recording policy over whole runs: only recurring, job-spawned and daily
 * work leaves a terminal row behind, and a cancelled row stays cancelled.
 *
 * `finish` and `retry_or_dead_letter` read the row before they take the lock,
 * so they may act on an outdated version.  That is harmless for cancellation
 * but not for recording: the policy survives exactly the writes listed in
 * `Breaks`' complement, and every run whose checkpoint writes keep the daily
 * flag of a row stays clear of `Breaks`.
 */
module RecordingPolicy {
  import opened Wrappers
  import opened TaskTable
  import opened TaskStore
  import WaitingQueue
  import LeaseSafety
  import Moments

  ghost predicate Recorded(t: Table) {
    forall id | id in t && Terminal(t[id]) :: KeepsRecord(t[id])
  }

  // The steps that leave an unrecordable terminal row behind.
  predicate Breaks(t: Table, step: Step) {
    match step
    case Finish(id, seen, _, _) =>
      && id in t && t[id].status != Cancelled
      && KeepsRecord(seen) && !IsRecurring(seen) && !KeepsRecord(t[id])
    case Retry(id, seen, plan) =>
      && id in t && Live(t[id])
      && GivesUp(seen, plan) && KeepsRecord(seen)
      && !KeepsRecord(t[id].(checkpoint := WrittenCheckpoint(seen, plan)))
    case Recover =>
      exists id | id in t ::
        t[id].status == Running && t[id].checkpoint == Blank && t[id].repeatSeconds.Some? && !KeepsRecord(t[id])
    case _ => false
  }

  lemma {:induction false} PromotionKeepsRecords(s: Store, ids: seq<nat>, now: Instant)
    requires AllDue(s, ids, now) && LeaseSafety.IdsIssued(s)
    ensures forall id | id in s.tasks ::
              id in PromoteJobs(s, ids, now).tasks && PromoteJobs(s, ids, now).tasks[id] == s.tasks[id]
    ensures forall id | id in PromoteJobs(s, ids, now).tasks && id !in s.tasks ::
              id >= s.nextTask && PromoteJobs(s, ids, now).tasks[id].status == Queued
              && PromoteJobs(s, ids, now).tasks[id].repeatSeconds == None
    ensures PromoteJobs(s, ids, now).nextTask >= s.nextTask
    ensures LeaseSafety.IdsIssued(PromoteJobs(s, ids, now))
    decreases |ids|
  {
    if ids != [] {
      assert forall i | 0 <= i < |ids| - 1 :: ids[1..][i] == ids[i + 1];
      assert forall id | id in ids[1..] :: id in ids && id != ids[0];
      PromotionKeepsRecords(PromoteJob(s, ids[0], now), ids[1..], now);
    }
  }

  // What promotion and moving leave alone, as one relation.
  ghost predicate SameButWaiting(s: Store, after: Store) {
    && after.nextTask >= s.nextTask
    && (forall id | id in s.tasks && !(Waiting(s.tasks[id]) || s.tasks[id].status == Scheduled) ::
          id in after.tasks && after.tasks[id] == s.tasks[id])
    && (forall id | id in s.tasks && (Waiting(s.tasks[id]) || s.tasks[id].status == Scheduled) ::
          id in after.tasks && !Terminal(after.tasks[id])
          && after.tasks[id].repeatSeconds == s.tasks[id].repeatSeconds
          && after.tasks[id].scheduleJob == s.tasks[id].scheduleJob
          && after.tasks[id].checkpoint == s.tasks[id].checkpoint)
    && (forall id | id in after.tasks && id !in s.tasks ::
          id >= s.nextTask && !Terminal(after.tasks[id]) && after.tasks[id].repeatSeconds == None)
  }

  lemma PromotionTouchesOnlyWaiting(s: Store, now: Instant)
    requires LeaseSafety.IdsIssued(s)
    ensures SameButWaiting(s, PromoteDue(s, now))
  {
    var legacy := s.(tasks := PromoteLegacy(s.tasks, now));
    PromotionKeepsRecords(legacy, DueList(legacy, now), now);
    QueueingTouchesOnlyWaiting(s, PromoteDue(s, now), now);
  }

  lemma QueueingTouchesOnlyWaiting(s: Store, after: Store, now: Instant)
    requires after.nextTask >= s.nextTask
    requires forall id | id in s.tasks :: id in after.tasks && after.tasks[id] == PromoteLegacy(s.tasks, now)[id]
    requires forall id | id in after.tasks && id !in s.tasks ::
               id >= s.nextTask && after.tasks[id].status == Queued && after.tasks[id].repeatSeconds == None
    ensures SameButWaiting(s, after)
  {
  }

  lemma PriorityChangesTouchOnlyWaiting(s: Store, after: Table, owner: string)
    requires WaitingQueue.OnlyPriorities(s.tasks, after, WaitingIds(s.tasks, owner))
    ensures SameButWaiting(s, s.(tasks := after))
  {
  }

  lemma PromotionAndMovesTouchOnlyWaiting(s: Store, step: Step, now: Instant)
    requires LeaseSafety.IdsIssued(s) && (step.Promote? || step.Moving?)
    ensures SameButWaiting(s, Next(s, step, now))
  {
    match step {
      case Promote => PromotionTouchesOnlyWaiting(s, now);
      case Moving(id, owner, up) =>
        WaitingQueue.MoveTouchesOnlyPriorities(s.tasks, id, owner, if up then -1 else 1, now);
        PriorityChangesTouchOnlyWaiting(s, MoveWaiting(s.tasks, id, owner, if up then -1 else 1, now), owner);
    }
  }

  lemma RecoveryBreaksExactly(t: Table, now: Instant)
    requires Recorded(t)
    ensures Recorded(RecoverInterrupted(t, now)) <==> !Breaks(t, Recover)
  {
    var after := RecoverInterrupted(t, now);
    if Breaks(t, Recover) {
      var id :| id in t && t[id].status == Running && t[id].checkpoint == Blank
                && t[id].repeatSeconds.Some? && !KeepsRecord(t[id]);
      assert id in after && after[id].status == Failed;
    }
  }

  lemma FinishBreaksExactly(t: Table, id: nat, seen: Task, success: bool, error: Option<string>, now: Instant)
    requires Recorded(t)
    ensures Recorded(FinishWrite(t, id, seen, success, error, now)) <==> !Breaks(t, Finish(id, seen, success, error))
  {
    if Breaks(t, Finish(id, seen, success, error)) {
      assert Terminal(FinishWrite(t, id, seen, success, error, now)[id]);
    }
  }

  lemma RetryBreaksExactly(t: Table, id: nat, seen: Task, plan: RetryPlan, now: Instant)
    requires Recorded(t)
    ensures Recorded(RetryWrite(t, id, seen, plan, now)) <==> !Breaks(t, Retry(id, seen, plan))
  {
    if Breaks(t, Retry(id, seen, plan)) {
      assert Terminal(RetryWrite(t, id, seen, plan, now)[id]);
    }
  }

  lemma OtherStepsKeepPolicy(s: Store, step: Step, now: Instant)
    requires Recorded(s.tasks)
    requires !step.Promote? && !step.Moving? && !step.Recover? && !step.Finish? && !step.Retry?
    ensures Recorded(Next(s, step, now).tasks)
  {
  }

  // A step breaks the policy if and only if `Breaks` says so.
  lemma StepBreaksPolicyExactly(s: Store, step: Step, now: Instant)
    requires LeaseSafety.IdsIssued(s) && Recorded(s.tasks)
    ensures Recorded(Next(s, step, now).tasks) <==> !Breaks(s.tasks, step)
  {
    if step.Promote? || step.Moving? {
      PromotionAndMovesTouchOnlyWaiting(s, step, now);
    } else {
      match step {
        case Recover => RecoveryBreaksExactly(s.tasks, now);
        case Finish(id, seen, success, error) => FinishBreaksExactly(s.tasks, id, seen, success, error, now);
        case Retry(id, seen, plan) => RetryBreaksExactly(s.tasks, id, seen, plan, now);
        case _ => OtherStepsKeepPolicy(s, step, now);
      }
    }
  }

  // ------------------------------------------------------------------- runs

  ghost predicate RecordedAt(events: seq<Event>, n: nat)
    requires n <= |events|
  {
    Recorded(Run(events[..n]).store.tasks)
  }

  predicate BreaksAt(events: seq<Event>, i: nat)
    requires i < |events|
  {
    Breaks(Run(events[..i]).store.tasks, events[i].step)
  }

  lemma NextKeepsPolicyExactly(events: seq<Event>, i: nat)
    requires i < |events| && RecordedAt(events, i)
    ensures RecordedAt(events, i + 1) <==> !BreaksAt(events, i)
  {
    assert events[..i + 1][..i] == events[..i];
    LeaseSafety.EveryRunIsExclusive(events[..i]);
    StepBreaksPolicyExactly(Run(events[..i]).store, events[i].step, events[i].now);
  }

  // Over any run at all, every state keeps the policy if and only if no step is
  // one of the three breaking writes.
  lemma RunKeepsPolicyExactly(events: seq<Event>)
    ensures (forall n | 0 <= n <= |events| :: RecordedAt(events, n))
            <==> (forall i | 0 <= i < |events| :: !BreaksAt(events, i))
  {
    if forall i | 0 <= i < |events| :: !BreaksAt(events, i) {
      var recorded := seq(|events| + 1, i requires 0 <= i <= |events| => RecordedAt(events, i));
      forall i | 0 <= i < |events| && recorded[i]
        ensures recorded[i + 1]
      {
        NextKeepsPolicyExactly(events, i);
      }
      assert events[..0] == [] && recorded[0];
      Moments.Persists(recorded, 0, |events|);
      assert forall n | 0 <= n <= |events| :: recorded[n] == RecordedAt(events, n);
    } else if forall n | 0 <= n <= |events| :: RecordedAt(events, n) {
      forall i | 0 <= i < |events|
        ensures !BreaksAt(events, i)
      {
        assert RecordedAt(events, i + 1);
        NextKeepsPolicyExactly(events, i);
      }
    }
  }

  // -------------------------------------------------------- what callers owe

  // What the callers owe: no zero period, and no checkpoint write that clears
  // the daily flag the row carries at the moment of the write.
  predicate KeepsFlags(t: Table, step: Step) {
    match step
    case Schedule(_, _, repeatSeconds) => repeatSeconds != Some(0)
    case Checkpointing(id, checkpoint) =>
      id in t && Live(t[id]) && KeepsRecord(t[id]) ==> KeepsRecord(t[id].(checkpoint := checkpoint))
    case Retry(id, seen, plan) =>
      id in t && Live(t[id]) && KeepsRecord(t[id])
      ==> KeepsRecord(t[id].(checkpoint := WrittenCheckpoint(seen, plan)))
    case _ => true
  }

  // A row version read earlier still tells the truth about recording.
  predicate StillTrue(s: Store, id: nat, seen: Task) {
    && id < s.nextTask
    && (id in s.tasks ==>
          && s.tasks[id].repeatSeconds == seen.repeatSeconds
          && s.tasks[id].scheduleJob == seen.scheduleJob
          && (KeepsRecord(seen) ==> KeepsRecord(s.tasks[id])))
  }

  ghost predicate Sound(sys: System) {
    && LeaseSafety.IdsIssued(sys.store)
    && Recorded(sys.store.tasks)
    && (forall id | id in sys.store.tasks :: sys.store.tasks[id].repeatSeconds != Some(0))
    && (forall id, seen | (id, seen) in sys.seen :: StillTrue(sys.store, id, seen))
  }

  lemma OtherStepsKeepTruth(s: Store, step: Step, now: Instant, id: nat, seen: Task)
    requires LeaseSafety.IdsIssued(s) && KeepsFlags(s.tasks, step) && StillTrue(s, id, seen)
    requires !step.Promote? && !step.Moving? && !step.Finish?
    ensures StillTrue(Next(s, step, now), id, seen)
  {
  }

  lemma StepKeepsTruth(s: Store, step: Step, now: Instant, id: nat, seen: Task)
    requires LeaseSafety.IdsIssued(s) && KeepsFlags(s.tasks, step) && StillTrue(s, id, seen)
    requires step.Finish? ==> StillTrue(s, step.id, step.seen)
    ensures StillTrue(Next(s, step, now), id, seen)
  {
    if step.Promote? || step.Moving? {
      PromotionAndMovesTouchOnlyWaiting(s, step, now);
    } else if !step.Finish? {
      OtherStepsKeepTruth(s, step, now, id, seen);
    }
  }

  lemma PeriodsStayPositive(s: Store, step: Step, now: Instant)
    requires LeaseSafety.IdsIssued(s) && KeepsFlags(s.tasks, step)
    requires forall id | id in s.tasks :: s.tasks[id].repeatSeconds != Some(0)
    ensures forall id | id in Next(s, step, now).tasks :: Next(s, step, now).tasks[id].repeatSeconds != Some(0)
  {
    if step.Promote? || step.Moving? {
      PromotionAndMovesTouchOnlyWaiting(s, step, now);
    }
  }

  lemma SoundStepsDoNotBreak(sys: System, event: Event)
    requires Sound(sys) && Enabled(sys, event) && KeepsFlags(sys.store.tasks, event.step)
    ensures !Breaks(sys.store.tasks, event.step)
  {
    match event.step {
      case Finish(id, seen, _, _) => assert StillTrue(sys.store, id, seen);
      case Retry(id, seen, plan) => assert StillTrue(sys.store, id, seen);
      case _ =>
    }
  }

  lemma StepKeepsSound(sys: System, event: Event)
    requires Sound(sys) && Enabled(sys, event) && KeepsFlags(sys.store.tasks, event.step)
    ensures Sound(Perform(sys, event))
  {
    var s, step, now := sys.store, event.step, event.now;
    var after := Perform(sys, event);
    SoundStepsDoNotBreak(sys, event);
    StepBreaksPolicyExactly(s, step, now);
    PeriodsStayPositive(s, step, now);
    assert LeaseSafety.IdsIssued(after.store) by {
      IdsStayIssued(s, step, now);
    }
    forall id, seen | (id, seen) in after.seen
      ensures StillTrue(after.store, id, seen)
    {
      if (id, seen) in sys.seen {
        if step.Finish? {
          assert StillTrue(s, step.id, step.seen);
        }
        StepKeepsTruth(s, step, now, id, seen);
      }
    }
  }

  lemma IdsStayIssued(s: Store, step: Step, now: Instant)
    requires LeaseSafety.IdsIssued(s)
    ensures LeaseSafety.IdsIssued(Next(s, step, now)) && Next(s, step, now).nextTask >= s.nextTask
  {
    if step.Promote? {
      var legacy := s.(tasks := PromoteLegacy(s.tasks, now));
      PromotionKeepsRecords(legacy, DueList(legacy, now), now);
    } else if step.Moving? {
      LeaseSafety.MoveLeasesNothing(s.tasks, step.id, step.owner, if step.up then -1 else 1, now);
    }
  }

  ghost predicate Careful(events: seq<Event>) {
    forall i | 0 <= i < |events| :: KeepsFlags(Run(events[..i]).store.tasks, events[i].step)
  }

  // The main result: in every state of every run whose callers keep the flags,
  // each terminal row is one the policy records.
  lemma {:induction false} EveryRunKeepsPolicy(events: seq<Event>)
    requires Possible(events) && Careful(events)
    ensures Sound(Run(events))
    decreases |events|
  {
    if events != [] {
      var n := |events| - 1;
      assert forall i | 0 <= i < n :: events[..n][..i] == events[..i] && events[..n][i] == events[i];
      EveryRunKeepsPolicy(events[..n]);
      assert events[..n] == events[..|events| - 1];
      StepKeepsSound(Run(events[..n]), events[n]);
    }
  }

  // ----------------------------------------------------------- cancellation

  // Cancelled, or deleted for good: the id is spent either way.
  predicate Gone(s: Store, id: nat) {
    id < s.nextTask && (id in s.tasks ==> s.tasks[id].status == Cancelled)
  }

  lemma OtherStepsKeepCancelled(s: Store, step: Step, now: Instant, id: nat)
    requires LeaseSafety.IdsIssued(s) && Gone(s, id)
    requires !step.Promote? && !step.Moving?
    ensures Gone(Next(s, step, now), id)
  {
  }

  lemma StepKeepsCancelled(s: Store, step: Step, now: Instant, id: nat)
    requires LeaseSafety.IdsIssued(s) && Gone(s, id)
    ensures Gone(Next(s, step, now), id)
  {
    if step.Promote? || step.Moving? {
      PromotionAndMovesTouchOnlyWaiting(s, step, now);
    } else {
      OtherStepsKeepCancelled(s, step, now, id);
    }
  }

  predicate GoneAt(events: seq<Event>, n: nat, id: nat)
    requires n <= |events|
  {
    Gone(Run(events[..n]).store, id)
  }

  lemma NextKeepsGone(events: seq<Event>, n: nat, id: nat)
    requires n < |events| && GoneAt(events, n, id)
    ensures GoneAt(events, n + 1, id)
  {
    assert events[..n + 1][..n] == events[..n];
    LeaseSafety.EveryRunIsExclusive(events[..n]);
    StepKeepsCancelled(Run(events[..n]).store, events[n].step, events[n].now, id);
  }

  // A row once cancelled is never anything else again, in any run, even when
  // the halves of `finish` and `retry_or_dead_letter` straddle the cancellation.
  lemma CancelledForGood(events: seq<Event>, cancelled: nat, id: nat)
    requires cancelled <= |events|
    requires id in Run(events[..cancelled]).store.tasks
    requires Run(events[..cancelled]).store.tasks[id].status == Cancelled
    ensures forall n | cancelled <= n <= |events| :: GoneAt(events, n, id)
  {
    LeaseSafety.EveryRunIsExclusive(events[..cancelled]);
    var gone := seq(|events| + 1, i requires 0 <= i <= |events| => GoneAt(events, i, id));
    forall i | cancelled <= i < |events| && gone[i]
      ensures gone[i + 1]
    {
      NextKeepsGone(events, i, id);
    }
    Moments.Persists(gone, cancelled, |events|);
    assert forall n | cancelled <= n <= |events| :: gone[n] == GoneAt(events, n, id);
  }
}
