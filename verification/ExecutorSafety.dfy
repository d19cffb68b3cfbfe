/**
 * Exclusion over executors.  A claim hands a row to an executor, which holds it
 * until it is done with it.  Exclusion over rows (LeaseSafety) is not exclusion
 * over executors: the lease owner is the same for all of them, and a row can go
 * back to the queue while somebody still works on it.  This module says exactly
 * which steps put a held row up for grabs, and that no row has two executors as
 * long as none of them is taken.
 */
module ExecutorSafety {
  import opened Wrappers
  import opened TaskTable
  import opened TaskStore
  import LeaseSafety
  import RecordingPolicy
  import WaitingQueue

  // The store, the rows in the hands of executors, and the clock.
  datatype Floor = Floor(store: Store, held: multiset<nat>, clock: Instant)

  // A step makes its clock reading before it waits for the lock, so it may
  // commit on a reading that is past.
  datatype Action = Tick(to: Instant)             // time passes
                  | Leave(id: nat)                // an executor is done with a row, or gives it up
                  | Do(step: Step, at: Instant)   // any step of the store, on the reading `at`

  const OPENING := Floor(EMPTY, multiset{}, 0)

  predicate CanHappen(f: Floor, a: Action) {
    match a
    case Tick(to) => f.clock <= to
    case Leave(id) => id in f.held
    case Do(_, at) => at <= f.clock
  }

  // The row a step hands to an executor.
  function Handed(s: Store, step: Step, now: Instant): Option<nat> {
    if step.ClaimNext? then Claim(s.tasks, step.worker, step.leaseSeconds, step.maxActive, now).1 else None
  }

  function After(f: Floor, a: Action): Floor {
    match a
    case Tick(to) => f.(clock := to)
    case Leave(id) => f.(held := f.held - multiset{id})
    case Do(step, at) =>
      var handed := Handed(f.store, step, at);
      var more := if handed.Some? then multiset{handed.value} else multiset{};
      Floor(Next(f.store, step, at), f.held + more, f.clock)
  }

  // ------------------------------------------------------------ up for grabs

  // A claim may pick the row now: it is queued, or its backoff is over.
  predicate Available(row: Task, clock: Instant) {
    row.status == Queued || (row.status == Retrying && AttemptDue(row, clock))
  }

  // Every held row has one executor and is not up for grabs.
  ghost predicate Guarded(f: Floor) {
    forall id | id in f.held ::
      f.held[id] == 1 && id < f.store.nextTask && (id in f.store.tasks ==> !Available(f.store.tasks[id], f.clock))
  }

  predicate Held(f: Floor, id: nat) {
    id in f.held && id in f.store.tasks
  }

  // The actions that put a held row up for grabs.
  predicate Exposes(f: Floor, a: Action) {
    var t := f.store.tasks;
    match a
    // an executor still holds a row whose backoff runs out
    case Tick(to) => exists id | id in t :: Held(f, id) && t[id].status == Retrying && AttemptDue(t[id], to)
    case Leave(_) => false
    case Do(step, at) =>
      match step
      // a claim on a reading at which the lease of a held row has run out
      case ClaimNext(_, _, _) => exists id | id in t :: Held(f, id) && InFlight(t[id]) && LeaseExpired(t[id], at)
      // a recovery that requeues a held row
      case Recover => exists id | id in t :: Held(f, id) && InFlight(t[id])
                                             && (t[id].status == Leased || t[id].checkpoint != Blank)
      // failed work is queued again while its executor lingers
      case RetryingFailed(id, owner) => Held(f, id) && t[id].owner == owner && t[id].status in {Failed, DeadLetter}
      // and so is a recurring row that has become due again
      case Promote => exists id | id in t :: Held(f, id) && t[id].status == Scheduled
                                             && t[id].dueAt.Some? && t[id].dueAt.value <= at
      // a retry that waited for the lock until its backoff was over
      case Retry(id, seen, plan) =>
        Held(f, id) && Live(t[id]) && !GivesUp(seen, plan) && at + RetryDelay(seen.attempt, plan) <= f.clock
      case _ => false
  }

  // ----------------------------------------------------------------- one step

  lemma ClaimSparesUnexpired(t: Table, worker: string, leaseSeconds: int, maxActive: int, now: Instant, id: nat)
    requires id in t && !(InFlight(t[id]) && LeaseExpired(t[id], now)) && !Available(t[id], now)
    ensures Claim(t, worker, leaseSeconds, maxActive, now).1 != Some(id)
    ensures id in Claim(t, worker, leaseSeconds, maxActive, now).0
    ensures Claim(t, worker, leaseSeconds, maxActive, now).0[id] == t[id]
  {
    var requeued := RequeueExpired(t, now);
    var picked := Pick(requeued, maxActive, now);
    if picked.Some? {
      assert picked.value in ClaimableIds(requeued, now);
    }
  }

  // The core: a claim hands out a row in flight only after its lease ran out.
  lemma ClaimTakesOnlyExpired(t: Table, worker: string, leaseSeconds: int, maxActive: int, now: Instant, id: nat)
    requires id in t && InFlight(t[id]) && Claim(t, worker, leaseSeconds, maxActive, now).1 == Some(id)
    ensures LeaseExpired(t[id], now)
  {
    var requeued := RequeueExpired(t, now);
    assert id in ClaimableIds(requeued, now);
  }

  lemma ClaimReleasesExpired(t: Table, worker: string, leaseSeconds: int, maxActive: int, now: Instant, id: nat)
    requires id in t && InFlight(t[id]) && LeaseExpired(t[id], now)
    ensures var after := Claim(t, worker, leaseSeconds, maxActive, now);
            after.1 == Some(id) || (id in after.0 && after.0[id].status == Queued)
  {
  }

  lemma HandedIsLeased(t: Table, worker: string, leaseSeconds: int, maxActive: int, now: Instant)
    requires Claim(t, worker, leaseSeconds, maxActive, now).1.Some?
    ensures var after := Claim(t, worker, leaseSeconds, maxActive, now);
            after.1.value in t && after.1.value in after.0 && after.0[after.1.value].status == Leased
  {
    var requeued := RequeueExpired(t, now);
    assert Pick(requeued, maxActive, now).value in ClaimableIds(requeued, now);
  }

  lemma ClaimExposesExactly(f: Floor, worker: string, leaseSeconds: int, maxActive: int, at: Instant)
    requires LeaseSafety.IdsIssued(f.store) && Guarded(f) && at <= f.clock
    ensures Guarded(After(f, Do(ClaimNext(worker, leaseSeconds, maxActive), at)))
            <==> !Exposes(f, Do(ClaimNext(worker, leaseSeconds, maxActive), at))
  {
    var t, a := f.store.tasks, Do(ClaimNext(worker, leaseSeconds, maxActive), at);
    var after := After(f, a);
    var handed := Claim(t, worker, leaseSeconds, maxActive, at).1;
    if Exposes(f, a) {
      var id :| id in t && Held(f, id) && InFlight(t[id]) && LeaseExpired(t[id], at);
      ClaimReleasesExpired(t, worker, leaseSeconds, maxActive, at, id);
      assert id in after.held && (handed == Some(id) ==> after.held[id] == 2);
    } else {
      if handed.Some? {
        HandedIsLeased(t, worker, leaseSeconds, maxActive, at);
      }
      forall id | id in after.held
        ensures after.held[id] == 1 && id < after.store.nextTask
        ensures id in after.store.tasks ==> !Available(after.store.tasks[id], f.clock)
      {
        if Held(f, id) {
          ClaimSparesUnexpired(t, worker, leaseSeconds, maxActive, at, id);
        }
      }
    }
  }

  // What happens to one row in the other steps; `clock` is the time of the commit.
  lemma OtherStepKeepsUnavailable(s: Store, step: Step, at: Instant, clock: Instant, id: nat)
    requires LeaseSafety.IdsIssued(s) && id < s.nextTask
    requires !step.ClaimNext? && !step.Recover? && !step.RetryingFailed? && !step.Promote?
    requires !step.Moving? && !step.Retry?
    requires id in s.tasks ==> !Available(s.tasks[id], clock)
    ensures id in Next(s, step, at).tasks ==> !Available(Next(s, step, at).tasks[id], clock)
    ensures id < Next(s, step, at).nextTask
  {
  }

  // A retry makes its row available exactly if it commits after the backoff.
  lemma RetryFreesExactly(t: Table, id: nat, seen: Task, plan: RetryPlan, at: Instant, clock: Instant, other: nat)
    requires other in t ==> !Available(t[other], clock)
    ensures var after := RetryWrite(t, id, seen, plan, at);
            (other in after && Available(after[other], clock))
            <==> && other == id && id in t && Live(t[id])
                 && !GivesUp(seen, plan) && at + RetryDelay(seen.attempt, plan) <= clock
  {
  }

  lemma RetryExposesExactly(f: Floor, id: nat, seen: Task, plan: RetryPlan, at: Instant)
    requires Guarded(f)
    ensures Guarded(After(f, Do(Retry(id, seen, plan), at))) <==> !Exposes(f, Do(Retry(id, seen, plan), at))
  {
    forall other | other in f.held
      ensures var after := RetryWrite(f.store.tasks, id, seen, plan, at);
              (other in after && Available(after[other], f.clock))
              <==> other == id && Exposes(f, Do(Retry(id, seen, plan), at))
    {
      RetryFreesExactly(f.store.tasks, id, seen, plan, at, f.clock, other);
    }
  }

  lemma MoveKeepsUnavailable(t: Table, id: nat, owner: string, offset: int, at: Instant, clock: Instant, other: nat)
    requires offset == -1 || offset == 1
    requires other in t ==> !Available(t[other], clock)
    ensures var after := MoveWaiting(t, id, owner, offset, at);
            other in after ==> !Available(after[other], clock)
  {
    WaitingQueue.MoveTouchesOnlyPriorities(t, id, owner, offset, at);
  }

  lemma PromotionQueuesExactly(s: Store, at: Instant, clock: Instant, id: nat)
    requires LeaseSafety.IdsIssued(s) && id < s.nextTask
    requires id in s.tasks ==> !Available(s.tasks[id], clock)
    ensures id in PromoteDue(s, at).tasks <==> id in s.tasks
    ensures id in s.tasks ==>
              (Available(PromoteDue(s, at).tasks[id], clock)
               <==> s.tasks[id].status == Scheduled && s.tasks[id].dueAt.Some? && s.tasks[id].dueAt.value <= at)
    ensures id < PromoteDue(s, at).nextTask
  {
    var legacy := s.(tasks := PromoteLegacy(s.tasks, at));
    RecordingPolicy.PromotionKeepsRecords(legacy, DueList(legacy, at), at);
  }

  lemma PromoteExposesExactly(f: Floor, at: Instant)
    requires LeaseSafety.IdsIssued(f.store) && Guarded(f)
    ensures Guarded(After(f, Do(Promote, at))) <==> !Exposes(f, Do(Promote, at))
  {
    forall id | id in f.held
      ensures id in PromoteDue(f.store, at).tasks <==> id in f.store.tasks
      ensures id < PromoteDue(f.store, at).nextTask
      ensures id in f.store.tasks ==>
                (Available(PromoteDue(f.store, at).tasks[id], f.clock)
                 <==> f.store.tasks[id].status == Scheduled && f.store.tasks[id].dueAt.Some?
                      && f.store.tasks[id].dueAt.value <= at)
    {
      PromotionQueuesExactly(f.store, at, f.clock, id);
    }
  }

  lemma RecoverExposesExactly(f: Floor, at: Instant)
    requires Guarded(f)
    ensures Guarded(After(f, Do(Recover, at))) <==> !Exposes(f, Do(Recover, at))
  {
    var t, after := f.store.tasks, RecoverInterrupted(f.store.tasks, at);
    if Exposes(f, Do(Recover, at)) {
      var id :| id in t && Held(f, id) && InFlight(t[id]) && (t[id].status == Leased || t[id].checkpoint != Blank);
      assert id in after && after[id].status == Queued;
    }
  }

  lemma RetryFailedExposesExactly(f: Floor, id: nat, owner: string, at: Instant)
    requires Guarded(f)
    ensures Guarded(After(f, Do(RetryingFailed(id, owner), at))) <==> !Exposes(f, Do(RetryingFailed(id, owner), at))
  {
    if Exposes(f, Do(RetryingFailed(id, owner), at)) {
      assert RetryFailed(f.store.tasks, id, owner, at)[id].status == Queued;
    }
  }

  lemma OtherActionsKeepGuarded(f: Floor, step: Step, at: Instant)
    requires LeaseSafety.IdsIssued(f.store) && Guarded(f)
    requires !step.ClaimNext? && !step.Recover? && !step.RetryingFailed? && !step.Promote? && !step.Retry?
    ensures Guarded(After(f, Do(step, at)))
  {
    var s, after := f.store, After(f, Do(step, at));
    assert after.held == f.held;
    forall id | id in f.held
      ensures id < after.store.nextTask
      ensures id in after.store.tasks ==> !Available(after.store.tasks[id], f.clock)
    {
      if step.Moving? {
        MoveKeepsUnavailable(s.tasks, step.id, step.owner, if step.up then -1 else 1, at, f.clock, id);
      } else {
        OtherStepKeepsUnavailable(s, step, at, f.clock, id);
      }
    }
  }

  lemma TickExposesExactly(f: Floor, to: Instant)
    requires Guarded(f) && f.clock <= to
    ensures Guarded(After(f, Tick(to))) <==> !Exposes(f, Tick(to))
  {
    if Exposes(f, Tick(to)) {
      var id :| id in f.store.tasks && Held(f, id) && f.store.tasks[id].status == Retrying
                && AttemptDue(f.store.tasks[id], to);
      assert Available(f.store.tasks[id], to);
    }
  }

  // A held row is put up for grabs, or handed out again, if and only if the
  // action is one of those.
  lemma ActionExposesExactly(f: Floor, a: Action)
    requires LeaseSafety.IdsIssued(f.store) && Guarded(f) && CanHappen(f, a)
    ensures Guarded(After(f, a)) <==> !Exposes(f, a)
  {
    match a {
      case Tick(to) => TickExposesExactly(f, to);
      case Leave(id) =>
      case Do(step, at) =>
        match step {
          case ClaimNext(worker, lease, maxActive) => ClaimExposesExactly(f, worker, lease, maxActive, at);
          case Recover => RecoverExposesExactly(f, at);
          case RetryingFailed(id, owner) => RetryFailedExposesExactly(f, id, owner, at);
          case Promote => PromoteExposesExactly(f, at);
          case Retry(id, seen, plan) => RetryExposesExactly(f, id, seen, plan, at);
          case _ => OtherActionsKeepGuarded(f, step, at);
        }
    }
  }

  // --------------------------------------------------------------------- runs

  function RunFrom(f: Floor, actions: seq<Action>): Floor
    decreases |actions|
  {
    if actions == [] then f else After(RunFrom(f, actions[..|actions| - 1]), actions[|actions| - 1])
  }

  ghost predicate Possible(f: Floor, actions: seq<Action>) {
    forall i | 0 <= i < |actions| :: CanHappen(RunFrom(f, actions[..i]), actions[i])
  }

  ghost predicate NoneExposes(actions: seq<Action>) {
    forall i | 0 <= i < |actions| :: !Exposes(RunFrom(OPENING, actions[..i]), actions[i])
  }

  lemma IdsStayIssued(f: Floor, a: Action)
    requires LeaseSafety.IdsIssued(f.store)
    ensures LeaseSafety.IdsIssued(After(f, a).store)
  {
    if a.Do? {
      RecordingPolicy.IdsStayIssued(f.store, a.step, a.at);
    }
  }

  lemma {:induction false} GuardedUpTo(actions: seq<Action>, n: nat)
    requires Possible(OPENING, actions) && n <= |actions|
    requires forall i | 0 <= i < n :: !Exposes(RunFrom(OPENING, actions[..i]), actions[i])
    ensures LeaseSafety.IdsIssued(RunFrom(OPENING, actions[..n]).store) && Guarded(RunFrom(OPENING, actions[..n]))
  {
    if n > 0 {
      GuardedUpTo(actions, n - 1);
      assert actions[..n][..n - 1] == actions[..n - 1];
      var f := RunFrom(OPENING, actions[..n - 1]);
      assert CanHappen(f, actions[n - 1]);
      ActionExposesExactly(f, actions[n - 1]);
      IdsStayIssued(f, actions[n - 1]);
    }
  }

  // The main result: in every run in which no action exposes a held row, no row
  // ever has two executors.
  lemma NoRowHasTwoExecutors(actions: seq<Action>, id: nat)
    requires Possible(OPENING, actions) && NoneExposes(actions)
    ensures RunFrom(OPENING, actions).held[id] <= 1
  {
    GuardedUpTo(actions, |actions|);
    assert actions[..|actions|] == actions;
  }

  // ----------------------------------------------------- what exposing leads to

  predicate Idle(t: Table, id: nat) {
    forall other | other in t && other != id :: !Live(t[other]) && t[other].status != Scheduled
  }

  // With nothing else live in the table, an available row is what a claim takes.
  lemma OnlyAvailableRowIsTaken(f: Floor, id: nat, worker: string, leaseSeconds: int, maxActive: int)
    requires id in f.store.tasks && Idle(f.store.tasks, id)
    requires Waiting(f.store.tasks[id]) && AttemptDue(f.store.tasks[id], f.clock)
    ensures Handed(f.store, ClaimNext(worker, leaseSeconds, maxActive), f.clock) == Some(id)
  {
    var t := f.store.tasks;
    assert RequeueExpired(t, f.clock) == t;
    assert InFlightIds(t) == {};
    assert Claimable(t, id, f.clock);
    assert ClaimableIds(t, f.clock) == {id};
  }

  // The rows outside `ids` stay; the ones in it are gone or final.
  ghost predicate Cleared(t: Table, after: Table, ids: set<nat>) {
    && after.Keys <= t.Keys
    && (forall id | id in t && id !in ids :: id in after && after[id] == t[id])
    && (forall id | id in after && id in ids ::
          after[id].owner == t[id].owner && !Live(after[id]) && after[id].status != Scheduled)
  }

  lemma CancelClears(t: Table, before: Table, ids: set<nat>, id: nat, now: Instant)
    requires id in t && Cleared(t, before, ids)
    ensures Cleared(t, Cancel(before, id, t[id].owner, now), ids + {id})
  {
  }

  lemma AppendAction(f: Floor, actions: seq<Action>, a: Action)
    requires Possible(f, actions) && CanHappen(RunFrom(f, actions), a)
    ensures Possible(f, actions + [a]) && RunFrom(f, actions + [a]) == After(RunFrom(f, actions), a)
  {
    var more := actions + [a];
    assert more[..|actions|] == actions;
    assert forall i | 0 <= i < |actions| :: more[..i] == actions[..i] && more[i] == actions[i];
  }

  ghost predicate ClearedFloor(f: Floor, after: Floor, ids: set<nat>) {
    after.held == f.held && after.clock == f.clock && Cleared(f.store.tasks, after.store.tasks, ids)
  }

  lemma ClearOneMore(f: Floor, here: Floor, ids: set<nat>, id: nat)
    requires id in ids && id in f.store.tasks && ClearedFloor(f, here, ids - {id})
    ensures ClearedFloor(f, After(here, Do(Cancelling(id, f.store.tasks[id].owner), f.clock)), ids)
  {
    CancelClears(f.store.tasks, here.store.tasks, ids - {id}, id, f.clock);
    assert ids == ids - {id} + {id};
  }

  lemma {:induction false} ClearRows(f: Floor, ids: set<nat>) returns (actions: seq<Action>)
    requires ids <= f.store.tasks.Keys
    ensures forall a | a in actions :: a.Do? && a.step.Cancelling? && a.step.id in ids
    ensures Possible(f, actions)
    ensures ClearedFloor(f, RunFrom(f, actions), ids)
    decreases ids
  {
    actions := [];
    if ids != {} {
      var id :| id in ids;
      var before := ClearRows(f, ids - {id});
      var cancel := Do(Cancelling(id, f.store.tasks[id].owner), f.clock);
      AppendAction(f, before, cancel);
      ClearOneMore(f, RunFrom(f, before), ids, id);
      actions := before + [cancel];
    }
  }

  // The condition is not too strict: from any state in which a held row is
  // available, other rows being cancelled, time passing and one claim suffice to
  // give it a second executor, whatever the claim's arguments.
  lemma AvailableRowGetsSecondExecutor(f: Floor, id: nat, worker: string, leaseSeconds: int, maxActive: int)
    returns (actions: seq<Action>)
    requires id in f.held && id in f.store.tasks && Available(f.store.tasks[id], f.clock)
    ensures Possible(f, actions) && RunFrom(f, actions).held[id] >= 2
  {
    var cleared := ClearRows(f, f.store.tasks.Keys - {id});
    var row := f.store.tasks[id];
    var next := row.nextAttemptAt;
    var due := if next.Some? && next.value > f.clock then next.value else f.clock;
    AppendAction(f, cleared, Tick(due));
    var waited := cleared + [Tick(due)];
    var claim := Do(ClaimNext(worker, leaseSeconds, maxActive), due);
    OnlyAvailableRowIsTaken(RunFrom(f, waited), id, worker, leaseSeconds, maxActive);
    AppendAction(f, waited, claim);
    actions := waited + [claim];
  }

  // So each of those actions opens the way to a second executor.
  lemma ExposureLeadsToSecondExecutor(f: Floor, a: Action, worker: string, leaseSeconds: int, maxActive: int)
    returns (id: nat, actions: seq<Action>)
    requires LeaseSafety.IdsIssued(f.store) && Guarded(f) && CanHappen(f, a) && Exposes(f, a)
    ensures Possible(After(f, a), actions) && RunFrom(After(f, a), actions).held[id] >= 2
  {
    var after := After(f, a);
    ActionExposesExactly(f, a);
    StepIssuesHeld(f, a);
    var t := after.store.tasks;
    id :| id in after.held && (after.held[id] != 1 || (id in t && Available(t[id], after.clock)));
    if after.held[id] != 1 {
      actions := [];
    } else {
      actions := AvailableRowGetsSecondExecutor(after, id, worker, leaseSeconds, maxActive);
    }
  }

  lemma StepIssuesHeld(f: Floor, a: Action)
    requires LeaseSafety.IdsIssued(f.store) && Guarded(f) && CanHappen(f, a)
    ensures forall id | id in After(f, a).held :: id < After(f, a).store.nextTask
  {
    if a.Do? {
      RecordingPolicy.IdsStayIssued(f.store, a.step, a.at);
      if a.step.ClaimNext? && Handed(f.store, a.step, a.at).Some? {
        HandedIsLeased(f.store.tasks, a.step.worker, a.step.leaseSeconds, a.step.maxActive, a.at);
      }
    }
  }
}
