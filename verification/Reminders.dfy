/**
 * Reminder delivery: claim, send, acknowledge, with crashes and resets in
 * between.  A claimed reminder is held by the scheduler, first unsent and then
 * awaiting its acknowledgement; a crash drops whatever is held.
 */
module Reminders {
  import RowOrder
  import opened ReminderTable

  // ------------------------------------------------------------------- store

  class ReminderStore {
    var rows: Table
    var nextId: nat

    constructor ()
      ensures rows == map[] && nextId == 1
    {
      rows, nextId := map[], 1;
    }

    method Create(owner: string, remindAt: int) returns (id: nat)
      modifies this
      ensures id == old(nextId) && nextId == id + 1
      ensures rows == old(rows)[id := Reminder(owner, remindAt, Pending, 0)]
    {
      id := nextId;
      rows := rows[id := Reminder(owner, remindAt, Pending, 0)];
      nextId := nextId + 1;
    }

    method Cancel(id: nat, owner: string) returns (cancelled: bool)
      modifies this`rows
      ensures rows == ReminderTable.Cancel(old(rows), id, owner)
      ensures cancelled <==> id in old(rows) && old(rows)[id].owner == owner && old(rows)[id].status == Pending
    {
      cancelled := id in rows && rows[id].owner == owner && rows[id].status == Pending;
      if cancelled {
        rows := rows[id := rows[id].(status := Cancelled)];
      }
    }

    // The guarded update of one row.
    method ClaimRow(id: nat) returns (updated: bool)
      modifies this`rows
      ensures updated <==> id in old(rows) && old(rows)[id].status == Pending
      ensures rows == if updated then old(rows)[id := old(rows)[id].(status := Sending)] else old(rows)
    {
      updated := id in rows && rows[id].status == Pending;
      if updated {
        rows := rows[id := rows[id].(status := Sending)];
      }
    }

    // Row by row, as the transaction does it.
    method ClaimRows(ids: seq<nat>) returns (claimed: seq<nat>)
      requires forall i | 0 <= i < |ids| :: ids[i] in rows && rows[ids[i]].status == Pending && ids[i] !in ids[..i]
      modifies this`rows
      ensures claimed == ids && rows == ClaimAll(old(rows), ids)
    {
      ghost var start := rows;
      claimed := [];
      for i := 0 to |ids|
        invariant claimed == ids[..i] && rows == ClaimAll(start, ids[..i])
      {
        assert ids[..i + 1] == ids[..i] + [ids[i]];
        ClaimOneMore(start, ids, i);
        var updated := ClaimRow(ids[i]);
        if updated {
          claimed := claimed + [ids[i]];
        }
      }
      assert ids[..|ids|] == ids;
    }

    method ClaimDue(now: int, limit: int) returns (claimed: seq<nat>)
      modifies this`rows
      ensures claimed == Batch(old(rows), now, limit)
      ensures rows == ClaimAll(old(rows), claimed)
    {
      var ids := Batch(rows, now, limit);
      forall i | 0 <= i < |ids|
        ensures ids[i] in rows && rows[ids[i]].status == Pending && ids[i] !in ids[..i]
      {
        BatchEntry(rows, now, limit, i);
      }
      claimed := ClaimRows(ids);
    }

    method MarkSent(id: nat)
      modifies this`rows
      ensures rows == ReminderTable.MarkSent(old(rows), id)
    {
      if id in rows && rows[id].status == Sending {
        rows := rows[id := rows[id].(status := Sent)];
      }
    }

    method MarkAttemptFailed(id: nat)
      modifies this`rows
      ensures rows == ReminderTable.MarkAttemptFailed(old(rows), id)
    {
      if id !in rows || rows[id].status != Sending {
        return;
      }
      var attempts := rows[id].attempts + 1;
      var status := if attempts < MAX_ATTEMPTS then Pending else Failed;
      rows := rows[id := rows[id].(attempts := attempts, status := status)];
    }

    method ResetInterrupted() returns (reset: nat)
      modifies this`rows
      ensures rows == ReminderTable.ResetInterrupted(old(rows))
      ensures reset == |SendingIds(old(rows))| && SendingIds(rows) == {}
    {
      reset := |SendingIds(rows)|;
      rows := map id | id in rows :: if rows[id].status == Sending then rows[id].(status := Pending) else rows[id];
    }

    // The loop of run_once, with deliveries that succeed or raise as `delivers` says.
    method Settle(ids: seq<nat>, delivers: nat -> bool) returns (delivered: nat)
      requires forall i | 0 <= i < |ids| :: ids[i] in rows && rows[ids[i]].status == Sending && ids[i] !in ids[..i]
      modifies this`rows
      ensures rows == Delivered(old(rows), ids, delivers)
      ensures delivered == |set id | id in ids && delivers(id)|
    {
      ghost var start := rows;
      delivered := 0;
      for i := 0 to |ids|
        invariant rows == Delivered(start, ids[..i], delivers)
        invariant delivered == |set id | id in ids[..i] && delivers(id)|
      {
        DeliverOneMore(start, ids, i, delivers);
        CountOneMore(ids, i, delivers);
        if delivers(ids[i]) {
          MarkSent(ids[i]);
          delivered := delivered + 1;
        } else {
          MarkAttemptFailed(ids[i]);
        }
      }
      assert ids[..|ids|] == ids;
    }

    method RunOnce(now: int, delivers: nat -> bool) returns (delivered: nat)
      modifies this`rows
      ensures var batch := Batch(old(rows), now, 10);
              && rows == Delivered(ClaimAll(old(rows), batch), batch, delivers)
              && delivered == |set id | id in batch && delivers(id)|
    {
      ghost var start := rows;
      var claimed := ClaimDue(now, 10);
      forall i | 0 <= i < |claimed|
        ensures claimed[i] in rows && rows[claimed[i]].status == Sending && claimed[i] !in claimed[..i]
      {
        BatchEntry(start, now, 10, i);
      }
      delivered := Settle(claimed, delivers);
    }
  }

  // ---------------------------------------------------------------- protocol

  // The table, the claims in somebody's hands, and what has happened so far:
  // how often each reminder was sent and how often a reset interrupted it.
  datatype System = System(rows: Table, nextId: nat,
                           unsent: multiset<nat>, unacknowledged: multiset<nat>,
                           sends: multiset<nat>, interruptions: multiset<nat>)

  const START := System(map[], 1, multiset{}, multiset{}, multiset{}, multiset{})

  datatype Step =
    | Create(owner: string, remindAt: int)
    | CancelOne(id: nat, owner: string)
    | Claim(now: int, limit: int)
    | Send(id: nat)          // the call of `send`, whatever becomes of it
    | AckSent(id: nat)       // it returned
    | AckFailed(id: nat)     // it raised
    | Crash                  // the scheduler is gone: process death or cancellation
    | Reset                  // reset_interrupted

  predicate Enabled(s: System, step: Step) {
    match step
    case Send(id) => id in s.unsent
    case AckSent(id) => id in s.unacknowledged
    case AckFailed(id) => id in s.unacknowledged
    case _ => true
  }

  function Next(s: System, step: Step): System {
    match step
    case Create(owner, remindAt) =>
      s.(rows := s.rows[s.nextId := Reminder(owner, remindAt, Pending, 0)], nextId := s.nextId + 1)
    case CancelOne(id, owner) => s.(rows := Cancel(s.rows, id, owner))
    case Claim(now, limit) =>
      var ids := Batch(s.rows, now, limit);
      s.(rows := ClaimAll(s.rows, ids), unsent := s.unsent + multiset(ids))
    case Send(id) =>
      s.(unsent := s.unsent - multiset{id}, unacknowledged := s.unacknowledged + multiset{id},
         sends := s.sends + multiset{id})
    case AckSent(id) => s.(rows := MarkSent(s.rows, id), unacknowledged := s.unacknowledged - multiset{id})
    case AckFailed(id) => s.(rows := MarkAttemptFailed(s.rows, id), unacknowledged := s.unacknowledged - multiset{id})
    case Crash => s.(unsent := multiset{}, unacknowledged := multiset{})
    case Reset =>
      s.(rows := ResetInterrupted(s.rows), interruptions := s.interruptions + multiset(SendingIds(s.rows)))
  }

  function Run(steps: seq<Step>): System {
    if steps == [] then START else Next(Run(steps[..|steps| - 1]), steps[|steps| - 1])
  }

  ghost predicate Possible(steps: seq<Step>) {
    forall i | 0 <= i < |steps| :: Enabled(Run(steps[..i]), steps[i])
  }

  lemma PrefixIsPossible(steps: seq<Step>)
    requires Possible(steps) && steps != []
    ensures Possible(steps[..|steps| - 1])
  {
    var front := steps[..|steps| - 1];
    assert forall i | 0 <= i < |front| :: front[..i] == steps[..i] && front[i] == steps[i];
  }

  // -------------------------------------------------------------- accounting

  // Each delivery used or still possible is paid for by a failed attempt, an
  // interruption, or the claim that is open or succeeded.
  predicate Accounted(s: System, id: nat)
    requires id in s.rows
  {
    var row := s.rows[id];
    && s.sends[id] + s.unsent[id]
       <= row.attempts + s.interruptions[id] + (if row.status in {Sending, Sent} then 1 else 0)
    && (if row.status == Failed then row.attempts == MAX_ATTEMPTS else row.attempts < MAX_ATTEMPTS)
  }

  // Only reminders that were created are ever held, sent or interrupted.
  ghost predicate Issued(s: System) {
    forall id :: id in s.unsent || id in s.sends || id in s.interruptions || id in s.unacknowledged ==> id < s.nextId
  }

  ghost predicate Sound(s: System) {
    (forall id | id in s.rows :: id < s.nextId && Accounted(s, id)) && Issued(s)
  }

  lemma ClaimAccounts(s: System, now: int, limit: int, id: nat)
    requires id in s.rows && Accounted(s, id)
    ensures Accounted(Next(s, Claim(now, limit)), id)
  {
    BatchCount(s.rows, now, limit, id);
  }

  lemma ClaimKeepsSound(s: System, now: int, limit: int)
    requires Sound(s)
    ensures Sound(Next(s, Claim(now, limit)))
  {
    var after := Next(s, Claim(now, limit));
    forall id | id in after.rows
      ensures id < after.nextId && Accounted(after, id)
    {
      assert Accounted(s, id);
      ClaimAccounts(s, now, limit, id);
    }
    forall id | id in after.unsent
      ensures id < s.nextId
    {
      BatchCount(s.rows, now, limit, id);
    }
  }

  lemma ResetAccounts(s: System, id: nat)
    requires id in s.rows && Accounted(s, id)
    ensures Accounted(Next(s, Reset), id)
  {
    assert multiset(SendingIds(s.rows))[id] == if s.rows[id].status == Sending then 1 else 0;
  }

  lemma OtherStepsAccount(s: System, step: Step, id: nat)
    requires Enabled(s, step) && !step.Claim? && id in s.rows && id < s.nextId && Accounted(s, id)
    ensures id in Next(s, step).rows && Accounted(Next(s, step), id)
  {
    if step.Reset? {
      ResetAccounts(s, id);
    }
  }

  lemma OtherStepsIssue(s: System, step: Step)
    requires Enabled(s, step) && !step.Claim? && Issued(s) && forall id | id in s.rows :: id < s.nextId
    ensures Issued(Next(s, step))
  {
  }

  lemma StepKeepsSound(s: System, step: Step)
    requires Sound(s) && Enabled(s, step)
    ensures Sound(Next(s, step))
  {
    if step.Claim? {
      ClaimKeepsSound(s, step.now, step.limit);
    } else {
      var after := Next(s, step);
      OtherStepsIssue(s, step);
      forall id | id in after.rows
        ensures id < after.nextId && Accounted(after, id)
      {
        if id in s.rows {
          OtherStepsAccount(s, step, id);
        }
      }
    }
  }

  // Over every run: pending and sending rows have attempts to spare, failed
  // rows have used them up, and a reminder is sent at most three times plus
  // once per interruption.
  lemma {:induction false} SendsAreBounded(steps: seq<Step>)
    requires Possible(steps)
    ensures Sound(Run(steps))
    ensures forall id | id in Run(steps).rows ::
              Run(steps).sends[id] <= MAX_ATTEMPTS + Run(steps).interruptions[id]
    decreases |steps|
  {
    if steps != [] {
      var front, last := steps[..|steps| - 1], steps[|steps| - 1];
      PrefixIsPossible(steps);
      SendsAreBounded(front);
      assert Enabled(Run(front), last);
      StepKeepsSound(Run(front), last);
    }
    forall id | id in Run(steps).rows
      ensures Run(steps).sends[id] <= MAX_ATTEMPTS + Run(steps).interruptions[id]
    {
      assert Accounted(Run(steps), id);
    }
  }

  predicate Final(status: Status) {
    status in {Sent, Failed, Cancelled}
  }

  // Sent, failed and cancelled are absorbing.
  lemma FinalStaysFinal(s: System, step: Step, id: nat)
    requires Sound(s) && id in s.rows && Final(s.rows[id].status)
    ensures id in Next(s, step).rows && Next(s, step).rows[id] == s.rows[id]
  {
  }

  // ------------------------------------------------------------ cancellation

  lemma UnheldCancelledIsNeverSent(s: System, step: Step, id: nat)
    requires Sound(s) && Enabled(s, step)
    requires id in s.rows && s.rows[id].status == Cancelled && s.unsent[id] == 0
    ensures var after := Next(s, step);
            && id in after.rows && after.rows[id].status == Cancelled
            && after.unsent[id] == 0 && after.sends[id] == s.sends[id]
  {
    if step.Claim? {
      ClaimSkipsCancelled(s, step.now, step.limit, id);
    } else {
      OtherStepsSkipCancelled(s, step, id);
    }
  }

  lemma OtherStepsSkipCancelled(s: System, step: Step, id: nat)
    requires Enabled(s, step) && !step.Claim? && id < s.nextId
    requires id in s.rows && s.rows[id].status == Cancelled && s.unsent[id] == 0
    ensures var after := Next(s, step);
            && id in after.rows && after.rows[id].status == Cancelled
            && after.unsent[id] == 0 && after.sends[id] == s.sends[id]
  {
  }

  lemma ClaimSkipsCancelled(s: System, now: int, limit: int, id: nat)
    requires id in s.rows && s.rows[id].status == Cancelled
    ensures Next(s, Claim(now, limit)).rows[id] == s.rows[id]
    ensures Next(s, Claim(now, limit)).unsent[id] == s.unsent[id]
  {
    BatchCount(s.rows, now, limit, id);
  }

  lemma {:induction false} UnheldCancelledThroughout(steps: seq<Step>, when: nat, id: nat)
    requires Possible(steps) && when <= |steps|
    requires var s := Run(steps[..when]); id in s.rows && s.rows[id].status == Cancelled && s.unsent[id] == 0
    ensures var s := Run(steps); id in s.rows && s.rows[id].status == Cancelled && s.unsent[id] == 0
    ensures Run(steps).sends[id] == Run(steps[..when]).sends[id]
    decreases |steps|
  {
    if when == |steps| {
      assert steps[..when] == steps;
    } else {
      var front, last := steps[..|steps| - 1], steps[|steps| - 1];
      assert front[..when] == steps[..when];
      PrefixIsPossible(steps);
      SendsAreBounded(front);
      UnheldCancelledThroughout(front, when, id);
      assert Enabled(Run(front), last);
      UnheldCancelledIsNeverSent(Run(front), last, id);
    }
  }

  lemma HeldIsSentNext(steps: seq<Step>, id: nat)
    requires Possible(steps) && Run(steps).unsent[id] > 0
    ensures Possible(steps + [Send(id)]) && Run(steps + [Send(id)]).sends[id] == Run(steps).sends[id] + 1
  {
    var more := steps + [Send(id)];
    assert more[..|steps|] == steps;
    assert forall i | 0 <= i < |steps| :: more[..i] == steps[..i] && more[i] == steps[i];
  }

  // A cancelled reminder is never sent again, whatever happens next, if and
  // only if no scheduler holds it unsent.
  lemma CancelledIsQuietExactlyIfUnheld(steps: seq<Step>, id: nat)
    requires Possible(steps) && id in Run(steps).rows && Run(steps).rows[id].status == Cancelled
    ensures (forall more: seq<Step> :: Possible(steps + more) ==> Run(steps + more).sends[id] == Run(steps).sends[id])
            <==> Run(steps).unsent[id] == 0
  {
    if Run(steps).unsent[id] == 0 {
      forall more: seq<Step> | Possible(steps + more)
        ensures Run(steps + more).sends[id] == Run(steps).sends[id]
      {
        assert (steps + more)[..|steps|] == steps;
        UnheldCancelledThroughout(steps + more, |steps|, id);
      }
    } else {
      HeldIsSentNext(steps, id);
    }
  }

  // Resets that happen while nothing is held, as at process start.
  ghost predicate QuietResets(steps: seq<Step>) {
    forall i | 0 <= i < |steps| && steps[i].Reset? ::
      Run(steps[..i]).unsent == multiset{} && Run(steps[..i]).unacknowledged == multiset{}
  }

  // Then whatever is held is held once, and is marked as being sent.
  ghost predicate HeldIsSending(s: System) {
    forall id :: s.unsent[id] + s.unacknowledged[id] > 0 ==>
      s.unsent[id] + s.unacknowledged[id] == 1 && id in s.rows && s.rows[id].status == Sending
  }

  lemma ClaimKeepsHeldSending(s: System, now: int, limit: int)
    requires HeldIsSending(s)
    ensures HeldIsSending(Next(s, Claim(now, limit)))
  {
    var after := Next(s, Claim(now, limit));
    forall id
      ensures after.unsent[id] + after.unacknowledged[id] > 0 ==>
                after.unsent[id] + after.unacknowledged[id] == 1 && id in after.rows && after.rows[id].status == Sending
    {
      BatchCount(s.rows, now, limit, id);
    }
  }

  lemma StepKeepsHeldSending(s: System, step: Step)
    requires Sound(s) && HeldIsSending(s) && Enabled(s, step)
    requires step.Reset? ==> s.unsent == multiset{} && s.unacknowledged == multiset{}
    ensures HeldIsSending(Next(s, step))
  {
    if step.Claim? {
      ClaimKeepsHeldSending(s, step.now, step.limit);
    } else {
      var after := Next(s, step);
      forall id
        ensures after.unsent[id] + after.unacknowledged[id] > 0 ==>
                  && after.unsent[id] + after.unacknowledged[id] == 1
                  && id in after.rows && after.rows[id].status == Sending
      {
        OtherStepsKeepHeld(s, step, id);
      }
    }
  }

  lemma OtherStepsKeepHeld(s: System, step: Step, id: nat)
    requires Enabled(s, step) && !step.Claim? && (id in s.rows ==> id < s.nextId)
    requires step.Reset? ==> s.unsent == multiset{} && s.unacknowledged == multiset{}
    requires s.unsent[id] + s.unacknowledged[id] > 0 ==>
               s.unsent[id] + s.unacknowledged[id] == 1 && id in s.rows && s.rows[id].status == Sending
    ensures var after := Next(s, step);
            after.unsent[id] + after.unacknowledged[id] > 0 ==>
              after.unsent[id] + after.unacknowledged[id] == 1 && id in after.rows && after.rows[id].status == Sending
  {
  }

  lemma PrefixIsQuiet(steps: seq<Step>)
    requires QuietResets(steps) && steps != []
    ensures QuietResets(steps[..|steps| - 1])
  {
    var front := steps[..|steps| - 1];
    assert forall i | 0 <= i < |front| :: front[..i] == steps[..i] && front[i] == steps[i];
  }

  lemma {:induction false} QuietRunsHoldOnlySending(steps: seq<Step>)
    requires Possible(steps) && QuietResets(steps)
    ensures HeldIsSending(Run(steps))
    decreases |steps|
  {
    if steps != [] {
      var front, last := steps[..|steps| - 1], steps[|steps| - 1];
      PrefixIsQuiet(steps);
      PrefixIsPossible(steps);
      QuietRunsHoldOnlySending(front);
      SendsAreBounded(front);
      assert Enabled(Run(front), last);
      StepKeepsHeldSending(Run(front), last);
    }
  }

  lemma CancellingLeavesItUnheld(s: System, id: nat, owner: string)
    requires HeldIsSending(s) && id in s.rows && s.rows[id].owner == owner && s.rows[id].status == Pending
    ensures var after := Next(s, CancelOne(id, owner));
            && id in after.rows && after.rows[id].status == Cancelled
            && after.unsent[id] == 0 && after.sends == s.sends
  {
  }

  lemma QuietPrefix(steps: seq<Step>, n: nat)
    requires Possible(steps) && QuietResets(steps) && n < |steps|
    ensures Possible(steps[..n]) && QuietResets(steps[..n])
    ensures Run(steps[..n + 1]) == Next(Run(steps[..n]), steps[n])
  {
    assert forall i | 0 <= i < n :: steps[..n][..i] == steps[..i] && steps[..n][i] == steps[i];
    assert steps[..n + 1][..n] == steps[..n];
  }

  // In every run with quiet resets, a reminder whose cancellation succeeded is
  // never sent afterwards.
  lemma CancelledIsNeverSent(steps: seq<Step>, when: nat, id: nat, owner: string)
    requires Possible(steps) && QuietResets(steps) && when < |steps|
    requires steps[when] == CancelOne(id, owner)
    requires var s := Run(steps[..when]); id in s.rows && s.rows[id].owner == owner && s.rows[id].status == Pending
    ensures Run(steps).sends[id] == Run(steps[..when]).sends[id]
  {
    QuietPrefix(steps, when);
    QuietRunsHoldOnlySending(steps[..when]);
    CancellingLeavesItUnheld(Run(steps[..when]), id, owner);
    UnheldCancelledThroughout(steps, when + 1, id);
  }

  // Without quiet resets it fails: a reset in the middle of a delivery makes the
  // reminder cancellable, and the scheduler that holds it sends it all the same.
  lemma ResetDuringDelivery(owner: string)
    ensures var claimed := Next(Next(START, Create(owner, 5)), Claim(5, 10));
            var cancelled := Next(Next(claimed, Reset), CancelOne(1, owner));
            && 1 in Next(claimed, Reset).rows && Next(claimed, Reset).rows[1].status == Pending
            && 1 in cancelled.rows && cancelled.rows[1].status == Cancelled
            && Enabled(cancelled, Send(1)) && cancelled.sends[1] == 0
            && Next(cancelled, Send(1)).sends[1] == 1
  {
    var created := Next(START, Create(owner, 5));
    OnlyReminderIsClaimed(created.rows);
    var claimed := Next(created, Claim(5, 10));
    assert claimed.unsent == multiset{1};
  }

  lemma OnlyReminderIsClaimed(t: Table)
    requires t.Keys == {1} && t[1].status == Pending && t[1].remindAt <= 5
    ensures Batch(t, 5, 10) == [1]
  {
    assert DueIds(t, 5) == {1};
    assert RowOrder.Lists(DueKeys(t), DueIds(t, 5), [1]);
    RowOrder.ListingIsUnique(DueKeys(t), DueIds(t, 5), RowOrder.OrderBy(DueKeys(t), DueIds(t, 5)), [1]);
  }
}
