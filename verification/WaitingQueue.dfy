/**
 * The order in which waiting work is served: exact reordering by the owner, and
 * what the claim query picks compared with the list the owner sees.
 */
module WaitingQueue {
  import opened Wrappers
  import opened RowOrder
  import opened TaskTable

  // ------------------------------------------------------------- renumbering

  ghost predicate NoRepeats(ids: seq<nat>) {
    forall i, j | 0 <= i < j < |ids| :: ids[i] != ids[j]
  }

  // Nothing but the priority and the update time of the listed rows changes.
  ghost predicate OnlyPriorities(t: Table, after: Table, rows: set<nat>) {
    && after.Keys == t.Keys
    && (forall id | id in t && id !in rows :: after[id] == t[id])
    && (forall id | id in t && id in rows ::
          after[id] == t[id].(priority := after[id].priority, updatedAt := after[id].updatedAt))
  }

  lemma OnlyPrioritiesTwice(t: Table, middle: Table, after: Table, a: set<nat>, b: set<nat>)
    requires OnlyPriorities(t, middle, a) && OnlyPriorities(middle, after, b)
    ensures OnlyPriorities(t, after, a + b)
  {
  }

  lemma {:induction false} RenumberTouchesOnlyPriorities(t: Table, ids: seq<nat>, top: int, now: Instant)
    requires forall id | id in ids :: id in t
    ensures OnlyPriorities(t, RenumberFrom(t, ids, top, now), set id | id in ids)
    decreases |ids|
  {
    if ids != [] {
      var first := t[ids[0] := t[ids[0]].(priority := top - 1, updatedAt := now)];
      RenumberTouchesOnlyPriorities(first, ids[1..], top - 1, now);
      OnlyPrioritiesTwice(t, first, RenumberFrom(t, ids, top, now), {ids[0]}, set id | id in ids[1..]);
      assert (set id | id in ids) == {ids[0]} + (set id | id in ids[1..]);
    }
  }

  lemma {:induction false} RenumberDescends(t: Table, ids: seq<nat>, top: int, now: Instant, i: nat)
    requires forall id | id in ids :: id in t
    requires NoRepeats(ids) && i < |ids|
    ensures ids[i] in RenumberFrom(t, ids, top, now)
    ensures RenumberFrom(t, ids, top, now)[ids[i]].priority == top - 1 - i
    decreases |ids|
  {
    var first := t[ids[0] := t[ids[0]].(priority := top - 1, updatedAt := now)];
    RenumberTouchesOnlyPriorities(first, ids[1..], top - 1, now);
    if i == 0 {
      assert ids[0] !in ids[1..];
    } else {
      assert NoRepeats(ids[1..]) by {
        assert forall k | 0 <= k < |ids| - 1 :: ids[1..][k] == ids[k + 1];
      }
      RenumberDescends(first, ids[1..], top - 1, now, i - 1);
    }
  }

  lemma ListHasNoRepeats(t: Table, owner: string)
    ensures NoRepeats(WaitingList(t, owner))
  {
    var ids := WaitingList(t, owner);
    forall i, j | 0 <= i < j < |ids|
      ensures ids[i] != ids[j]
    {
      assert Before(QueueKeys(t), ids[i], ids[j]);
    }
  }

  // Whatever ties the old priorities had, renumbering makes any listing of the
  // waiting rows the waiting list.
  lemma RenumberFixesOrder(t: Table, owner: string, ids: seq<nat>, now: Instant)
    requires NoRepeats(ids)
    requires forall id :: id in ids <==> id in WaitingIds(t, owner)
    ensures WaitingList(Renumber(t, ids, now), owner) == ids
  {
    var after := Renumber(t, ids, now);
    RenumberTouchesOnlyPriorities(t, ids, |ids|, now);
    assert WaitingIds(after, owner) == WaitingIds(t, owner);
    forall i, j | 0 <= i < j < |ids|
      ensures Before(QueueKeys(after), ids[i], ids[j])
    {
      RenumberDescends(t, ids, |ids|, now, i);
      RenumberDescends(t, ids, |ids|, now, j);
    }
    assert Lists(QueueKeys(after), WaitingIds(after, owner), ids);
    ListingIsUnique(QueueKeys(after), WaitingIds(after, owner), WaitingList(after, owner), ids);
  }

  lemma SwapHasNoRepeats(ids: seq<nat>, i: nat, j: nat)
    requires NoRepeats(ids) && i < |ids| && j < |ids|
    ensures NoRepeats(Swapped(ids, i, j))
  {
    var swapped := Swapped(ids, i, j);
    assert forall k | 0 <= k < |ids| :: swapped[k] == ids[if k == i then j else if k == j then i else k];
  }

  lemma {:induction false} IndexOfMember(ids: seq<nat>, i: nat)
    requires NoRepeats(ids) && i < |ids|
    ensures IndexOf(ids, ids[i]) == i
  {
    if i > 0 {
      assert forall k | 0 <= k < |ids| - 1 :: ids[1..][k] == ids[k + 1];
      IndexOfMember(ids[1..], i - 1);
    }
  }

  lemma RenumberWaiting(t: Table, owner: string, ids: seq<nat>, now: Instant)
    requires forall id :: id in ids <==> id in WaitingIds(t, owner)
    ensures OnlyPriorities(t, Renumber(t, ids, now), WaitingIds(t, owner))
  {
    RenumberTouchesOnlyPriorities(t, ids, |ids|, now);
    assert (set id | id in ids) == WaitingIds(t, owner);
  }

  // ------------------------------------------------------------------ moving

  ghost predicate CanMove(ids: seq<nat>, id: nat, offset: int) {
    IndexOf(ids, id) < |ids| && 0 <= IndexOf(ids, id) + offset < |ids|
  }

  lemma SwappedListMembers(t: Table, owner: string, i: nat, j: nat)
    requires i < |WaitingList(t, owner)| && j < |WaitingList(t, owner)|
    ensures forall id :: id in Swapped(WaitingList(t, owner), i, j) <==> id in WaitingIds(t, owner)
    ensures NoRepeats(Swapped(WaitingList(t, owner), i, j))
  {
    WaitingListMembers(t, owner);
    SwapKeepsMembers(WaitingList(t, owner), i, j);
    ListHasNoRepeats(t, owner);
    SwapHasNoRepeats(WaitingList(t, owner), i, j);
  }

  lemma SwapWaitingSwaps(t: Table, owner: string, i: nat, j: nat, now: Instant)
    requires i < |WaitingList(t, owner)| && j < |WaitingList(t, owner)|
    ensures WaitingList(SwapWaiting(t, owner, i, j, now), owner) == Swapped(WaitingList(t, owner), i, j)
    ensures OnlyPriorities(t, SwapWaiting(t, owner, i, j, now), WaitingIds(t, owner))
  {
    SwappedListMembers(t, owner, i, j);
    RenumberFixesOrder(t, owner, Swapped(WaitingList(t, owner), i, j), now);
    RenumberWaiting(t, owner, Swapped(WaitingList(t, owner), i, j), now);
  }

  // A move that can be made swaps the row's place with its neighbour's.
  lemma MoveSwaps(t: Table, id: nat, owner: string, offset: int, now: Instant, from: nat, to: nat)
    requires (offset == -1 || offset == 1) && to == from + offset
    requires from < |WaitingList(t, owner)| && to < |WaitingList(t, owner)|
    requires IndexOf(WaitingList(t, owner), id) == from
    ensures WaitingList(MoveWaiting(t, id, owner, offset, now), owner) == Swapped(WaitingList(t, owner), from, to)
    ensures OnlyPriorities(t, MoveWaiting(t, id, owner, offset, now), WaitingIds(t, owner))
  {
    assert MoveWaiting(t, id, owner, offset, now) == SwapWaiting(t, owner, from, to, now);
    SwapWaitingSwaps(t, owner, from, to, now);
  }

  // A move swaps exactly two neighbours of the owner's list ...
  lemma MoveSwapsNeighbours(t: Table, id: nat, owner: string, offset: int, now: Instant)
    requires offset == -1 || offset == 1
    ensures var before := WaitingList(t, owner);
            var after := WaitingList(MoveWaiting(t, id, owner, offset, now), owner);
            var position := IndexOf(before, id);
            if CanMove(before, id, offset)
            then after == Swapped(before, position, position + offset)
            else after == before
  {
    var position := IndexOf(WaitingList(t, owner), id);
    if CanMove(WaitingList(t, owner), id, offset) {
      MoveSwaps(t, id, owner, offset, now, position, position + offset);
    }
  }

  // ... and changes no column but the priorities and update times of its rows.
  lemma MoveTouchesOnlyPriorities(t: Table, id: nat, owner: string, offset: int, now: Instant)
    requires offset == -1 || offset == 1
    ensures OnlyPriorities(t, MoveWaiting(t, id, owner, offset, now), WaitingIds(t, owner))
  {
    var position := IndexOf(WaitingList(t, owner), id);
    if CanMove(WaitingList(t, owner), id, offset) {
      MoveSwaps(t, id, owner, offset, now, position, position + offset);
    } else {
      assert MoveWaiting(t, id, owner, offset, now) == t;
    }
  }

  lemma SwapBack(ids: seq<nat>, i: nat, j: nat)
    requires i < |ids| && j < |ids|
    ensures |Swapped(ids, i, j)| == |ids| && Swapped(ids, i, j)[j] == ids[i]
    ensures Swapped(Swapped(ids, i, j), j, i) == ids
  {
  }

  // Moving a row one place and back restores the order.
  lemma MoveBackRestoresOrder(t: Table, id: nat, owner: string, offset: int, now: Instant, later: Instant)
    requires offset == -1 || offset == 1
    requires CanMove(WaitingList(t, owner), id, offset)
    ensures var moved := MoveWaiting(t, id, owner, offset, now);
            WaitingList(MoveWaiting(moved, id, owner, -offset, later), owner) == WaitingList(t, owner)
  {
    var before := WaitingList(t, owner);
    var from := IndexOf(before, id);
    var to := from + offset;
    MoveSwaps(t, id, owner, offset, now, from, to);
    SwapBack(before, from, to);
    var moved := MoveWaiting(t, id, owner, offset, now);
    ListHasNoRepeats(moved, owner);
    IndexOfMember(WaitingList(moved, owner), to);
    MoveSwaps(moved, id, owner, -offset, later, to, from);
  }

  // ------------------------------------------------------------------ claims

  // A retrying row of the owner with a smaller id holds this row back.
  predicate HeldBack(t: Table, id: nat)
    requires id in t
  {
    exists earlier | earlier in t ::
      t[earlier].owner == t[id].owner && t[earlier].status == Retrying && earlier < id
  }

  // Once expired leases are requeued, an owner is busy exactly when one of its
  // rows is in flight.
  predicate NoneExpired(t: Table, now: Instant) {
    forall id | id in t && InFlight(t[id]) :: !LeaseExpired(t[id], now)
  }

  lemma RequeueLeavesNoneExpired(t: Table, now: Instant)
    ensures NoneExpired(RequeueExpired(t, now), now)
  {
  }

  lemma BusyMeansInFlight(t: Table, owner: string, now: Instant)
    requires NoneExpired(t, now)
    ensures OwnerBusy(t, owner, now) <==> exists id :: id in t && t[id].owner == owner && InFlight(t[id])
  {
  }

  // The smallest-id retrying row of a free owner is never blocked.
  lemma FirstRetryIsClaimable(t: Table, id: nat, now: Instant)
    requires NoneExpired(t, now)
    requires id in t && t[id].status == Retrying && AttemptDue(t[id], now)
    requires !OwnerBusy(t, t[id].owner, now) && !HeldBack(t, id)
    ensures Claimable(t, id, now)
  {
  }

  lemma {:induction false} SmallestMember(ids: set<nat>) returns (least: nat)
    requires ids != {}
    ensures least in ids && forall id | id in ids :: least <= id
  {
    var some :| some in ids;
    var rest := ids - {some};
    assert forall id | id in ids :: id == some || id in rest;
    least := some;
    if rest != {} {
      var other := SmallestMember(rest);
      least := if other < some then other else some;
    }
  }

  // With the owner's attempts due, a free owner's waiting work has a claimable row.
  lemma FreeOwnerHasClaimable(t: Table, waiting: nat, now: Instant) returns (id: nat)
    requires NoneExpired(t, now)
    requires waiting in t && Waiting(t[waiting]) && !OwnerBusy(t, t[waiting].owner, now)
    requires forall id | id in t && t[id].owner == t[waiting].owner && Waiting(t[id]) :: AttemptDue(t[id], now)
    ensures id in ClaimableIds(t, now) && t[id].owner == t[waiting].owner
  {
    var owner := t[waiting].owner;
    var retrying := set id | id in t && t[id].owner == owner && t[id].status == Retrying;
    assert forall id | id in t && t[id].owner == owner && t[id].status == Retrying :: id in retrying;
    if retrying == {} {
      id := waiting;
    } else {
      id := SmallestMember(retrying);
      FirstRetryIsClaimable(t, id, now);
    }
  }

  ghost predicate OwnerInFlight(t: Table, owner: string) {
    exists id :: id in t && t[id].owner == owner && InFlight(t[id])
  }

  // A free owner's row is claimable exactly when its attempt is due and no
  // retrying row holds it back.
  lemma ClaimableExactly(t: Table, id: nat, now: Instant)
    requires NoneExpired(t, now) && id in t && Waiting(t[id])
    ensures Claimable(t, id, now)
            <==> !OwnerInFlight(t, t[id].owner) && AttemptDue(t[id], now) && !HeldBack(t, id)
  {
    BusyMeansInFlight(t, t[id].owner, now);
  }

  // A claim comes back empty exactly when the cap is reached or every waiting
  // row of every free owner is backing off or held back, all judged after
  // expired leases went back to the queue.
  lemma EmptyClaimExactly(t: Table, worker: string, leaseSeconds: int, maxActive: int, now: Instant)
    ensures var requeued := RequeueExpired(t, now);
            Claim(t, worker, leaseSeconds, maxActive, now).1 == None
            <==> || CapReached(requeued, maxActive)
                 || forall id | id in requeued && Waiting(requeued[id]) ::
                      || OwnerInFlight(requeued, requeued[id].owner)
                      || !AttemptDue(requeued[id], now) || HeldBack(requeued, id)
  {
    var requeued := RequeueExpired(t, now);
    RequeueLeavesNoneExpired(t, now);
    forall id | id in requeued && Waiting(requeued[id])
      ensures id in ClaimableIds(requeued, now)
              <==> && !OwnerInFlight(requeued, requeued[id].owner)
                   && AttemptDue(requeued[id], now) && !HeldBack(requeued, id)
    {
      ClaimableExactly(requeued, id, now);
    }
    assert forall id | id in ClaimableIds(requeued, now) :: Waiting(requeued[id]);
  }

  // Work conservation, owner by owner: below the cap a claim comes back empty
  // only if no owner is free whose waiting attempts are all due.
  lemma ClaimIsWorkConserving(t: Table, worker: string, leaseSeconds: int, maxActive: int, now: Instant, waiting: nat)
    requires Claim(t, worker, leaseSeconds, maxActive, now).1 == None
    requires var requeued := RequeueExpired(t, now);
             && waiting in requeued && Waiting(requeued[waiting])
             && forall id | id in requeued && requeued[id].owner == requeued[waiting].owner && Waiting(requeued[id]) ::
                  AttemptDue(requeued[id], now)
    ensures var requeued := RequeueExpired(t, now);
            CapReached(requeued, maxActive) || OwnerInFlight(requeued, requeued[waiting].owner)
  {
    var requeued := RequeueExpired(t, now);
    RequeueLeavesNoneExpired(t, now);
    BusyMeansInFlight(requeued, requeued[waiting].owner, now);
    if !OwnerBusy(requeued, requeued[waiting].owner, now) {
      var claimable := FreeOwnerHasClaimable(requeued, waiting, now);
    }
  }

  // A claim takes the head of the list its owner then sees if and only if that
  // head is due and no retrying row with a smaller id holds it back.
  lemma ClaimTakesHeadExactly(t: Table, worker: string, leaseSeconds: int, maxActive: int, now: Instant)
    requires Claim(t, worker, leaseSeconds, maxActive, now).1.Some?
    ensures var requeued := RequeueExpired(t, now);
            var picked := Claim(t, worker, leaseSeconds, maxActive, now).1.value;
            picked in requeued &&
            var list := WaitingList(requeued, requeued[picked].owner);
            list != [] && (picked == list[0] <==> AttemptDue(requeued[list[0]], now) && !HeldBack(requeued, list[0]))
  {
    var requeued := RequeueExpired(t, now);
    RequeueLeavesNoneExpired(t, now);
    PickTakesHeadExactly(requeued, maxActive, now);
  }

  lemma PickTakesHeadExactly(t: Table, maxActive: int, now: Instant)
    requires NoneExpired(t, now) && Pick(t, maxActive, now).Some?
    ensures var picked := Pick(t, maxActive, now).value;
            var list := WaitingList(t, t[picked].owner);
            list != [] && (picked == list[0] <==> AttemptDue(t[list[0]], now) && !HeldBack(t, list[0]))
  {
    var picked := Pick(t, maxActive, now).value;
    var list := WaitingList(t, t[picked].owner);
    assert picked in WaitingIds(t, t[picked].owner);
    assert picked in list;
    var head := list[0];
    assert head in WaitingIds(t, t[picked].owner);
    ClaimableExactly(t, picked, now);
    ClaimableExactly(t, head, now);
    if Claimable(t, head, now) {
      assert head in ClaimableIds(t, now);
      HeadIsFirst(QueueKeys(t), WaitingIds(t, t[picked].owner), list);
    }
  }

  // In particular an owner with due queued work only is served in list order.
  lemma QueuedWorkIsServedInListOrder(t: Table, worker: string, leaseSeconds: int, maxActive: int, now: Instant)
    requires Claim(t, worker, leaseSeconds, maxActive, now).1.Some?
    requires var requeued := RequeueExpired(t, now);
             var picked := Claim(t, worker, leaseSeconds, maxActive, now).1.value;
             picked in requeued && forall id | id in requeued && requeued[id].owner == requeued[picked].owner ::
               requeued[id].status != Retrying && (Waiting(requeued[id]) ==> AttemptDue(requeued[id], now))
    ensures var requeued := RequeueExpired(t, now);
            var picked := Claim(t, worker, leaseSeconds, maxActive, now).1.value;
            var list := WaitingList(requeued, requeued[picked].owner);
            list != [] && picked == list[0]
  {
    var requeued := RequeueExpired(t, now);
    var picked := Claim(t, worker, leaseSeconds, maxActive, now).1.value;
    ClaimTakesHeadExactly(t, worker, leaseSeconds, maxActive, now);
    WaitingListMembers(requeued, requeued[picked].owner);
    assert WaitingList(requeued, requeued[picked].owner)[0] in WaitingList(requeued, requeued[picked].owner);
  }

  // Two waiting rows of one owner, of which only the one listed second can be claimed.
  lemma TwoWaitingRows(t: Table, head: nat, other: nat, now: Instant)
    requires t.Keys == {head, other} && Waiting(t[head]) && Waiting(t[other])
    requires t[head].owner == t[other].owner && t[head].priority > t[other].priority
    requires Claimable(t, other, now) && !Claimable(t, head, now)
    ensures WaitingList(t, t[head].owner) == [head, other] && Pick(t, 3, now) == Some(other)
  {
    var owner := t[head].owner;
    assert WaitingIds(t, owner) == {head, other};
    assert Lists(QueueKeys(t), WaitingIds(t, owner), [head, other]);
    ListingIsUnique(QueueKeys(t), WaitingIds(t, owner), WaitingList(t, owner), [head, other]);
    assert InFlightIds(t) == {};
    assert ClaimableIds(t, now) == {other};
  }
}
