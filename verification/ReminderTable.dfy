/** The `reminders` table and the transactions that change it. */
module ReminderTable {
  import opened RowOrder

  const MAX_ATTEMPTS := 3

  datatype Status = Pending | Sending | Sent | Failed | Cancelled

  datatype Reminder = Reminder(owner: string, remindAt: int, status: Status, attempts: nat)

  type Table = map<nat, Reminder>

  function Cancel(t: Table, id: nat, owner: string): Table {
    if id in t && t[id].owner == owner && t[id].status == Pending
    then t[id := t[id].(status := Cancelled)]
    else t
  }

  function SendingIds(t: Table): set<nat> {
    set id | id in t && t[id].status == Sending
  }

  function ResetInterrupted(t: Table): Table {
    map id | id in t :: if t[id].status == Sending then t[id].(status := Pending) else t[id]
  }

  function DueIds(t: Table, now: int): set<nat> {
    set id | id in t && t[id].status == Pending && t[id].remindAt <= now
  }

  function DueKeys(t: Table): Keys {
    map id | id in t :: (t[id].remindAt, 0)
  }

  // ORDER BY remind_at, id LIMIT ?.
  function Batch(t: Table, now: int, limit: int): seq<nat> {
    var ids := OrderBy(DueKeys(t), DueIds(t, now));
    var size := if limit < 1 then 1 else if limit > 100 then 100 else limit;
    if |ids| <= size then ids else ids[..size]
  }

  lemma BatchIsDue(t: Table, now: int, limit: int)
    ensures forall id | id in Batch(t, now, limit) :: id in DueIds(t, now)
    ensures forall i, j | 0 <= i < j < |Batch(t, now, limit)| :: Batch(t, now, limit)[i] != Batch(t, now, limit)[j]
  {
    var ids := OrderBy(DueKeys(t), DueIds(t, now));
    assert forall i, j | 0 <= i < j < |ids| :: Before(DueKeys(t), ids[i], ids[j]);
  }

  predicate IsDue(t: Table, id: nat, now: int) {
    id in t && t[id].status == Pending && t[id].remindAt <= now
  }

  predicate DueBefore(a: nat, x: Reminder, b: nat, y: Reminder) {
    x.remindAt < y.remindAt || (x.remindAt == y.remindAt && a < b)
  }

  // As many due rows as the limit, held between 1 and 100, allows ...
  lemma BatchSize(t: Table, now: int, limit: int)
    ensures var due := |set id | id in t && t[id].status == Pending && t[id].remindAt <= now|;
            var most := if limit < 1 then 1 else if limit > 100 then 100 else limit;
            |Batch(t, now, limit)| == if due < most then due else most
  {
    ListingSize(DueKeys(t), DueIds(t, now));
    assert (set id | id in t && t[id].status == Pending && t[id].remindAt <= now) == DueIds(t, now);
  }

  lemma DueOrder(t: Table, now: int, i: nat, j: nat)
    requires i < j < |OrderBy(DueKeys(t), DueIds(t, now))|
    ensures var ids := OrderBy(DueKeys(t), DueIds(t, now));
            ids[i] in t && ids[j] in t && DueBefore(ids[i], t[ids[i]], ids[j], t[ids[j]])
  {
    var ids := OrderBy(DueKeys(t), DueIds(t, now));
    assert ids[i] in ids && ids[j] in ids;
    assert Before(DueKeys(t), ids[i], ids[j]);
  }

  // ... namely the ones that fell due first, in that order, and by id where
  // they fell due together.
  lemma BatchIsFirstDue(t: Table, now: int, limit: int)
    ensures var batch := Batch(t, now, limit);
            && (forall id | id in batch :: IsDue(t, id, now))
            && (forall i, j | 0 <= i < j < |batch| ::
                  batch[i] in t && batch[j] in t && DueBefore(batch[i], t[batch[i]], batch[j], t[batch[j]]))
            && (forall id: nat, i: nat | IsDue(t, id, now) && id !in batch && i < |batch| ::
                  batch[i] in t && DueBefore(batch[i], t[batch[i]], id, t[id]))
  {
    var ids, batch := OrderBy(DueKeys(t), DueIds(t, now)), Batch(t, now, limit);
    BatchIsDue(t, now, limit);
    forall i, j | 0 <= i < j < |batch|
      ensures batch[i] in t && batch[j] in t && DueBefore(batch[i], t[batch[i]], batch[j], t[batch[j]])
    {
      DueOrder(t, now, i, j);
    }
    assert forall k: nat | k < |batch| :: ids[k] == batch[k] && ids[k] in batch;
    forall id: nat, i: nat | IsDue(t, id, now) && id !in batch && i < |batch|
      ensures batch[i] in t && DueBefore(batch[i], t[batch[i]], id, t[id])
    {
      assert id in DueIds(t, now);
      var j: nat :| j < |ids| && ids[j] == id;
      DueOrder(t, now, i, j);
    }
  }

  // What one run of the scheduler does to a row: the batch is sent and marked,
  // a failure counts, the third one ends it; every other row stays.
  predicate Settled(row: Reminder, after: Reminder, taken: bool, delivers: bool) {
    && after.owner == row.owner && after.remindAt == row.remindAt
    && if !taken then after == row
       else if delivers then after.status == Sent && after.attempts == row.attempts
       else
         && after.attempts == row.attempts + 1
         && after.status == if row.attempts >= 2 then Failed else Pending
  }

  lemma RunSettlesExactly(t: Table, now: int, limit: int, delivers: nat -> bool)
    ensures var batch := Batch(t, now, limit);
            var after := Delivered(ClaimAll(t, batch), batch, delivers);
            && after.Keys == t.Keys
            && forall id | id in t :: Settled(t[id], after[id], id in batch, delivers(id))
  {
    BatchIsDue(t, now, limit);
  }

  // The other writes, row by row.
  lemma RowWritesAreExact(t: Table, id: nat, owner: string)
    ensures Cancel(t, id, owner)
            == if id in t && t[id].owner == owner && t[id].status == Pending
               then t[id := Reminder(owner, t[id].remindAt, Cancelled, t[id].attempts)] else t
    ensures MarkSent(t, id)
            == if id in t && t[id].status == Sending
               then t[id := Reminder(t[id].owner, t[id].remindAt, Sent, t[id].attempts)] else t
    ensures id in t && t[id].status == Sending ==>
              && MarkAttemptFailed(t, id).Keys == t.Keys
              && Settled(t[id], MarkAttemptFailed(t, id)[id], true, false)
              && forall other | other in t && other != id :: MarkAttemptFailed(t, id)[other] == t[other]
    ensures id !in t || t[id].status != Sending ==> MarkAttemptFailed(t, id) == t
    ensures ResetInterrupted(t).Keys == t.Keys
    ensures forall row | row in t ::
              ResetInterrupted(t)[row] == if t[row].status == Sending
                                          then Reminder(t[row].owner, t[row].remindAt, Pending, t[row].attempts)
                                          else t[row]
  {
  }

  // No row is claimed twice, and only due rows are.
  lemma BatchCount(t: Table, now: int, limit: int, id: nat)
    ensures multiset(Batch(t, now, limit))[id] == if id in Batch(t, now, limit) then 1 else 0
    ensures id in Batch(t, now, limit) ==> id in DueIds(t, now)
  {
    BatchIsDue(t, now, limit);
    CountInDistinct(Batch(t, now, limit), id);
  }

  lemma {:induction false} CountInDistinct(ids: seq<nat>, id: nat)
    requires forall i, j | 0 <= i < j < |ids| :: ids[i] != ids[j]
    ensures multiset(ids)[id] == if id in ids then 1 else 0
  {
    if ids != [] {
      var front, last := ids[..|ids| - 1], ids[|ids| - 1];
      assert ids == front + [last];
      CountInDistinct(front, id);
    }
  }

  function ClaimAll(t: Table, ids: seq<nat>): Table {
    map id | id in t ::
      if id in ids && t[id].status == Pending then t[id].(status := Sending) else t[id]
  }

  function MarkSent(t: Table, id: nat): Table {
    if id in t && t[id].status == Sending then t[id := t[id].(status := Sent)] else t
  }

  function MarkAttemptFailed(t: Table, id: nat): Table {
    if id in t && t[id].status == Sending then
      var attempts := t[id].attempts + 1;
      t[id := t[id].(attempts := attempts, status := if attempts < MAX_ATTEMPTS then Pending else Failed)]
    else
      t
  }

  // One batch after its deliveries succeeded or raised.
  function Delivered(t: Table, ids: seq<nat>, delivers: nat -> bool): Table {
    map id | id in t ::
      if id !in ids || t[id].status != Sending then t[id]
      else if delivers(id) then t[id].(status := Sent)
      else t[id].(attempts := t[id].attempts + 1,
                  status := if t[id].attempts + 1 < MAX_ATTEMPTS then Pending else Failed)
  }

  // ------------------------------------------------- one row of a batch more

  lemma BatchEntry(t: Table, now: int, limit: int, i: nat)
    requires i < |Batch(t, now, limit)|
    ensures var ids := Batch(t, now, limit); ids[i] in DueIds(t, now) && ids[i] !in ids[..i]
  {
    BatchIsDue(t, now, limit);
    assert Batch(t, now, limit)[i] in Batch(t, now, limit);
  }

  lemma ClaimOneMore(t: Table, ids: seq<nat>, i: nat)
    requires i < |ids| && ids[i] in t && t[ids[i]].status == Pending && ids[i] !in ids[..i]
    ensures ids[i] in ClaimAll(t, ids[..i]) && ClaimAll(t, ids[..i])[ids[i]] == t[ids[i]]
    ensures ClaimAll(t, ids[..i + 1]) == ClaimAll(t, ids[..i])[ids[i] := t[ids[i]].(status := Sending)]
  {
    assert ids[..i + 1] == ids[..i] + [ids[i]];
  }

  lemma DeliverOneMore(t: Table, ids: seq<nat>, i: nat, delivers: nat -> bool)
    requires i < |ids| && ids[i] in t && t[ids[i]].status == Sending && ids[i] !in ids[..i]
    ensures var before := Delivered(t, ids[..i], delivers);
            Delivered(t, ids[..i + 1], delivers)
            == if delivers(ids[i]) then MarkSent(before, ids[i]) else MarkAttemptFailed(before, ids[i])
  {
    assert ids[..i + 1] == ids[..i] + [ids[i]];
  }

  lemma CountOneMore(ids: seq<nat>, i: nat, delivers: nat -> bool)
    requires i < |ids| && ids[i] !in ids[..i]
    ensures |set id | id in ids[..i + 1] && delivers(id)|
            == |set id | id in ids[..i] && delivers(id)| + if delivers(ids[i]) then 1 else 0
  {
    var before, after := set id | id in ids[..i] && delivers(id), set id | id in ids[..i + 1] && delivers(id);
    assert ids[..i + 1] == ids[..i] + [ids[i]];
    assert after == if delivers(ids[i]) then before + {ids[i]} else before;
  }
}
