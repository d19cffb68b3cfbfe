/**
 * The pool-wide promotion gate of the worker service: a timestamp checked
 * before and again after taking a lock.  Workers interleave freely; a step ends
 * where a worker awaits the lock or the store.
 */
module PromotionGate {
  import opened Wrappers

  datatype Outcome = Done | Failed | Interrupted

  // What happened to `promote_due` calls, in order.
  datatype Record = Started(worker: nat, at: real) | Ended(worker: nat, outcome: Outcome)

  datatype Gate = Gate(lastPromote: real,        // 0.0 means "nothing promoted yet"
                       waiting: set<nat>,        // workers awaiting the lock
                       holder: Option<nat>,      // the worker inside promote_due
                       history: seq<Record>)

  const IDLE := Gate(0.0, {}, None, [])

  datatype Step = Check(worker: nat)                     // the test before the lock
                | Acquire(worker: nat)                   // the lock is granted; test again
                | GiveUp(worker: nat)                    // cancelled while awaiting the lock
                | Finish(worker: nat, outcome: Outcome)  // promote_due came back

  predicate Recent(g: Gate, poll: real, now: real) {
    g.lastPromote != 0.0 && now - g.lastPromote < poll
  }

  predicate CanTake(g: Gate, step: Step) {
    match step
    case Check(w) => w !in g.waiting && g.holder != Some(w)
    case Acquire(w) => w in g.waiting && g.holder.None?
    case GiveUp(w) => w in g.waiting
    case Finish(w, _) => g.holder == Some(w)
  }

  function Next(g: Gate, step: Step, poll: real, now: real): Gate {
    match step
    case Check(w) => if Recent(g, poll, now) then g else g.(waiting := g.waiting + {w})
    case Acquire(w) =>
      var served := g.(waiting := g.waiting - {w});
      if Recent(g, poll, now) then served
      else served.(lastPromote := now, holder := Some(w), history := g.history + [Started(w, now)])
    case GiveUp(w) => g.(waiting := g.waiting - {w})
    case Finish(w, outcome) =>
      g.(lastPromote := if outcome == Failed then 0.0 else g.lastPromote, holder := None,
         history := g.history + [Ended(w, outcome)])
  }

  // The fields the workers share.
  class PromotionState {
    const pollSeconds: real
    var lastPromote: real
    var waiting: set<nat>
    var holder: Option<nat>
    ghost var history: seq<Record>

    ghost function State(): Gate
      reads this
    {
      Gate(lastPromote, waiting, holder, history)
    }

    constructor (poll: real)
      ensures State() == IDLE && 0.5 <= pollSeconds <= 60.0
      ensures 0.5 <= poll <= 60.0 ==> pollSeconds == poll
    {
      pollSeconds := if poll < 0.5 then 0.5 else if poll > 60.0 then 60.0 else poll;
      lastPromote, waiting, holder, history := 0.0, {}, None, [];
    }

    // Up to the await of the lock; the worker waits unless a promotion is recent.
    method Check(worker: nat, now: real) returns (waits: bool)
      requires CanTake(State(), Step.Check(worker))
      modifies this
      ensures State() == Next(old(State()), Step.Check(worker), pollSeconds, now)
      ensures waits <==> worker in waiting
    {
      if lastPromote != 0.0 && now - lastPromote < pollSeconds {
        return false;
      }
      waiting := waiting + {worker};
      waits := true;
    }

    // From the grant of the lock to the call of promote_due or the early return.
    method Acquire(worker: nat, now: real) returns (promotes: bool)
      requires CanTake(State(), Step.Acquire(worker))
      modifies this
      ensures State() == Next(old(State()), Step.Acquire(worker), pollSeconds, now)
      ensures promotes <==> holder == Some(worker)
    {
      waiting := waiting - {worker};
      if lastPromote != 0.0 && now - lastPromote < pollSeconds {
        return false;
      }
      lastPromote := now;
      holder := Some(worker);
      history := history + [Started(worker, now)];
      promotes := true;
    }

    method Finish(worker: nat, outcome: Outcome)
      requires CanTake(State(), Step.Finish(worker, outcome))
      modifies this
      ensures State() == Next(old(State()), Step.Finish(worker, outcome), pollSeconds, 0.0)
    {
      if outcome == Failed {
        lastPromote := 0.0;
      }
      holder := None;
      history := history + [Ended(worker, outcome)];
    }
  }

  // -------------------------------------------------------------- invariants

  // Calls never overlap: every start is followed by the end of the same call
  // before anything else, and only the last call can still be open.
  ghost predicate NoOverlap(g: Gate) {
    && (forall i | 0 <= i < |g.history| :: g.history[i].Started? <==> i % 2 == 0)
    && (forall i | 0 < i < |g.history| && i % 2 == 1 :: g.history[i].worker == g.history[i - 1].worker)
    && (g.holder.Some? <==> |g.history| % 2 == 1)
    && (g.holder.Some? ==> g.history[|g.history| - 1].worker == g.holder.value)
  }

  // Two consecutive starts are a poll interval apart, unless the first call
  // failed or its start fell on the reading 0.0, which the gate cannot tell
  // from "nothing promoted yet".
  ghost predicate PacedAt(history: seq<Record>, i: nat, poll: real)
    requires i + 2 < |history|
  {
    && history[i].Started? && history[i + 1].Ended? && history[i + 2].Started?
    && (history[i + 1].outcome != Failed && history[i].at != 0.0
        ==> history[i + 2].at - history[i].at >= poll)
  }

  ghost predicate Paced(g: Gate, poll: real) {
    forall i: nat | i + 2 < |g.history| && i % 2 == 0 :: PacedAt(g.history, i, poll)
  }

  // The timestamp is the last start, or 0.0 after a failure or before any call.
  ghost predicate Stamped(g: Gate) {
    var n := |g.history|;
    if n == 0 then
      g.lastPromote == 0.0
    else if n % 2 == 1 then
      g.history[n - 1].Started? && g.lastPromote == g.history[n - 1].at
    else
      && g.history[n - 1].Ended? && g.history[n - 2].Started?
      && g.lastPromote == if g.history[n - 1].outcome == Failed then 0.0 else g.history[n - 2].at
  }

  ghost predicate Sound(g: Gate, poll: real) {
    NoOverlap(g) && Paced(g, poll) && Stamped(g)
  }

  lemma AppendKeepsPaced(g: Gate, record: Record, poll: real)
    requires Paced(g, poll)
    requires |g.history| >= 2 && |g.history| % 2 == 0 ==> PacedAt(g.history + [record], |g.history| - 2, poll)
    ensures Paced(g.(history := g.history + [record]), poll)
  {
    var longer := g.history + [record];
    forall i: nat | i + 2 < |longer| && i % 2 == 0
      ensures PacedAt(longer, i, poll)
    {
      if i + 2 < |g.history| {
        assert PacedAt(g.history, i, poll);
      }
    }
  }

  lemma StartKeepsSound(g: Gate, worker: nat, poll: real, now: real)
    requires Sound(g, poll) && CanTake(g, Acquire(worker)) && !Recent(g, poll, now)
    ensures Sound(Next(g, Acquire(worker), poll, now), poll)
  {
    AppendKeepsPaced(g, Started(worker, now), poll);
  }

  lemma FinishKeepsSound(g: Gate, worker: nat, outcome: Outcome, poll: real, now: real)
    requires Sound(g, poll) && CanTake(g, Finish(worker, outcome))
    ensures Sound(Next(g, Finish(worker, outcome), poll, now), poll)
  {
    AppendKeepsPaced(g, Ended(worker, outcome), poll);
  }

  lemma StepKeepsSound(g: Gate, step: Step, poll: real, now: real)
    requires Sound(g, poll) && CanTake(g, step)
    ensures Sound(Next(g, step, poll, now), poll)
  {
    match step {
      case Acquire(w) =>
        if !Recent(g, poll, now) {
          StartKeepsSound(g, w, poll, now);
        }
      case Finish(w, outcome) => FinishKeepsSound(g, w, outcome, poll, now);
      case _ =>
    }
  }

  // -------------------------------------------------------------------- runs

  datatype Event = Event(step: Step, now: real)

  function Run(events: seq<Event>, poll: real): Gate {
    if events == [] then
      IDLE
    else
      var last := events[|events| - 1];
      Next(Run(events[..|events| - 1], poll), last.step, poll, last.now)
  }

  ghost predicate Possible(events: seq<Event>, poll: real) {
    forall i | 0 <= i < |events| :: CanTake(Run(events[..i], poll), events[i].step)
  }

  // For every interleaving of any number of workers, and any clock readings.
  lemma {:induction false} EveryRunIsSound(events: seq<Event>, poll: real)
    requires Possible(events, poll)
    ensures Sound(Run(events, poll), poll)
    decreases |events|
  {
    if events != [] {
      var front, last := events[..|events| - 1], events[|events| - 1];
      assert forall i | 0 <= i < |front| :: front[..i] == events[..i] && front[i] == events[i];
      EveryRunIsSound(front, poll);
      assert CanTake(Run(front, poll), last.step);
      StepKeepsSound(Run(front, poll), last.step, poll, last.now);
    }
  }

  // Under the lock a worker starts a call if and only if there was none before,
  // the last one failed or started at the reading 0.0, or a poll interval has
  // passed since it started.
  lemma CallStartsExactly(g: Gate, worker: nat, poll: real, now: real)
    requires Sound(g, poll) && CanTake(g, Acquire(worker))
    ensures var n := |g.history|;
            && n % 2 == 0 && (n > 0 ==> g.history[n - 1].Ended? && g.history[n - 2].Started?)
            && (Next(g, Acquire(worker), poll, now).holder == Some(worker)
                <==> n == 0 || g.history[n - 1].outcome == Failed
                     || g.history[n - 2].at == 0.0 || now - g.history[n - 2].at >= poll)
  {
  }

  // The test before the lock says the same of the last start, also while its
  // call is still going on: whoever may start a call waits for the lock.
  lemma CheckWaitsExactly(g: Gate, worker: nat, poll: real, now: real)
    requires Sound(g, poll) && CanTake(g, Check(worker))
    ensures var n := |g.history|;
            var last := if n % 2 == 1 then n - 1 else n - 2;
            && (n > 0 ==> g.history[last].Started?)
            && (worker in Next(g, Check(worker), poll, now).waiting
                <==> n == 0 || (n % 2 == 0 && g.history[n - 1].outcome == Failed)
                     || g.history[last].at == 0.0 || now - g.history[last].at >= poll)
            && Next(g, Check(worker), poll, now)
               == g.(waiting := Next(g, Check(worker), poll, now).waiting)
            && Next(g, Check(worker), poll, now).waiting <= g.waiting + {worker}
  {
  }

  // So a worker that finds nobody inside, a poll interval after the last start,
  // does start the next call.
  lemma DuePromotionStarts(g: Gate, worker: nat, poll: real, now: real, later: real)
    requires Sound(g, poll) && CanTake(g, Check(worker)) && g.holder.None? && now <= later
    requires g.history != [] ==> now - g.history[|g.history| - 2].at >= poll
    ensures var checked := Next(g, Check(worker), poll, now);
            && CanTake(checked, Acquire(worker))
            && Next(checked, Acquire(worker), poll, later).history == g.history + [Started(worker, later)]
  {
  }

  // A failed call is retried by the next worker that gets through, at once.
  lemma FailureRetriesAtOnce(g: Gate, worker: nat, next: nat, poll: real, now: real)
    requires Sound(g, poll) && g.holder == Some(worker) && next != worker && next !in g.waiting
    ensures var failed := Next(g, Finish(worker, Failed), poll, now);
            var checked := Next(failed, Check(next), poll, now);
            && CanTake(failed, Check(next)) && CanTake(checked, Acquire(next))
            && Next(checked, Acquire(next), poll, now).holder == Some(next)
  {
  }

  // The exception in Paced is real: two successful calls can both start at 0.0.
  lemma ZeroReadingIsForgotten(poll: real)
    requires poll >= 0.5
    ensures var events := [Event(Check(1), 0.0), Event(Acquire(1), 0.0), Event(Finish(1, Done), 0.0),
                           Event(Check(2), 0.0), Event(Acquire(2), 0.0)];
            Run(events, poll).history == [Started(1, 0.0), Ended(1, Done), Started(2, 0.0)]
  {
    var e1, e2, e3 := Event(Check(1), 0.0), Event(Acquire(1), 0.0), Event(Finish(1, Done), 0.0);
    var e4, e5 := Event(Check(2), 0.0), Event(Acquire(2), 0.0);
    assert [e1][..0] == [];
    assert [e1, e2][..1] == [e1];
    assert [e1, e2, e3][..2] == [e1, e2];
    assert [e1, e2, e3, e4][..3] == [e1, e2, e3];
    assert [e1, e2, e3, e4, e5][..4] == [e1, e2, e3, e4];
    assert Run([e1], poll) == Gate(0.0, {1}, None, []);
    assert Run([e1, e2], poll) == Gate(0.0, {}, Some(1), [Started(1, 0.0)]);
    assert Run([e1, e2, e3], poll) == Gate(0.0, {}, None, [Started(1, 0.0), Ended(1, Done)]);
    assert Run([e1, e2, e3, e4], poll) == Gate(0.0, {2}, None, [Started(1, 0.0), Ended(1, Done)]);
  }
}
