/**
 * The stabilised worker limit: it follows a falling target at once and a rising
 * one a worker at a time, at most once per recovery period.
 */
module AdaptiveWorkers {
  import RealOrder
  import opened Wrappers

  // What the limiter remembers between calls; times are in seconds.
  datatype Limiter = Limiter(current: Option<int>,
                             lastPressure: Option<real>,
                             lastIncrease: Option<real>,
                             lastChange: Option<real>)

  datatype Config = Config(workers: int, recovery: real) {
    predicate Valid() {
      1 <= workers <= 8 && recovery >= 1.0
    }
  }

  const FRESH := Limiter(None, None, None, None)

  function Clamp(allowed: int, workers: int): int
    requires 1 <= workers
  {
    if allowed < 1 then 1 else if allowed > workers then workers else allowed
  }

  function Baseline(s: Limiter, now: real): real {
    if s.lastIncrease.Some? then s.lastIncrease.value
    else if s.lastPressure.Some? then s.lastPressure.value
    else now
  }

  // One call, given the worker count the resource policy allows.
  function AfterCall(c: Config, s: Limiter, allowed: int, now: real): Limiter
    requires c.Valid()
  {
    var target := Clamp(allowed, c.workers);
    if s.current.None? then
      s.(current := Some(target), lastChange := Some(now),
         lastPressure := if target < c.workers then Some(now) else s.lastPressure)
    else if target < s.current.value then
      Limiter(Some(target), Some(now), None, Some(now))
    else if target == s.current.value then
      s.(lastPressure := if target < c.workers then Some(now) else s.lastPressure)
    else
      var noted := if s.lastPressure.None? && s.lastIncrease.None? then s.(lastPressure := Some(now)) else s;
      if now - Baseline(s, now) < c.recovery then
        noted
      else
        var grown := s.current.value + 1;
        Limiter(Some(grown), if grown >= c.workers then None else noted.lastPressure, Some(now), Some(now))
  }

  // The object itself.
  class StabilizedWorkerLimit {
    const config: Config
    var current: Option<int>
    var lastPressureAt: Option<real>
    var lastIncreaseAt: Option<real>
    var lastChangeAt: Option<real>

    function State(): Limiter
      reads this
    {
      Limiter(current, lastPressureAt, lastIncreaseAt, lastChangeAt)
    }

    constructor (configuredWorkers: int, recoverySeconds: real)
      ensures config.Valid() && State() == FRESH
      ensures config.workers == Clamp(configuredWorkers, 8)
      ensures config.recovery == if recoverySeconds < 1.0 then 1.0 else recoverySeconds
    {
      config := Config(Clamp(configuredWorkers, 8),
                       if recoverySeconds < 1.0 then 1.0 else recoverySeconds);
      current, lastPressureAt, lastIncreaseAt, lastChangeAt := None, None, None, None;
    }

    // `_transition` for a limit that is already set.
    method Transition(workers: int, now: real) returns (stable: int)
      requires config.Valid() && current.Some?
      modifies this`current, this`lastChangeAt
      ensures stable == Clamp(workers, config.workers) && current == Some(stable)
      ensures lastChangeAt == if stable == old(current).value then old(lastChangeAt) else Some(now)
    {
      var previous := current.value;
      stable := Clamp(workers, config.workers);
      current := Some(stable);
      if previous != stable {
        lastChangeAt := Some(now);
      }
    }

    method Call(allowed: int, now: real) returns (limit: int)
      requires config.Valid() && (current.Some? ==> 1 <= current.value <= config.workers)
      modifies this
      ensures State() == AfterCall(config, old(State()), allowed, now)
      ensures current == Some(limit)
    {
      var target := Clamp(allowed, config.workers);
      if current.None? {
        current := Some(target);
        lastChangeAt := Some(now);
        if target < config.workers {
          lastPressureAt := Some(now);
        }
        return target;
      }
      if target < current.value {
        lastPressureAt := Some(now);
        lastIncreaseAt := None;
        limit := Transition(target, now);
        return;
      }
      if target <= current.value {
        if target < config.workers {
          lastPressureAt := Some(now);
        }
        return current.value;
      }
      var baseline := Baseline(State(), now);
      if lastPressureAt.None? && lastIncreaseAt.None? {
        lastPressureAt := Some(now);
      }
      if now - baseline < config.recovery {
        return current.value;
      }
      var recovered := if target < current.value + 1 then target else current.value + 1;
      lastIncreaseAt := Some(now);
      limit := Transition(recovered, now);
      if limit >= config.workers {
        lastPressureAt := None;
      }
    }
  }

  // -------------------------------------------------------------- invariants

  // Nothing the limiter remembers is newer than the clock, and the recovery
  // baseline never predates the last change.
  predicate Sound(c: Config, s: Limiter, clock: real) {
    if s.current.None? then
      s == FRESH
    else
      && 1 <= s.current.value <= c.workers
      && s.lastChange.Some? && s.lastChange.value <= clock
      && (s.lastIncrease.Some? ==> s.lastIncrease == s.lastChange)
      && (s.lastPressure.Some? ==> s.lastPressure.value <= clock)
      && (s.lastPressure.Some? && s.lastIncrease.None? ==> s.lastPressure.value >= s.lastChange.value)
      && (s.current.value < c.workers ==> s.lastIncrease.Some? || s.lastPressure.Some?)
  }

  predicate Increased(s: Limiter, after: Limiter) {
    s.current.Some? && after.current.Some? && after.current.value > s.current.value
  }

  // Everything one call guarantees in a sound state.
  lemma CallIsBounded(c: Config, s: Limiter, allowed: int, clock: real, now: real)
    requires c.Valid() && Sound(c, s, clock) && clock <= now
    ensures var after := AfterCall(c, s, allowed, now);
            var target := Clamp(allowed, c.workers);
            && Sound(c, after, now)
            // never above the target of this call, and a falling target is met at once
            && after.current.Some? && after.current.value <= target
            && (s.current.Some? && target < s.current.value ==> after.current.value == target)
            // an increase is a single worker, a recovery period after the last change
            && (Increased(s, after) ==>
                  && after.current.value == s.current.value + 1
                  && now - s.lastChange.value >= c.recovery
                  && after.lastChange == Some(now))
            && (after.current != s.current ==> after.lastChange == Some(now))
            && (after.current == s.current ==> after.lastChange == s.lastChange)
            // when there is something to recover, a baseline is always on record
            && (s.current.Some? && target > s.current.value ==> s.lastIncrease.Some? || s.lastPressure.Some?)
  {
  }

  // What one call does to the limit, in full: it starts at what the policy
  // allows, within one and the configured count, and follows a fall at once; it
  // rises by one if and only if a recovery period has passed since the last
  // increase it remembers, or else since the pressure.
  lemma CallIsExact(c: Config, s: Limiter, allowed: int, clock: real, now: real)
    requires c.Valid() && Sound(c, s, clock) && clock <= now
    ensures var after := AfterCall(c, s, allowed, now).current;
            var target := if allowed < 1 then 1 else if allowed > c.workers then c.workers else allowed;
            && (s.current.None? || target <= s.current.value ==> after == Some(target))
            && (s.current.Some? && target > s.current.value ==>
                  && (s.lastIncrease.Some? || s.lastPressure.Some?)
                  && var since := if s.lastIncrease.Some? then s.lastIncrease.value else s.lastPressure.value;
                  && since <= clock
                  && (now - since >= c.recovery ==> after == Some(s.current.value + 1))
                  && (now - since < c.recovery ==> after == s.current))
  {
  }

  // ... and to what it remembers: a limit short of the configured count was
  // last under pressure now unless it is recovering, and a fall forgets the
  // increase that came before it.
  lemma MemoryIsExact(c: Config, s: Limiter, allowed: int, clock: real, now: real)
    requires c.Valid() && Sound(c, s, clock) && clock <= now
    ensures var after := AfterCall(c, s, allowed, now);
            && (s.current.None? || allowed <= s.current.value ==>
                  after.lastPressure == if after.current.value < c.workers then Some(now) else s.lastPressure)
            && (s.current.Some? && allowed < s.current.value && after.current != s.current ==> after.lastIncrease.None?)
            && (s.current.Some? && after.current == s.current ==> after.lastIncrease == s.lastIncrease)
            && (Increased(s, after) ==>
                  && after.lastIncrease == Some(now)
                  && after.lastPressure == if after.current == Some(c.workers) then None else s.lastPressure)
  {
  }

  // -------------------------------------------------------------------- runs

  datatype Sample = Sample(allowed: int, now: real)

  ghost predicate Monotone(samples: seq<Sample>) {
    forall i | 0 < i < |samples| :: samples[i - 1].now <= samples[i].now
  }

  function Run(c: Config, samples: seq<Sample>): Limiter
    requires c.Valid()
  {
    if samples == [] then
      FRESH
    else
      var front, last := samples[..|samples| - 1], samples[|samples| - 1];
      AfterCall(c, Run(c, front), last.allowed, last.now)
  }

  // The readings at which the limit went up.
  function Increases(c: Config, samples: seq<Sample>): seq<real>
    requires c.Valid()
  {
    if samples == [] then
      []
    else
      var front, last := samples[..|samples| - 1], samples[|samples| - 1];
      Increases(c, front) + if Increased(Run(c, front), Run(c, samples)) then [last.now] else []
  }

  ghost predicate Spaced(times: seq<real>, gap: real) {
    forall i | 0 < i < |times| :: times[i] - times[i - 1] >= gap
  }

  lemma SpacedAppend(times: seq<real>, gap: real, next: real)
    requires Spaced(times, gap) && (times != [] ==> next - times[|times| - 1] >= gap)
    ensures Spaced(times + [next], gap)
  {
  }

  // Over any run with a monotone clock the limit stays sound and at or below
  // the latest target, and increases are a recovery period apart.
  lemma {:induction false} RunIsBounded(c: Config, samples: seq<Sample>)
    requires c.Valid() && Monotone(samples)
    ensures samples != [] ==>
              var last := samples[|samples| - 1];
              && Sound(c, Run(c, samples), last.now)
              && Run(c, samples).current.Some?
              && Run(c, samples).current.value <= Clamp(last.allowed, c.workers)
    ensures Spaced(Increases(c, samples), c.recovery)
    ensures Increases(c, samples) != [] ==>
              var times := Increases(c, samples);
              Run(c, samples).lastChange.Some? && times[|times| - 1] <= Run(c, samples).lastChange.value
    decreases |samples|
  {
    if samples != [] {
      var front, last := samples[..|samples| - 1], samples[|samples| - 1];
      RunIsBounded(c, front);
      var clock := if front == [] then last.now else front[|front| - 1].now;
      var s, after := Run(c, front), Run(c, samples);
      assert after == AfterCall(c, s, last.allowed, last.now);
      CallIsBounded(c, s, last.allowed, clock, last.now);
      if Increased(s, after) {
        SpacedAppend(Increases(c, front), c.recovery, last.now);
      }
    }
  }

  lemma {:induction false} SpacedSum(times: seq<real>, gap: real, i: nat, j: nat)
    requires Spaced(times, gap) && i <= j < |times|
    ensures times[j] - times[i] >= (j - i) as real * gap
    decreases j - i
  {
    if i < j {
      SpacedSum(times, gap, i, j - 1);
      assert (j - i) as real * gap == (j - 1 - i) as real * gap + gap;
    }
  }

  // A window of length L holds at most floor(L / recovery) + 1 increases.
  lemma WindowBound(c: Config, samples: seq<Sample>, first: nat, last: nat, length: real)
    requires c.Valid() && Monotone(samples) && length >= 0.0
    requires first <= last < |Increases(c, samples)|
    requires Increases(c, samples)[last] - Increases(c, samples)[first] <= length
    ensures last - first + 1 <= (length / c.recovery).Floor + 1
  {
    RunIsBounded(c, samples);
    SpacedWindow(Increases(c, samples), c.recovery, first, last, length);
  }

  lemma SpacedWindow(times: seq<real>, gap: real, first: nat, last: nat, length: real)
    requires gap > 0.0 && Spaced(times, gap)
    requires first <= last < |times| && times[last] - times[first] <= length
    ensures last - first <= (length / gap).Floor
  {
    SpacedSum(times, gap, first, last);
    WholePeriods(last - first, length, gap);
  }

  lemma WholePeriods(k: nat, length: real, period: real)
    requires period > 0.0 && k as real * period <= length
    ensures k <= (length / period).Floor
  {
    RealOrder.ProductOrder(k as real, length / period, period);
    assert k as real <= length / period;
  }

  // ---------------------------------------------------------------- recovery

  // The run that goes on from a given state.
  function RunOn(c: Config, s: Limiter, samples: seq<Sample>): Limiter
    requires c.Valid()
  {
    if samples == [] then
      s
    else
      var front, last := samples[..|samples| - 1], samples[|samples| - 1];
      AfterCall(c, RunOn(c, s, front), last.allowed, last.now)
  }

  lemma {:induction false} RunGoesOn(c: Config, front: seq<Sample>, samples: seq<Sample>)
    requires c.Valid()
    ensures Run(c, front + samples) == RunOn(c, Run(c, front), samples)
    decreases |samples|
  {
    if samples == [] {
      assert front + samples == front;
    } else {
      var all, shorter := front + samples, samples[..|samples| - 1];
      assert all[..|all| - 1] == front + shorter && all[|all| - 1] == samples[|samples| - 1];
      RunGoesOn(c, front, shorter);
    }
  }

  function LastReading(samples: seq<Sample>, clock: real): real {
    if samples == [] then clock else samples[|samples| - 1].now
  }

  // Each reading comes a gap or more after the one before it, the first after `clock`.
  predicate Apart(samples: seq<Sample>, clock: real, gap: real) {
    samples != [] ==>
      var front, last := samples[..|samples| - 1], samples[|samples| - 1];
      Apart(front, clock, gap) && last.now - LastReading(front, clock) >= gap
  }

  // While the policy allows `target` workers or more, samples a recovery period
  // apart raise the limit by one each until it is there.
  lemma {:induction false} RecoversFrom(c: Config, s: Limiter, clock: real, samples: seq<Sample>, target: int)
    requires c.Valid() && Sound(c, s, clock) && s.current.Some?
    requires 1 <= target <= c.workers && forall i | 0 <= i < |samples| :: samples[i].allowed >= target
    requires Apart(samples, clock, c.recovery)
    ensures var after := RunOn(c, s, samples);
            && Sound(c, after, LastReading(samples, clock)) && after.current.Some?
            && (after.current.value >= target || after.current.value >= s.current.value + |samples|)
            && (samples != [] && samples[|samples| - 1].allowed == target ==> after.current.value <= target)
    decreases |samples|
  {
    if samples != [] {
      var front, last := samples[..|samples| - 1], samples[|samples| - 1];
      RecoversFrom(c, s, clock, front, target);
      CallIsBounded(c, RunOn(c, s, front), last.allowed, LastReading(front, clock), last.now);
      CallIsExact(c, RunOn(c, s, front), last.allowed, LastReading(front, clock), last.now);
    }
  }

  // In any run: after target - limit samples, a recovery period apart, at which
  // `target` workers are allowed, the limit has reached the target.
  lemma HeldTargetIsReached(c: Config, front: seq<Sample>, samples: seq<Sample>, target: int)
    requires c.Valid() && front != [] && Monotone(front)
    requires 1 <= target <= c.workers && forall i | 0 <= i < |samples| :: samples[i].allowed >= target
    requires Apart(samples, front[|front| - 1].now, c.recovery)
    ensures var start, after := Run(c, front).current, Run(c, front + samples).current;
            && start.Some? && after.Some?
            && (|samples| >= target - start.value ==> after.value >= target)
            && (samples != [] && samples[|samples| - 1].allowed == target && |samples| >= target - start.value ==>
                  after.value == target)
  {
    RunIsBounded(c, front);
    RunGoesOn(c, front, samples);
    RecoversFrom(c, Run(c, front), front[|front| - 1].now, samples, target);
  }
}
