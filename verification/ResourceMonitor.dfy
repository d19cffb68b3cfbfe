/**
 * The host resource policy: health levels with hysteresis, the worker limit
 * they suggest, the limit production uses, and the running comparison of both.
 */
module ResourceMonitor {
  import RealOrder
  import opened Wrappers

  datatype Level = Healthy | Degraded | High | Critical

  function Rank(level: Level): (rank: nat)
    ensures rank <= 3
  {
    match level
    case Healthy => 0
    case Degraded => 1
    case High => 2
    case Critical => 3
  }

  function HealthLevel(score: int): Level {
    var value := if score < 0 then 0 else if score > 100 then 100 else score;
    if value >= 80 then Healthy else if value >= 60 then Degraded else if value >= 35 then High else Critical
  }

  // The score from which a level may be left for the next better one.
  function RecoveryThreshold(level: Level): int {
    match level
    case Critical => 40
    case High => 65
    case Degraded => 85
    case Healthy => 101
  }

  function Better(level: Level): Level {
    match level
    case Critical => High
    case High => Degraded
    case Degraded => Healthy
    case Healthy => Healthy
  }

  // stabilize_shadow_health_level
  function Stabilize(score: int, previous: Option<Level>): Level {
    var raw := HealthLevel(score);
    if previous.None? || Rank(raw) >= Rank(previous.value) then raw
    else if score < RecoveryThreshold(previous.value) then previous.value
    else Better(previous.value)
  }

  // The configured worker count, held to its range.
  function Configured(workers: int): (n: int)
    ensures 1 <= n <= 8
  {
    if workers < 1 then 1 else if workers > 8 then 8 else workers
  }

  // shadow_worker_limit
  function WorkerLimit(configured: int, level: Level): int {
    var workers := Configured(configured);
    match level
    case Critical => 1
    case High => if workers < 2 then workers else 2
    case Degraded => if workers < 3 then workers else 3
    case Healthy => workers
  }

  // ----------------------------------------------------------- whole-run facts

  // The levels after each sample, starting from `level`.
  function Levels(level: Level, scores: seq<int>): seq<Level>
    decreases |scores|
  {
    if scores == [] then
      [level]
    else
      [level] + Levels(Stabilize(scores[0], Some(level)), scores[1..])
  }

  // The stabilised level is never better than the raw one, a fall is followed
  // at once, and a recovery is one level at a time.
  lemma StabilizeIsCautious(score: int, previous: Level)
    ensures var level := Stabilize(score, Some(previous));
            && Rank(HealthLevel(score)) <= Rank(level)
            && Rank(previous) <= Rank(level) + 1
            && (Rank(HealthLevel(score)) >= Rank(previous) ==> level == HealthLevel(score))
  {
  }

  // Where each level goes at each score: the falls at 80, 60 and 35, and the
  // recoveries, five points later each, at 85, 65 and 40.
  lemma LevelByScore(score: int, workers: int)
    ensures var raw := if score >= 80 then Healthy else if score >= 60 then Degraded
                       else if score >= 35 then High else Critical;
            && Stabilize(score, None) == Stabilize(score, Some(Healthy)) == raw
            && Stabilize(score, Some(Degraded))
               == (if score >= 85 then Healthy else if score >= 60 then Degraded else raw)
            && Stabilize(score, Some(High))
               == (if score >= 65 then Degraded else if score >= 35 then High else Critical)
            && Stabilize(score, Some(Critical)) == (if score >= 40 then High else Critical)
    ensures WorkerLimit(workers, Critical) == 1
    ensures 1 <= workers <= 2 ==> WorkerLimit(workers, High) == WorkerLimit(workers, Degraded) == workers
    ensures workers >= 3 ==> WorkerLimit(workers, High) == 2 && WorkerLimit(workers, Degraded) == 3
    ensures 1 <= workers <= 8 ==> WorkerLimit(workers, Healthy) == workers
  {
  }

  // Scores of 85 and more make every level healthy, one level a sample.
  lemma {:induction false} RecoveryIsSteady(level: Level, scores: seq<int>, n: nat)
    requires n <= |scores| && forall i | 0 <= i < n :: scores[i] >= 85
    ensures |Levels(level, scores)| == |scores| + 1
    ensures Rank(Levels(level, scores)[n]) == if Rank(level) <= n then 0 else Rank(level) - n
    decreases |scores|
  {
    if scores != [] {
      var next := Stabilize(scores[0], Some(level));
      if n > 0 {
        LevelByScore(scores[0], 1);
        RecoveryIsSteady(next, scores[1..], n - 1);
      } else {
        RecoveryIsSteady(next, scores[1..], 0);
      }
    }
  }

  predicate Within(scores: seq<int>, low: int, width: int) {
    forall i | 0 <= i < |scores| :: low <= scores[i] <= low + width
  }

  ghost predicate NeverImproves(levels: seq<Level>) {
    forall i | 0 < i < |levels| :: Rank(levels[i]) >= Rank(levels[i - 1])
  }

  ghost predicate NeverWorsens(levels: seq<Level>) {
    forall i | 0 < i < |levels| :: Rank(levels[i]) <= Rank(levels[i - 1])
  }

  // `base` is the raw level of the lowest score.  Starting at it or worse, the
  // level never worsens; starting better, it never improves.
  lemma {:induction false} StartDecidesDirection(level: Level, scores: seq<int>, low: int)
    requires Within(scores, low, 5)
    ensures Rank(level) >= Rank(HealthLevel(low)) ==> NeverWorsens(Levels(level, scores))
    ensures Rank(level) <= Rank(HealthLevel(low)) ==> NeverImproves(Levels(level, scores))
    decreases |scores|
  {
    if scores != [] {
      var next := Stabilize(scores[0], Some(level));
      StepKeepsSide(level, scores[0], low);
      StartDecidesDirection(next, scores[1..], low);
      var tail := Levels(next, scores[1..]);
      assert Levels(level, scores) == [level] + tail && tail[0] == next;
    }
  }

  lemma StepKeepsSide(level: Level, score: int, low: int)
    requires low <= score <= low + 5
    ensures var next := Stabilize(score, Some(level));
            var base := HealthLevel(low);
            && (Rank(level) >= Rank(base) ==> Rank(base) <= Rank(next) <= Rank(level))
            && (Rank(level) <= Rank(base) ==> Rank(level) <= Rank(next) <= Rank(base))
  {
  }

  // Scores that differ by at most five cannot make the level both improve and
  // worsen, whatever level the run starts from.
  lemma NoOscillation(level: Level, scores: seq<int>, low: int)
    requires Within(scores, low, 5)
    ensures NeverImproves(Levels(level, scores)) || NeverWorsens(Levels(level, scores))
  {
    StartDecidesDirection(level, scores, low);
  }

  // Five is the best possible bound: six apart, the level swings both ways.
  lemma SixPointsOscillate()
    ensures Levels(Healthy, [79, 85]) == [Healthy, Degraded, Healthy]
  {
    assert [79, 85][1..] == [85] && [85][1..] == [];
  }

  // ------------------------------------------------------------ the comparison

  datatype Comparison = Comparison(samples: nat, agreements: nat, disagreements: nat,
                                   cumulative: nat, maximum: nat)

  function Abs(n: int): nat { if n < 0 then -n else n }

  // What the counters must be for the deltas observed so far.
  function Tally(deltas: seq<int>): Comparison {
    if deltas == [] then
      Comparison(0, 0, 0, 0, 0)
    else
      Counted(Tally(deltas[..|deltas| - 1]), deltas[|deltas| - 1])
  }

  // The counters after one more delta.
  function Counted(before: Comparison, delta: int): Comparison {
    var size := Abs(delta);
    Comparison(before.samples + 1,
               before.agreements + (if size == 0 then 1 else 0),
               before.disagreements + (if size == 0 then 0 else 1),
               before.cumulative + size,
               if before.maximum < size then size else before.maximum)
  }

  lemma TallyOneMore(deltas: seq<int>, delta: int)
    ensures Tally(deltas + [delta]) == Counted(Tally(deltas), delta)
  {
    assert (deltas + [delta])[..|deltas|] == deltas;
  }

  lemma ProductGrows(count: nat, small: nat, large: nat)
    requires small <= large
    ensures count * small <= count * large
    ensures count * small + large <= (count + 1) * large
  {
    assert count * (large - small) >= 0;
    assert count * (large - small) == count * large - count * small;
  }

  lemma {:induction false} TallyIsConsistent(deltas: seq<int>)
    ensures var c := Tally(deltas);
            && c.samples == |deltas|
            && c.samples == c.agreements + c.disagreements
            && c.disagreements <= c.cumulative <= c.disagreements * c.maximum
            && (forall i | 0 <= i < |deltas| :: Abs(deltas[i]) <= c.maximum)
  {
    if deltas != [] {
      var front := deltas[..|deltas| - 1];
      TallyIsConsistent(front);
      var before, after := Tally(front), Tally(deltas);
      ProductGrows(before.disagreements, before.maximum, after.maximum);
      assert forall i | 0 <= i < |front| :: deltas[i] == front[i];
    }
  }

  // The sizes of the deltas added up, first one first.
  function Sizes(deltas: seq<int>): nat {
    if deltas == [] then 0 else (if deltas[0] > 0 then deltas[0] else -deltas[0]) + Sizes(deltas[1..])
  }

  lemma {:induction false} SizesFromBack(front: seq<int>, last: int)
    ensures Sizes(front + [last]) == Sizes(front) + if last > 0 then last else -last
  {
    if front == [] {
      assert (front + [last])[1..] == [];
    } else {
      assert (front + [last])[1..] == front[1..] + [last];
      SizesFromBack(front[1..], last);
    }
  }

  // What the counters mean for any deltas: how many were zero, their sizes
  // added up, and the largest of them.
  lemma {:induction false} TallyIsExact(deltas: seq<int>)
    ensures Tally(deltas).agreements == |set i: nat | i < |deltas| && deltas[i] == 0|
    ensures Tally(deltas).cumulative == Sizes(deltas)
    ensures Tally(deltas).maximum == 0 || exists i: nat :: i < |deltas| && IsSize(deltas[i], Tally(deltas).maximum)
    decreases |deltas|
  {
    if deltas != [] {
      var front, last := deltas[..|deltas| - 1], deltas[|deltas| - 1];
      assert deltas == front + [last];
      TallyIsExact(front);
      SizesFromBack(front, last);
      assert (set i: nat | i < |deltas| && deltas[i] == 0)
             == (set i: nat | i < |front| && front[i] == 0) + if last == 0 then {|front|} else {};
      if Tally(deltas).maximum != Tally(front).maximum {
        assert IsSize(deltas[|front|], Tally(deltas).maximum);
      } else if Tally(front).maximum != 0 {
        var i: nat :| i < |front| && IsSize(front[i], Tally(front).maximum);
        assert IsSize(deltas[i], Tally(deltas).maximum);
      }
    }
  }

  predicate IsSize(delta: int, size: nat) { delta == size || -delta == size }

  // ---------------------------------------------------------------- decisions

  // One sample of the host; percentages as the snapshot's properties give them.
  datatype Snapshot = Snapshot(totalMemory: nat, availableMemory: nat, memoryPercent: real,
                               swapTotal: nat, swapPercent: real,
                               cpus: nat, load: real, diskFree: real, psi: Option<real>)

  function NormalizedLoad(s: Snapshot): real {
    s.load / (if s.cpus < 1 then 1 else s.cpus) as real
  }

  // The limit each signal imposes on its own: the specification of `decide`.
  function MemoryLimit(s: Snapshot): int {
    if s.availableMemory < 384 || s.memoryPercent < 12.0 then 1
    else if s.availableMemory < 768 || s.memoryPercent < 22.0 then 2 else 8
  }

  function StallLimit(s: Snapshot): int {
    if s.psi.None? then 8 else if s.psi.value >= 10.0 then 1 else if s.psi.value >= 2.0 then 2 else 8
  }

  function SwapLimit(s: Snapshot): int {
    if s.swapTotal < 256 then 8 else if s.swapPercent >= 90.0 then 1 else if s.swapPercent >= 70.0 then 2 else 8
  }

  function LoadLimit(s: Snapshot): int {
    if NormalizedLoad(s) >= 2.0 then 1
    else if NormalizedLoad(s) >= 1.2 then (if s.cpus < 1 then 1 else s.cpus) else 8
  }

  function DiskLimit(s: Snapshot): int {
    if s.diskFree < 5.0 then 1 else if s.diskFree < 10.0 then 2 else 8
  }

  function SizeLimit(s: Snapshot): int {
    if s.totalMemory == 0 then 8 else if s.totalMemory < 1536 then 1 else if s.totalMemory < 3072 then 2 else 8
  }

  predicate CriticalSignal(s: Snapshot) {
    || MemoryLimit(s) == 1
    || StallLimit(s) == 1
    || SwapLimit(s) == 1
    || NormalizedLoad(s) >= 2.0
    || DiskLimit(s) == 1
  }

  function Min(a: int, b: int): int { if a < b then a else b }

  function Allowed(configured: int, s: Snapshot): int {
    Min(configured, Min(MemoryLimit(s), Min(StallLimit(s),
      Min(SwapLimit(s), Min(LoadLimit(s), Min(DiskLimit(s), SizeLimit(s)))))))
  }

  // What the host must bear for a second worker, and what for a third and more.
  predicate BearsTwo(s: Snapshot) {
    && s.availableMemory >= 384 && s.memoryPercent >= 12.0
    && (s.psi.Some? ==> s.psi.value < 10.0)
    && (s.swapTotal >= 256 ==> s.swapPercent < 90.0)
    && s.diskFree >= 5.0
    && (s.totalMemory == 0 || s.totalMemory >= 1536)
  }

  predicate BearsMore(s: Snapshot) {
    && s.availableMemory >= 768 && s.memoryPercent >= 22.0
    && (s.psi.Some? ==> s.psi.value < 2.0)
    && (s.swapTotal >= 256 ==> s.swapPercent < 70.0)
    && s.diskFree >= 10.0
    && (s.totalMemory == 0 || s.totalMemory >= 3072)
  }

  // `n` workers are allowed exactly if so many are configured, the load leaves
  // room for them, and every other signal bears them.
  lemma WorkersAreExact(configured: int, s: Snapshot, n: int)
    requires 1 <= configured <= 8 && n >= 2
    ensures Allowed(configured, s) >= n
            <==> && n <= configured
                 && (if n == 2 then BearsTwo(s) else BearsMore(s))
                 && (NormalizedLoad(s) < 1.2 || (NormalizedLoad(s) < 2.0 && n <= s.cpus))
  {
  }

  // The penalties health_score adds up, one per signal.
  function MemoryPenalty(s: Snapshot): nat {
    if MemoryLimit(s) == 1 then 50 else if MemoryLimit(s) == 2 then 30 else if s.memoryPercent < 35.0 then 12 else 0
  }

  function StallPenalty(s: Snapshot): nat {
    if s.psi.None? then 0
    else if s.psi.value >= 10.0 then 40 else if s.psi.value >= 2.0 then 22 else if s.psi.value >= 0.5 then 8 else 0
  }

  function SwapPenalty(s: Snapshot): nat {
    if s.swapTotal < 256 then 0
    else if s.swapPercent >= 90.0 then 35 else if s.swapPercent >= 70.0 then 22
    else if s.swapPercent >= 40.0 then 8 else 0
  }

  function LoadPenalty(s: Snapshot): nat {
    var load := NormalizedLoad(s);
    if load >= 2.0 then 35 else if load >= 1.2 then 20 else if load >= 0.8 then 7 else 0
  }

  function DiskPenalty(s: Snapshot): nat {
    if s.diskFree < 5.0 then 40 else if s.diskFree < 10.0 then 25 else if s.diskFree < 20.0 then 8 else 0
  }

  function Penalty(s: Snapshot): nat {
    MemoryPenalty(s) + StallPenalty(s) + SwapPenalty(s) + LoadPenalty(s) + DiskPenalty(s)
  }

  // The score is perfect exactly on a host without pressure.
  lemma PerfectScoreExactly(s: Snapshot)
    ensures 100 - Min(100, Penalty(s)) == 100
            <==> && s.availableMemory >= 768 && s.memoryPercent >= 35.0
                 && (s.psi.Some? ==> s.psi.value < 0.5)
                 && (s.swapTotal >= 256 ==> s.swapPercent < 40.0)
                 && NormalizedLoad(s) < 0.8 && s.diskFree >= 20.0
  {
  }

  // The same host, no worse in any signal.
  predicate NoWorse(a: Snapshot, b: Snapshot) {
    && a.totalMemory == b.totalMemory && a.swapTotal == b.swapTotal && a.cpus == b.cpus
    && a.availableMemory >= b.availableMemory && a.memoryPercent >= b.memoryPercent
    && (a.psi.None? || (b.psi.Some? && a.psi.value <= b.psi.value))
    && a.swapPercent <= b.swapPercent && a.load <= b.load && a.diskFree >= b.diskFree
  }

  // Easing pressure never costs a worker, a health point or a raw level.
  lemma ReliefNeverHurts(configured: int, a: Snapshot, b: Snapshot)
    requires NoWorse(a, b)
    ensures Allowed(configured, a) >= Allowed(configured, b)
    ensures Penalty(a) <= Penalty(b)
    ensures Rank(HealthLevel(100 - Min(100, Penalty(a)))) <= Rank(HealthLevel(100 - Min(100, Penalty(b))))
  {
    LoadEases(a, b);
    LimitsEase(a, b);
    PenaltiesEase(a, b);
    LevelEases(100 - Min(100, Penalty(b)), 100 - Min(100, Penalty(a)));
  }

  lemma LimitsEase(a: Snapshot, b: Snapshot)
    requires NoWorse(a, b) && NormalizedLoad(a) <= NormalizedLoad(b)
    ensures MemoryLimit(a) >= MemoryLimit(b) && StallLimit(a) >= StallLimit(b) && SwapLimit(a) >= SwapLimit(b)
    ensures DiskLimit(a) >= DiskLimit(b) && SizeLimit(a) >= SizeLimit(b)
    ensures Min(8, LoadLimit(a)) >= Min(8, LoadLimit(b)) && MemoryLimit(b) <= 8
  {
  }

  lemma PenaltiesEase(a: Snapshot, b: Snapshot)
    requires NoWorse(a, b) && NormalizedLoad(a) <= NormalizedLoad(b)
    ensures MemoryPenalty(a) <= MemoryPenalty(b) && StallPenalty(a) <= StallPenalty(b)
    ensures SwapPenalty(a) <= SwapPenalty(b) && LoadPenalty(a) <= LoadPenalty(b) && DiskPenalty(a) <= DiskPenalty(b)
  {
  }

  lemma LevelEases(low: int, high: int)
    requires low <= high
    ensures Rank(HealthLevel(high)) <= Rank(HealthLevel(low))
  {
  }

  lemma LoadEases(a: Snapshot, b: Snapshot)
    requires a.cpus == b.cpus && a.load <= b.load
    ensures NormalizedLoad(a) <= NormalizedLoad(b)
  {
    var cpus := (if a.cpus < 1 then 1 else a.cpus) as real;
    RealOrder.ProductOrder(NormalizedLoad(a), NormalizedLoad(b), cpus);
    assert NormalizedLoad(a) * cpus == a.load && NormalizedLoad(b) * cpus == b.load;
  }

  // health_score: every signal takes its own penalty off 100.
  method HealthScore(s: Snapshot) returns (score: int)
    ensures score == 100 - Min(100, Penalty(s))
    ensures 0 <= score <= 100
    ensures CriticalSignal(s) ==> score <= 65
  {
    var penalty := 0;
    if s.availableMemory < 384 || s.memoryPercent < 12.0 {
      penalty := penalty + 50;
    } else if s.availableMemory < 768 || s.memoryPercent < 22.0 {
      penalty := penalty + 30;
    } else if s.memoryPercent < 35.0 {
      penalty := penalty + 12;
    }
    assert penalty == MemoryPenalty(s);
    if s.psi.Some? {
      if s.psi.value >= 10.0 {
        penalty := penalty + 40;
      } else if s.psi.value >= 2.0 {
        penalty := penalty + 22;
      } else if s.psi.value >= 0.5 {
        penalty := penalty + 8;
      }
    }
    assert penalty == MemoryPenalty(s) + StallPenalty(s);
    if s.swapTotal >= 256 {
      if s.swapPercent >= 90.0 {
        penalty := penalty + 35;
      } else if s.swapPercent >= 70.0 {
        penalty := penalty + 22;
      } else if s.swapPercent >= 40.0 {
        penalty := penalty + 8;
      }
    }
    assert penalty == MemoryPenalty(s) + StallPenalty(s) + SwapPenalty(s);
    var load := NormalizedLoad(s);
    if load >= 2.0 {
      penalty := penalty + 35;
    } else if load >= 1.2 {
      penalty := penalty + 20;
    } else if load >= 0.8 {
      penalty := penalty + 7;
    }
    assert penalty == MemoryPenalty(s) + StallPenalty(s) + SwapPenalty(s) + LoadPenalty(s);
    if s.diskFree < 5.0 {
      penalty := penalty + 40;
    } else if s.diskFree < 10.0 {
      penalty := penalty + 25;
    } else if s.diskFree < 20.0 {
      penalty := penalty + 8;
    }
    assert penalty == Penalty(s);
    score := if penalty > 100 then 0 else 100 - penalty;
  }

  datatype Decision = Decision(allowed: int, score: int, shadowLevel: Level, shadowWorkers: int, delta: int)

  class HostResourcePolicy {
    var shadowLevel: Option<Level>
    var samples: nat
    var agreements: nat
    var disagreements: nat
    var cumulative: nat
    var maximum: nat
    ghost var deltas: seq<int>

    function Counters(): Comparison
      reads this
    {
      Comparison(samples, agreements, disagreements, cumulative, maximum)
    }

    ghost predicate Valid()
      reads this
    {
      Counters() == Tally(deltas)
    }

    constructor ()
      ensures Valid() && deltas == [] && shadowLevel == None
    {
      shadowLevel := None;
      samples, agreements, disagreements, cumulative, maximum := 0, 0, 0, 0, 0;
      deltas := [];
    }

    // The counters' share of `_record_shadow_comparison`.
    method Count(delta: int)
      modifies this`samples, this`agreements, this`disagreements, this`cumulative, this`maximum
      ensures Counters() == Counted(old(Counters()), delta)
    {
      var size := Abs(delta);
      samples := samples + 1;
      if delta == 0 {
        agreements := agreements + 1;
      } else {
        disagreements := disagreements + 1;
      }
      cumulative := cumulative + size;
      if maximum < size {
        maximum := size;
      }
    }

    method RecordShadowComparison(productionWorkers: int, shadowWorkers: int) returns (delta: int)
      requires Valid()
      modifies this
      ensures Valid() && deltas == old(deltas) + [delta] && delta == shadowWorkers - productionWorkers
      ensures shadowLevel == old(shadowLevel)
    {
      delta := shadowWorkers - productionWorkers;
      Count(delta);
      TallyOneMore(deltas, delta);
      deltas := deltas + [delta];
    }

    // The first branches of `decide`: memory, stalls and swap.
    static method MemorySignals(configured: int, s: Snapshot) returns (allowed: int)
      requires 1 <= configured <= 8
      ensures allowed == Min(configured, Min(MemoryLimit(s), Min(StallLimit(s), SwapLimit(s)))) && allowed >= 1
    {
      allowed := configured;
      if s.availableMemory < 384 || s.memoryPercent < 12.0 {
        allowed := 1;
      } else if s.availableMemory < 768 || s.memoryPercent < 22.0 {
        allowed := Min(allowed, 2);
      }
      if s.psi.Some? {
        if s.psi.value >= 10.0 {
          allowed := 1;
        } else if s.psi.value >= 2.0 {
          allowed := Min(allowed, 2);
        }
      }
      if s.swapTotal >= 256 {
        if s.swapPercent >= 90.0 {
          allowed := 1;
        } else if s.swapPercent >= 70.0 {
          allowed := Min(allowed, 2);
        }
      }
    }

    // The remaining ones: load, disk and the size of the host.
    static method HostSignals(before: int, s: Snapshot) returns (allowed: int)
      requires 1 <= before <= 8
      ensures allowed == Min(before, Min(LoadLimit(s), Min(DiskLimit(s), SizeLimit(s)))) && allowed >= 1
    {
      allowed := before;
      var load := NormalizedLoad(s);
      if load >= 2.0 {
        allowed := 1;
      } else if load >= 1.2 {
        allowed := Min(allowed, if s.cpus < 1 then 1 else s.cpus);
      }
      if s.diskFree < 5.0 {
        allowed := 1;
      } else if s.diskFree < 10.0 {
        allowed := Min(allowed, 2);
      }
      if s.totalMemory != 0 && s.totalMemory < 1536 {
        allowed := Min(allowed, 1);
      } else if s.totalMemory != 0 && s.totalMemory < 3072 {
        allowed := Min(allowed, 2);
      }
      if allowed < 1 {
        allowed := 1;
      }
    }

    // The branches in the order the code takes them; the result is the minimum
    // of the configured count and the signals' own limits.
    static method ProductionWorkers(configuredWorkers: int, s: Snapshot) returns (allowed: int)
      ensures allowed == Allowed(Configured(configuredWorkers), s)
      ensures 1 <= allowed <= 8
      ensures CriticalSignal(s) ==> allowed == 1
    {
      var configured := Configured(configuredWorkers);
      allowed := MemorySignals(configured, s);
      allowed := HostSignals(allowed, s);
    }

    method Decide(configuredWorkers: int, s: Snapshot) returns (decision: Decision)
      requires Valid()
      modifies this
      ensures Valid() && deltas == old(deltas) + [decision.delta]
      ensures decision.shadowLevel == Stabilize(decision.score, old(shadowLevel))
      ensures shadowLevel == Some(decision.shadowLevel)
      ensures decision.shadowWorkers == WorkerLimit(configuredWorkers, decision.shadowLevel)
      ensures decision.delta == decision.shadowWorkers - decision.allowed
      ensures decision.allowed == Allowed(Configured(configuredWorkers), s)
      ensures decision.score == 100 - Min(100, Penalty(s))
      ensures 1 <= decision.allowed <= 8 && 1 <= decision.shadowWorkers <= 8
    {
      var allowed := ProductionWorkers(configuredWorkers, s);
      var score := HealthScore(s);
      var level := Stabilize(score, shadowLevel);
      shadowLevel := Some(level);
      var shadowWorkers := WorkerLimit(configuredWorkers, level);
      var delta := RecordShadowComparison(allowed, shadowWorkers);
      decision := Decision(allowed, score, level, shadowWorkers, delta);
    }
  }
}
