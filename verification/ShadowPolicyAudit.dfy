/**
 * Auditing a shadow policy against production: an edge-triggered log of
 * divergences, and a rolling window that must pass five gates for a continuous
 * stretch of time before promotion is called ready.
 */
module ShadowPolicyAudit {
  import opened Wrappers

  // ---------------------------------------------------------- divergence log

  // The divergence in force: worker delta and shadow health level, or none.
  datatype Signature = Signature(delta: int, level: string)

  datatype Outcome = Started | Changed | Resolved

  datatype Entry = Entry(outcome: Outcome, previous: Option<Signature>, current: Option<Signature>)

  function Abs(n: int): nat { if n < 0 then -n else n }

  function SignatureOf(delta: int, level: string, minAbsDelta: nat): Option<Signature> {
    if Abs(delta) < minAbsDelta then None else Some(Signature(delta, level))
  }

  function Transition(previous: Option<Signature>, current: Option<Signature>): Entry {
    Entry(if current.None? then Resolved else if previous.None? then Started else Changed, previous, current)
  }

  // The log an observer of these signatures must write.
  function Changes(signatures: seq<Option<Signature>>): seq<Entry> {
    if signatures == [] then
      []
    else
      var front, last := signatures[..|signatures| - 1], signatures[|signatures| - 1];
      Changes(front) + if last == Latest(front) then [] else [Transition(Latest(front), last)]
  }

  function Latest(signatures: seq<Option<Signature>>): Option<Signature> {
    if signatures == [] then None else signatures[|signatures| - 1]
  }

  function Replay(log: seq<Entry>): Option<Signature> {
    if log == [] then None else log[|log| - 1].current
  }

  // A prefix of (started changed* resolved)*; `open` says a divergence is in force.
  predicate WellNested(log: seq<Entry>, open: bool) {
    if log == [] then
      true
    else
      match log[0].outcome
      case Started => !open && WellNested(log[1..], true)
      case Changed => open && WellNested(log[1..], true)
      case Resolved => open && WellNested(log[1..], false)
  }

  predicate OpenAfter(log: seq<Entry>, open: bool) {
    if log == [] then open else log[|log| - 1].outcome != Resolved
  }

  // Each entry starts from where the one before it ended, and changes it.
  ghost predicate StutterFree(log: seq<Entry>) {
    && (forall i | 0 <= i < |log| :: log[i].previous != log[i].current)
    && (forall i | 0 < i < |log| :: log[i].previous == log[i - 1].current)
    && (log != [] ==> log[0].previous == None)
  }

  lemma {:induction false} AppendKeepsNesting(log: seq<Entry>, open: bool, entry: Entry)
    requires WellNested(log, open)
    requires entry.outcome.Started? <==> !OpenAfter(log, open)
    ensures WellNested(log + [entry], open)
  {
    if log == [] {
      assert (log + [entry])[1..] == [];
    } else {
      assert (log + [entry])[1..] == log[1..] + [entry];
      AppendKeepsNesting(log[1..], log[0].outcome != Resolved, entry);
    }
  }

  // The log of any observations: its grammar, no stutter, and replaying it
  // yields the signature in force.
  lemma {:induction false} LogIsExact(signatures: seq<Option<Signature>>)
    ensures var log := Changes(signatures);
            && WellNested(log, false)
            && StutterFree(log)
            && Replay(log) == Latest(signatures)
            && OpenAfter(log, false) == Latest(signatures).Some?
  {
    if signatures != [] {
      var front, last := signatures[..|signatures| - 1], signatures[|signatures| - 1];
      LogIsExact(front);
      if last != Latest(front) {
        AppendKeepsNesting(Changes(front), false, Transition(Latest(front), last));
      } else {
        assert Changes(signatures) == Changes(front);
      }
    }
  }

  lemma {:induction false} LogGrows(signatures: seq<Option<Signature>>, n: nat)
    requires n <= |signatures|
    ensures |Changes(signatures[..n])| <= |Changes(signatures)|
    ensures Changes(signatures[..n]) == Changes(signatures)[..|Changes(signatures[..n])|]
    decreases |signatures|
  {
    if n < |signatures| {
      var front := signatures[..|signatures| - 1];
      assert front[..n] == signatures[..n];
      LogGrows(front, n);
    } else {
      assert signatures[..n] == signatures;
    }
  }

  // The log loses nothing: after any observation, the part written by then
  // replays to that very observation's signature.
  lemma LogTellsEverySignature(signatures: seq<Option<Signature>>, n: nat)
    requires 0 < n <= |signatures|
    ensures |Changes(signatures[..n])| <= |Changes(signatures)|
    ensures Replay(Changes(signatures)[..|Changes(signatures[..n])|]) == signatures[n - 1]
  {
    LogGrows(signatures, n);
    LogIsExact(signatures[..n]);
  }

  // --------------------------------------------------------------- statistics

  datatype Config = Config(window: nat, minSamples: nat, minAgreement: real, maxMean: real,
                           maxAbs: int, maxAggressive: real, requiredStable: real, minAbsDelta: nat)

  function Agreements(deltas: seq<int>): nat {
    if deltas == [] then 0 else Agreements(deltas[1..]) + if deltas[0] == 0 then 1 else 0
  }

  function Aggressive(deltas: seq<int>): nat {
    if deltas == [] then 0 else Aggressive(deltas[1..]) + if deltas[0] > 0 then 1 else 0
  }

  function Conservative(deltas: seq<int>): nat {
    if deltas == [] then 0 else Conservative(deltas[1..]) + if deltas[0] < 0 then 1 else 0
  }

  function TotalAbs(deltas: seq<int>): nat {
    if deltas == [] then 0 else TotalAbs(deltas[1..]) + Abs(deltas[0])
  }

  function MaxAbs(deltas: seq<int>): nat {
    if deltas == [] then 0
    else if Abs(deltas[0]) > MaxAbs(deltas[1..]) then Abs(deltas[0]) else MaxAbs(deltas[1..])
  }

  function Percent(count: nat, samples: nat): real {
    if samples == 0 then 0.0 else count as real * 100.0 / samples as real
  }

  // The five gates of the statistics.
  predicate Passes(c: Config, deltas: seq<int>) {
    && |deltas| >= c.minSamples
    && Percent(Agreements(deltas), |deltas|) >= c.minAgreement
    && (if deltas == [] then 0.0 else TotalAbs(deltas) as real / |deltas| as real) <= c.maxMean
    && MaxAbs(deltas) <= c.maxAbs
    && Percent(Aggressive(deltas), |deltas|) <= c.maxAggressive
  }

  // Every sample agrees, leans one way or leans the other.
  lemma {:induction false} CountsAddUp(deltas: seq<int>)
    ensures Agreements(deltas) + Aggressive(deltas) + Conservative(deltas) == |deltas|
  {
    if deltas != [] {
      CountsAddUp(deltas[1..]);
    }
  }

  // The places of the window where both policies agree, and where the shadow
  // policy allows more.
  function AgreeingPlaces(deltas: seq<int>): set<nat> {
    set i: nat | i < |deltas| && deltas[i] == 0
  }

  function AggressivePlaces(deltas: seq<int>): set<nat> {
    set i: nat | i < |deltas| && deltas[i] > 0
  }

  lemma {:induction false} CountsFromBack(front: seq<int>, last: int)
    ensures Agreements(front + [last]) == Agreements(front) + if last == 0 then 1 else 0
    ensures Aggressive(front + [last]) == Aggressive(front) + if last > 0 then 1 else 0
  {
    if front == [] {
      assert (front + [last])[1..] == [];
    } else {
      assert (front + [last])[1..] == front[1..] + [last];
      CountsFromBack(front[1..], last);
    }
  }

  lemma PlacesFromBack(front: seq<int>, last: int)
    ensures AgreeingPlaces(front + [last]) == AgreeingPlaces(front) + if last == 0 then {|front|} else {}
    ensures AggressivePlaces(front + [last]) == AggressivePlaces(front) + if last > 0 then {|front|} else {}
  {
  }

  lemma {:induction false} CountsArePlaces(deltas: seq<int>)
    ensures Agreements(deltas) == |AgreeingPlaces(deltas)|
    ensures Aggressive(deltas) == |AggressivePlaces(deltas)|
    decreases |deltas|
  {
    if deltas != [] {
      var front, last := deltas[..|deltas| - 1], deltas[|deltas| - 1];
      assert deltas == front + [last];
      CountsArePlaces(front);
      CountsFromBack(front, last);
      PlacesFromBack(front, last);
    }
  }

  // The sizes of the deltas, last one first.
  function Magnitude(deltas: seq<int>): nat {
    if deltas == [] then
      0
    else
      var last := deltas[|deltas| - 1];
      Magnitude(deltas[..|deltas| - 1]) + if last > 0 then last else -last
  }

  lemma {:induction false} MagnitudeFromFront(deltas: seq<int>)
    requires deltas != []
    ensures Magnitude(deltas) == Magnitude(deltas[1..]) + if deltas[0] > 0 then deltas[0] else -deltas[0]
  {
    var n := |deltas| - 1;
    if n > 0 {
      MagnitudeFromFront(deltas[..n]);
      assert deltas[..n][1..] == deltas[1..][..n - 1];
    }
  }

  lemma {:induction false} TotalIsMagnitude(deltas: seq<int>)
    ensures TotalAbs(deltas) == Magnitude(deltas)
  {
    if deltas != [] {
      TotalIsMagnitude(deltas[1..]);
      MagnitudeFromFront(deltas);
    }
  }

  lemma {:induction false} MaxAbsBounds(deltas: seq<int>, bound: int)
    ensures MaxAbs(deltas) <= bound
            <==> bound >= 0 && forall i | 0 <= i < |deltas| :: -bound <= deltas[i] <= bound
  {
    if deltas != [] {
      MaxAbsBounds(deltas[1..], bound);
      assert forall i | 0 < i < |deltas| :: deltas[i] == deltas[1..][i - 1];
    }
  }

  // A rate over the window: the total shared evenly, and zero for an empty window.
  predicate IsRate(rate: real, total: real, samples: nat) {
    if samples == 0 then rate == 0.0 else rate * samples as real == total
  }

  lemma QuotientIsRate(total: real, samples: nat)
    requires samples > 0
    ensures IsRate(total / samples as real, total, samples)
  {
  }

  // The gates, on the window itself: enough samples; a high enough percentage
  // of places where both agree; a small enough mean size of the deltas; no
  // delta out of bounds; and a low enough percentage of aggressive places.
  lemma PassesExactly(c: Config, deltas: seq<int>) returns (agreement: real, mean: real, aggressive: real)
    ensures IsRate(agreement, |AgreeingPlaces(deltas)| as real * 100.0, |deltas|)
    ensures IsRate(mean, Magnitude(deltas) as real, |deltas|)
    ensures IsRate(aggressive, |AggressivePlaces(deltas)| as real * 100.0, |deltas|)
    ensures Passes(c, deltas) <==>
              && |deltas| >= c.minSamples
              && agreement >= c.minAgreement
              && mean <= c.maxMean
              && c.maxAbs >= 0 && (forall i | 0 <= i < |deltas| :: -c.maxAbs <= deltas[i] <= c.maxAbs)
              && aggressive <= c.maxAggressive
  {
    CountsArePlaces(deltas);
    TotalIsMagnitude(deltas);
    MaxAbsBounds(deltas, c.maxAbs);
    agreement, aggressive := Percent(Agreements(deltas), |deltas|), Percent(Aggressive(deltas), |deltas|);
    mean := if deltas == [] then 0.0 else TotalAbs(deltas) as real / |deltas| as real;
    if deltas != [] {
      QuotientIsRate(Agreements(deltas) as real * 100.0, |deltas|);
      QuotientIsRate(TotalAbs(deltas) as real, |deltas|);
      QuotientIsRate(Aggressive(deltas) as real * 100.0, |deltas|);
    }
  }

  // What the bounded deque holds after these deltas.
  function Window(deltas: seq<int>, size: nat): seq<int> {
    if |deltas| <= size then deltas else deltas[|deltas| - size..]
  }

  // ---------------------------------------------------------------- readiness

  // One evaluation of the readiness; an observation appends its delta first.
  datatype Event = Observed(delta: int, now: real) | Asked(now: real)

  function DeltasOf(events: seq<Event>): seq<int> {
    if events == [] then
      []
    else
      var last := events[|events| - 1];
      DeltasOf(events[..|events| - 1]) + if last.Observed? then [last.delta] else []
  }

  // The window as evaluation `i` of the run sees it.
  function WindowAt(c: Config, events: seq<Event>, i: nat): seq<int>
    requires i < |events|
  {
    Window(DeltasOf(events[..i + 1]), c.window)
  }

  // `_statistically_ready_since` after the run.
  function ReadySince(c: Config, events: seq<Event>): Option<real> {
    if events == [] then
      None
    else
      var since := ReadySince(c, events[..|events| - 1]);
      var last := events[|events| - 1];
      if !Passes(c, Window(DeltasOf(events), c.window)) then None
      else if since.None? then Some(last.now)
      else since
  }

  function StableFor(since: Option<real>, now: real): real {
    if since.None? || now < since.value then 0.0 else now - since.value
  }

  // `promotion_ready` as the last evaluation of the run reports it.
  predicate PromotionReady(c: Config, events: seq<Event>)
    requires events != []
  {
    && Passes(c, Window(DeltasOf(events), c.window))
    && StableFor(ReadySince(c, events), events[|events| - 1].now) >= c.requiredStable
  }

  ghost predicate Monotone(events: seq<Event>) {
    forall i, j | 0 <= i <= j < |events| :: events[i].now <= events[j].now
  }

  // Every evaluation from `k` on found the window passing all gates.
  ghost predicate PassingFrom(c: Config, events: seq<Event>, k: nat) {
    forall i: nat | k <= i < |events| :: Passes(c, WindowAt(c, events, i))
  }

  // The stretch `ReadySince` remembers: its start, and nothing passing before.
  ghost predicate StretchStart(c: Config, events: seq<Event>, k: nat) {
    && k < |events|
    && PassingFrom(c, events, k)
    && (k > 0 ==> !Passes(c, WindowAt(c, events, k - 1)))
  }

  lemma LastWindow(c: Config, events: seq<Event>)
    requires events != []
    ensures WindowAt(c, events, |events| - 1) == Window(DeltasOf(events), c.window)
  {
    assert events[..|events|] == events;
  }

  lemma EarlierWindows(c: Config, events: seq<Event>, i: nat)
    requires i + 1 < |events|
    ensures WindowAt(c, events[..|events| - 1], i) == WindowAt(c, events, i)
  {
    assert events[..|events| - 1][..i + 1] == events[..i + 1];
  }

  lemma {:induction false} ReadySinceMarksStretch(c: Config, events: seq<Event>)
    requires events != []
    ensures Passes(c, WindowAt(c, events, |events| - 1)) <==> ReadySince(c, events).Some?
    ensures ReadySince(c, events).Some? ==>
              exists k: nat :: StretchStart(c, events, k) && events[k].now == ReadySince(c, events).value
    decreases |events|
  {
    var n := |events| - 1;
    var front := events[..n];
    LastWindow(c, events);
    if Passes(c, WindowAt(c, events, n)) {
      if front != [] && ReadySince(c, front).Some? {
        ReadySinceMarksStretch(c, front);
        var k: nat :| StretchStart(c, front, k) && front[k].now == ReadySince(c, front).value;
        ExtendStretch(c, events, k);
      } else {
        if front != [] {
          ReadySinceMarksStretch(c, front);
          EarlierWindows(c, events, n - 1);
        }
        assert StretchStart(c, events, n);
      }
    }
  }

  lemma ExtendStretch(c: Config, events: seq<Event>, k: nat)
    requires events != [] && StretchStart(c, events[..|events| - 1], k)
    requires Passes(c, WindowAt(c, events, |events| - 1))
    ensures StretchStart(c, events, k)
  {
    forall i: nat | k <= i < |events|
      ensures Passes(c, WindowAt(c, events, i))
    {
      if i + 1 < |events| {
        EarlierWindows(c, events, i);
      }
    }
    if k > 0 {
      EarlierWindows(c, events, k - 1);
    }
  }

  lemma StretchIsMaximal(c: Config, events: seq<Event>, start: nat, k: nat)
    requires StretchStart(c, events, start) && k < |events| && PassingFrom(c, events, k)
    ensures start <= k
  {
  }

  // The main result, for one process run and a monotone clock: promotion is
  // ready if and only if every evaluation over at least the required time found
  // the window passing all five gates.
  lemma ReadyExactlyWhenStable(c: Config, events: seq<Event>)
    requires events != [] && Monotone(events) && c.requiredStable >= 0.0
    ensures PromotionReady(c, events) <==>
            exists k: nat :: k < |events| && PassingFrom(c, events, k)
                             && events[|events| - 1].now - events[k].now >= c.requiredStable
  {
    var n := |events| - 1;
    LastWindow(c, events);
    ReadySinceMarksStretch(c, events);
    if ReadySince(c, events).Some? {
      var start: nat :| StretchStart(c, events, start) && events[start].now == ReadySince(c, events).value;
      assert events[start].now <= events[n].now;
      forall k: nat | k < |events| && PassingFrom(c, events, k)
        ensures events[start].now <= events[k].now
      {
        StretchIsMaximal(c, events, start, k);
      }
    }
  }

  // ------------------------------------------------------------------ object

  class AuditedShadowPolicy {
    const config: Config
    var lastSignature: Option<Signature>
    var deltas: seq<int>
    var statisticallyReadySince: Option<real>
    ghost var signatures: seq<Option<Signature>>  // observed so far
    ghost var log: seq<Entry>                     // divergence entries handed to the audit logger
    ghost var events: seq<Event>                  // evaluations so far

    ghost predicate Valid()
      reads this
    {
      && config.window >= 5
      && lastSignature == Latest(signatures)
      && log == Changes(signatures)
      && deltas == Window(DeltasOf(events), config.window)
      && statisticallyReadySince == ReadySince(config, events)
    }

    constructor (c: Config)
      requires c.window >= 5
      ensures Valid() && config == c && events == [] && signatures == []
    {
      config := c;
      lastSignature, deltas, statisticallyReadySince := None, [], None;
      signatures, log, events := [], [], [];
    }

    // The state change of `readiness()`, for a window already in place.
    method Evaluate(now: real, ghost event: Event) returns (ready: bool)
      requires config.window >= 5 && statisticallyReadySince == ReadySince(config, events)
      requires deltas == Window(DeltasOf(events + [event]), config.window) && event.now == now
      modifies this`statisticallyReadySince, this`events
      ensures events == old(events) + [event] && statisticallyReadySince == ReadySince(config, events)
      ensures ready <==> PromotionReady(config, events)
    {
      events := events + [event];
      assert events[..|events| - 1] == old(events);
      var statisticalReady := Passes(config, deltas);
      var stableFor := 0.0;
      if statisticalReady {
        if statisticallyReadySince.None? {
          statisticallyReadySince := Some(now);
        }
        if now >= statisticallyReadySince.value {
          stableFor := now - statisticallyReadySince.value;
        }
      } else {
        statisticallyReadySince := None;
      }
      ready := statisticalReady && stableFor >= config.requiredStable;
    }

    method Readiness(now: real) returns (ready: bool)
      requires Valid()
      modifies this
      ensures Valid() && events == old(events) + [Asked(now)]
      ensures ready <==> PromotionReady(config, events)
      ensures log == old(log) && signatures == old(signatures)
    {
      assert (events + [Asked(now)])[..|events|] == events;
      ready := Evaluate(now, Asked(now));
    }

    // An observation: the window slides, the readiness is evaluated, and the
    // divergence log records a change of signature, if there is one.
    method Observe(delta: int, level: string, now: real)
      requires Valid()
      modifies this
      ensures Valid() && events == old(events) + [Observed(delta, now)]
      ensures deltas == (old(deltas) + [delta])[if |old(deltas)| < config.window then 0 else 1..]
      ensures signatures == old(signatures)
                            + [if delta < config.minAbsDelta && -delta < config.minAbsDelta then None
                               else Some(Signature(delta, level))]
    {
      ghost var event := Observed(delta, now);
      assert (events + [event])[..|events|] == events;
      deltas := deltas + [delta];
      if |deltas| > config.window {
        deltas := deltas[1..];
      }
      var ready := Evaluate(now, event);
      NoteSignature(delta, level);
    }

    // The log's share of an observation.
    method NoteSignature(delta: int, level: string)
      requires lastSignature == Latest(signatures) && log == Changes(signatures)
      modifies this`lastSignature, this`signatures, this`log
      ensures lastSignature == Latest(signatures) && log == Changes(signatures)
      ensures signatures == old(signatures)
                            + [if delta < config.minAbsDelta && -delta < config.minAbsDelta then None
                               else Some(Signature(delta, level))]
    {
      signatures := signatures + [SignatureOf(delta, level, config.minAbsDelta)];
      assert signatures[..|signatures| - 1] == old(signatures);
      if Abs(delta) < config.minAbsDelta {
        if lastSignature.Some? {
          log := log + [Entry(Resolved, lastSignature, None)];
          lastSignature := None;
        }
        return;
      }
      var signature := Signature(delta, level);
      if lastSignature == Some(signature) {
        return;
      }
      log := log + [Entry(if lastSignature.None? then Started else Changed, lastSignature, Some(signature))];
      lastSignature := Some(signature);
    }
  }
}
