/**
 * The watchdog's restart guard: a sliding hour of recorded attempts per service
 * plus a cooldown, kept in a history that is pruned as it is used and saved
 * before each restart.  Times are in seconds.
 */
module RestartGuard {

  const HOUR := 3600.0

  // The two allow-listed units, and any other name.
  datatype Service = OpenCodeServe | TelegramBridge | Unknown(name: string)

  type History = map<Service, seq<real>>

  function Of(history: History, service: Service): seq<real> {
    if service in history then history[service] else []
  }

  datatype Limits = Limits(cooldownSeconds: int, maxPerHour: int) {
    function Cooldown(): real {
      if cooldownSeconds < 60 then 60.0 else cooldownSeconds as real
    }

    function Cap(): nat {
      if maxPerHour < 1 then 1 else maxPerHour
    }
  }

  datatype Resources = Resources(availableMemory: int, diskFreePercent: real)

  // The entries less than an hour old.
  function Recent(values: seq<real>, now: real): seq<real> {
    if values == [] then []
    else (if now - values[0] < HOUR then [values[0]] else []) + Recent(values[1..], now)
  }

  // Less than 128 MiB of memory or two percent of disk.
  predicate Starved(r: Resources) {
    !(r.availableMemory >= 128 && r.diskFreePercent >= 2.0)
  }

  // The verdict of `restart_allowed` on the entries of the last hour.
  predicate Allows(recent: seq<real>, limits: Limits, now: real) {
    && (recent != [] ==> now - recent[|recent| - 1] >= limits.Cooldown())
    && |recent| < limits.Cap()
  }

  // -------------------------------------------------------------- histories

  ghost predicate Sorted(times: seq<real>) {
    forall i, j | 0 <= i < j < |times| :: times[i] <= times[j]
  }

  // A pruned history against the record of every attempt ever made: it is the
  // end of that record, and whatever is missing is at least an hour old.
  ghost predicate Tracks(history: seq<real>, attempts: seq<real>, clock: real) {
    && |history| <= |attempts|
    && (forall i | 0 <= i < |history| :: history[i] == attempts[|attempts| - |history| + i])
    && Sorted(attempts)
    && (forall i | 0 <= i < |attempts| :: attempts[i] <= clock)
    && (forall i | 0 <= i < |attempts| - |history| :: clock - attempts[i] >= HOUR)
  }

  // From attempt `from` on: a half-open hour holds at most `Cap` attempts, and
  // consecutive attempts keep their distance.
  ghost predicate Guarded(attempts: seq<real>, from: nat, limits: Limits) {
    && (forall i, j | 0 <= i <= j < |attempts| && from <= j && attempts[j] - attempts[i] < HOUR ::
          j - i + 1 <= limits.Cap())
    && (forall j | 0 < j < |attempts| && from <= j :: attempts[j] - attempts[j - 1] >= Gap(limits))
  }

  function Gap(limits: Limits): real {
    if limits.Cooldown() < HOUR then limits.Cooldown() else HOUR
  }

  lemma {:induction false} RecentStartsRecentEnd(values: seq<real>, now: real)
    requires Sorted(values)
    ensures values != [] && now - values[0] < HOUR ==> Recent(values, now) == values
  {
    if |values| > 1 && now - values[0] < HOUR {
      assert values[0] <= values[1];
      RecentStartsRecentEnd(values[1..], now);
    }
  }

  // Pruning a sorted history drops a prefix of entries, each an hour old.
  lemma {:induction false} PruningDropsPrefix(values: seq<real>, now: real)
    requires Sorted(values)
    ensures var recent := Recent(values, now);
            && |recent| <= |values|
            && values[|values| - |recent|..] == recent
            && (forall i | 0 <= i < |values| - |recent| :: now - values[i] >= HOUR)
  {
    if values != [] {
      RecentStartsRecentEnd(values, now);
      if now - values[0] >= HOUR {
        var rest := values[1..];
        PruningDropsPrefix(rest, now);
        var recent := Recent(rest, now);
        assert values[|values| - |recent|..] == rest[|rest| - |recent|..];
      }
    }
  }

  lemma HistoryIsSorted(history: seq<real>, attempts: seq<real>, clock: real)
    requires Tracks(history, attempts, clock)
    ensures Sorted(history)
  {
    var kept := |attempts| - |history|;
    forall i, j | 0 <= i < j < |history|
      ensures history[i] <= history[j]
    {
      assert history[i] == attempts[kept + i] && history[j] == attempts[kept + j];
    }
  }

  lemma PruningKeepsTrack(history: seq<real>, attempts: seq<real>, clock: real, now: real)
    requires Tracks(history, attempts, clock) && clock <= now
    ensures Tracks(Recent(history, now), attempts, now)
  {
    HistoryIsSorted(history, attempts, clock);
    PruningDropsPrefix(history, now);
    ShorterTail(Recent(history, now), history, attempts, clock, now);
  }

  // A later tail of the record, if all that it leaves out besides is an hour old.
  lemma ShorterTail(recent: seq<real>, history: seq<real>, attempts: seq<real>, clock: real, now: real)
    requires Tracks(history, attempts, clock) && clock <= now
    requires |recent| <= |history| && history[|history| - |recent|..] == recent
    requires forall i | 0 <= i < |history| - |recent| :: now - history[i] >= HOUR
    ensures Tracks(recent, attempts, now)
  {
    var kept := |attempts| - |history|;
    assert forall i | 0 <= i < |recent| :: recent[i] == history[|history| - |recent| + i];
    forall i | 0 <= i < |attempts| - |recent|
      ensures now - attempts[i] >= HOUR
    {
      if i >= kept {
        assert attempts[i] == history[i - kept];
      }
    }
  }

  lemma AttemptKeepsTrack(recent: seq<real>, attempts: seq<real>, now: real)
    requires Tracks(recent, attempts, now)
    ensures Tracks(recent + [now], attempts + [now], now)
  {
    var after := attempts + [now];
    assert forall i | 0 <= i < |attempts| :: after[i] == attempts[i];
  }

  lemma AttemptKeepsDistance(recent: seq<real>, attempts: seq<real>, limits: Limits, now: real)
    requires Tracks(recent, attempts, now) && Allows(recent, limits, now) && attempts != []
    ensures now - attempts[|attempts| - 1] >= Gap(limits)
  {
    if recent != [] {
      assert recent[|recent| - 1] == attempts[|attempts| - 1];
    }
  }

  // An allowed attempt keeps every window and every gap.
  lemma AllowedAttemptIsGuarded(recent: seq<real>, attempts: seq<real>, from: nat, limits: Limits, now: real)
    requires Tracks(recent, attempts, now) && Guarded(attempts, from, limits) && Allows(recent, limits, now)
    ensures Tracks(recent + [now], attempts + [now], now) && Guarded(attempts + [now], from, limits)
  {
    var after := attempts + [now];
    var n := |attempts|;
    AttemptKeepsTrack(recent, attempts, now);
    forall i, j | 0 <= i <= j < |after| && from <= j && after[j] - after[i] < HOUR
      ensures j - i + 1 <= limits.Cap()
    {
      if j < n {
        assert attempts[j] - attempts[i] < HOUR;
      } else if i < n {
        assert now - attempts[i] < HOUR;
      }
    }
    forall j | 0 < j < |after| && from <= j
      ensures after[j] - after[j - 1] >= Gap(limits)
    {
      if j < n {
        assert attempts[j] - attempts[j - 1] >= Gap(limits);
      } else {
        AttemptKeepsDistance(recent, attempts, limits, now);
      }
    }
  }

  // The attempts of the last hour, by their place in the record.
  function LastHour(attempts: seq<real>, now: real): set<nat> {
    set i: nat | i < |attempts| && now - attempts[i] < 3600.0
  }

  // The guard over the whole record of a service: nothing in the last hour is
  // closer than the cooldown of at least a minute, and the hour has room.
  predicate MayRestart(attempts: seq<real>, limits: Limits, now: real) {
    && (forall i | 0 <= i < |attempts| && now - attempts[i] < 3600.0 ::
          now - attempts[i] >= 60.0 && now - attempts[i] >= limits.cooldownSeconds as real)
    && |LastHour(attempts, now)| < if limits.maxPerHour < 1 then 1 else limits.maxPerHour
  }

  lemma {:induction false} RecentAreRecent(values: seq<real>, now: real)
    ensures forall i | 0 <= i < |Recent(values, now)| :: now - Recent(values, now)[i] < HOUR
  {
    if values != [] {
      RecentAreRecent(values[1..], now);
    }
  }

  lemma {:induction false} IntervalSize(low: nat, high: nat, places: set<nat>)
    requires low <= high && forall i: nat :: i in places <==> low <= i < high
    ensures |places| == high - low
    decreases high
  {
    if low == high {
      assert places == {};
    } else {
      IntervalSize(low, high - 1, places - {high - 1});
    }
  }

  lemma HourIsListed(recent: seq<real>, attempts: seq<real>, now: real)
    requires Tracks(recent, attempts, now) && forall i | 0 <= i < |recent| :: now - recent[i] < HOUR
    ensures |LastHour(attempts, now)| == |recent|
  {
    var dropped := |attempts| - |recent|;
    assert forall i | dropped <= i < |attempts| :: attempts[i] == recent[i - dropped];
    IntervalSize(dropped, |attempts|, LastHour(attempts, now));
  }

  // Whatever was pruned, the list allows a restart exactly if the whole record
  // of attempts does.
  lemma PrunedListDecidesExactly(recent: seq<real>, attempts: seq<real>, limits: Limits, now: real)
    requires Tracks(recent, attempts, now) && forall i | 0 <= i < |recent| :: now - recent[i] < HOUR
    ensures Allows(recent, limits, now) <==> MayRestart(attempts, limits, now)
  {
    HourIsListed(recent, attempts, now);
    if recent != [] {
      var last := |attempts| - 1;
      assert attempts[last] == recent[|recent| - 1];
      assert forall i | 0 <= i < |attempts| :: attempts[i] <= attempts[last];
    }
  }

  lemma GuardDecidesExactly(history: seq<real>, attempts: seq<real>, limits: Limits, clock: real, now: real)
    requires Tracks(history, attempts, clock) && clock <= now
    ensures Allows(Recent(history, now), limits, now) <==> MayRestart(attempts, limits, now)
  {
    PruningKeepsTrack(history, attempts, clock, now);
    RecentAreRecent(history, now);
    PrunedListDecidesExactly(Recent(history, now), attempts, limits, now);
  }

  // ------------------------------------------------------------ all services

  ghost predicate AllTrack(histories: History, attempts: History, clock: real) {
    forall service: Service :: Tracks(Of(histories, service), Of(attempts, service), clock)
  }

  ghost predicate AllGuarded(attempts: History, loaded: map<Service, nat>, limits: Limits) {
    forall service: Service :: Guarded(Of(attempts, service), Preexisting(loaded, service), limits)
  }

  // How many of a service's attempts were already on file at the start.
  function Preexisting(loaded: map<Service, nat>, service: Service): nat {
    if service in loaded then loaded[service] else 0
  }

  lemma TimePasses(histories: History, attempts: History, clock: real, now: real)
    requires AllTrack(histories, attempts, clock) && clock <= now
    ensures AllTrack(histories, attempts, now)
  {
    forall service: Service
      ensures Tracks(Of(histories, service), Of(attempts, service), now)
    {
      assert Tracks(Of(histories, service), Of(attempts, service), clock);
    }
  }

  lemma PruneOne(histories: History, attempts: History, service: Service, now: real)
    requires AllTrack(histories, attempts, now)
    ensures AllTrack(histories[service := Recent(Of(histories, service), now)], attempts, now)
  {
    PruningKeepsTrack(Of(histories, service), Of(attempts, service), now, now);
  }

  lemma AttemptOne(histories: History, attempts: History, loaded: map<Service, nat>, limits: Limits,
                   service: Service, now: real)
    requires AllTrack(histories, attempts, now) && AllGuarded(attempts, loaded, limits)
    requires Allows(Of(histories, service), limits, now)
    ensures var tried := attempts[service := Of(attempts, service) + [now]];
            && AllTrack(histories[service := Of(histories, service) + [now]], tried, now)
            && AllGuarded(tried, loaded, limits)
  {
    AllowedAttemptIsGuarded(Of(histories, service), Of(attempts, service), Preexisting(loaded, service), limits, now);
    var tried := attempts[service := Of(attempts, service) + [now]];
    var noted := histories[service := Of(histories, service) + [now]];
    forall other: Service
      ensures Tracks(Of(noted, other), Of(tried, other), now)
      ensures Guarded(Of(tried, other), Preexisting(loaded, other), limits)
    {
      if other != service {
        assert Tracks(Of(histories, other), Of(attempts, other), now);
        assert Guarded(Of(attempts, other), Preexisting(loaded, other), limits);
      }
    }
  }

  // The record only grows, and only by attempts made at this reading.
  ghost predicate Grown(before: History, after: History, now: real) {
    forall service: Service ::
      && Of(before, service) <= Of(after, service)
      && forall i | |Of(before, service)| <= i < |Of(after, service)| :: Of(after, service)[i] == now
  }

  lemma GrownOnce(before: History, service: Service, now: real)
    ensures Grown(before, before[service := Of(before, service) + [now]], now)
  {
  }

  lemma GrownTwice(before: History, middle: History, after: History, now: real)
    requires Grown(before, middle, now) && Grown(middle, after, now)
    ensures Grown(before, after, now)
  {
    forall service: Service
      ensures Of(before, service) <= Of(after, service)
      ensures forall i | |Of(before, service)| <= i < |Of(after, service)| :: Of(after, service)[i] == now
    {
      assert Of(before, service) <= Of(middle, service) <= Of(after, service);
    }
  }

  // ------------------------------------------------------------------- cycle

  datatype Action = Delegated | Skipped | Restarted | RestartFailed

  class Watchdog {
    const limits: Limits
    var history: History                       // in memory
    var saved: History                         // in the state file
    ghost var attempts: map<Service, seq<real>> // every attempt ever recorded
    ghost var loaded: map<Service, nat>         // how many of them predate this object

    ghost predicate Valid(clock: real)
      reads this
    {
      AllTrack(saved, attempts, clock) && AllGuarded(attempts, loaded, limits)
    }

    // Starting from a state file whose lists are sorted and not in the future.
    constructor (state: History, limits: Limits, clock: real)
      requires forall service | service in state :: Sorted(state[service])
      requires forall service, i | service in state && 0 <= i < |state[service]| :: state[service][i] <= clock
      ensures Valid(clock) && saved == state && this.limits == limits
      ensures forall service | service in state :: service in loaded && loaded[service] == |state[service]|
    {
      this.limits := limits;
      history, saved, attempts := state, state, state;
      loaded := map service | service in state :: |state[service]|;
    }

    // Prunes the service's list and judges what is left.
    method RestartAllowed(service: Service, resources: Resources, now: real) returns (allowed: bool)
      modifies this`history
      ensures service.Unknown? || Starved(resources) ==> !allowed && history == old(history)
      ensures !service.Unknown? && !Starved(resources) ==>
                && history == old(history)[service := Recent(Of(old(history), service), now)]
                && (allowed <==> Allows(history[service], limits, now))
    {
      if service.Unknown? {
        return false;
      }
      if resources.availableMemory < 128 || resources.diskFreePercent < 2.0 {
        return false;
      }
      var recent := Recent(Of(history, service), now);
      history := history[service := recent];
      if recent != [] && now - recent[|recent| - 1] < limits.Cooldown() {
        return false;
      }
      if |recent| >= limits.Cap() {
        return false;
      }
      allowed := true;
    }

    // One service's turn.  The process may die at any `if *`; the attempt is on
    // file before the restart is tried, and a failed restart counts as well.
    method Turn(service: Service, resources: Resources, now: real) returns (died: bool, action: Action)
      requires Valid(now) && AllTrack(history, attempts, now)
      modifies this
      ensures Valid(now) && loaded == old(loaded) && (!died ==> AllTrack(history, attempts, now))
      ensures attempts == old(attempts)
              || attempts == old(attempts)[service := Of(old(attempts), service) + [now]]
      ensures !died && action in {Restarted, RestartFailed} ==>
                attempts == old(attempts)[service := Of(old(attempts), service) + [now]]
      ensures attempts != old(attempts) ==>
                service.OpenCodeServe? && !Starved(resources) && MayRestart(Of(old(attempts), service), limits, now)
      ensures !died ==> (action == Delegated <==> service.TelegramBridge?)
      ensures !died ==> (action in {Restarted, RestartFailed} <==>
                service.OpenCodeServe? && !Starved(resources) && MayRestart(Of(old(attempts), service), limits, now))
    {
      died, action := true, Delegated;
      if * {
        return;
      }
      if service.TelegramBridge? {
        return false, Delegated;
      }
      PruneOne(history, attempts, service, now);
      GuardDecidesExactly(Of(history, service), Of(attempts, service), limits, now, now);
      var allowed := RestartAllowed(service, resources, now);
      if !allowed {
        return false, Skipped;
      }
      died, action := Attempt(service, now);
    }

    // Record, save, restart.
    method Attempt(service: Service, now: real) returns (died: bool, action: Action)
      requires Valid(now) && AllTrack(history, attempts, now) && Allows(Of(history, service), limits, now)
      modifies this
      ensures Valid(now) && loaded == old(loaded) && (!died ==> AllTrack(history, attempts, now))
      ensures attempts == old(attempts)
              || attempts == old(attempts)[service := Of(old(attempts), service) + [now]]
      ensures !died ==> action in {Restarted, RestartFailed}
                        && attempts == old(attempts)[service := Of(old(attempts), service) + [now]]
    {
      died, action := true, RestartFailed;
      ghost var tried := attempts[service := Of(attempts, service) + [now]];
      var noted := history[service := Of(history, service) + [now]];
      AttemptOne(history, attempts, loaded, limits, service, now);
      assert AllTrack(noted, tried, now) && AllGuarded(tried, loaded, limits);
      history := noted;
      if * {
        return;
      }
      saved := history;
      attempts := tried;
      if * {
        return;
      }
      var succeeded: bool := *;
      return false, if succeeded then Restarted else RestartFailed;
    }

    // One watchdog run over the services found unhealthy.  Unless it dies it
    // tries the one service it may restart exactly if the record allows it.
    method Cycle(services: seq<Service>, resources: Resources, clock: real, now: real) returns (died: bool)
      requires Valid(clock) && clock <= now
      modifies this
      ensures Valid(now) && loaded == old(loaded)
      ensures Grown(old(attempts), attempts, now)
      ensures attempts != old(attempts) ==> Tries(services, resources, Of(old(attempts), OpenCodeServe), limits, now)
      ensures !died && Tries(services, resources, Of(old(attempts), OpenCodeServe), limits, now) ==>
                Of(attempts, OpenCodeServe) != Of(old(attempts), OpenCodeServe)
    {
      history := saved;
      TimePasses(saved, attempts, clock, now);
      for i := 0 to |services|
        invariant Valid(now) && loaded == old(loaded) && AllTrack(history, attempts, now)
        invariant TriedSoFar(old(attempts), attempts, services[..i], resources, limits, now)
      {
        ghost var before := attempts;
        var diedHere, action := Turn(services[i], resources, now);
        OneTurnMore(old(attempts), before, attempts, services, i, resources, limits, now, diedHere);
        if diedHere {
          return true;
        }
      }
      assert services[..|services|] == services;
      if * {
        return true;
      }
      saved := history;
      died := false;
    }

    // The timer's runs, one after the other.  However many there are and
    // wherever each of them dies, every attempt stays on record, none but theirs
    // is added, and over the whole record each half-open hour holds at most the
    // cap of attempts and each gap is kept, from the first new attempt on.
    method RunAll(runs: seq<TimerRun>, clock: real)
      requires Valid(clock) && NonDecreasing(runs, clock)
      modifies this
      ensures loaded == old(loaded) && AllGuarded(attempts, loaded, limits)
      ensures Extends(old(attempts), attempts, runs)
      ensures Valid(if runs == [] then clock else runs[|runs| - 1].now)
    {
      var last := clock;
      for i := 0 to |runs|
        invariant last == if i == 0 then clock else runs[i - 1].now
        invariant Valid(last) && loaded == old(loaded)
        invariant Extends(old(attempts), attempts, runs[..i])
      {
        ghost var before := attempts;
        var died := Cycle(runs[i].services, runs[i].resources, last, runs[i].now);
        last := runs[i].now;
        ExtendsByRun(old(attempts), before, attempts, runs, i);
      }
      assert runs[..|runs|] == runs;
    }
  }

  // A run has a restart to try: the service is unhealthy, the host can bear it,
  // and the record allows it.
  predicate Tries(services: seq<Service>, resources: Resources, attempts: seq<real>, limits: Limits, now: real) {
    OpenCodeServe in services && !Starved(resources) && MayRestart(attempts, limits, now)
  }

  // The record after some turns: nothing but what could be tried, and that for certain.
  ghost predicate TriedSoFar(before: History, after: History, services: seq<Service>, resources: Resources,
                             limits: Limits, now: real) {
    && Grown(before, after, now)
    && (after != before ==> Tries(services, resources, Of(before, OpenCodeServe), limits, now))
    && (Tries(services, resources, Of(before, OpenCodeServe), limits, now) ==>
          Of(after, OpenCodeServe) != Of(before, OpenCodeServe))
  }

  lemma OneTurnMore(before: History, middle: History, after: History, services: seq<Service>, i: nat,
                    resources: Resources, limits: Limits, now: real, died: bool)
    requires i < |services| && TriedSoFar(before, middle, services[..i], resources, limits, now)
    requires after == middle || after == middle[services[i] := Of(middle, services[i]) + [now]]
    requires var tried := services[i].OpenCodeServe? && !Starved(resources)
                          && MayRestart(Of(middle, services[i]), limits, now);
             (after != middle ==> tried) && (!died && tried ==> after != middle)
    ensures Grown(before, after, now)
    ensures after != before ==> Tries(services, resources, Of(before, OpenCodeServe), limits, now)
    ensures !died ==> TriedSoFar(before, after, services[..i + 1], resources, limits, now)
  {
    assert services[..i + 1] == services[..i] + [services[i]];
    GrownOnce(middle, services[i], now);
    GrownTwice(before, middle, after, now);
  }

  datatype TimerRun = TimerRun(services: seq<Service>, resources: Resources, now: real)

  ghost predicate NonDecreasing(runs: seq<TimerRun>, clock: real) {
    && (forall i | 0 <= i < |runs| :: clock <= runs[i].now)
    && (forall i, j | 0 <= i <= j < |runs| :: runs[i].now <= runs[j].now)
  }

  // The record only grows, and only by attempts made at a reading of the runs.
  ghost predicate Extends(before: History, after: History, runs: seq<TimerRun>) {
    forall service: Service ::
      && Of(before, service) <= Of(after, service)
      && forall i | |Of(before, service)| <= i < |Of(after, service)| :: MadeIn(runs, Of(after, service)[i])
  }

  ghost predicate MadeIn(runs: seq<TimerRun>, at: real) {
    exists j :: 0 <= j < |runs| && runs[j].now == at
  }

  lemma MadeInLonger(runs: seq<TimerRun>, n: nat, at: real)
    requires n < |runs| && (MadeIn(runs[..n], at) || at == runs[n].now)
    ensures MadeIn(runs[..n + 1], at)
  {
    var j: nat :| j <= n && runs[j].now == at;
    assert runs[..n + 1][j].now == at;
  }

  lemma ExtendsByRun(start: History, before: History, after: History, runs: seq<TimerRun>, n: nat)
    requires n < |runs| && Extends(start, before, runs[..n]) && Grown(before, after, runs[n].now)
    ensures Extends(start, after, runs[..n + 1])
  {
    forall service: Service
      ensures Of(start, service) <= Of(after, service)
      ensures forall i | |Of(start, service)| <= i < |Of(after, service)| ::
                MadeIn(runs[..n + 1], Of(after, service)[i])
    {
      assert Of(start, service) <= Of(before, service) <= Of(after, service);
      forall i | |Of(start, service)| <= i < |Of(after, service)|
        ensures MadeIn(runs[..n + 1], Of(after, service)[i])
      {
        if i < |Of(before, service)| {
          assert Of(after, service)[i] == Of(before, service)[i];
        }
        MadeInLonger(runs, n, Of(after, service)[i]);
      }
    }
  }

  // What a valid watchdog gives for every service, over any number of cycles:
  // an hour that starts anywhere and ends in a new attempt holds at most the cap.
  lemma HourHoldsAtMostCap(attempts: seq<real>, preexisting: nat, limits: Limits, start: real, first: nat, last: nat)
    requires Guarded(attempts, preexisting, limits) && preexisting <= last
    requires first <= last < |attempts|
    requires start <= attempts[first] && attempts[last] < start + HOUR
    ensures last - first + 1 <= limits.Cap()
  {
    assert attempts[last] - attempts[first] < HOUR;
  }

  // The hour must be half-open: exactly an hour apart, a second attempt is free.
  lemma ClosedHourCanHoldMore()
    ensures var limits := Limits(60, 1);
            && Allows(Recent([], 0.0), limits, 0.0)
            && Allows(Recent([0.0], HOUR), limits, HOUR)
            && Guarded([0.0, HOUR], 0, limits)
  {
    assert Recent([0.0], HOUR) == [];
  }
}
