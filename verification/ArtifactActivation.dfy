/**
 * Activation of a built release: switch the `current` link, and on any failure
 * go back to the previous release and to the database as it was before.
 *
 * The callbacks belong to the caller, so each one leaves whatever database it
 * likes and may raise.  A link and a file are replaced by one rename; an
 * exception can come before or right after it.
 */
module ArtifactActivation {
  import opened Wrappers

  type Content = nat
  type Sha = nat

  datatype Release = Legacy | Built(sha: Sha)

  // A database file and its write-ahead log: a reader sees what the log holds.
  datatype Database = Database(main: Content, log: Option<Content>) {
    function Seen(): Content {
      if log.Some? then log.value else main
    }
  }

  datatype Host = Host(current: Option<Release>, db: Database, backups: map<Sha, Content>)

  datatype Callback = Callback(leaves: Database, raises: bool)

  // Where an exception falls around the replacing rename, if there is one.
  datatype Fault = Clean | BeforeReplace | AfterReplace

  // What the world does during one activation.
  datatype Script = Script(
    ready: bool,             // the artifact is verified and unpacked, and the link can be read
    legacyPresent: bool,
    adopt: Fault,            // switching an unset link to the legacy release
    quiesce: Option<Callback>,
    backup: Fault,
    prepare: Callback,
    switch: Fault,
    restart: Callback,
    smoke: Callback,
    commit: Option<Callback>,
    switchBack: Fault,
    restore: Fault,          // AfterReplace: before the stale log is removed
    restartAgain: Callback,
    smokeAgain: Callback)

  datatype Result = Returned(release: Release) | Raised | RecoveryFailed

  // `recovery` is the host as it is when the recovery restart is called.
  datatype Outcome = Outcome(host: Host, result: Result, recovery: Option<Host>)

  // ------------------------------------------------------------ specification

  // Where the guarded block is left.
  datatype Stage = Quiescing | BackingUp | Preparing | Switching | Running | Finished

  function After(db: Database, call: Option<Callback>): Database {
    if call.Some? then call.value.leaves else db
  }

  predicate Raises(call: Option<Callback>) {
    call.Some? && call.value.raises
  }

  function Previous(h: Host): Release {
    if h.current.Some? then h.current.value else Legacy
  }

  function StageOf(h: Host, sha: Sha, s: Script): Stage {
    if Raises(s.quiesce) then Quiescing
    else if s.backup != Clean then BackingUp
    else if s.prepare.raises then Preparing
    else if Previous(h) != Built(sha) && s.switch != Clean then Switching
    else if s.restart.raises || s.smoke.raises || Raises(s.commit) then Running
    else Finished
  }

  function Quiesced(h: Host, s: Script): Database {
    After(h.db, s.quiesce)
  }

  // An existing backup of the commit is kept as it is.
  function BackupsAfter(h: Host, sha: Sha, s: Script): map<Sha, Content> {
    if Raises(s.quiesce) || sha in h.backups || s.backup == BeforeReplace then h.backups
    else h.backups[sha := Quiesced(h, s).Seen()]
  }

  // The database once the new release has been started.
  function LastRun(s: Script): Database {
    if s.restart.raises then s.restart.leaves
    else if s.smoke.raises then s.smoke.leaves
    else After(s.smoke.leaves, s.commit)
  }

  // The host when the guarded block is left.
  function AtExit(h: Host, sha: Sha, s: Script): Host {
    var stage := StageOf(h, sha, s);
    var onTarget := stage in {Running, Finished} || (stage == Switching && s.switch == AfterReplace);
    var db := if stage in {Quiescing, BackingUp} then Quiesced(h, s)
              else if stage in {Preparing, Switching} then s.prepare.leaves
              else LastRun(s);
    Host(Some(if onTarget then Built(sha) else Previous(h)), db, BackupsAfter(h, sha, s))
  }

  function Recovery(h: Host, s: Script): Outcome {
    if s.restartAgain.raises then Outcome(h.(db := s.restartAgain.leaves), RecoveryFailed, Some(h))
    else Outcome(h.(db := s.smokeAgain.leaves), if s.smokeAgain.raises then RecoveryFailed else Raised, Some(h))
  }

  // Only a release that was started is undone: link first, then database.
  function Rollback(h: Host, sha: Sha, s: Script): Outcome {
    var left := AtExit(h, sha, s);
    if StageOf(h, sha, s) != Running then
      Recovery(left, s)
    else if Previous(h) != Built(sha) && s.switchBack != Clean then
      Outcome(if s.switchBack == AfterReplace then left.(current := Some(Previous(h))) else left, Raised, None)
    else
      var linked := left.(current := Some(Previous(h)));
      if s.restore == Clean then
        Recovery(linked.(db := Database(left.backups[sha], None)), s)
      else
        Outcome(if s.restore == AfterReplace then linked.(db := left.db.(main := left.backups[sha])) else linked,
                Raised, None)
  }

  function Activation(h: Host, sha: Sha, s: Script): Outcome {
    var adopting := h.current.None?;
    if !s.ready || (adopting && (!s.legacyPresent || s.adopt == BeforeReplace)) then
      Outcome(h, Raised, None)
    else if adopting && s.adopt == AfterReplace then
      Outcome(h.(current := Some(Legacy)), Raised, None)
    else if StageOf(h, sha, s) == Finished then
      Outcome(AtExit(h, sha, s), Returned(Built(sha)), None)
    else
      Rollback(h, sha, s)
  }

  // ------------------------------------------------- the hosts of an activation

  // Every host an activation leaves behind, one per action; it may be cut off
  // after any of them.
  function ReadyHosts(h: Host, sha: Sha, s: Script): seq<Host> {
    var quiesced := h.(db := Quiesced(h, s));
    var backedUp := quiesced.(backups := BackupsAfter(h, sha, s));
    (if s.quiesce.Some? then [quiesced] else [])
    + if Raises(s.quiesce) then []
      else if s.backup != Clean then [backedUp]
      else [backedUp, backedUp.(db := s.prepare.leaves)]
  }

  function StartHosts(h: Host, s: Script): seq<Host> {
    [h.(db := s.restart.leaves)]
    + if s.restart.raises then []
      else if s.smoke.raises || s.commit.None? then [h.(db := s.smoke.leaves)]
      else [h.(db := s.smoke.leaves), h.(db := s.commit.value.leaves)]
  }

  // From the switch on.
  function SwitchHosts(h: Host, sha: Sha, s: Script): seq<Host> {
    var switched := h.(current := Some(Built(sha)));
    if Previous(h) == Built(sha) then StartHosts(h, s)
    else if s.switch == BeforeReplace then [h]
    else [switched] + if s.switch == AfterReplace then [] else StartHosts(switched, s)
  }

  function AttemptHosts(h: Host, sha: Sha, s: Script): seq<Host> {
    ReadyHosts(h, sha, s)
    + if StageOf(h, sha, s) in {Quiescing, BackingUp, Preparing} then []
      else SwitchHosts(Host(h.current, s.prepare.leaves, BackupsAfter(h, sha, s)), sha, s)
  }

  function RestoreHosts(h: Host, backup: Content, fault: Fault): seq<Host> {
    match fault
    case Clean => [h.(db := h.db.(main := backup)), h.(db := Database(backup, None))]
    case BeforeReplace => []
    case AfterReplace => [h.(db := h.db.(main := backup))]
  }

  function AgainHosts(h: Host, s: Script): seq<Host> {
    [h.(db := s.restartAgain.leaves)] + if s.restartAgain.raises then [] else [h.(db := s.smokeAgain.leaves)]
  }

  // The handler after the link is back: database, then the previous release.
  function UndoHosts(h: Host, backup: Content, s: Script): seq<Host> {
    RestoreHosts(h, backup, s.restore)
    + if s.restore == Clean then AgainHosts(h.(db := Database(backup, None)), s) else []
  }

  function RollbackHosts(h: Host, sha: Sha, s: Script): seq<Host> {
    var left := AtExit(h, sha, s);
    var linked := left.(current := Some(Previous(h)));
    if StageOf(h, sha, s) != Running then AgainHosts(left, s)
    else if Previous(h) == Built(sha) then UndoHosts(left, left.backups[sha], s)
    else if s.switchBack == BeforeReplace then [left]
    else [linked] + if s.switchBack == AfterReplace then [] else UndoHosts(linked, left.backups[sha], s)
  }

  function TryHosts(h: Host, sha: Sha, s: Script): seq<Host> {
    AttemptHosts(h, sha, s) + if StageOf(h, sha, s) == Finished then [] else RollbackHosts(h, sha, s)
  }

  function Hosts(h: Host, sha: Sha, s: Script): seq<Host> {
    var adopted := if s.adopt == BeforeReplace then h else h.(current := Some(Legacy));
    if !s.ready then []
    else if h.current.Some? then TryHosts(h, sha, s)
    else if !s.legacyPresent then []
    else [adopted] + if s.adopt == Clean then TryHosts(adopted, sha, s) else []
  }

  // ------------------------------------------------------------ one activation

  // It returns only with the link on the new release and a backup at hand.
  lemma ReturnsOnTarget(h: Host, sha: Sha, s: Script)
    requires Activation(h, sha, s).result.Returned?
    ensures var after := Activation(h, sha, s).host;
            && after.current == Some(Built(sha)) && Activation(h, sha, s).result.release == Built(sha)
            && sha in after.backups
            && (sha in h.backups || after.backups[sha] == Quiesced(h, s).Seen())
            && after.db == LastRun(s)
  {
  }

  // Nothing came in the way of the new release.
  predicate Unhindered(h: Host, sha: Sha, s: Script) {
    && s.ready
    && (h.current.None? ==> s.legacyPresent && s.adopt.Clean?)
    && (s.quiesce.Some? ==> !s.quiesce.value.raises) && s.backup.Clean? && !s.prepare.raises
    && (h.current != Some(Built(sha)) ==> s.switch.Clean?)
    && !s.restart.raises && !s.smoke.raises && (s.commit.Some? ==> !s.commit.value.raises)
  }

  // It returns exactly then, and leaves the database as the last callback did.
  lemma ReturnsExactly(h: Host, sha: Sha, s: Script)
    ensures Activation(h, sha, s).result.Returned? <==> Unhindered(h, sha, s)
    ensures Unhindered(h, sha, s) ==>
              Activation(h, sha, s).host.db == if s.commit.Some? then s.commit.value.leaves else s.smoke.leaves
  {
  }

  // The previous release is started again exactly if the guarded block was
  // entered and failed, and the handler, where it had something to undo, could
  // move the link and the database back.
  lemma RecoveryExactly(h: Host, sha: Sha, s: Script)
    ensures var entered := s.ready && (h.current.Some? || (s.legacyPresent && s.adopt.Clean?));
            var started := && (s.quiesce.Some? ==> !s.quiesce.value.raises) && s.backup.Clean? && !s.prepare.raises
                           && (h.current == Some(Built(sha)) || s.switch.Clean?);
            var outcome := Activation(h, sha, s);
            && (outcome.recovery.Some? <==>
                  && entered && !Unhindered(h, sha, s)
                  && (started ==> (h.current == Some(Built(sha)) || s.switchBack.Clean?) && s.restore.Clean?))
            && (outcome.result.RecoveryFailed? <==>
                  outcome.recovery.Some? && (s.restartAgain.raises || s.smokeAgain.raises))
            && (outcome.recovery.Some? ==>
                  outcome.host.db == if s.restartAgain.raises then s.restartAgain.leaves else s.smokeAgain.leaves)
            && (!entered ==> outcome.host.db == h.db && outcome.host.backups == h.backups)
  {
  }

  // A release that was started can be undone faithfully exactly when the
  // backup of its commit is fresh; before that nothing is undone at all.
  predicate ContentIsRecoverable(h: Host, sha: Sha, s: Script) {
    var quiesced := Quiesced(h, s).Seen();
    match StageOf(h, sha, s)
    case Running => sha in h.backups ==> h.backups[sha] == quiesced
    case Preparing => s.prepare.leaves.Seen() == quiesced
    case Switching => s.prepare.leaves.Seen() == quiesced
    case _ => true
  }

  // The switch raised after the link had moved, so its flag was never set.
  predicate SwitchWasMissed(h: Host, sha: Sha, s: Script) {
    StageOf(h, sha, s) == Switching && s.switch == AfterReplace
  }

  // When the recovery restart is called, the link is back on the previous
  // release and the database shows what it showed after `quiesce`, each exactly
  // under its own condition.
  lemma RollbackIsExact(h: Host, sha: Sha, s: Script)
    requires Activation(h, sha, s).recovery.Some?
    ensures var before := Activation(h, sha, s).recovery.value;
            && (before.current == Some(Previous(h)) <==> !SwitchWasMissed(h, sha, s))
            && (before.db.Seen() == Quiesced(h, s).Seen() <==> ContentIsRecoverable(h, sha, s))
  {
  }

  // What every host of an activation keeps: the link names a release it may
  // name, the new one only once its backup exists, and no backup is lost or
  // changed; at most one is added, and it shows the quiesced database.
  ghost predicate Covered(x: Host, start: Host, sha: Sha, shown: Content) {
    && x.current in {start.current, Some(Previous(start)), Some(Built(sha))}
    && (x.current == Some(Built(sha)) && start.current != x.current ==> sha in x.backups)
    && (x.backups == start.backups || (sha !in start.backups && x.backups == start.backups[sha := shown]))
  }

  ghost predicate AllCovered(hosts: seq<Host>, start: Host, sha: Sha, shown: Content) {
    forall i | 0 <= i < |hosts| :: Covered(hosts[i], start, sha, shown)
  }

  lemma AttemptIsCovered(h: Host, sha: Sha, s: Script, start: Host)
    requires h.current == Some(Previous(start)) && h.db == start.db && h.backups == start.backups
    ensures AllCovered(AttemptHosts(h, sha, s), start, sha, Quiesced(start, s).Seen())
    ensures Covered(AtExit(h, sha, s), start, sha, Quiesced(start, s).Seen())
  {
    var shown := Quiesced(start, s).Seen();
    assert AllCovered(ReadyHosts(h, sha, s), start, sha, shown);
    var prepared := Host(h.current, s.prepare.leaves, BackupsAfter(h, sha, s));
    if StageOf(h, sha, s) !in {Quiescing, BackingUp, Preparing} {
      assert AllCovered(SwitchHosts(prepared, sha, s), start, sha, shown);
    }
  }

  lemma RollbackIsCovered(h: Host, sha: Sha, s: Script, start: Host)
    requires h.current == Some(Previous(start)) && h.db == start.db && h.backups == start.backups
    requires StageOf(h, sha, s) != Finished
    ensures AllCovered(RollbackHosts(h, sha, s), start, sha, Quiesced(start, s).Seen())
  {
    var shown := Quiesced(start, s).Seen();
    var left := AtExit(h, sha, s);
    AttemptIsCovered(h, sha, s, start);
    assert AllCovered(AgainHosts(left, s), start, sha, shown);
    if StageOf(h, sha, s) == Running {
      UndoIsCovered(left, left.backups[sha], s, start, sha, shown);
      UndoIsCovered(left.(current := Some(Previous(h))), left.backups[sha], s, start, sha, shown);
    }
  }

  lemma UndoIsCovered(h: Host, backup: Content, s: Script, start: Host, sha: Sha, shown: Content)
    requires Covered(h, start, sha, shown)
    ensures AllCovered(UndoHosts(h, backup, s), start, sha, shown)
  {
  }

  lemma EveryHostIsCovered(h: Host, sha: Sha, s: Script)
    ensures AllCovered(Hosts(h, sha, s), h, sha, Quiesced(h, s).Seen())
  {
    var linked := h.(current := Some(Previous(h)));
    AttemptIsCovered(linked, sha, s, h);
    if StageOf(linked, sha, s) != Finished {
      RollbackIsCovered(linked, sha, s, h);
    }
    assert AllCovered(TryHosts(linked, sha, s), h, sha, Quiesced(h, s).Seen());
  }

  ghost function Last(hosts: seq<Host>, h: Host): Host {
    if hosts == [] then h else hosts[|hosts| - 1]
  }

  // Adopting the legacy release changes nothing but the link.
  lemma SameButLinked(h: Host, linked: Host, sha: Sha, s: Script)
    requires linked == h.(current := Some(Previous(h)))
    ensures StageOf(linked, sha, s) == StageOf(h, sha, s) && AtExit(linked, sha, s) == AtExit(h, sha, s)
    ensures StageOf(h, sha, s) != Finished ==> Rollback(linked, sha, s) == Rollback(h, sha, s)
  {
  }

  // A complete activation ends on its last host.
  lemma ActivationIsLastHost(h: Host, sha: Sha, s: Script)
    ensures Activation(h, sha, s).host == Last(Hosts(h, sha, s), h)
  {
    var linked := h.(current := Some(Previous(h)));
    TryEnds(linked, sha, s);
    SameButLinked(h, linked, sha, s);
  }

  lemma TryEnds(h: Host, sha: Sha, s: Script)
    requires h.current.Some?
    ensures var end := if StageOf(h, sha, s) == Finished then AtExit(h, sha, s) else Rollback(h, sha, s).host;
            TryHosts(h, sha, s) != [] && Last(TryHosts(h, sha, s), h) == end
  {
    AttemptEndsAtExit(h, sha, s);
    if StageOf(h, sha, s) != Finished {
      RollbackEnds(h, sha, s);
    }
  }

  lemma AttemptEndsAtExit(h: Host, sha: Sha, s: Script)
    requires h.current.Some?
    ensures Last(AttemptHosts(h, sha, s), h) == AtExit(h, sha, s)
  {
  }

  lemma RollbackEnds(h: Host, sha: Sha, s: Script)
    requires h.current.Some? && StageOf(h, sha, s) != Finished
    ensures Last(RollbackHosts(h, sha, s), AtExit(h, sha, s)) == Rollback(h, sha, s).host
  {
  }

  const CALM := Script(true, true, Clean, None, Clean, Callback(Database(1, None), false), Clean,
                       Callback(Database(2, None), false), Callback(Database(2, None), true), None,
                       Clean, Clean, Callback(Database(1, None), false), Callback(Database(1, None), false))

  // The three ways the rollback misses, each on a host that would have been
  // recovered without it: a backup from an earlier try, a preparation that
  // writes before it fails, and an interruption right after the link moved.
  lemma RollbackCanMiss()
    ensures var h := Host(Some(Legacy), Database(1, None), map[]);
            && Activation(h, 7, CALM).recovery == Some(h.(backups := map[7 := 1]))
            && Activation(h.(backups := map[7 := 0]), 7, CALM).recovery
               == Some(Host(Some(Legacy), Database(0, None), map[7 := 0]))
            && Activation(h, 7, CALM.(prepare := Callback(Database(5, None), true))).recovery
               == Some(Host(Some(Legacy), Database(5, None), map[7 := 1]))
            && Activation(h, 7, CALM.(switch := AfterReplace)).recovery
               == Some(Host(Some(Built(7)), Database(1, None), map[7 := 1]))
  {
    assert map[7 := 0].Keys == {7};
  }

  // ---------------------------------------------------------------------- runs

  // Between activations anything may write to the database.
  datatype Event = Activate(sha: Sha, script: Script) | Writes(db: Database)

  // An activation, complete or cut off after any of its actions.
  ghost predicate LeadsTo(h: Host, e: Event, after: Host) {
    match e
    case Activate(sha, s) => after == h || after in Hosts(h, sha, s)
    case Writes(db) => after == h.(db := db)
  }

  ghost predicate IsRun(hosts: seq<Host>, events: seq<Event>) {
    && |hosts| == |events| + 1
    && hosts[0].backups == map[]
    && forall i | 0 <= i < |events| :: LeadsTo(hosts[i], events[i], hosts[i + 1])
  }

  lemma BackupsOnlyGrow(h: Host, e: Event, after: Host)
    requires LeadsTo(h, e, after)
    ensures || after.backups == h.backups
            || (e.Activate? && e.sha !in h.backups
                && after.backups == h.backups[e.sha := Quiesced(h, e.script).Seen()])
  {
    if e.Activate? {
      EveryHostIsCovered(h, e.sha, e.script);
    }
  }

  // Event `k` is the activation that made the first backup of the commit.
  ghost predicate FirstBackup(hosts: seq<Host>, events: seq<Event>, k: nat, sha: Sha)
    requires |hosts| == |events| + 1
  {
    && k < |events| && events[k].Activate? && events[k].sha == sha
    && sha in hosts[k + 1].backups
    && forall i | 0 <= i <= k :: sha !in hosts[i].backups
  }

  lemma BackupStaysOrArises(h: Host, e: Event, after: Host, sha: Sha)
    requires LeadsTo(h, e, after)
    ensures sha in h.backups ==> sha in after.backups && after.backups[sha] == h.backups[sha]
    ensures sha !in h.backups && sha in after.backups ==>
              e.Activate? && e.sha == sha && after.backups[sha] == Quiesced(h, e.script).Seen()
  {
    BackupsOnlyGrow(h, e, after);
  }

  // Every backup shows the database of the first activation that made one.
  lemma {:induction false} BackupDatesFromFirst(hosts: seq<Host>, events: seq<Event>, n: nat, sha: Sha) returns (k: nat)
    requires IsRun(hosts, events) && n < |hosts| && sha in hosts[n].backups
    ensures k < n && FirstBackup(hosts, events, k, sha)
    ensures hosts[n].backups[sha] == Quiesced(hosts[k], events[k].script).Seen()
  {
    assert n > 0 && LeadsTo(hosts[n - 1], events[n - 1], hosts[n]);
    BackupStaysOrArises(hosts[n - 1], events[n - 1], hosts[n], sha);
    if sha in hosts[n - 1].backups {
      k := BackupDatesFromFirst(hosts, events, n - 1, sha);
    } else {
      k := n - 1;
      NeverBefore(hosts, events, n - 1, sha);
    }
  }

  lemma {:induction false} NeverBefore(hosts: seq<Host>, events: seq<Event>, n: nat, sha: Sha)
    requires IsRun(hosts, events) && n < |hosts| && sha !in hosts[n].backups
    ensures forall i | 0 <= i <= n :: sha !in hosts[i].backups
  {
    if n > 0 {
      assert LeadsTo(hosts[n - 1], events[n - 1], hosts[n]);
      BackupStaysOrArises(hosts[n - 1], events[n - 1], hosts[n], sha);
      NeverBefore(hosts, events, n - 1, sha);
    }
  }

  // So a commit tried again and rolled back takes the database back to its
  // first try, whatever was written since.
  lemma RetryGoesBackToFirstTry(hosts: seq<Host>, events: seq<Event>, n: nat) returns (k: nat)
    requires IsRun(hosts, events) && n < |events| && events[n].Activate?
    requires events[n].sha in hosts[n].backups
    requires StageOf(hosts[n], events[n].sha, events[n].script) == Running
    requires Activation(hosts[n], events[n].sha, events[n].script).recovery.Some?
    ensures k < n && FirstBackup(hosts, events, k, events[n].sha)
    ensures Activation(hosts[n], events[n].sha, events[n].script).recovery.value.db.Seen()
            == Quiesced(hosts[k], events[k].script).Seen()
  {
    k := BackupDatesFromFirst(hosts, events, n, events[n].sha);
  }

  // ------------------------------------------------------------------- program

  lemma Reassociate(a: seq<Host>, b: seq<Host>, c: seq<Host>)
    ensures a + b + c == a + (b + c)
  {
  }

  class ArtifactActivator {
    var current: Option<Release>
    var db: Database
    var backups: map<Sha, Content>
    ghost var trace: seq<Host>  // the host after each action so far

    ghost function State(): Host
      reads this
    {
      Host(current, db, backups)
    }

    constructor (current: Option<Release>, db: Database)
      ensures State() == Host(current, db, map[]) && trace == []
    {
      this.current, this.db, backups, trace := current, db, map[], [];
    }

    // _switch
    method Switch(to: Release, fault: Fault) returns (ok: bool)
      modifies this`current, this`trace
      ensures ok <==> fault == Clean
      ensures current == if fault == BeforeReplace then old(current) else Some(to)
      ensures trace == old(trace) + [State()]
    {
      if fault != BeforeReplace {
        current := Some(to);
      }
      trace := trace + [State()];
      ok := fault == Clean;
    }

    method Call(callback: Callback) returns (ok: bool)
      modifies this`db, this`trace
      ensures ok <==> !callback.raises
      ensures db == callback.leaves && trace == old(trace) + [State()]
    {
      db := callback.leaves;
      trace := trace + [State()];
      ok := !callback.raises;
    }

    // _ensure_database_backup: the backup is read through the log; None when it raises.
    method EnsureBackup(sha: Sha, fault: Fault) returns (backup: Option<Content>)
      modifies this`backups, this`trace
      ensures backups == if sha in old(backups) || fault == BeforeReplace then old(backups)
                         else old(backups)[sha := db.Seen()]
      ensures backup.Some? <==> fault == Clean
      ensures backup.Some? ==> sha in backups && backup.value == backups[sha]
      ensures trace == old(trace) + [State()]
    {
      if sha !in backups && fault != BeforeReplace {
        backups := backups[sha := db.Seen()];
      }
      trace := trace + [State()];
      backup := if fault == Clean then Some(backups[sha]) else None;
    }

    // _restore_database: the file is replaced, then the log that belonged to
    // the old file is removed.
    method Restore(backup: Content, fault: Fault) returns (ok: bool)
      modifies this`db, this`trace
      ensures ok <==> fault == Clean
      ensures db == match fault
                    case Clean => Database(backup, None)
                    case BeforeReplace => old(db)
                    case AfterReplace => old(db).(main := backup)
      ensures trace == old(trace) + RestoreHosts(old(State()), backup, fault)
    {
      if fault == BeforeReplace {
        return false;
      }
      db := db.(main := backup);
      trace := trace + [State()];
      if fault == AfterReplace {
        return false;
      }
      db := db.(log := None);
      trace := trace + [State()];
      ok := true;
    }

    // The calls to the new release.
    method Start(s: Script) returns (ok: bool)
      modifies this`db, this`trace
      ensures ok <==> !(s.restart.raises || s.smoke.raises || Raises(s.commit))
      ensures db == LastRun(s)
      ensures trace == old(trace) + StartHosts(old(State()), s)
    {
      ok := Call(s.restart);
      if !ok { return; }
      ok := Call(s.smoke);
      if !ok { return; }
      if s.commit.Some? {
        ok := Call(s.commit.value);
      }
    }

    // The calls before the link moves: quiesce, back up, prepare.
    method GetReady(sha: Sha, s: Script) returns (ok: bool, backup: Option<Content>)
      modifies this`db, this`backups, this`trace
      ensures ok <==> StageOf(old(State()), sha, s) in {Switching, Running, Finished}
      ensures db == if StageOf(old(State()), sha, s) in {Quiescing, BackingUp} then Quiesced(old(State()), s)
                    else s.prepare.leaves
      ensures backups == BackupsAfter(old(State()), sha, s)
      ensures ok ==> sha in backups && backup == Some(backups[sha])
      ensures trace == old(trace) + ReadyHosts(old(State()), sha, s)
    {
      backup := None;
      if s.quiesce.Some? {
        ok := Call(s.quiesce.value);
        if !ok { return; }
      }
      backup := EnsureBackup(sha, s.backup);
      if backup.None? { return false, backup; }
      ok := Call(s.prepare);
    }

    // The switch and what follows it in the guarded block; `switched` and
    // `databaseMayHaveChanged` are the flags the handler looks at.
    method SwitchAndStart(sha: Sha, previous: Release, s: Script)
      returns (ok: bool, switched: bool, databaseMayHaveChanged: bool)
      requires current == Some(previous)
      modifies this
      ensures backups == old(backups)
      ensures databaseMayHaveChanged <==> previous == Built(sha) || s.switch == Clean
      ensures switched <==> databaseMayHaveChanged && previous != Built(sha)
      ensures current == Some(if previous != Built(sha) && s.switch == BeforeReplace then previous else Built(sha))
      ensures db == if databaseMayHaveChanged then LastRun(s) else old(db)
      ensures ok <==> databaseMayHaveChanged && !(s.restart.raises || s.smoke.raises || Raises(s.commit))
      ensures trace == old(trace) + SwitchHosts(old(State()), sha, s)
    {
      switched, databaseMayHaveChanged := false, false;
      if previous != Built(sha) {
        ok := Switch(Built(sha), s.switch);
        if !ok { return; }
        switched := true;
      }
      databaseMayHaveChanged := true;
      ghost var here := State();
      ok := Start(s);
      if switched {
        Reassociate(old(trace), [here], StartHosts(here, s));
      }
    }

    // The guarded block.
    method Attempt(sha: Sha, previous: Release, s: Script)
      returns (ok: bool, switched: bool, databaseMayHaveChanged: bool, backup: Option<Content>)
      requires current == Some(previous)
      modifies this
      ensures State() == AtExit(old(State()), sha, s)
      ensures ok <==> StageOf(old(State()), sha, s) == Finished
      ensures databaseMayHaveChanged <==> StageOf(old(State()), sha, s) in {Running, Finished}
      ensures switched <==> databaseMayHaveChanged && previous != Built(sha)
      ensures databaseMayHaveChanged ==> sha in backups && backup == Some(backups[sha])
      ensures trace == old(trace) + AttemptHosts(old(State()), sha, s)
    {
      ghost var start := State();
      switched, databaseMayHaveChanged := false, false;
      ok, backup := GetReady(sha, s);
      if !ok { return; }
      ghost var prepared := State();
      ok, switched, databaseMayHaveChanged := SwitchAndStart(sha, previous, s);
      Reassociate(old(trace), ReadyHosts(start, sha, s), SwitchHosts(prepared, sha, s));
    }

    // The last part of the handler: start the previous release again.
    method StartAgain(s: Script) returns (result: Result)
      modifies this`db, this`trace
      ensures Outcome(State(), result, Some(old(State()))) == Recovery(old(State()), s)
      ensures trace == old(trace) + AgainHosts(old(State()), s)
    {
      var ok := Call(s.restartAgain);
      if !ok {
        return RecoveryFailed;
      }
      ok := Call(s.smokeAgain);
      result := if ok then Raised else RecoveryFailed;
    }

    // The handler from the database on.
    method Undo(backup: Content, s: Script) returns (result: Result, ghost recovery: Option<Host>)
      modifies this`db, this`trace
      ensures s.restore == Clean ==>
                Outcome(State(), result, recovery) == Recovery(old(State()).(db := Database(backup, None)), s)
      ensures s.restore != Clean ==>
                && result == Raised && recovery == None
                && db == if s.restore == AfterReplace then old(db).(main := backup) else old(db)
      ensures trace == old(trace) + UndoHosts(old(State()), backup, s)
    {
      ghost var start := State();
      recovery := None;
      var ok := Restore(backup, s.restore);
      if !ok {
        return Raised, recovery;
      }
      recovery := Some(State());
      result := StartAgain(s);
      Reassociate(old(trace), RestoreHosts(start, backup, s.restore), AgainHosts(recovery.value, s));
    }

    // The handler; `start` is the host the guarded block began on.
    method Handle(sha: Sha, previous: Release, s: Script, switched: bool, databaseMayHaveChanged: bool,
        backup: Option<Content>, ghost start: Host)
      returns (result: Result, ghost recovery: Option<Host>)
      requires previous == Previous(start) && start.current.Some?
      requires StageOf(start, sha, s) != Finished && State() == AtExit(start, sha, s)
      requires databaseMayHaveChanged <==> StageOf(start, sha, s) == Running
      requires switched <==> databaseMayHaveChanged && previous != Built(sha)
      requires databaseMayHaveChanged ==> sha in backups && backup == Some(backups[sha])
      modifies this
      ensures Outcome(State(), result, recovery) == Rollback(start, sha, s)
      ensures trace == old(trace) + RollbackHosts(start, sha, s)
    {
      recovery := None;
      if switched {
        var ok := Switch(previous, s.switchBack);
        if !ok {
          return Raised, recovery;
        }
      }
      ghost var here := State();
      if databaseMayHaveChanged && backup.Some? {
        result, recovery := Undo(backup.value, s);
        Reassociate(old(trace), [here], UndoHosts(here, backup.value, s));
        return;
      }
      recovery := Some(State());
      result := StartAgain(s);
    }

    // activate, once the artifact has been verified and unpacked.
    method Activate(sha: Sha, s: Script) returns (result: Result, ghost recovery: Option<Host>)
      modifies this
      ensures Outcome(State(), result, recovery) == Activation(old(State()), sha, s)
      ensures trace == old(trace) + Hosts(old(State()), sha, s)
    {
      recovery := None;
      if !s.ready {
        return Raised, recovery;
      }
      var previous := Legacy;
      if current.Some? {
        previous := current.value;
      } else {
        if !s.legacyPresent {
          return Raised, recovery;
        }
        var adopted := Switch(previous, s.adopt);
        if !adopted {
          return Raised, recovery;
        }
      }
      ghost var here := State();
      result, recovery := Try(sha, previous, s);
      Reassociate(old(trace), [here], TryHosts(here, sha, s));
      SameButLinked(old(State()), here, sha, s);
    }

    // The guarded block and its handler.
    method Try(sha: Sha, previous: Release, s: Script) returns (result: Result, ghost recovery: Option<Host>)
      requires current == Some(previous)
      modifies this
      ensures StageOf(old(State()), sha, s) == Finished ==>
                Outcome(State(), result, recovery) == Outcome(AtExit(old(State()), sha, s), Returned(Built(sha)), None)
      ensures StageOf(old(State()), sha, s) != Finished ==>
                Outcome(State(), result, recovery) == Rollback(old(State()), sha, s)
      ensures trace == old(trace) + TryHosts(old(State()), sha, s)
    {
      ghost var start := State();
      recovery := None;
      var ok, switched, databaseMayHaveChanged, backup := Attempt(sha, previous, s);
      if ok {
        return Returned(Built(sha)), recovery;
      }
      result, recovery := Handle(sha, previous, s, switched, databaseMayHaveChanged, backup, start);
      Reassociate(old(trace), AttemptHosts(start, sha, s), RollbackHosts(start, sha, s));
    }
  }
}
