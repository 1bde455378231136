/** The runtime swap around a configuration update: `update_admin_config` of app/main.py. */
module AdminRuntime {
  import opened Wrappers
  import opened Disk
  import opened FileNames
  import opened AdminFormat
  import opened AdminUpdate

  function Ids(printers: seq<PrinterConfig>): set<string> {
    set p | p in printers :: p.id
  }

  /** A ControlManager as far as its MQTT workers go: one per printer, running until asked to stop. */
  class Manager {
    const config: AppConfig
    var running: set<string>

    constructor (config: AppConfig)
      ensures this.config == config && running == {}
    {
      this.config, running := config, {};
    }

    ghost predicate Valid()
      reads this
    {
      running <= Ids(config.printers)
    }

    function Startable(fails: string -> bool): set<string> {
      set p | p in config.printers && !fails(p.id) :: p.id
    }

    /** `start`: every worker is tried; a strict start stops those it started when another one failed. */
    method Start(strict: bool, fails: string -> bool) returns (ok: bool)
      requires Valid()
      modifies this
      ensures Valid()
      ensures ok <==> !strict || forall p :: p in config.printers ==> !fails(p.id)
      ensures running == if ok then old(running) + Startable(fails) else old(running) - Startable(fails)
    {
      var started: set<string>, failures, i := {}, false, 0;
      while i < |config.printers|
        invariant i <= |config.printers|
        invariant started == set p | p in config.printers[..i] && !fails(p.id) :: p.id
        invariant failures <==> exists p :: p in config.printers[..i] && fails(p.id)
        invariant running == old(running) + started
      {
        var printer := config.printers[i];
        assert config.printers[..i + 1] == config.printers[..i] + [printer];
        if fails(printer.id) {
          failures := true;
        } else {
          running := running + {printer.id};
          started := started + {printer.id};
        }
        i := i + 1;
      }
      assert config.printers[..i] == config.printers;
      ok := !(strict && failures);
      if !ok { running := running - started; }
    }

    /** `stop`: asks every worker to stop, whatever happens to the others. */
    method Stop()
      requires Valid()
      modifies this
      ensures Valid() && running == {}
    {
      var i := 0;
      while i < |config.printers|
        invariant i <= |config.printers| && running == old(running) - Ids(config.printers[..i])
      {
        assert config.printers[..i + 1] == config.printers[..i] + [config.printers[i]];
        running := running - {config.printers[i].id};
        i := i + 1;
      }
      assert config.printers[..i] == config.printers;
    }
  }

  datatype Reply = Applied | Invalid | ConflictReply | Failed

  function ReplyFor(error: AdminError): Reply {
    match error
    case Validation => Invalid
    case Conflict => ConflictReply
    case Persistence => Failed
  }

  /** What else may go wrong or happen while an update is applied. */
  datatype Weather = Weather(
    factoryFails: bool,                // constructing the new manager
    camerasFail: bool,                 // closing the camera streams
    startFails: string -> bool,        // the workers of the new manager
    restartFails: string -> bool,      // the workers of the old one, started again
    outside: Option<Bytes>)            // what another process made of the configuration before the commit

  predicate Fair(w: Weather) {
    !w.factoryFails && !w.camerasFail && w.outside.None?
  }

  class Application {
    const store: AdminConfigStore
    var config: AppConfig
    var manager: Manager

    constructor (store: AdminConfigStore, manager: Manager)
      ensures this.store == store && this.manager == manager && config == manager.config
    {
      this.store, this.manager, this.config := store, manager, manager.config;
    }

    ghost predicate Valid(since: nat)
      reads this, manager, store.disk
    {
      && manager.Valid() && manager.config == config && store.Safe(since)
      && store.main in store.disk.files && SelfFree(store.f, store.disk.files[store.main], store.main)
    }

    /** The program runs on what the disk says. */
    ghost predicate Agrees()
      reads this, store.disk
    {
      Load(store.f, store.disk.files, store.main) == Some(config)
    }

    /** What another process writes is a configuration with secrets of its own that exist. */
    ghost predicate Plausible(w: Weather, files: Files) {
      w.outside.None? ||
      (store.RefsWithin(w.outside.value, files.Keys) && SelfFree(store.f, w.outside.value, store.main))
    }

    /** What the other process, if any, left in the configuration's place. */
    ghost function MainAfter(w: Weather, before: Bytes): Bytes {
      if w.outside.Some? then w.outside.value else before
    }

    /** The way back from any failure: the new manager is stopped, the old one started again, the update withdrawn. */
    method WayBack(p: PreparedConfigUpdate, candidate: Manager, oldStopped: bool, w: Weather, ghost since: nat)
      requires manager.Valid() && candidate.Valid() && candidate != manager
      requires p.store == store && (p.Written(since) || p.Unwritten(since))
      modifies manager, candidate, p, store.disk
      ensures store.disk.faults >= old(store.disk.faults)
      ensures manager.Valid() && candidate.running == {} && store.Safe(since) && p.committed == old(p.committed)
      ensures manager.running == if oldStopped then old(manager.running) + manager.Startable(w.restartFails)
                                 else old(manager.running)
      ensures store.main in store.disk.files && store.disk.files[store.main] == old(store.disk.files[store.main])
      ensures if p.committed then Load(store.f, store.disk.files, store.main) == Some(p.config)
              else Kept(p.origin, store.disk.files, {store.main})
      ensures !p.committed && old(p.Exact()) && store.disk.NoFaults() ==>
                store.disk.files == p.origin[store.main := store.disk.files[store.main]]
    {
      candidate.Stop();
      if oldStopped { var restarted := manager.Start(false, w.restartFails); }
      p.Abort(since);
      if p.committed { p.LoadsCandidate(store.disk.files); }
    }

    /** The try block: cameras, old manager, new manager, commit; the first failure ends it. */
    method TrySwap(p: PreparedConfigUpdate, candidate: Manager, w: Weather, ghost since: nat)
      returns (error: Option<AdminError>, oldStopped: bool)
      requires manager.Valid() && candidate != manager && candidate.running == {} && candidate.config == p.config
      requires p.store == store && p.Open(since) && Plausible(w, p.origin)
      modifies manager, candidate, p, store.disk
      ensures store.disk.faults >= old(store.disk.faults)
      ensures manager.Valid() && candidate.Valid()
      ensures manager.running == if oldStopped then {} else old(manager.running)
      ensures error.None? ==> oldStopped && candidate.running == Ids(p.config.printers)
      ensures store.disk.NoFaults() && Fair(w) && NoneFails(w, p.config) ==>
                old(store.disk.files[store.main]) == p.baseline ==> error.None?
      ensures CommitResult(p, error, w, old(store.disk.files), since)
      ensures Narrow(p, error)
    {
      if w.camerasFail { return Some(Persistence), false; }
      manager.Stop();
      var started := candidate.Start(true, w.startFails);
      if !started { return Some(Persistence), true; }
      error := CommitNow(p, w, since);
      oldStopped := true;
    }

    /** What takes two faults: to fail with the commit standing, and to leave a file behind. */
    twostate predicate Narrow(p: PreparedConfigUpdate, error: Option<AdminError>)
      reads p, p.store.disk
    {
      && (error.Some? && p.committed ==> !p.store.disk.OneFault())
      && (old(p.Exact()) && p.store.disk.OneFault() ==> p.Exact())
    }

    /** How the commit may have ended, if it was reached. */
    ghost predicate CommitResult(p: PreparedConfigUpdate, error: Option<AdminError>, w: Weather, before: Files,
                                 since: nat)
      reads p, p.store.disk
    {
      var files := p.store.disk.files;
      && p.store == store
      && (if p.committed then p.Written(since) else p.Unwritten(since))
      && (error.None? ==> p.committed)
      && store.main in before && store.main in files
      && (!p.committed ==> files[store.main] in {before[store.main], MainAfter(w, before[store.main])})
      && (error == Some(Conflict) ==>
            !p.committed && files[store.main] == MainAfter(w, before[store.main]) != p.baseline)
    }

    predicate NoneFails(w: Weather, c: AppConfig) {
      forall printer :: printer in c.printers ==> !w.startFails(printer.id)
    }

    method CommitNow(p: PreparedConfigUpdate, w: Weather, ghost since: nat) returns (error: Option<AdminError>)
      requires p.store == store && p.Open(since) && Plausible(w, p.origin)
      modifies p, store.disk
      ensures store.disk.faults >= old(store.disk.faults)
      ensures CommitResult(p, error, w, old(store.disk.files), since)
      ensures Narrow(p, error)
      ensures store.disk.NoFaults() && w.outside.None? && old(store.disk.files[store.main]) == p.baseline ==>
                error.None?
    {
      Interfere(p, w, since);
      var outcome := p.Commit(since);
      match outcome {
        case Committed => error := None;
        case CommitConflict => error := Some(Conflict);
        case CommitFailed => error := Some(Persistence);
      }
    }

    method Interfere(p: PreparedConfigUpdate, w: Weather, ghost since: nat)
      requires p.store == store && p.Open(since) && Plausible(w, p.origin)
      modifies store.disk
      ensures store.disk.faults >= old(store.disk.faults)
      ensures p.Open(since) && (old(p.Exact()) ==> p.Exact()) && store.disk.NoFaults()
      ensures store.disk.files[store.main] == MainAfter(w, old(store.disk.files[store.main]))
    {
      if w.outside.None? { return; }
      ghost var before := store.disk.trace;
      store.disk.WrittenByOthers(store.main, w.outside.value);
      forall i | since <= i < |store.disk.trace| ensures Intact(store.f, store.disk.trace[i], store.main) {
        if i < |before| { assert store.disk.trace[i] == before[i]; }
      }
    }

    /**
      The handler from `prepare` on.  `loser` is the manager that does not serve in the end; `stuck` tells that the
      commit failed after its replacement and could not be undone.
    */
    method UpdateAdminConfig(update: Update, w: Weather, ghost since: nat)
      returns (reply: Reply, ghost loser: Manager?, ghost stuck: bool)
      requires Valid(since) && Faithful(store.f) && Plausible(w, store.disk.files)
      requires forall u :: u in update.printers ==> PrinterToken(u.id)
      modifies this, manager, store, store.disk
      ensures store.disk.faults >= old(store.disk.faults)
      ensures Handled(update, w, old(store.disk.files), since, reply, loser, stuck)
      ensures reply != Applied && store.disk.NoFaults() && w.outside.None? ==> store.disk.files == old(store.disk.files)
      ensures reply == Applied && store.disk.NoFaults() ==> store.Neat(old(store.disk.files), store.disk.files)
      ensures old(store.Favourable(update, config)) && Fair(w) && (forall id :: !w.startFails(id)) ==>
        && (store.disk.NoFaults() ==> reply == Applied)
        && (store.disk.OneFault() ==> reply == Applied || store.disk.files == old(store.disk.files))
    {
      loser, stuck := null, false;
      var prepared := store.Prepare(update, config, since);
      if prepared.Err? {
        reply := ReplyFor(prepared.error);
        if old(Agrees()) { StillAgrees(old(store.disk.files), store.disk.files, config); }
      } else {
        reply, loser, stuck := Carry(update, prepared.value, w, since);
      }
    }

    /**
      What the client's reply means.  Applied: the new manager serves, it is the requested configuration, and the disk
      says so.  Otherwise the old manager and configuration are back, and the disk agrees with them as before, unless
      another process wrote the configuration or the commit is stuck; then the disk holds the requested one.  Stuck
      means that two calls have failed: the closing of the directory after the replacement, and the undo of the latter.
    */
    twostate predicate Handled(update: Update, w: Weather, before: Files, since: nat,
                               reply: Reply, new loser: Manager?, stuck: bool)
      requires store.main in before
      reads this, manager, loser, store.disk
    {
      var files := store.disk.files;
      && manager.Valid() && manager.config == config && store.Safe(since) && store.main in files
      && (loser != null ==> loser.running == {} && loser != manager)
      && (if reply == Applied then
            && !stuck && loser == old(manager) && fresh(manager)
            && Requested(store.f, update, old(config), config)
            && manager.running == Ids(config.printers) && Agrees()
          else
            && config == old(config) && manager == old(manager)
            && (manager.running == old(manager.running) || manager.running == manager.Startable(w.restartFails))
            && (!stuck && w.outside.None? && Load(store.f, before, store.main) == Some(config) ==> Agrees())
            && (stuck ==> !store.disk.OneFault()))
      && (reply == ConflictReply && Load(store.f, before, store.main) == Some(old(config)) ==>
            w.outside.Some? && files[store.main] == w.outside.value != before[store.main])
      && (stuck ==>
            && loser != null && Requested(store.f, update, old(config), loser.config)
            && Load(store.f, files, store.main) == Some(loser.config))
    }

    method Carry(update: Update, p: PreparedConfigUpdate, w: Weather, ghost since: nat)
      returns (reply: Reply, ghost loser: Manager?, ghost stuck: bool)
      requires manager.Valid() && manager.config == config && p.store == store && Plausible(w, p.origin)
      requires store.Prepared(update, config, p.origin, p, since) && SelfFree(store.f, p.baseline, store.main)
      modifies this, manager, p, store.disk
      ensures store.disk.faults >= old(store.disk.faults)
      ensures Handled(update, w, p.origin, since, reply, loser, stuck)
      ensures reply != Applied && old(p.Exact()) && store.disk.NoFaults() && w.outside.None? ==>
                store.disk.files == p.origin
      ensures reply == Applied && old(p.Exact()) && store.disk.NoFaults() ==> store.Neat(p.origin, store.disk.files)
      ensures Fair(w) && (forall id :: !w.startFails(id)) ==>
        && (store.disk.NoFaults() ==> reply == Applied)
        && (old(p.Exact()) && store.disk.OneFault() ==> reply == Applied || store.disk.files == p.origin)
    {
      reply, loser, stuck := ApplyOrWithdraw(p, w, since);
      if reply != Applied && !stuck && w.outside.None? && Load(store.f, p.origin, store.main) == Some(config) {
        StillAgrees(p.origin, store.disk.files, config);
      }
    }

    method Withdraw(p: PreparedConfigUpdate, ghost since: nat)
      requires p.store == store && p.Open(since)
      modifies p, store.disk
      ensures store.disk.faults >= old(store.disk.faults)
      ensures store.Safe(since) && store.main in store.disk.files
      ensures store.disk.files[store.main] == old(store.disk.files[store.main])
      ensures Kept(p.origin, store.disk.files, {store.main})
      ensures old(p.Exact()) && store.disk.NoFaults() ==>
                store.disk.files == p.origin[store.main := store.disk.files[store.main]]
    {
      p.Abort(since);
    }

    lemma StillAgrees(before: Files, after: Files, c: AppConfig)
      requires Load(store.f, before, store.main) == Some(c) && Kept(before, after, {store.main})
      requires store.main in before && store.main in after && after[store.main] == before[store.main]
      requires SelfFree(store.f, before[store.main], store.main)
      ensures Load(store.f, after, store.main) == Some(c)
    {
      LoadedKept(store.f, before, after, DocumentOf(store.f, before[store.main]), {store.main});
    }

    /** The new state is published, then the update finalized. */
    method Adopt(p: PreparedConfigUpdate, candidate: Manager, ghost since: nat)
      requires p.store == store && p.Written(since)
      modifies this, p, store.disk
      ensures store.disk.faults >= old(store.disk.faults)
      ensures config == p.config && manager == candidate && store.Safe(since) && Agrees()
      ensures old(p.Exact()) && store.disk.NoFaults() ==> store.Neat(p.origin, store.disk.files)
    {
      config, manager := p.config, candidate;
      p.Finalize(since);
    }

    /** How an update ends once it is prepared. */
    twostate predicate Ended(p: PreparedConfigUpdate, w: Weather, before: Files, since: nat,
                             reply: Reply, new loser: Manager?, stuck: bool)
      requires store.main in before
      reads this, manager, loser, p, store.disk
    {
      var files := store.disk.files;
      && manager.Valid() && manager.config == config && store.Safe(since) && store.main in files
      && (loser != null ==> loser.running == {} && loser != manager)
      && (if reply == Applied then
            && !stuck && loser == old(manager) && config == p.config
            && manager.running == Ids(config.printers) && Agrees()
          else
            && config == old(config) && manager == old(manager)
            && SteppedBack(p, w, before, old(manager.running), loser, stuck))
      && (reply == ConflictReply ==> files[store.main] == MainAfter(w, before[store.main]) != p.baseline)
    }

    /**
      What the faults counted meanwhile tell of the directory.  Without any, there is nothing in it that does not
      belong there; with one, an update that nothing else stands against is applied or has left no trace; and it takes
      two for a commit to be stuck.
    */
    ghost predicate Accounted(p: PreparedConfigUpdate, w: Weather, before: Files, exact: bool, faults: int,
                              reply: Reply, stuck: bool, files: Files)
      requires store.main in before && store.main in files
    {
      && (stuck ==> faults > 1)
      && (exact && faults == 0 ==>
            if reply == Applied then store.Neat(p.origin, files) else BackIn(p, files))
      && (Fair(w) && NoneFails(w, p.config) && before[store.main] == p.baseline ==>
            && (faults == 0 ==> reply == Applied)
            && (exact && faults <= 1 ==> reply == Applied || BackIn(p, files)))
    }

    ghost predicate BackIn(p: PreparedConfigUpdate, files: Files) {
      store.main in files && files == p.origin[store.main := files[store.main]]
    }

    /** The old manager serves again, and so does the old configuration unless the commit is stuck. */
    ghost predicate SteppedBack(p: PreparedConfigUpdate, w: Weather, before: Files, running: set<string>,
                                loser: Manager?, stuck: bool)
      requires store.main in before && store.main in store.disk.files
      reads this, manager, loser, p, store.disk
    {
      var files := store.disk.files;
      && (manager.running == running || manager.running == manager.Startable(w.restartFails))
      && (stuck ==> loser != null && loser.config == p.config && Load(store.f, files, store.main) == Some(p.config))
      && (!stuck ==> Kept(p.origin, files, {store.main}))
      && (!stuck && w.outside.None? ==> files[store.main] == before[store.main])
    }

    method StepBack(p: PreparedConfigUpdate, candidate: Manager, error: AdminError, oldStopped: bool, w: Weather,
                    ghost before: Files, ghost running: set<string>, ghost since: nat)
      requires store.main in before && CommitResult(p, Some(error), w, before, since)
      requires manager.Valid() && candidate.Valid() && candidate != manager && candidate.config == p.config
      requires manager.running == if oldStopped then {} else running
      modifies manager, candidate, p, store.disk
      ensures store.disk.faults >= old(store.disk.faults)
      ensures manager.Valid() && candidate.running == {} && store.Safe(since) && p.committed == old(p.committed)
      ensures store.main in store.disk.files && store.disk.files[store.main] == old(store.disk.files[store.main])
      ensures SteppedBack(p, w, before, running, candidate, p.committed)
      ensures !p.committed && old(p.Exact()) && store.disk.NoFaults() ==>
                store.disk.files == p.origin[store.main := store.disk.files[store.main]]
    {
      WayBack(p, candidate, oldStopped, w, since);
    }

    method ApplyOrWithdraw(p: PreparedConfigUpdate, w: Weather, ghost since: nat)
      returns (reply: Reply, ghost loser: Manager?, ghost stuck: bool)
      requires manager.Valid() && manager.config == config && p.store == store && p.Open(since)
      requires Plausible(w, p.origin)
      modifies this, manager, p, store.disk
      ensures store.disk.faults >= old(store.disk.faults)
      ensures Ended(p, w, old(store.disk.files), since, reply, loser, stuck) && reply != Invalid
      ensures reply == Applied ==> fresh(manager)
      ensures Accounted(p, w, old(store.disk.files), old(p.Exact()), store.disk.faults - old(store.disk.faults),
                        reply, stuck, store.disk.files)
    {
      if w.factoryFails {
        Withdraw(p, since);
        return Failed, null, false;
      }
      reply, loser, stuck := Apply(p, w, since);
    }

    method Apply(p: PreparedConfigUpdate, w: Weather, ghost since: nat)
      returns (reply: Reply, ghost loser: Manager, ghost stuck: bool)
      requires manager.Valid() && manager.config == config && p.store == store && p.Open(since)
      requires Plausible(w, p.origin)
      modifies this, manager, p, store.disk
      ensures store.disk.faults >= old(store.disk.faults)
      ensures Ended(p, w, old(store.disk.files), since, reply, loser, stuck) && reply != Invalid
      ensures reply == Applied ==> fresh(manager)
      ensures Accounted(p, w, old(store.disk.files), old(p.Exact()), store.disk.faults - old(store.disk.faults),
                        reply, stuck, store.disk.files)
    {
      var candidate := new Manager(p.config);
      reply, loser, stuck := ApplyWith(p, candidate, w, since);
    }

    method ApplyWith(p: PreparedConfigUpdate, candidate: Manager, w: Weather, ghost since: nat)
      returns (reply: Reply, ghost loser: Manager, ghost stuck: bool)
      requires manager.Valid() && manager.config == config && p.store == store && p.Open(since)
      requires Plausible(w, p.origin)
      requires candidate != manager && candidate.running == {} && candidate.config == p.config
      modifies this, manager, candidate, p, store.disk
      ensures store.disk.faults >= old(store.disk.faults)
      ensures Ended(p, w, old(store.disk.files), since, reply, loser, stuck) && reply != Invalid
      ensures reply == Applied ==> manager == candidate
      ensures Accounted(p, w, old(store.disk.files), old(p.Exact()), store.disk.faults - old(store.disk.faults),
                        reply, stuck, store.disk.files)
    {
      ghost var before, running := store.disk.files, manager.running;
      var error, oldStopped := TrySwap(p, candidate, w, since);
      if error.None? {
        loser, stuck := manager, false;
        Adopt(p, candidate, since);
        reply := Applied;
      } else {
        StepBack(p, candidate, error.value, oldStopped, w, before, running, since);
        loser, stuck := candidate, p.committed;
        reply := if error.value.Conflict? then ConflictReply else Failed;
      }
    }
  }
}
