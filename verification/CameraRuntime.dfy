/**
  The manager and stream objects of app/camera.py in their own form: fields updated in place.  The manager keeps its
  history; every method is the code between two awaits, extends the history by one step of CameraModel, and so brings
  the theorems about runs to the objects.
*/
module CameraRuntime {
  import opened Wrappers
  import opened CameraModel
  import opened CameraInvariant
  import opened CameraSafety
  import opened CameraFlow

  class CameraStream {
    const id: nat
    const printer: string
    const session: string
    const ticket: Option<nat>
    const maxRestarts: nat
    var process: Option<nat>
    var firstChunk: Option<nat>
    var restarts: nat
    var closed: bool
    var processLock: Holder
    var pc: WorkerPc
    var cleanup: CleanupPc

    function View(): Stream
      reads this
    {
      Stream(printer, session, ticket, process, firstChunk, restarts, closed, processLock, pc, cleanup)
    }

    /** `before` moves to the present state by this worker step, with this effect. */
    predicate Moved(before: Stream, step: WorkerStep, effect: Effect)
      reads this
    {
      WorkerRun(maxRestarts, before, step) == Some(Outcome(View(), effect))
    }

    constructor (limits: Limits, id: nat, printer: string, session: string, ticket: Option<nat>)
      ensures View() == NewStream(printer, session, ticket)
      ensures this.id == id && maxRestarts == limits.maxRestarts
    {
      this.id, this.printer, this.session, this.ticket, maxRestarts := id, printer, session, ticket, limits.maxRestarts;
      process, firstChunk, restarts, closed := None, None, 0, false;
      processLock, pc, cleanup := Free, Starting, NotStarted;
    }

    method CatchUnavailable(phase: Phase)
      modifies this
      ensures View() == CameraModel.Unavailable(maxRestarts, old(View()), phase)
    {
      if phase == InRestart || closed || restarts >= maxRestarts {
        pc := MustClose;
      } else {
        restarts := restarts + 1;
        pc := Pausing(InStart);
      }
    }

    method StartLoop()
      requires pc == Starting
      modifies this
      ensures Moved(old(View()), Resume, Quiet)
    {
      if closed { pc := MustClose; } else { pc := AwaitLockToSpawn(InStart); }
    }

    method StartProcessTakesLock()
      requires pc.AwaitLockToSpawn? && processLock == Free
      modifies this
      ensures Moved(old(View()), Resume, Quiet)
    {
      if closed {
        CatchUnavailable(pc.phase);
      } else {
        processLock := ByWorker;
        pc := Spawning(pc.phase);
      }
    }

    method SpawnRaises()
      requires pc.Spawning?
      modifies this
      ensures Moved(old(View()), SpawnFails, Quiet)
    {
      processLock := Free;
      CatchUnavailable(pc.phase);
    }

    method SpawnReturned(hasPipe: bool) returns (effect: Effect)
      requires pc.Spawned?
      modifies this
      ensures Moved(old(View()), SpawnReturns(hasPipe), effect)
    {
      if !hasPipe || closed {
        effect := Stops(pc.pid);
        pc := SpawnStopping(pc.phase);
      } else {
        effect := Quiet;
        process := Some(pc.pid);
        processLock := Free;
        pc := FirstRead(pc.phase);
      }
    }

    method SpawnStopped()
      requires pc.SpawnStopping?
      modifies this
      ensures Moved(old(View()), Resume, Quiet)
    {
      processLock := Free;
      CatchUnavailable(pc.phase);
    }

    method FirstReadReturned(chunk: Option<nat>, authorized: bool, expired: bool)
      requires pc.FirstRead?
      modifies this
      ensures Moved(old(View()), ReadReturns(chunk, authorized, expired), Quiet)
    {
      if chunk.None? || closed || !authorized {
        pc := AwaitLockToStop(GiveUp(pc.phase));
      } else {
        firstChunk := chunk;
        pc := if pc.phase == InStart then Opened else IterTop;
      }
    }

    method AfterStop(later: AfterStop)
      modifies this
      ensures View() == AfterStopping(maxRestarts, old(View()), later)
    {
      match later
      case GiveUp(phase) => CatchUnavailable(phase);
      case PauseThenRestart => pc := Pausing(InRestart);
    }

    method StopCurrentTakesLock() returns (effect: Effect)
      requires pc.AwaitLockToStop? && processLock == Free
      modifies this
      ensures Moved(old(View()), Resume, effect)
    {
      var current := process;
      process := None;
      if current.Some? {
        effect := Stops(current.value);
        processLock := ByWorker;
        pc := Stopping(pc.later);
      } else {
        effect := Quiet;
        AfterStop(pc.later);
      }
    }

    method StopCurrentReturned()
      requires pc.Stopping?
      modifies this
      ensures Moved(old(View()), Resume, Quiet)
    {
      processLock := Free;
      AfterStop(pc.later);
    }

    method PauseOver()
      requires pc.Pausing?
      modifies this
      ensures Moved(old(View()), Resume, Quiet)
    {
      if pc.phase == InStart { pc := Starting; }
      else if closed { pc := MustClose; }
      else { pc := AwaitLockToSpawn(InRestart); }
    }

    method IterLoop(authorized: bool, expired: bool, stillAuthorized: bool) returns (effect: Effect)
      requires pc == IterTop
      modifies this
      ensures Moved(old(View()), Iterate(authorized, expired, stillAuthorized), effect)
    {
      effect := Quiet;
      if closed || !authorized || expired {
        pc := MustClose;
      } else if firstChunk.Some? {
        var chunk := firstChunk.value;
        firstChunk := None;
        if stillAuthorized {
          effect := Yields(chunk);
          pc := Yielded;
        } else {
          pc := MustClose;
        }
      } else {
        pc := Reading;
      }
    }

    method ReadReturned(chunk: Option<nat>, authorized: bool, expired: bool) returns (effect: Effect)
      requires pc == Reading
      modifies this
      ensures Moved(old(View()), ReadReturns(chunk, authorized, expired), effect)
    {
      effect := Quiet;
      if chunk.None? {
        if closed || !authorized || expired || restarts >= maxRestarts {
          pc := MustClose;
        } else {
          restarts := restarts + 1;
          pc := AwaitLockToStop(PauseThenRestart);
        }
      } else if closed || !authorized {
        pc := MustClose;
      } else {
        effect := Yields(chunk.value);
        pc := Yielded;
      }
    }

    method Close()
      modifies this
      ensures View() == CameraModel.RequestClose(old(View()))
    {
      if cleanup == NotStarted {
        closed := true;
        cleanup := CleanupAwaitLock;
      }
    }

    method CloseImplTakesLock() returns (effect: Effect)
      requires cleanup == CleanupAwaitLock && processLock == Free
      modifies this
      ensures CleanupRun(old(View())) == Some(Outcome(View(), effect))
    {
      var current := process;
      process := None;
      if current.Some? {
        effect := Stops(current.value);
        processLock := ByCleanup;
        cleanup := CleanupStopping;
      } else {
        effect := Quiet;
        cleanup := CleanupReleasing;
      }
    }

    method CloseImplStopped()
      requires cleanup == CleanupStopping
      modifies this
      ensures CleanupRun(old(View())) == Some(Outcome(View(), Quiet))
    {
      processLock := Free;
      cleanup := CleanupReleasing;
    }

    /** `_spawn` has created the process but not returned it yet. */
    method ProcessCreated(pid: nat)
      requires pc.Spawning?
      modifies this
      ensures Moved(old(View()), SpawnCreates(pid), Spawns(pid))
    {
      pc := Spawned(pc.phase, pid);
    }

    /** Cancellation, or any exception but CameraUnavailable: leaving the lock's block releases it. */
    method Interrupted()
      requires Interruptible(pc)
      modifies this
      ensures Moved(old(View()), Interrupt, Quiet)
    {
      if processLock == ByWorker { processLock := Free; }
      pc := MustClose;
    }

    /** Entering iter_bytes, or coming back to it for the next chunk. */
    method Continue()
      requires pc == Opened || pc == Yielded
      modifies this
      ensures Moved(old(View()), Resume, Quiet)
    {
      pc := IterTop;
    }

    /** The finally block of iter_bytes, or the handler around start(). */
    method FinallyClose()
      requires pc == MustClose
      modifies this
      ensures Moved(old(View()), Resume, Quiet)
    {
      Close();
      pc := AwaitCleanup;
    }

    method CleanupAwaited()
      requires pc == AwaitCleanup && cleanup == Released
      modifies this
      ensures Moved(old(View()), Resume, Quiet)
    {
      pc := Finished;
    }

    method ResumeWorker() returns (effect: Effect)
      requires ResumeRun(maxRestarts, View()).Some?
      modifies this
      ensures Moved(old(View()), Resume, effect)
    {
      effect := Quiet;
      if pc == Starting { StartLoop(); }
      else if pc.AwaitLockToSpawn? { StartProcessTakesLock(); }
      else if pc.SpawnStopping? { SpawnStopped(); }
      else if pc.AwaitLockToStop? { effect := StopCurrentTakesLock(); }
      else if pc.Stopping? { StopCurrentReturned(); }
      else if pc.Pausing? { PauseOver(); }
      else if pc == Opened || pc == Yielded { Continue(); }
      else if pc == MustClose { FinallyClose(); }
      else { CleanupAwaited(); }
    }

    /** It yields exactly the chunks it is to deliver. */
    ghost predicate YieldsDelivered(before: Stream, step: WorkerStep, effect: Effect)
      reads this
    {
      && (forall c :: effect == Yields(c) <==> Delivers(before, step, c))
      && (effect.Yields? ==> pc == Yielded)
    }

    lemma MovedYields(before: Stream, step: WorkerStep, effect: Effect)
      requires Moved(before, step, effect)
      ensures YieldsDelivered(before, step, effect)
    {
      forall c ensures effect == Yields(c) <==> Delivers(before, step, c) {
        YieldsIff(maxRestarts, before, step, c);
      }
      if effect.Yields? { YieldsIff(maxRestarts, before, step, effect.chunk); }
    }

    /** The worker coroutine runs to its next await. */
    method RunWorker(step: WorkerStep) returns (effect: Effect)
      requires WorkerRun(maxRestarts, View(), step).Some?
      modifies this
      ensures Moved(old(View()), step, effect) && YieldsDelivered(old(View()), step, effect)
    {
      effect := RunStep(step);
      MovedYields(old(View()), step, effect);
    }

    method RunStep(step: WorkerStep) returns (effect: Effect)
      requires WorkerRun(maxRestarts, View(), step).Some?
      modifies this
      ensures Moved(old(View()), step, effect)
    {
      effect := Quiet;
      match step
      case Resume => effect := ResumeWorker();
      case SpawnFails => SpawnRaises();
      case SpawnCreates(pid) => ProcessCreated(pid); effect := Spawns(pid);
      case SpawnReturns(hasPipe) => effect := SpawnReturned(hasPipe);
      case ReadReturns(chunk, authorized, expired) =>
        if pc == Reading {
          effect := ReadReturned(chunk, authorized, expired);
        } else {
          FirstReadReturned(chunk, authorized, expired);
        }
      case Iterate(authorized, expired, stillAuthorized) => effect := IterLoop(authorized, expired, stillAuthorized);
      case Interrupt => Interrupted();
    }

    /** The cleanup task runs to its next await. */
    method RunCleanup() returns (effect: Effect)
      requires CleanupRun(View()).Some?
      modifies this
      ensures CleanupRun(old(View())) == Some(Outcome(View(), effect))
    {
      effect := Quiet;
      if cleanup == CleanupAwaitLock {
        effect := CloseImplTakesLock();
      } else {
        CloseImplStopped();
      }
    }

    /** The slot has been given back. */
    method MarkReleased()
      modifies this`cleanup
      ensures View() == old(View()).(cleanup := Released)
    {
      cleanup := Released;
    }
  }

  /** What has happened so far: the states of the system, and the steps between them. */
  datatype Past = Past(states: seq<System>, actions: seq<Action>)
  {
    ghost predicate LeadsTo(l: Limits, s: System) {
      IsRun(l, states, actions) && states[|states| - 1] == s
    }
  }

  lemma WorkSteps(l: Limits, s: System, id: nat, step: WorkerStep, outcome: Outcome)
    requires id in s.streams && WorkerRun(l.maxRestarts, s.streams[id], step) == Some(outcome)
    requires step.SpawnCreates? ==> step.pid !in s.live
    ensures Step(l, s, Work(id, step)) == Some(Apply(s, id, outcome))
  {
  }

  lemma CleanSteps(l: Limits, s: System, id: nat, outcome: Outcome)
    requires id in s.streams && CleanupRun(s.streams[id]) == Some(outcome)
    ensures Step(l, s, Clean(id)) == Some(Apply(s, id, outcome))
  {
  }

  lemma ReleaseSteps(l: Limits, s: System, id: nat)
    requires id in s.streams && s.streams[id].cleanup.CleanupReleasing?
    ensures Step(l, s, Release(id)) == Some(ReleaseSlot(s, id))
  {
  }

  ghost function Views(streams: map<nat, CameraStream>): map<nat, Stream>
    reads streams.Values
  {
    map id | id in streams :: streams[id].View()
  }

  lemma ViewsGrow(streams: map<nat, CameraStream>, id: nat, stream: CameraStream)
    ensures Views(streams[id := stream]) == Views(streams)[id := stream.View()]
  {
  }

  lemma KeysGrow(streams: map<nat, CameraStream>, id: nat, stream: CameraStream)
    ensures streams[id := stream].Keys == streams.Keys + {id}
  {
  }

  class CameraStreamManager {
    const limits: Limits
    var sessions: map<nat, CameraStream>
    var byPrinter: map<string, nat>
    var tickets: TicketTable
    ghost var issued: TicketTable                  // every ticket ever issued
    ghost var streams: map<nat, CameraStream>      // every stream ever opened
    ghost var live: map<nat, nat>                  // processes not told to stop, with their stream
    ghost var past: Past

    constructor (limits: Limits)
      ensures this.limits == limits && Valid() && Sys() == INIT && past == Past([INIT], [])
    {
      this.limits := limits;
      sessions, byPrinter, tickets := map[], map[], map[];
      issued, streams, live, past := map[], map[], map[], Past([INIT], []);
    }

    /** The system these objects are. */
    ghost function Sys(): System
      reads this, streams.Values
    {
      System(tickets, issued, sessions.Keys, byPrinter, Views(streams), live)
    }

    ghost predicate Objects()
      reads this, streams.Values
    {
      && (forall id :: id in streams ==> streams[id].id == id && streams[id].maxRestarts == limits.maxRestarts)
      && (forall id :: id in sessions ==> id in streams && sessions[id] == streams[id])
    }

    /** The objects are the end of a run of the protocol. */
    ghost predicate Valid()
      reads this, streams.Values
    {
      Objects() && past.LeadsTo(limits, Sys())
    }

    /** One step of the protocol has been taken, and nothing else. */
    twostate predicate Did(a: Action)
      requires old(Valid())
      reads this, streams.Values
    {
      Valid() && past == Past(old(past.states) + [Sys()], old(past.actions) + [a])
    }

    twostate lemma DidStep(a: Action)
      requires old(Valid()) && Did(a)
      ensures Step(limits, old(Sys()), a) == Some(Sys())
    {
      StepOfRun(limits, past.states, past.actions, |old(past.actions)|);
    }

    ghost method Remember(a: Action, before: System)
      requires Objects() && past.LeadsTo(limits, before) && Step(limits, before, a) == Some(Sys())
      modifies this`past
      ensures Valid() && past == Past(old(past.states) + [Sys()], old(past.actions) + [a])
    {
      RunExtends(limits, past.states, past.actions, a, Sys());
      past := Past(past.states + [Sys()], past.actions + [a]);
    }

    /** The effect of a stream's run on the processes. */
    ghost method Settle(stream: CameraStream, effect: Effect, before: System)
      requires Objects() && Mine(stream)
      requires Sys() == before.(streams := before.streams[stream.id := stream.View()])
      modifies this`live
      ensures Objects() && Sys() == Apply(before, stream.id, Outcome(stream.View(), effect))
    {
      match effect {
        case Spawns(pid) => live := live[pid := stream.id];
        case Stops(pid) => live := map q | q in live && q != pid :: live[q];
        case _ =>
      }
    }

    // -------------------------------------------------------------- tickets

    /** One pass over a copy of the items, as all the loops over the ticket table are. */
    method PruneTicketsLocked(now: real)
      modifies this`tickets
      ensures tickets == Prune(old(tickets), now)
    {
      var rest := tickets.Keys;
      while rest != {}
        invariant rest <= tickets.Keys <= old(tickets).Keys
        invariant forall t :: t in tickets ==> tickets[t] == old(tickets)[t]
        invariant forall t :: t in old(tickets) && t !in rest ==> (t in tickets <==> old(tickets)[t].expiresAt > now)
        decreases rest
      {
        var t :| t in rest;
        rest := rest - {t};
        if tickets[t].expiresAt <= now {
          tickets := map u | u in tickets && u != t :: tickets[u];
        }
      }
    }

    method DropPair(printer: string, session: string)
      modifies this`tickets
      ensures tickets == WithoutPair(old(tickets), printer, session)
    {
      var rest := tickets.Keys;
      while rest != {}
        invariant rest <= tickets.Keys <= old(tickets).Keys
        invariant forall t :: t in tickets ==> tickets[t] == old(tickets)[t]
        invariant forall t :: t in old(tickets) && t !in rest ==>
          (t in tickets <==> !(old(tickets)[t].printer == printer && old(tickets)[t].session == session))
        decreases rest
      {
        var t :| t in rest;
        rest := rest - {t};
        if tickets[t].printer == printer && tickets[t].session == session {
          tickets := map u | u in tickets && u != t :: tickets[u];
        }
      }
    }

    method Oldest() returns (victim: nat)
      requires tickets.Keys != {}
      ensures IsOldest(tickets, victim)
    {
      victim :| victim in tickets;
      var rest := tickets.Keys - {victim};
      while rest != {}
        invariant rest <= tickets.Keys && victim in tickets
        invariant forall t :: t in tickets && t !in rest ==> tickets[victim].expiresAt <= tickets[t].expiresAt
        decreases rest
      {
        var t :| t in rest;
        rest := rest - {t};
        if tickets[t].expiresAt < tickets[victim].expiresAt { victim := t; }
      }
    }

    /** The new ticket replaces the pair's old one; from a full table the one soonest to expire goes. */
    method IssueTicket(printer: string, session: string, now: real, ticket: nat) returns (victim: nat)
      requires Valid() && ticket !in issued
      modifies this`tickets, this`issued, this`past
      ensures Did(Action.IssueTicket(ticket, printer, session, now, victim))
    {
      ghost var before := Sys();
      victim := MakeRoom(printer, session, now);
      ghost var binding := Binding(printer, session, now + TICKET_TTL_SECONDS);
      tickets := tickets[ticket := Binding(printer, session, now + TICKET_TTL_SECONDS)];
      issued := issued[ticket := binding];
      Remember(Action.IssueTicket(ticket, printer, session, now, victim), before);
    }

    method MakeRoom(printer: string, session: string, now: real) returns (victim: nat)
      modifies this`tickets
      ensures tickets == RoomForTicket(old(tickets), printer, session, now, victim)
      ensures var kept := WithoutPair(Prune(old(tickets), now), printer, session);
              |kept| >= MAX_CAMERA_TICKETS ==> IsOldest(kept, victim)
    {
      PruneTicketsLocked(now);
      DropPair(printer, session);
      victim := 0;
      if |tickets| >= MAX_CAMERA_TICKETS {
        victim := Oldest();
        tickets := map u | u in tickets && u != victim :: tickets[u];
      }
    }

    /** A presented ticket leaves the table, accepted or not. */
    method PopTicket(ticket: nat, printer: string, session: string, now: real) returns (accepted: bool)
      modifies this`tickets
      ensures tickets == Popped(old(tickets), ticket, now)
      ensures accepted <==> Accepted(old(tickets), ticket, printer, session, now)
    {
      PruneTicketsLocked(now);
      if ticket in tickets {
        var binding := tickets[ticket];
        tickets := map u | u in tickets && u != ticket :: tickets[u];
        accepted := binding.printer == printer && binding.session == session && binding.expiresAt > now;
      } else {
        accepted := false;
      }
    }

    method ConsumeTicket(ticket: nat, printer: string, session: string, now: real) returns (accepted: bool)
      requires Valid()
      modifies this`tickets, this`past
      ensures Did(Action.ConsumeTicket(ticket, printer, session, now))
      ensures accepted <==> Admits(old(Sys()), Action.ConsumeTicket(ticket, printer, session, now))
    {
      ghost var before := Sys();
      accepted := PopTicket(ticket, printer, session, now);
      Remember(Action.ConsumeTicket(ticket, printer, session, now), before);
    }

    method DropCovered(scope: Scope)
      modifies this`tickets
      ensures tickets == Revoke(old(tickets), scope)
    {
      var rest := tickets.Keys;
      while rest != {}
        invariant rest <= tickets.Keys <= old(tickets).Keys
        invariant forall t :: t in tickets ==> tickets[t] == old(tickets)[t]
        invariant forall t :: t in old(tickets) && t !in rest ==>
          (t in tickets <==> !scope.Covers(old(tickets)[t].printer, old(tickets)[t].session))
        decreases rest
      {
        var t :| t in rest;
        rest := rest - {t};
        if scope.Covers(tickets[t].printer, tickets[t].session) {
          tickets := map u | u in tickets && u != t :: tickets[u];
        }
      }
    }

    /** `revoke_tickets` and `revoke_printer_tickets`. */
    method RevokeTickets(scope: Scope)
      requires Valid()
      modifies this`tickets, this`past
      ensures Did(Action.RevokeTickets(scope))
    {
      ghost var before := Sys();
      DropCovered(scope);
      Remember(Action.RevokeTickets(scope), before);
    }

    // -------------------------------------------------------------- streams

    /** None is CameraBusy. */
    method ReserveStreamLocked(id: nat, printer: string, session: string, ticket: Option<nat>)
      returns (reserved: Option<CameraStream>)
      requires Objects() && id !in streams
      modifies this`sessions, this`byPrinter, this`streams
      ensures Objects()
      ensures Sys() == Reserve(limits, old(Sys()), id, printer, session, ticket)
      ensures reserved.Some? <==> SlotAvailable(limits, old(sessions).Keys, old(byPrinter), printer)
      ensures reserved.Some? ==> fresh(reserved.value) && id in sessions && sessions[id] == reserved.value
    {
      if printer in byPrinter { return None; }
      assert |sessions| == |sessions.Keys|;
      if |sessions| >= limits.maxTotalSessions { return None; }
      var stream := new CameraStream(limits, id, printer, session, ticket);
      Register(id, printer, stream);
      reserved := Some(stream);
    }

    method Register(id: nat, printer: string, stream: CameraStream)
      requires Objects() && id !in streams && stream.id == id && stream.maxRestarts == limits.maxRestarts
      modifies this`sessions, this`byPrinter, this`streams
      ensures Objects() && id in sessions && sessions[id] == stream
      ensures Sys() == old(Sys()).(sessions := old(sessions).Keys + {id}, byPrinter := old(byPrinter)[printer := id],
                                   streams := old(Views(streams))[id := stream.View()])
    {
      ViewsGrow(streams, id, stream);
      KeysGrow(sessions, id, stream);
      sessions := sessions[id := stream];
      byPrinter := byPrinter[printer := id];
      streams := streams[id := stream];
    }

    method OpenStream(id: nat, printer: string, session: string) returns (reserved: Option<CameraStream>)
      requires Valid() && id !in streams
      modifies this`sessions, this`byPrinter, this`streams, this`past
      ensures Did(Action.OpenStream(id, printer, session))
      ensures reserved.Some? <==> SlotAvailable(limits, old(sessions).Keys, old(byPrinter), printer)
      ensures reserved.Some? ==> fresh(reserved.value) && id in sessions && sessions[id] == reserved.value
    {
      ghost var before := Sys();
      reserved := ReserveStreamLocked(id, printer, session, None);
      Remember(Action.OpenStream(id, printer, session), before);
    }

    /** Consuming the ticket, revalidating the session and reserving the slot are one critical section. */
    method OpenTicketedStream(id: nat, ticket: nat, printer: string, session: string, now: real, authorized: bool)
      returns (reserved: Option<CameraStream>)
      requires Valid() && id !in streams
      modifies this`tickets, this`sessions, this`byPrinter, this`streams, this`past
      ensures Did(OpenTicketed(id, ticket, printer, session, now, authorized))
      ensures reserved.Some? <==>
        && Admits(old(Sys()), OpenTicketed(id, ticket, printer, session, now, authorized))
        && SlotAvailable(limits, old(sessions).Keys, old(byPrinter), printer)
      ensures reserved.Some? ==> fresh(reserved.value) && id in sessions && sessions[id] == reserved.value
    {
      ghost var before := Sys();
      var accepted := PopTicket(ticket, printer, session, now);
      reserved := None;
      if accepted && authorized { reserved := ReserveStreamLocked(id, printer, session, Some(ticket)); }
      Remember(OpenTicketed(id, ticket, printer, session, now, authorized), before);
    }

    ghost predicate Mine(stream: CameraStream)
      reads this
    {
      stream.id in streams && streams[stream.id] == stream
    }

    /** Moving one stream moves the system at that stream only. */
    twostate lemma OnlyThisStream(stream: CameraStream)
      requires old(Objects()) && Mine(stream) && unchanged(this)
      requires forall other :: other in streams.Values && other != stream ==> unchanged(other)
      ensures Objects() && Views(streams) == old(Views(streams))[stream.id := stream.View()]
    {
      var moved := old(Views(streams))[stream.id := stream.View()];
      forall id | id in streams ensures Views(streams)[id] == moved[id] {
        assert streams[id] in streams.Values;
      }
      assert Views(streams).Keys == moved.Keys;
    }

    /**
      A stream's coroutine runs to its next await.  It yields a chunk exactly when it has one to deliver, and nothing
      to a consumer whose ticket was issued before a stop that has completed.
    */
    method RunWorker(stream: CameraStream, step: WorkerStep) returns (effect: Effect)
      requires Valid() && Mine(stream) && WorkerRun(limits.maxRestarts, stream.View(), step).Some?
      requires step.SpawnCreates? ==> step.pid !in live
      modifies stream, this`live, this`past
      ensures Did(Work(stream.id, step))
      ensures stream.YieldsDelivered(old(stream.View()), step, effect)
      ensures effect.Yields? ==>
                forall t: nat :: Stopped(old(past.states), old(past.actions), t) ==> stream.ticket != Some(t)
    {
      ghost var before := Sys();
      effect := stream.RunWorker(step);
      OnlyThisStream(stream);
      Settle(stream, effect, before);
      WorkSteps(limits, before, stream.id, step, Outcome(stream.View(), effect));
      if effect.Yields? { NoneForStopped(stream, step, before); }
      Remember(Work(stream.id, step), before);
    }

    lemma NoneForStopped(stream: CameraStream, step: WorkerStep, before: System)
      requires past.LeadsTo(limits, before) && YieldsChunk(limits, before, Work(stream.id, step))
      requires before.streams[stream.id].ticket == stream.ticket && Step(limits, before, Work(stream.id, step)).Some?
      ensures forall t: nat :: Stopped(past.states, past.actions, t) ==> stream.ticket != Some(t)
    {
      forall t: nat | Stopped(past.states, past.actions, t) ensures stream.ticket != Some(t) {
        StoppedYieldsNothing(limits, past.states, past.actions, Work(stream.id, step), t);
      }
    }

    /** `close`: the first caller flags the stream and starts its cleanup task. */
    method RequestClose(stream: CameraStream)
      requires Valid() && Mine(stream)
      modifies stream, this`past
      ensures Did(Action.Close(stream.id)) && stream.closed
    {
      ghost var before := Sys();
      ClosedOrNew(stream);
      stream.Close();
      OnlyThisStream(stream);
      Remember(Action.Close(stream.id), before);
    }

    lemma ClosedOrNew(stream: CameraStream)
      requires Valid() && Mine(stream)
      ensures stream.closed <==> !stream.cleanup.NotStarted?
    {
      RunKeepsInv(limits, past.states, past.actions, |past.states| - 1);
      assert StreamInv(limits.maxRestarts, Sys().streams[stream.id]);
    }

    /** The cleanup task runs to its next await. */
    method RunCleanup(stream: CameraStream) returns (effect: Effect)
      requires Valid() && Mine(stream) && CleanupRun(stream.View()).Some?
      modifies stream, this`live, this`past
      ensures Did(Clean(stream.id))
    {
      ghost var before := Sys();
      effect := stream.RunCleanup();
      OnlyThisStream(stream);
      Settle(stream, effect, before);
      CleanSteps(limits, before, stream.id, Outcome(stream.View(), effect));
      Remember(Clean(stream.id), before);
    }

    /** `_release`: the printer's entry goes only while it still names this stream. */
    method ReleaseStream(stream: CameraStream)
      requires Valid() && Mine(stream) && stream.cleanup == CleanupReleasing
      modifies stream`cleanup, this`sessions, this`byPrinter, this`past
      ensures Did(Release(stream.id))
    {
      ghost var before := Sys();
      stream.MarkReleased();
      OnlyThisStream(stream);
      DropSlot(stream.id, stream.printer);
      ReleaseSteps(limits, before, stream.id);
      Remember(Release(stream.id), before);
    }

    method DropSlot(id: nat, printer: string)
      requires Objects()
      modifies this`sessions, this`byPrinter
      ensures Objects()
      ensures Sys() == old(Sys()).(sessions := old(sessions).Keys - {id},
                                   byPrinter := WithoutSlot(old(byPrinter), printer, id))
    {
      sessions := map jd | jd in sessions && jd != id :: sessions[jd];
      if printer in byPrinter && byPrinter[printer] == id {
        byPrinter := map p | p in byPrinter && p != printer :: byPrinter[p];
      }
    }

    // ------------------------------------------------------------- stopping

    /** The lookups of `close_stream` and `close_session`. */
    method StreamsToClose(scope: Scope) returns (found: set<nat>)
      requires Objects()
      ensures found == Found(Sys(), scope) && found <= sessions.Keys
    {
      match scope
      case OfPrinter(p) =>
        found := if p in byPrinter && byPrinter[p] in sessions then {byPrinter[p]} else {};
      case OfSession(k) =>
        found := {};
        var rest := sessions.Keys;
        while rest != {}
          invariant rest <= sessions.Keys
          invariant found == set id | id in sessions && id !in rest && sessions[id].session == k
          decreases rest
        {
          var id :| id in rest;
          rest := rest - {id};
          if sessions[id].session == k { found := found + {id}; }
        }
    }

    /**
      What camera_stop and logout do, in their order: revoke the tickets, look the streams up, close each.  `revoke`
      and `look` are the moments of the first two in the history.
    */
    method Stop(scope: Scope) returns (found: set<nat>, ghost revoke: nat, ghost look: nat)
      requires Valid()
      modifies this`tickets, this`past, streams.Values
      ensures Valid() && streams == old(streams) && sessions == old(sessions)
      ensures StopBegun(scope, revoke, look, found)
      ensures revoke == |old(past.actions)| && past.states[revoke].issued == old(issued)
      ensures forall id :: id in found ==> id in streams && streams[id].closed
    {
      revoke := |past.actions|;
      RevokeTickets(scope);
      found := StreamsToClose(scope);
      look := |past.states| - 1;
      ghost var begun := past;
      assert past.states[look] == Sys() && past.states[revoke] == old(past.states)[revoke];
      CloseAll(found);
      assert past.states[look] == begun.states[look] && past.states[revoke] == begun.states[revoke];
    }

    method CloseAll(found: set<nat>)
      requires Valid() && found <= sessions.Keys
      modifies this`past, streams.Values
      ensures Valid() && old(past.states) <= past.states && old(past.actions) <= past.actions
      ensures forall id :: id in found ==> id in streams && streams[id].closed
    {
      var rest := found;
      while rest != {}
        invariant rest <= found && Valid()
        invariant old(past.states) <= past.states && old(past.actions) <= past.actions
        invariant forall id :: id in found && id !in rest ==> id in streams && streams[id].closed
        decreases rest
      {
        var id :| id in rest;
        rest := rest - {id};
        assert sessions[id] == streams[id] && streams[id] in streams.Values;
        RequestClose(sessions[id]);
      }
    }

    /** The history shows the revocation and, later, this result of the lookup. */
    ghost predicate StopBegun(scope: Scope, revoke: nat, look: nat, found: set<nat>)
      reads this
    {
      && revoke < look < |past.states| && revoke < |past.actions|
      && past.actions[revoke] == Action.RevokeTickets(scope)
      && found == Found(past.states[look], scope)
    }

    /** Once every stream a stop has found is released, no ticket it covers will make a stream yield again. */
    lemma StopCompletes(scope: Scope, revoke: nat, look: nat, found: set<nat>, t: nat)
      requires Valid() && StopBegun(scope, revoke, look, found)
      requires forall id :: id in found ==> id in streams && streams[id].cleanup == Released
      requires Covered(past.states[revoke], scope, t)
      ensures Stopped(past.states, past.actions, t)
    {
      var done := |past.states| - 1;
      assert past.states[done] == Sys();
      assert StopDone(past.states, past.actions, scope, revoke, look, done);
    }

    /** Nothing the manager does later changes that. */
    twostate lemma StaysStopped(a: Action, t: nat)
      requires old(Valid()) && Did(a) && Stopped(old(past.states), old(past.actions), t)
      ensures Stopped(past.states, past.actions, t)
    {
      StoppedStays(old(past.states), old(past.actions), past.states, past.actions, t);
    }

    // ------------------------------------------------------------ guarantees

    /** Every process not told to stop is the process of a registered stream object, or held inside its `_spawn`. */
    lemma ProcessesHeld(pid: nat)
      requires Valid() && pid in live
      ensures live[pid] in sessions
      ensures var stream := sessions[live[pid]];
              stream.process == Some(pid)
              || (stream.pc.Spawned? && stream.pc.pid == pid && stream.processLock == ByWorker)
    {
      NoOrphanProcess(limits, past.states, past.actions, |past.states| - 1, pid);
    }

    lemma ProcessesFew()
      requires Valid()
      ensures |live| <= |sessions.Keys| <= limits.maxTotalSessions
    {
      ProcessesBounded(limits, past.states, past.actions, |past.states| - 1);
    }

    /** No ticket is accepted that was not issued by this manager to this printer and session, or has expired. */
    lemma AcceptedWasIssued(a: Action, t: nat, printer: string, session: string, now: real) returns (k: nat)
      requires Valid() && Step(limits, Sys(), a).Some?
      requires Admits(Sys(), a) && Presents(a, t, printer, session, now)
      ensures k < |past.actions| && past.actions[k].IssueTicket? && past.actions[k].ticket == t
      ensures past.actions[k].printer == printer && past.actions[k].session == session
      ensures now < past.actions[k].now + TICKET_TTL_SECONDS
    {
      var s := Step(limits, Sys(), a).value;
      RunExtends(limits, past.states, past.actions, a, s);
      var longer, more := past.states + [s], past.actions + [a];
      var i := |past.actions|;
      assert longer[i] == Sys() && more[i] == a;
      k := AcceptedAsIssued(limits, longer, more, i, t, printer, session, now);
      assert more[k] == past.actions[k];
    }
  }
}
