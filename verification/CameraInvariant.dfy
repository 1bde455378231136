/** The inductive invariant of the camera protocol: what every atomic step keeps. */
module CameraInvariant {
  import opened Wrappers
  import opened CameraModel
  import opened Sets

  // ------------------------------------------------------------ one stream

  /** The process the stream answers for: its `_process`, or the local of the lock holder inside `_spawn`. */
  function Held(st: Stream): Option<nat> {
    if st.process.Some? then st.process else if st.pc.Spawned? then Some(st.pc.pid) else None
  }

  predicate WorkerHoldsLock(pc: WorkerPc) {
    pc.Spawning? || pc.Spawned? || pc.SpawnStopping? || pc.Stopping?
  }

  predicate BetweenProcesses(pc: WorkerPc) {
    pc.Starting? || pc.AwaitLockToSpawn? || pc.Spawning? || pc.Spawned? || pc.SpawnStopping? || pc.Stopping? ||
    pc.Pausing?
  }

  predicate UsesProcess(pc: WorkerPc) {
    pc.FirstRead? || pc.Opened? || pc.IterTop? || pc.Reading? || pc.Yielded? || pc.AwaitLockToStop?
  }

  predicate CleanupPastStop(cleanup: CleanupPc) {
    cleanup.CleanupStopping? || cleanup.CleanupReleasing? || cleanup.Released?
  }

  predicate StreamInv(max: nat, st: Stream) {
    && (st.processLock.ByWorker? <==> WorkerHoldsLock(st.pc))
    && (st.processLock.ByCleanup? <==> st.cleanup.CleanupStopping?)
    && (st.closed <==> !st.cleanup.NotStarted?)
    && (BetweenProcesses(st.pc) ==> st.process.None?)
    && (!st.closed && UsesProcess(st.pc) ==> st.process.Some?)
    && (CleanupPastStop(st.cleanup) ==>
          st.process.None? && !st.pc.Spawning? && !st.pc.Spawned? && !st.pc.SpawnStopping?)
    && st.restarts <= max
  }

  /**
    An effect moves the held process exactly as it says: a spawn never overwrites one, a stop forgets the one it
    stops.
  */
  predicate EffectFits(before: Stream, outcome: Outcome) {
    match outcome.effect
    case Spawns(pid) => Held(before).None? && Held(outcome.stream) == Some(pid)
    case Stops(pid) => Held(before) == Some(pid) && Held(outcome.stream).None?
    case _ => Held(outcome.stream) == Held(before)
  }

  /** What no run changes: whose stream it is, that it is closed, and whether its slot has been given back. */
  predicate SameIdentity(before: Stream, after: Stream) {
    && after.printer == before.printer
    && after.session == before.session
    && after.ticket == before.ticket
    && (before.closed ==> after.closed)
    && (before.cleanup.Released? <==> after.cleanup.Released?)
  }

  lemma ResumeKeepsStream(max: nat, st: Stream)
    requires StreamInv(max, st) && ResumeRun(max, st).Some?
    ensures StreamInv(max, ResumeRun(max, st).value.stream)
  {
  }

  lemma ResumeFits(max: nat, st: Stream)
    requires StreamInv(max, st) && ResumeRun(max, st).Some?
    ensures EffectFits(st, ResumeRun(max, st).value)
  {
  }

  lemma WorkerKeepsStream(max: nat, st: Stream, step: WorkerStep)
    requires StreamInv(max, st) && WorkerRun(max, st, step).Some?
    ensures StreamInv(max, WorkerRun(max, st, step).value.stream)
    ensures EffectFits(st, WorkerRun(max, st, step).value)
  {
    if step.Resume? {
      ResumeKeepsStream(max, st);
      ResumeFits(max, st);
    }
  }

  lemma CleanupKeepsStream(max: nat, st: Stream)
    requires StreamInv(max, st) && CleanupRun(st).Some?
    ensures StreamInv(max, CleanupRun(st).value.stream)
    ensures EffectFits(st, CleanupRun(st).value)
  {
  }

  lemma RunsKeepIdentity(max: nat, st: Stream, step: WorkerStep)
    ensures SameIdentity(st, RequestClose(st))
    ensures CleanupRun(st).Some? ==> SameIdentity(st, CleanupRun(st).value.stream)
    ensures WorkerRun(max, st, step).Some? ==> SameIdentity(st, WorkerRun(max, st, step).value.stream)
  {
    if step.Resume? { ResumeKeepsIdentity(max, st); }
  }

  lemma ResumeKeepsIdentity(max: nat, st: Stream)
    ensures ResumeRun(max, st).Some? ==> SameIdentity(st, ResumeRun(max, st).value.stream)
  {
  }

  ghost predicate StreamsInv(l: Limits, s: System) {
    forall id :: id in s.streams ==> StreamInv(l.maxRestarts, s.streams[id])
  }

  lemma ApplyKeepsStreams(l: Limits, s: System, id: nat, outcome: Outcome)
    requires StreamsInv(l, s) && StreamInv(l.maxRestarts, outcome.stream)
    ensures StreamsInv(l, Apply(s, id, outcome))
  {
    ApplyFrame(s, id, outcome);
  }

  lemma RequestKeepsStream(max: nat, st: Stream)
    requires StreamInv(max, st)
    ensures StreamInv(max, RequestClose(st))
  {
  }

  lemma WorkKeepsStreams(l: Limits, s: System, id: nat, step: WorkerStep)
    requires StreamsInv(l, s) && Step(l, s, Work(id, step)).Some?
    ensures StreamsInv(l, Step(l, s, Work(id, step)).value)
  {
    WorkerKeepsStream(l.maxRestarts, s.streams[id], step);
    ApplyKeepsStreams(l, s, id, WorkerRun(l.maxRestarts, s.streams[id], step).value);
  }

  lemma CleanKeepsStreams(l: Limits, s: System, id: nat)
    requires StreamsInv(l, s) && Step(l, s, Clean(id)).Some?
    ensures StreamsInv(l, Step(l, s, Clean(id)).value)
  {
    CleanupKeepsStream(l.maxRestarts, s.streams[id]);
    ApplyKeepsStreams(l, s, id, CleanupRun(s.streams[id]).value);
  }

  lemma StepKeepsStreams(l: Limits, s: System, a: Action)
    requires StreamsInv(l, s) && Step(l, s, a).Some?
    ensures StreamsInv(l, Step(l, s, a).value)
  {
    match a
    case Close(id) => RequestKeepsStream(l.maxRestarts, s.streams[id]);
    case Work(id, step) => WorkKeepsStreams(l, s, id, step);
    case Clean(id) => CleanKeepsStreams(l, s, id);
    case _ =>
  }

  // ----------------------------------------------------------- the registry

  ghost predicate RightSlot(s: System, id: nat)
    requires id in s.streams
  {
    && (id in s.sessions <==> !s.streams[id].cleanup.Released?)
    && (id in s.sessions ==> s.streams[id].printer in s.byPrinter && s.byPrinter[s.streams[id].printer] == id)
  }

  /** The two registry maps agree, name exactly the streams not yet released, and respect the session limit. */
  ghost predicate RegistryInv(l: Limits, s: System) {
    && s.sessions <= s.streams.Keys
    && |s.sessions| <= l.maxTotalSessions
    && (forall id :: id in s.streams ==> RightSlot(s, id))
    && (forall p :: p in s.byPrinter ==> s.byPrinter[p] in s.sessions && s.streams[s.byPrinter[p]].printer == p)
  }

  /** The registry does not care how a stream runs. */
  lemma RunKeepsRegistry(l: Limits, s: System, s': System, id: nat, after: Stream)
    requires RegistryInv(l, s) && id in s.streams && SameIdentity(s.streams[id], after)
    requires s'.sessions == s.sessions && s'.byPrinter == s.byPrinter && s'.streams == s.streams[id := after]
    ensures RegistryInv(l, s')
  {
    forall jd | jd in s'.streams ensures RightSlot(s', jd) {
      assert RightSlot(s, jd);
    }
  }

  lemma ApplyKeepsRegistry(l: Limits, s: System, id: nat, outcome: Outcome)
    requires RegistryInv(l, s) && id in s.streams && SameIdentity(s.streams[id], outcome.stream)
    ensures RegistryInv(l, Apply(s, id, outcome))
  {
    ApplyFrame(s, id, outcome);
    RunKeepsRegistry(l, s, Apply(s, id, outcome), id, outcome.stream);
  }

  lemma ReserveKeepsRegistry(l: Limits, s: System, id: nat, printer: string, session: string, ticket: Option<nat>)
    requires RegistryInv(l, s) && id !in s.streams
    ensures RegistryInv(l, Reserve(l, s, id, printer, session, ticket))
  {
    var s' := Reserve(l, s, id, printer, session, ticket);
    forall jd | jd in s'.streams ensures RightSlot(s', jd) {
      if jd in s.streams { assert RightSlot(s, jd); }
    }
  }

  lemma ReleaseKeepsRegistry(l: Limits, s: System, id: nat)
    requires RegistryInv(l, s) && id in s.streams && s.streams[id].cleanup.CleanupReleasing?
    ensures RegistryInv(l, ReleaseSlot(s, id))
  {
    var s' := ReleaseSlot(s, id);
    assert RightSlot(s, id);
    assert |s'.sessions| == |s.sessions| - 1;
    forall jd | jd in s'.streams ensures RightSlot(s', jd) {
      assert RightSlot(s, jd);
    }
  }

  lemma TicketsKeepRegistry(l: Limits, s: System, tickets: TicketTable, issued: TicketTable)
    requires RegistryInv(l, s)
    ensures RegistryInv(l, s.(tickets := tickets, issued := issued))
  {
    forall jd | jd in s.streams ensures RightSlot(s.(tickets := tickets, issued := issued), jd) {
      assert RightSlot(s, jd);
    }
  }

  lemma OpenTicketedKeepsRegistry(l: Limits, s: System, a: Action)
    requires RegistryInv(l, s) && a.OpenTicketed? && Step(l, s, a).Some?
    ensures RegistryInv(l, Step(l, s, a).value)
  {
    var popped := s.(tickets := Popped(s.tickets, a.ticket, a.now));
    TicketsKeepRegistry(l, s, popped.tickets, s.issued);
    ReserveKeepsRegistry(l, popped, a.id, a.printer, a.session, Some(a.ticket));
  }

  lemma WorkKeepsRegistry(l: Limits, s: System, id: nat, step: WorkerStep)
    requires RegistryInv(l, s) && Step(l, s, Work(id, step)).Some?
    ensures RegistryInv(l, Step(l, s, Work(id, step)).value)
  {
    RunsKeepIdentity(l.maxRestarts, s.streams[id], step);
    ApplyKeepsRegistry(l, s, id, WorkerRun(l.maxRestarts, s.streams[id], step).value);
  }

  lemma CleanKeepsRegistry(l: Limits, s: System, id: nat)
    requires RegistryInv(l, s) && Step(l, s, Clean(id)).Some?
    ensures RegistryInv(l, Step(l, s, Clean(id)).value)
  {
    RunsKeepIdentity(l.maxRestarts, s.streams[id], Resume);
    ApplyKeepsRegistry(l, s, id, CleanupRun(s.streams[id]).value);
  }

  lemma CloseKeepsRegistry(l: Limits, s: System, id: nat)
    requires RegistryInv(l, s) && Step(l, s, Close(id)).Some?
    ensures RegistryInv(l, Step(l, s, Close(id)).value)
  {
    RunsKeepIdentity(l.maxRestarts, s.streams[id], Resume);
    RunKeepsRegistry(l, s, Step(l, s, Close(id)).value, id, RequestClose(s.streams[id]));
  }

  lemma StepKeepsRegistry(l: Limits, s: System, a: Action)
    requires RegistryInv(l, s) && Step(l, s, a).Some?
    ensures RegistryInv(l, Step(l, s, a).value)
  {
    match a
    case OpenStream(id, p, k) => ReserveKeepsRegistry(l, s, id, p, k, None);
    case OpenTicketed(_, _, _, _, _, _) => OpenTicketedKeepsRegistry(l, s, a);
    case Close(id) => CloseKeepsRegistry(l, s, id);
    case Work(id, step) => WorkKeepsRegistry(l, s, id, step);
    case Clean(id) => CleanKeepsRegistry(l, s, id);
    case Release(id) => ReleaseKeepsRegistry(l, s, id);
    case _ =>
      var s' := Step(l, s, a).value;
      TicketsKeepRegistry(l, s, s'.tickets, s'.issued);
  }

  // ---------------------------------------------------------- the processes

  predicate IsHeld(s: System, pid: nat)
    requires pid in s.live
  {
    s.live[pid] in s.streams && Held(s.streams[s.live[pid]]) == Some(pid)
  }

  predicate HoldsLive(s: System, id: nat)
    requires id in s.streams
  {
    var held := Held(s.streams[id]);
    held.Some? ==> held.value in s.live && s.live[held.value] == id
  }

  /** The live processes are exactly the held ones. */
  ghost predicate LiveInv(s: System) {
    && (forall pid :: pid in s.live ==> IsHeld(s, pid))
    && (forall id :: id in s.streams ==> HoldsLive(s, id))
  }

  lemma SpawnKeepsLive(s: System, s': System, id: nat, after: Stream, pid: nat)
    requires LiveInv(s) && id in s.streams && pid !in s.live
    requires Held(s.streams[id]).None? && Held(after) == Some(pid)
    requires s'.streams == s.streams[id := after] && s'.live == s.live[pid := id]
    ensures LiveInv(s')
  {
    forall q | q in s'.live ensures IsHeld(s', q) {
      if q in s.live { assert IsHeld(s, q); }
    }
    forall jd | jd in s'.streams ensures HoldsLive(s', jd) {
      if jd != id { assert HoldsLive(s, jd); }
    }
  }

  lemma StopKeepsLive(s: System, s': System, id: nat, after: Stream, pid: nat)
    requires LiveInv(s) && id in s.streams
    requires Held(s.streams[id]) == Some(pid) && Held(after).None?
    requires s'.streams == s.streams[id := after] && s'.live == map q | q in s.live && q != pid :: s.live[q]
    ensures LiveInv(s')
  {
    assert HoldsLive(s, id);
    forall q | q in s'.live ensures IsHeld(s', q) {
      assert IsHeld(s, q);
    }
    forall jd | jd in s'.streams ensures HoldsLive(s', jd) {
      if jd != id { assert HoldsLive(s, jd); }
    }
  }

  lemma ApplyKeepsLive(s: System, id: nat, outcome: Outcome)
    requires LiveInv(s) && id in s.streams && EffectFits(s.streams[id], outcome)
    requires outcome.effect.Spawns? ==> outcome.effect.created !in s.live
    ensures LiveInv(Apply(s, id, outcome))
  {
    var s' := Apply(s, id, outcome);
    match outcome.effect
    case Spawns(pid) => SpawnKeepsLive(s, s', id, outcome.stream, pid);
    case Stops(pid) => StopKeepsLive(s, s', id, outcome.stream, pid);
    case _ => SameProcesses(s, s');
  }

  lemma ReserveKeepsLive(l: Limits, s: System, id: nat, printer: string, session: string, ticket: Option<nat>)
    requires LiveInv(s) && id !in s.streams
    ensures LiveInv(Reserve(l, s, id, printer, session, ticket))
  {
    var s' := Reserve(l, s, id, printer, session, ticket);
    assert forall pid :: pid in s'.live ==> IsHeld(s, pid) && IsHeld(s', pid);
    forall jd | jd in s'.streams ensures HoldsLive(s', jd) {
      if jd in s.streams { assert HoldsLive(s, jd); }
    }
  }

  lemma SameProcesses(s: System, s': System)
    requires LiveInv(s) && s'.live == s.live && s'.streams.Keys == s.streams.Keys
    requires forall id :: id in s.streams ==> Held(s'.streams[id]) == Held(s.streams[id])
    ensures LiveInv(s')
  {
    assert forall pid :: pid in s'.live ==> IsHeld(s, pid) && IsHeld(s', pid);
    assert forall id :: id in s.streams ==> HoldsLive(s, id) && HoldsLive(s', id);
  }

  lemma OpenTicketedKeepsLive(l: Limits, s: System, a: Action)
    requires LiveInv(s) && a.OpenTicketed? && Step(l, s, a).Some?
    ensures LiveInv(Step(l, s, a).value)
  {
    var popped := s.(tickets := Popped(s.tickets, a.ticket, a.now));
    SameProcesses(s, popped);
    ReserveKeepsLive(l, popped, a.id, a.printer, a.session, Some(a.ticket));
  }

  lemma SpawnsFresh(max: nat, st: Stream, step: WorkerStep)
    requires WorkerRun(max, st, step).Some? && WorkerRun(max, st, step).value.effect.Spawns?
    ensures step == SpawnCreates(WorkerRun(max, st, step).value.effect.created)
  {
  }

  lemma WorkKeepsLive(l: Limits, s: System, id: nat, step: WorkerStep)
    requires StreamsInv(l, s) && LiveInv(s) && Step(l, s, Work(id, step)).Some?
    ensures LiveInv(Step(l, s, Work(id, step)).value)
  {
    WorkerKeepsStream(l.maxRestarts, s.streams[id], step);
    var outcome := WorkerRun(l.maxRestarts, s.streams[id], step).value;
    if outcome.effect.Spawns? { SpawnsFresh(l.maxRestarts, s.streams[id], step); }
    ApplyKeepsLive(s, id, outcome);
  }

  lemma CleanKeepsLive(l: Limits, s: System, id: nat)
    requires StreamsInv(l, s) && LiveInv(s) && Step(l, s, Clean(id)).Some?
    ensures LiveInv(Step(l, s, Clean(id)).value)
  {
    CleanupKeepsStream(l.maxRestarts, s.streams[id]);
    ApplyKeepsLive(s, id, CleanupRun(s.streams[id]).value);
  }

  lemma StepKeepsLive(l: Limits, s: System, a: Action)
    requires StreamsInv(l, s) && LiveInv(s) && Step(l, s, a).Some?
    ensures LiveInv(Step(l, s, a).value)
  {
    match a
    case OpenStream(id, p, k) => ReserveKeepsLive(l, s, id, p, k, None);
    case OpenTicketed(_, _, _, _, _, _) => OpenTicketedKeepsLive(l, s, a);
    case Work(id, step) => WorkKeepsLive(l, s, id, step);
    case Clean(id) => CleanKeepsLive(l, s, id);
    case _ => SameProcesses(s, Step(l, s, a).value);
  }

  // ------------------------------------------------------------ the tickets

  predicate SamePair(b: Binding, c: Binding) {
    b.printer == c.printer && b.session == c.session
  }

  ghost predicate OnePerPair(tickets: TicketTable) {
    forall t, u :: t in tickets && u in tickets && SamePair(tickets[t], tickets[u]) ==> t == u
  }

  ghost predicate PartOf(tickets: TicketTable, whole: TicketTable) {
    forall t :: t in tickets ==> t in whole && tickets[t] == whole[t]
  }

  /**
    At most one ticket per printer and session, at most MAX_CAMERA_TICKETS, each with the binding it was issued with.
  */
  ghost predicate TableInv(tickets: TicketTable, issued: TicketTable) {
    |tickets| <= MAX_CAMERA_TICKETS && PartOf(tickets, issued) && OnePerPair(tickets)
  }

  ghost predicate TicketInv(s: System) {
    TableInv(s.tickets, s.issued)
  }

  lemma PartKeepsTable(tickets: TicketTable, issued: TicketTable, part: TicketTable)
    requires TableInv(tickets, issued) && PartOf(part, tickets)
    ensures TableInv(part, issued)
  {
    assert part.Keys <= tickets.Keys;
    SubsetSize(part.Keys, tickets.Keys);
  }

  /** After making room, the table holds no ticket for the pair and has a free place. */
  lemma RoomIsMade(tickets: TicketTable, printer: string, session: string, now: real, victim: nat)
    requires |tickets| <= MAX_CAMERA_TICKETS
    requires var kept := WithoutPair(Prune(tickets, now), printer, session);
             |kept| >= MAX_CAMERA_TICKETS ==> IsOldest(kept, victim)
    ensures var room := RoomForTicket(tickets, printer, session, now, victim);
            && |room| < MAX_CAMERA_TICKETS
            && PartOf(room, tickets)
            && forall t :: t in room ==> !SamePair(room[t], Binding(printer, session, 0.0))
  {
    var kept := WithoutPair(Prune(tickets, now), printer, session);
    SubsetSize(kept.Keys, tickets.Keys);
    if |kept| >= MAX_CAMERA_TICKETS {
      assert Evict(kept, victim).Keys == kept.Keys - {victim};
    }
  }

  lemma AddTicket(room: TicketTable, issued: TicketTable, t: nat, binding: Binding)
    requires |room| < MAX_CAMERA_TICKETS && TableInv(room, issued) && t !in issued
    requires forall u :: u in room ==> !SamePair(room[u], binding)
    ensures TableInv(room[t := binding], issued[t := binding])
  {
    var tickets := room[t := binding];
    assert |tickets| <= MAX_CAMERA_TICKETS by {
      assert tickets.Keys == room.Keys + {t};
      assert |tickets.Keys| == |tickets| && |room.Keys| == |room|;
    }
    assert PartOf(tickets, issued[t := binding]);
    assert OnePerPair(tickets);
  }

  lemma IssueKeepsTable(s: System, t: nat, printer: string, session: string, now: real, victim: nat)
    requires TicketInv(s) && t !in s.issued
    requires var kept := WithoutPair(Prune(s.tickets, now), printer, session);
             |kept| >= MAX_CAMERA_TICKETS ==> IsOldest(kept, victim)
    ensures var binding := Binding(printer, session, now + TICKET_TTL_SECONDS);
            TableInv(RoomForTicket(s.tickets, printer, session, now, victim)[t := binding], s.issued[t := binding])
  {
    var room := RoomForTicket(s.tickets, printer, session, now, victim);
    RoomIsMade(s.tickets, printer, session, now, victim);
    PartKeepsTable(s.tickets, s.issued, room);
    AddTicket(room, s.issued, t, Binding(printer, session, now + TICKET_TTL_SECONDS));
  }

  lemma StepKeepsTickets(l: Limits, s: System, a: Action)
    requires TicketInv(s) && Step(l, s, a).Some?
    ensures TicketInv(Step(l, s, a).value)
  {
    var s' := Step(l, s, a).value;
    if a.IssueTicket? {
      IssueKeepsTable(s, a.ticket, a.printer, a.session, a.now, a.victim);
    } else {
      OnlyIssueAdds(l, s, a);
      PartKeepsTable(s.tickets, s.issued, s'.tickets);
    }
  }

  lemma ApplyFrame(s: System, id: nat, outcome: Outcome)
    ensures var s' := Apply(s, id, outcome);
            && s'.tickets == s.tickets && s'.issued == s.issued
            && s'.sessions == s.sessions && s'.byPrinter == s.byPrinter
            && s'.streams == s.streams[id := outcome.stream]
  {
  }

  lemma OnlyIssueAdds(l: Limits, s: System, a: Action)
    requires Step(l, s, a).Some? && !a.IssueTicket?
    ensures Step(l, s, a).value.issued == s.issued
    ensures PartOf(Step(l, s, a).value.tickets, s.tickets)
  {
    match a
    case Work(id, step) => ApplyFrame(s, id, WorkerRun(l.maxRestarts, s.streams[id], step).value);
    case Clean(id) => ApplyFrame(s, id, CleanupRun(s.streams[id]).value);
    case _ =>
  }

  // ---------------------------------------------- which ticket opened a stream

  predicate SpentTicket(s: System, st: Stream) {
    st.ticket.Some? ==>
      && st.ticket.value in s.issued
      && st.ticket.value !in s.tickets
      && s.issued[st.ticket.value].printer == st.printer
      && s.issued[st.ticket.value].session == st.session
  }

  ghost predicate TicketsDiffer(streams: map<nat, Stream>) {
    forall id, jd :: id in streams && jd in streams && streams[id].ticket.Some? ==>
      streams[id].ticket == streams[jd].ticket ==> id == jd
  }

  /** A stream opened by a ticket was opened for that ticket's printer and session, and the ticket is gone for good. */
  ghost predicate OriginInv(s: System) {
    && (forall id :: id in s.streams ==> SpentTicket(s, s.streams[id]))
    && TicketsDiffer(s.streams)
  }

  lemma ReserveKeepsOrigin(l: Limits, s: System, id: nat, printer: string, session: string, ticket: Option<nat>)
    requires OriginInv(s) && id !in s.streams && SpentTicket(s, NewStream(printer, session, ticket))
    requires forall jd :: jd in s.streams && ticket.Some? ==> s.streams[jd].ticket != ticket
    ensures OriginInv(Reserve(l, s, id, printer, session, ticket))
  {
    var s' := Reserve(l, s, id, printer, session, ticket);
    forall jd | jd in s'.streams ensures SpentTicket(s', s'.streams[jd]) {
      if jd in s.streams { assert SpentTicket(s, s.streams[jd]); }
    }
    assert TicketsDiffer(s'.streams);
  }

  lemma SameOrigins(s: System, s': System)
    requires OriginInv(s) && s'.streams.Keys == s.streams.Keys && PartOf(s.issued, s'.issued)
    requires forall t :: t in s'.tickets && t in s.issued ==> t in s.tickets
    requires forall id :: id in s.streams ==> SameIdentityButSlot(s.streams[id], s'.streams[id])
    ensures OriginInv(s')
  {
    forall jd | jd in s'.streams ensures SpentTicket(s', s'.streams[jd]) {
      assert SpentTicket(s, s.streams[jd]);
    }
  }

  predicate SameIdentityButSlot(before: Stream, after: Stream) {
    after.printer == before.printer && after.session == before.session && after.ticket == before.ticket
  }

  lemma OpenTicketedKeepsOrigin(l: Limits, s: System, a: Action)
    requires TicketInv(s) && OriginInv(s) && a.OpenTicketed? && Step(l, s, a).Some?
    ensures OriginInv(Step(l, s, a).value)
  {
    var popped := s.(tickets := Popped(s.tickets, a.ticket, a.now));
    SameOrigins(s, popped);
    if Admits(s, a) {
      assert a.ticket in s.tickets;
      forall jd | jd in s.streams ensures s.streams[jd].ticket != Some(a.ticket) {
        assert SpentTicket(s, s.streams[jd]);
      }
      ReserveKeepsOrigin(l, popped, a.id, a.printer, a.session, Some(a.ticket));
    }
  }

  lemma StepKeepsOrigin(l: Limits, s: System, a: Action)
    requires TicketInv(s) && OriginInv(s) && Step(l, s, a).Some?
    ensures OriginInv(Step(l, s, a).value)
  {
    if a.OpenStream? {
      ReserveKeepsOrigin(l, s, a.id, a.printer, a.session, None);
    } else if a.OpenTicketed? {
      OpenTicketedKeepsOrigin(l, s, a);
    } else {
      StepRevivesNoTicket(l, s, a);
      StepKeepsOthers(l, s, a);
      SameOrigins(s, Step(l, s, a).value);
    }
  }

  /** No step revives a ticket. */
  lemma StepRevivesNoTicket(l: Limits, s: System, a: Action)
    requires Step(l, s, a).Some?
    ensures PartOf(s.issued, Step(l, s, a).value.issued)
    ensures forall t :: t in Step(l, s, a).value.tickets && t in s.issued ==> t in s.tickets
  {
    if !a.IssueTicket? { OnlyIssueAdds(l, s, a); }
  }

  /** Outside the opening of a stream, no step changes whose streams there are. */
  lemma StepKeepsOthers(l: Limits, s: System, a: Action)
    requires Step(l, s, a).Some? && !a.OpenStream? && !a.OpenTicketed?
    ensures var s' := Step(l, s, a).value;
            && s'.streams.Keys == s.streams.Keys
            && (forall id :: id in s.streams ==> SameIdentityButSlot(s.streams[id], s'.streams[id]))
  {
    match a
    case Work(id, step) => WorkKeepsOthers(l, s, id, step);
    case Clean(id) => CleanKeepsOthers(l, s, id);
    case _ =>
  }

  lemma CleanKeepsOthers(l: Limits, s: System, id: nat)
    requires Step(l, s, Clean(id)).Some?
    ensures var s' := Step(l, s, Clean(id)).value;
            && s'.streams.Keys == s.streams.Keys
            && (forall jd :: jd in s.streams ==> SameIdentityButSlot(s.streams[jd], s'.streams[jd]))
  {
    RunsKeepIdentity(l.maxRestarts, s.streams[id], Resume);
    ApplyFrame(s, id, CleanupRun(s.streams[id]).value);
  }

  lemma WorkKeepsOthers(l: Limits, s: System, id: nat, step: WorkerStep)
    requires Step(l, s, Work(id, step)).Some?
    ensures var s' := Step(l, s, Work(id, step)).value;
            && s'.streams.Keys == s.streams.Keys
            && (forall jd :: jd in s.streams ==> SameIdentityButSlot(s.streams[jd], s'.streams[jd]))
  {
    RunsKeepIdentity(l.maxRestarts, s.streams[id], step);
    ApplyFrame(s, id, WorkerRun(l.maxRestarts, s.streams[id], step).value);
  }

  // ------------------------------------------------------------- all of it

  ghost predicate Inv(l: Limits, s: System) {
    StreamsInv(l, s) && RegistryInv(l, s) && LiveInv(s) && TicketInv(s) && OriginInv(s)
  }

  /** Every atomic step keeps the invariant. */
  lemma StepKeepsInv(l: Limits, s: System, a: Action)
    requires Inv(l, s) && Step(l, s, a).Some?
    ensures Inv(l, Step(l, s, a).value)
  {
    StepKeepsStreams(l, s, a);
    StepKeepsRegistry(l, s, a);
    StepKeepsLive(l, s, a);
    StepKeepsTickets(l, s, a);
    StepKeepsOrigin(l, s, a);
  }

  lemma StepOfRun(l: Limits, states: seq<System>, actions: seq<Action>, i: nat)
    requires IsRun(l, states, actions) && i < |actions|
    ensures Step(l, states[i], actions[i]) == Some(states[i + 1])
  {
    assert StepsAt(l, states, actions, i);
  }

  lemma InvAt(l: Limits, states: seq<System>, actions: seq<Action>, i: nat)
    requires IsRun(l, states, actions) && i < |actions| && Inv(l, states[i])
    ensures Inv(l, states[i + 1])
  {
    StepOfRun(l, states, actions, i);
    StepKeepsInv(l, states[i], actions[i]);
  }

  /** Hence the invariant holds in every state of every run. */
  lemma {:induction false} RunKeepsInv(l: Limits, states: seq<System>, actions: seq<Action>, i: nat)
    requires IsRun(l, states, actions) && i < |states|
    ensures Inv(l, states[i])
  {
    if i == 0 {
      InitHolds(l);
    } else {
      RunKeepsInv(l, states, actions, i - 1);
      InvAt(l, states, actions, i - 1);
    }
  }

  lemma InitHolds(l: Limits)
    ensures Inv(l, INIT)
  {
  }
}
