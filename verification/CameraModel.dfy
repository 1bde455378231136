/**
  The camera streaming protocol of app/camera.py as a transition system.

  asyncio switches coroutines only at an `await`, so one step is the code run
  between two awaits.  A ticket, a stream and a process are numbered in order of
  creation: that is the freshness of `secrets.token_urlsafe` and of process ids,
  and a ticket is identified with its (injective) digest.
*/
module CameraModel {
  import opened Wrappers

  const TICKET_TTL_SECONDS := 30.0
  const MAX_CAMERA_TICKETS := 256

  datatype Limits = Limits(maxTotalSessions: nat, maxRestarts: nat)

  // ---------------------------------------------------------------- tickets

  datatype Binding = Binding(printer: string, session: string, expiresAt: real)

  type TicketTable = map<nat, Binding>

  /** What a revocation, or a lookup of streams to close, ranges over. */
  datatype Scope = OfPrinter(printer: string) | OfSession(session: string)
  {
    predicate Covers(p: string, k: string) {
      match this
      case OfPrinter(q) => q == p
      case OfSession(s) => s == k
    }
  }

  function Prune(tickets: TicketTable, now: real): TicketTable {
    map t | t in tickets && tickets[t].expiresAt > now :: tickets[t]
  }

  function WithoutPair(tickets: TicketTable, printer: string, session: string): TicketTable {
    map t | t in tickets && !(tickets[t].printer == printer && tickets[t].session == session) :: tickets[t]
  }

  function Revoke(tickets: TicketTable, scope: Scope): TicketTable {
    map t | t in tickets && !scope.Covers(tickets[t].printer, tickets[t].session) :: tickets[t]
  }

  /** The ticket evicted from a full table: one of smallest expiry. */
  predicate IsOldest(tickets: TicketTable, victim: nat) {
    victim in tickets && forall t :: t in tickets ==> tickets[victim].expiresAt <= tickets[t].expiresAt
  }

  function Evict(tickets: TicketTable, victim: nat): TicketTable {
    if |tickets| >= MAX_CAMERA_TICKETS then map t | t in tickets && t != victim :: tickets[t] else tickets
  }

  /** The table `issue_ticket` has built just before it adds the new ticket, if `victim` is the one evicted. */
  function RoomForTicket(tickets: TicketTable, printer: string, session: string, now: real, victim: nat): TicketTable {
    Evict(WithoutPair(Prune(tickets, now), printer, session), victim)
  }

  /** The test both consumers of a ticket apply to the binding they popped. */
  predicate Accepted(tickets: TicketTable, ticket: nat, printer: string, session: string, now: real) {
    var table := Prune(tickets, now);
    && ticket in table
    && table[ticket].printer == printer
    && table[ticket].session == session
    && table[ticket].expiresAt > now
  }

  function Popped(tickets: TicketTable, ticket: nat, now: real): TicketTable {
    map t | t in Prune(tickets, now) && t != ticket :: tickets[t]
  }

  // ------------------------------------------------------------ one stream

  datatype Phase = InStart | InRestart

  /** Where `_stop_current_process` returns to. */
  datatype AfterStop = GiveUp(phase: Phase) | PauseThenRestart

  datatype Holder = Free | ByWorker | ByCleanup

  /** Where the coroutine that starts and then iterates the stream is suspended. */
  datatype WorkerPc =
    | Starting                          // top of the loop in start()
    | AwaitLockToSpawn(phase: Phase)
    | Spawning(phase: Phase)            // holds the process lock; no process yet
    | Spawned(phase: Phase, pid: nat)   // holds the process lock; the process exists, _spawn has not returned
    | SpawnStopping(phase: Phase)       // holds the process lock while a useless process winds down
    | FirstRead(phase: Phase)
    | AwaitLockToStop(later: AfterStop)
    | Stopping(later: AfterStop)         // holds the process lock in _stop_current_process
    | Pausing(phase: Phase)
    | Opened                            // start() returned; iter_bytes() not yet entered
    | IterTop
    | Reading
    | Yielded
    | MustClose
    | AwaitCleanup
    | Finished

  /** The one cleanup task shared by all callers of close(). */
  datatype CleanupPc = NotStarted | CleanupAwaitLock | CleanupStopping | CleanupReleasing | Released

  datatype Stream = Stream(
    printer: string,
    session: string,
    ticket: Option<nat>,
    process: Option<nat>,
    firstChunk: Option<nat>,
    restarts: nat,
    closed: bool,
    processLock: Holder,
    pc: WorkerPc,
    cleanup: CleanupPc)

  function NewStream(printer: string, session: string, ticket: Option<nat>): Stream {
    Stream(printer, session, ticket, None, None, 0, false, Free, Starting, NotStarted)
  }

  /** What a step does outside the stream object. */
  datatype Effect = Quiet | Spawns(created: nat) | Stops(stopped: nat) | Yields(chunk: nat)

  datatype Outcome = Outcome(stream: Stream, effect: Effect)

  /** `close` under its own lock: the first caller flags the stream and starts the cleanup task. */
  function RequestClose(st: Stream): Stream {
    if st.cleanup.NotStarted? then st.(closed := true, cleanup := CleanupAwaitLock) else st
  }

  /** The handler of CameraUnavailable: in start() it retries or re-raises, in _restart() it gives up. */
  function Unavailable(max: nat, st: Stream, phase: Phase): Stream {
    if phase.InRestart? || st.closed || st.restarts >= max then st.(pc := MustClose)
    else st.(restarts := st.restarts + 1, pc := Pausing(InStart))
  }

  function AfterStopping(max: nat, st: Stream, later: AfterStop): Stream {
    match later
    case GiveUp(phase) => Unavailable(max, st, phase)
    case PauseThenRestart => st.(pc := Pausing(InRestart))
  }

  /** The result the environment delivers to the suspended coroutine. */
  datatype WorkerStep =
    | Resume                                        // a lock, a sleep or a wait is over; the consumer asks for more
    | SpawnFails
    | SpawnCreates(pid: nat)                        // the operating system has created the process
    | SpawnReturns(hasPipe: bool)
    | ReadReturns(chunk: Option<nat>, authorized: bool, expired: bool)   // None: nothing, or a timeout
    | Iterate(authorized: bool, expired: bool, stillAuthorized: bool)
    | Interrupt                                     // cancellation, or an exception that no handler retries

  predicate Interruptible(pc: WorkerPc) {
    pc.AwaitLockToSpawn? || pc.Spawning? || pc.SpawnStopping? || pc.FirstRead? || pc.AwaitLockToStop? || pc.Stopping? ||
    pc.Pausing? || pc.Reading? || pc.Yielded?
  }

  /** One run of the worker coroutine; None when the step does not apply. */
  function WorkerRun(max: nat, st: Stream, step: WorkerStep): Option<Outcome> {
    match step
    case Interrupt =>
      if Interruptible(st.pc) then
        var left := if st.processLock.ByWorker? then Free else st.processLock;
        Some(Outcome(st.(pc := MustClose, processLock := left), Quiet))
      else None
    case SpawnFails =>
      if st.pc.Spawning? then Some(Outcome(Unavailable(max, st.(processLock := Free), st.pc.phase), Quiet)) else None
    case SpawnCreates(pid) =>
      if st.pc.Spawning? then Some(Outcome(st.(pc := Spawned(st.pc.phase, pid)), Spawns(pid))) else None
    case SpawnReturns(hasPipe) =>
      if !st.pc.Spawned? then None
      else if !hasPipe || st.closed then Some(Outcome(st.(pc := SpawnStopping(st.pc.phase)), Stops(st.pc.pid)))
      else Some(Outcome(st.(process := Some(st.pc.pid), processLock := Free, pc := FirstRead(st.pc.phase)), Quiet))
    case ReadReturns(chunk, authorized, expired) =>
      if st.pc.FirstRead? then
        if chunk.None? || st.closed || !authorized then
          Some(Outcome(st.(pc := AwaitLockToStop(GiveUp(st.pc.phase))), Quiet))
        else
          Some(Outcome(st.(firstChunk := chunk, pc := if st.pc.phase.InStart? then Opened else IterTop), Quiet))
      else if st.pc.Reading? then
        if chunk.None? then
          if st.closed || !authorized || expired || st.restarts >= max then Some(Outcome(st.(pc := MustClose), Quiet))
          else Some(Outcome(st.(restarts := st.restarts + 1, pc := AwaitLockToStop(PauseThenRestart)), Quiet))
        else if st.closed || !authorized then Some(Outcome(st.(pc := MustClose), Quiet))
        else Some(Outcome(st.(pc := Yielded), Yields(chunk.value)))
      else None
    case Iterate(authorized, expired, stillAuthorized) =>
      if !st.pc.IterTop? then None
      else if st.closed || !authorized || expired then Some(Outcome(st.(pc := MustClose), Quiet))
      else if st.firstChunk.Some? then
        if stillAuthorized then Some(Outcome(st.(firstChunk := None, pc := Yielded), Yields(st.firstChunk.value)))
        else Some(Outcome(st.(firstChunk := None, pc := MustClose), Quiet))
      else Some(Outcome(st.(pc := Reading), Quiet))
    case Resume => ResumeRun(max, st)
  }

  function ResumeRun(max: nat, st: Stream): Option<Outcome> {
    match st.pc
    case Starting =>
      Some(Outcome(st.(pc := if st.closed then MustClose else AwaitLockToSpawn(InStart)), Quiet))
    case AwaitLockToSpawn(phase) =>
      if !st.processLock.Free? then None
      else if st.closed then Some(Outcome(Unavailable(max, st, phase), Quiet))
      else Some(Outcome(st.(processLock := ByWorker, pc := Spawning(phase)), Quiet))
    case SpawnStopping(phase) =>
      Some(Outcome(Unavailable(max, st.(processLock := Free), phase), Quiet))
    case AwaitLockToStop(later) =>
      if !st.processLock.Free? then None
      else if st.process.None? then Some(Outcome(AfterStopping(max, st, later), Quiet))
      else Some(Outcome(st.(process := None, processLock := ByWorker, pc := Stopping(later)), Stops(st.process.value)))
    case Stopping(later) =>
      Some(Outcome(AfterStopping(max, st.(processLock := Free), later), Quiet))
    case Pausing(phase) =>
      if phase.InStart? then Some(Outcome(st.(pc := Starting), Quiet))
      else Some(Outcome(st.(pc := if st.closed then MustClose else AwaitLockToSpawn(InRestart)), Quiet))
    case Opened => Some(Outcome(st.(pc := IterTop), Quiet))
    case Yielded => Some(Outcome(st.(pc := IterTop), Quiet))
    case MustClose => Some(Outcome(RequestClose(st).(pc := AwaitCleanup), Quiet))
    case AwaitCleanup => if st.cleanup.Released? then Some(Outcome(st.(pc := Finished), Quiet)) else None
    case _ => None
  }

  /** One run of the cleanup task up to its release of the registry slot. */
  function CleanupRun(st: Stream): Option<Outcome> {
    match st.cleanup
    case CleanupAwaitLock =>
      if !st.processLock.Free? then None
      else if st.process.None? then Some(Outcome(st.(cleanup := CleanupReleasing), Quiet))
      else Some(Outcome(st.(process := None, processLock := ByCleanup, cleanup := CleanupStopping),
                        Stops(st.process.value)))
    case CleanupStopping => Some(Outcome(st.(processLock := Free, cleanup := CleanupReleasing), Quiet))
    case _ => None
  }

  // ------------------------------------------------------- the whole system

  datatype System = System(
    tickets: TicketTable,
    issued: TicketTable,          // history: every ticket ever issued, with its binding
    sessions: set<nat>,           // the keys of _sessions
    byPrinter: map<string, nat>,  // _sessions_by_printer
    streams: map<nat, Stream>,    // every stream object ever created
    live: map<nat, nat>)          // history: processes spawned and not yet told to stop, with their stream

  const INIT := System(map[], map[], {}, map[], map[], map[])

  /** One atomic step, with every choice the environment makes in it: clock readings, fresh names, results. */
  datatype Action =
    | IssueTicket(ticket: nat, printer: string, session: string, now: real, victim: nat)
    | ConsumeTicket(ticket: nat, printer: string, session: string, now: real)
    | RevokeTickets(scope: Scope)
    | OpenStream(id: nat, printer: string, session: string)
    | OpenTicketed(id: nat, ticket: nat, printer: string, session: string, now: real, authorized: bool)
    | Close(id: nat)
    | Work(id: nat, step: WorkerStep)
    | Clean(id: nat)
    | Release(id: nat)

  /** The two tests of `_reserve_stream_locked`; failing either raises CameraBusy. */
  predicate SlotAvailable(l: Limits, sessions: set<nat>, byPrinter: map<string, nat>, printer: string) {
    printer !in byPrinter && |sessions| < l.maxTotalSessions
  }

  function Reserve(l: Limits, s: System, id: nat, printer: string, session: string, ticket: Option<nat>): System {
    if !SlotAvailable(l, s.sessions, s.byPrinter, printer) then s
    else s.(sessions := s.sessions + {id},
            byPrinter := s.byPrinter[printer := id],
            streams := s.streams[id := NewStream(printer, session, ticket)])
  }

  function Apply(s: System, id: nat, outcome: Outcome): System {
    var moved := s.(streams := s.streams[id := outcome.stream]);
    match outcome.effect
    case Spawns(pid) => moved.(live := s.live[pid := id])
    case Stops(pid) => moved.(live := map q | q in s.live && q != pid :: s.live[q])
    case _ => moved
  }

  /** `_release` drops the printer's entry only while it still names this stream. */
  function WithoutSlot(byPrinter: map<string, nat>, printer: string, id: nat): map<string, nat> {
    if printer in byPrinter && byPrinter[printer] == id then map p | p in byPrinter && p != printer :: byPrinter[p]
    else byPrinter
  }

  function ReleaseSlot(s: System, id: nat): System
    requires id in s.streams
  {
    s.(sessions := s.sessions - {id},
       byPrinter := WithoutSlot(s.byPrinter, s.streams[id].printer, id),
       streams := s.streams[id := s.streams[id].(cleanup := Released)])
  }

  /** The popped binding belongs to this printer and session, has not expired, and the session is still valid. */
  predicate Admits(s: System, a: Action) {
    match a
    case ConsumeTicket(t, p, k, now) => Accepted(s.tickets, t, p, k, now)
    case OpenTicketed(_, t, p, k, now, authorized) => Accepted(s.tickets, t, p, k, now) && authorized
    case _ => false
  }

  /** The transition function; None when the action is not possible in `s`. */
  function Step(l: Limits, s: System, a: Action): Option<System> {
    match a
    case IssueTicket(t, p, k, now, victim) =>
      var kept := WithoutPair(Prune(s.tickets, now), p, k);
      if t in s.issued || (|kept| >= MAX_CAMERA_TICKETS && !IsOldest(kept, victim)) then None
      else
        var binding := Binding(p, k, now + TICKET_TTL_SECONDS);
        Some(s.(tickets := RoomForTicket(s.tickets, p, k, now, victim)[t := binding], issued := s.issued[t := binding]))
    case ConsumeTicket(t, _, _, now) => Some(s.(tickets := Popped(s.tickets, t, now)))
    case RevokeTickets(scope) => Some(s.(tickets := Revoke(s.tickets, scope)))
    case OpenStream(id, p, k) => if id in s.streams then None else Some(Reserve(l, s, id, p, k, None))
    case OpenTicketed(id, t, p, k, now, _) =>
      if id in s.streams then None
      else
        var popped := s.(tickets := Popped(s.tickets, t, now));
        Some(if Admits(s, a) then Reserve(l, popped, id, p, k, Some(t)) else popped)
    case Close(id) =>
      if id !in s.streams then None else Some(s.(streams := s.streams[id := RequestClose(s.streams[id])]))
    case Work(id, step) =>
      if id !in s.streams || (step.SpawnCreates? && step.pid in s.live) then None
      else
        var run := WorkerRun(l.maxRestarts, s.streams[id], step);
        if run.None? then None else Some(Apply(s, id, run.value))
    case Clean(id) =>
      if id !in s.streams then None
      else
        var run := CleanupRun(s.streams[id]);
        if run.None? then None else Some(Apply(s, id, run.value))
    case Release(id) =>
      if id in s.streams && s.streams[id].cleanup.CleanupReleasing? then Some(ReleaseSlot(s, id)) else None
  }

  /** The i-th action leads from the i-th state to the next. */
  ghost predicate StepsAt(l: Limits, states: seq<System>, actions: seq<Action>, i: nat)
    requires i < |actions| && i + 1 < |states|
  {
    Step(l, states[i], actions[i]) == Some(states[i + 1])
  }

  /** A run: consecutive states related by the actions between them, from the empty manager. */
  ghost predicate IsRun(l: Limits, states: seq<System>, actions: seq<Action>) {
    && |states| == |actions| + 1
    && states[0] == INIT
    && forall i: nat :: i < |actions| ==> StepsAt(l, states, actions, i)
  }

  /** The chunk-yielding steps, and the streams a closing caller finds in the registry. */
  predicate YieldsChunk(l: Limits, s: System, a: Action) {
    && a.Work?
    && a.id in s.streams
    && var run := WorkerRun(l.maxRestarts, s.streams[a.id], a.step);
    run.Some? && run.value.effect.Yields?
  }

  predicate SpawnsProcess(a: Action, id: nat) {
    a.Work? && a.id == id && a.step.SpawnCreates?
  }

  /** `close_stream` looks one stream up, `close_session` collects several. */
  ghost function Found(s: System, scope: Scope): set<nat> {
    match scope
    case OfPrinter(p) => if p in s.byPrinter && s.byPrinter[p] in s.sessions then {s.byPrinter[p]} else {}
    case OfSession(k) => set id | id in s.sessions && id in s.streams && s.streams[id].session == k
  }
}
