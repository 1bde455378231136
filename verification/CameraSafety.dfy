/** What the camera protocol guarantees over every run: processes, restarts, tickets, and stopping. */
module CameraSafety {
  import opened Wrappers
  import opened CameraModel
  import opened CameraInvariant
  import opened Sets

  // -------------------------------------------------------------- processes

  /**
    No orphan process: whoever spawned a process that was not told to stop is still registered, and keeps it
    either in `_process` or, inside `_spawn`, under that stream's process lock.
  */
  lemma NoOrphanProcess(l: Limits, states: seq<System>, actions: seq<Action>, i: nat, pid: nat)
    requires IsRun(l, states, actions) && i < |states| && pid in states[i].live
    ensures var s := states[i]; var id := s.live[pid];
            && id in s.sessions
            && id in s.streams
            && (s.streams[id].process == Some(pid) ||
                (s.streams[id].pc.Spawned? && s.streams[id].pc.pid == pid && s.streams[id].processLock.ByWorker?))
  {
    RunKeepsInv(l, states, actions, i);
    var s := states[i];
    assert IsHeld(s, pid);
    assert RightSlot(s, s.live[pid]);
    assert StreamInv(l.maxRestarts, s.streams[s.live[pid]]);
  }

  /** At most one live process per printer. */
  lemma OneProcessPerPrinter(l: Limits, states: seq<System>, actions: seq<Action>, i: nat, p: nat, q: nat)
    requires IsRun(l, states, actions) && i < |states|
    requires p in states[i].live && q in states[i].live
    requires states[i].live[p] in states[i].streams && states[i].live[q] in states[i].streams
    requires states[i].streams[states[i].live[p]].printer == states[i].streams[states[i].live[q]].printer
    ensures p == q
  {
    RunKeepsInv(l, states, actions, i);
    NoOrphanProcess(l, states, actions, i, p);
    NoOrphanProcess(l, states, actions, i, q);
    var s := states[i];
    assert RightSlot(s, s.live[p]) && RightSlot(s, s.live[q]);
    assert IsHeld(s, p) && IsHeld(s, q);
  }

  /** And at most max_total_sessions of them altogether. */
  lemma ProcessesBounded(l: Limits, states: seq<System>, actions: seq<Action>, i: nat)
    requires IsRun(l, states, actions) && i < |states|
    ensures |states[i].live| <= |states[i].sessions| <= l.maxTotalSessions
  {
    RunKeepsInv(l, states, actions, i);
    var s := states[i];
    forall p | p in s.live ensures s.live[p] in s.sessions {
      NoOrphanProcess(l, states, actions, i, p);
    }
    forall p, q | p in s.live && q in s.live && s.live[p] == s.live[q] ensures p == q {
      assert IsHeld(s, p) && IsHeld(s, q);
    }
    InjectionSize(s.live, s.sessions);
  }

  lemma {:induction false} InjectionSize(m: map<nat, nat>, targets: set<nat>)
    requires forall p :: p in m ==> m[p] in targets
    requires forall p, q :: p in m && q in m && m[p] == m[q] ==> p == q
    ensures |m| <= |targets|
  {
    if m.Keys == {} {
    } else {
      var p :| p in m;
      var rest := map q | q in m && q != p :: m[q];
      assert rest.Keys == m.Keys - {p};
      InjectionSize(rest, targets - {m[p]});
    }
  }

  /** The streams of a state are those of an earlier one, unless opened in between; closing is for good. */
  lemma StepKeepsClosed(l: Limits, s: System, a: Action, id: nat)
    requires Step(l, s, a).Some? && id in s.streams
    ensures var s' := Step(l, s, a).value;
            id in s'.streams && s'.streams[id].ticket == s.streams[id].ticket
            && (s.streams[id].closed ==> s'.streams[id].closed)
            && (s.streams[id].cleanup.Released? ==> s'.streams[id].cleanup.Released?)
  {
    match a
    case Work(jd, step) =>
      RunsKeepIdentity(l.maxRestarts, s.streams[jd], step);
      ApplyFrame(s, jd, WorkerRun(l.maxRestarts, s.streams[jd], step).value);
    case Clean(jd) =>
      RunsKeepIdentity(l.maxRestarts, s.streams[jd], Resume);
      ApplyFrame(s, jd, CleanupRun(s.streams[jd]).value);
    case _ =>
  }

  lemma {:induction false} RunKeepsClosed(l: Limits, states: seq<System>, actions: seq<Action>, i: nat, j: nat, id: nat)
    requires IsRun(l, states, actions) && i <= j < |states| && id in states[i].streams
    ensures id in states[j].streams && states[j].streams[id].ticket == states[i].streams[id].ticket
    ensures states[i].streams[id].closed ==> states[j].streams[id].closed
    ensures states[i].streams[id].cleanup.Released? ==> states[j].streams[id].cleanup.Released?
  {
    if i == j {
    } else {
      RunKeepsClosed(l, states, actions, i, j - 1, id);
      ClosedAt(l, states, actions, j - 1, id);
    }
  }

  lemma ClosedAt(l: Limits, states: seq<System>, actions: seq<Action>, i: nat, id: nat)
    requires IsRun(l, states, actions) && i < |actions| && id in states[i].streams
    ensures id in states[i + 1].streams && states[i + 1].streams[id].ticket == states[i].streams[id].ticket
    ensures states[i].streams[id].closed ==> states[i + 1].streams[id].closed
    ensures states[i].streams[id].cleanup.Released? ==> states[i + 1].streams[id].cleanup.Released?
  {
    StepOfRun(l, states, actions, i);
    StepKeepsClosed(l, states[i], actions[i], id);
  }

  /** A released stream has no process, and never gets one or yields again. */
  lemma ReleasedIsFinal(l: Limits, states: seq<System>, actions: seq<Action>, i: nat, j: nat, id: nat)
    requires IsRun(l, states, actions) && i <= j < |states|
    requires id in states[i].streams && states[i].streams[id].cleanup.Released?
    ensures forall pid :: pid in states[j].live ==> states[j].live[pid] != id
    ensures j < |actions| ==> !SpawnsProcess(actions[j], id)
    ensures j < |actions| && YieldsChunk(l, states[j], actions[j]) ==> actions[j].id != id
  {
    RunKeepsClosed(l, states, actions, i, j, id);
    RunKeepsInv(l, states, actions, j);
    var s := states[j];
    assert StreamInv(l.maxRestarts, s.streams[id]);
    forall pid | pid in s.live ensures s.live[pid] != id {
      assert IsHeld(s, pid);
    }
    if j < |actions| {
      StepOfRun(l, states, actions, j);
    }
  }

  // --------------------------------------------------------------- restarts

  ghost function SpawnCount(actions: seq<Action>, id: nat): nat {
    if actions == [] then 0
    else SpawnCount(actions[..|actions| - 1], id) + if SpawnsProcess(actions[|actions| - 1], id) then 1 else 0
  }

  /** Processes the stream can have spawned so far: one per paid restart, and the first one. */
  function Paid(st: Stream): nat {
    if st.pc.Starting? || st.pc.AwaitLockToSpawn? || st.pc.Spawning? || st.pc.Pausing? ||
       st.pc == AwaitLockToStop(PauseThenRestart) || st.pc == Stopping(PauseThenRestart)
    then st.restarts else st.restarts + 1
  }

  lemma ResumeNeverRefunds(max: nat, st: Stream)
    requires ResumeRun(max, st).Some?
    ensures Paid(ResumeRun(max, st).value.stream) >= Paid(st)
  {
  }

  lemma WorkIsPaid(max: nat, st: Stream, step: WorkerStep)
    requires WorkerRun(max, st, step).Some?
    ensures Paid(WorkerRun(max, st, step).value.stream) >= Paid(st) + if step.SpawnCreates? then 1 else 0
  {
    if step.Resume? { ResumeNeverRefunds(max, st); }
  }

  lemma StepIsPaid(l: Limits, s: System, a: Action, id: nat)
    requires Step(l, s, a).Some? && id in Step(l, s, a).value.streams
    ensures var st' := Step(l, s, a).value.streams[id];
            id in s.streams ==> Paid(st') >= Paid(s.streams[id]) + if SpawnsProcess(a, id) then 1 else 0
    ensures id !in s.streams ==> !SpawnsProcess(a, id)
  {
    match a
    case Work(jd, step) =>
      WorkIsPaid(l.maxRestarts, s.streams[jd], step);
      ApplyFrame(s, jd, WorkerRun(l.maxRestarts, s.streams[jd], step).value);
    case Clean(jd) => ApplyFrame(s, jd, CleanupRun(s.streams[jd]).value);
    case _ =>
  }

  lemma {:induction false} SpawnsArePaid(l: Limits, states: seq<System>, actions: seq<Action>, i: nat, id: nat)
    requires IsRun(l, states, actions) && i <= |actions|
    ensures id !in states[i].streams ==> SpawnCount(actions[..i], id) == 0
    ensures id in states[i].streams ==> SpawnCount(actions[..i], id) <= Paid(states[i].streams[id])
  {
    if i == 0 {
    } else {
      SpawnsArePaid(l, states, actions, i - 1, id);
      assert actions[..i][..i - 1] == actions[..i - 1];
      PaidAt(l, states, actions, i - 1, id);
    }
  }

  lemma PaidAt(l: Limits, states: seq<System>, actions: seq<Action>, i: nat, id: nat)
    requires IsRun(l, states, actions) && i < |actions|
    ensures id in states[i].streams ==>
              && id in states[i + 1].streams
              && Paid(states[i + 1].streams[id]) >=
                 Paid(states[i].streams[id]) + if SpawnsProcess(actions[i], id) then 1 else 0
    ensures id !in states[i].streams ==> !SpawnsProcess(actions[i], id)
  {
    StepOfRun(l, states, actions, i);
    if id in states[i].streams { StepKeepsClosed(l, states[i], actions[i], id); }
    if id in states[i + 1].streams {
      StepIsPaid(l, states[i], actions[i], id);
    }
  }

  /**
    Bounded restarts: over its whole life a stream spawns at most 1 + max_restarts processes, start and iteration
    together.
  */
  lemma SpawnsBounded(l: Limits, states: seq<System>, actions: seq<Action>, id: nat)
    requires IsRun(l, states, actions)
    ensures SpawnCount(actions, id) <= 1 + l.maxRestarts
  {
    var n := |actions|;
    assert actions[..n] == actions;
    SpawnsArePaid(l, states, actions, n, id);
    RunKeepsInv(l, states, actions, n);
    assert id in states[n].streams ==> StreamInv(l.maxRestarts, states[n].streams[id]);
  }

  lemma WorkerReadsProcess(max: nat, st: Stream, step: WorkerStep)
    requires StreamInv(max, st) && WorkerRun(max, st, step).Some?
    requires !st.pc.Reading? && WorkerRun(max, st, step).value.stream.pc.Reading?
    ensures st.process.Some? && WorkerRun(max, st, step).value.stream.process == st.process
  {
    if step.Resume? { ResumeNeverReads(max, st); }
  }

  lemma ResumeNeverReads(max: nat, st: Stream)
    requires ResumeRun(max, st).Some?
    ensures !ResumeRun(max, st).value.stream.pc.Reading?
  {
  }

  lemma OnlyWorkReads(l: Limits, s: System, a: Action, id: nat)
    requires Step(l, s, a).Some? && id in s.streams && !s.streams[id].pc.Reading?
    requires id in Step(l, s, a).value.streams && Step(l, s, a).value.streams[id].pc.Reading?
    ensures a.Work? && a.id == id
    ensures Step(l, s, a).value.streams[id] == WorkerRun(l.maxRestarts, s.streams[id], a.step).value.stream
  {
    match a
    case Work(jd, step) => ApplyFrame(s, jd, WorkerRun(l.maxRestarts, s.streams[jd], step).value);
    case Clean(jd) => ApplyFrame(s, jd, CleanupRun(s.streams[jd]).value);
    case _ =>
  }

  /** The run of iter_bytes that reaches `self._process.stdout.read` does so with `_process` set. */
  lemma NoNullRead(l: Limits, states: seq<System>, actions: seq<Action>, i: nat, id: nat)
    requires IsRun(l, states, actions) && i < |actions|
    requires id in states[i].streams && id in states[i + 1].streams
    requires !states[i].streams[id].pc.Reading? && states[i + 1].streams[id].pc.Reading?
    ensures states[i].streams[id].process.Some?
  {
    RunKeepsInv(l, states, actions, i);
    StepOfRun(l, states, actions, i);
    assert StreamInv(l.maxRestarts, states[i].streams[id]);
    OnlyWorkReads(l, states[i], actions[i], id);
    WorkerReadsProcess(l.maxRestarts, states[i].streams[id], actions[i].step);
  }

  // ---------------------------------------------------------------- tickets

  ghost predicate Spent(s: System, t: nat) {
    t in s.issued && t !in s.tickets
  }

  lemma {:induction false} SpentForGood(l: Limits, states: seq<System>, actions: seq<Action>, i: nat, j: nat, t: nat)
    requires IsRun(l, states, actions) && i <= j < |states| && Spent(states[i], t)
    ensures Spent(states[j], t)
  {
    if i == j {
    } else {
      SpentForGood(l, states, actions, i, j - 1, t);
      SpentAt(l, states, actions, j - 1, t);
    }
  }

  lemma SpentStays(l: Limits, s: System, a: Action, t: nat)
    requires Step(l, s, a).Some? && Spent(s, t)
    ensures Spent(Step(l, s, a).value, t)
  {
    if !a.IssueTicket? { OnlyIssueAdds(l, s, a); }
  }

  lemma SpentAt(l: Limits, states: seq<System>, actions: seq<Action>, i: nat, t: nat)
    requires IsRun(l, states, actions) && i < |actions| && Spent(states[i], t)
    ensures Spent(states[i + 1], t)
  {
    StepOfRun(l, states, actions, i);
    SpentStays(l, states[i], actions[i], t);
  }

  lemma {:induction false} BindingIsFixed(l: Limits, states: seq<System>, actions: seq<Action>, i: nat, j: nat, t: nat)
    requires IsRun(l, states, actions) && i <= j < |states| && t in states[i].issued
    ensures t in states[j].issued && states[j].issued[t] == states[i].issued[t]
  {
    if i == j {
    } else {
      BindingIsFixed(l, states, actions, i, j - 1, t);
      BindingAt(l, states, actions, j - 1, t);
    }
  }

  lemma BindingStays(l: Limits, s: System, a: Action, t: nat)
    requires Step(l, s, a).Some? && t in s.issued
    ensures t in Step(l, s, a).value.issued && Step(l, s, a).value.issued[t] == s.issued[t]
  {
    if !a.IssueTicket? { OnlyIssueAdds(l, s, a); }
  }

  lemma BindingAt(l: Limits, states: seq<System>, actions: seq<Action>, i: nat, t: nat)
    requires IsRun(l, states, actions) && i < |actions| && t in states[i].issued
    ensures t in states[i + 1].issued && states[i + 1].issued[t] == states[i].issued[t]
  {
    StepOfRun(l, states, actions, i);
    BindingStays(l, states[i], actions[i], t);
  }

  predicate Issues(a: Action, t: nat, binding: Binding) {
    a.IssueTicket? && a.ticket == t && binding == Binding(a.printer, a.session, a.now + TICKET_TTL_SECONDS)
  }

  lemma {:induction false} WhoIssued(l: Limits, states: seq<System>, actions: seq<Action>, i: nat, t: nat)
    returns (k: nat)
    requires IsRun(l, states, actions) && i < |states| && t in states[i].issued
    ensures k < i && Issues(actions[k], t, states[i].issued[t])
  {
    if t in states[i - 1].issued {
      k := WhoIssued(l, states, actions, i - 1, t);
      BindingIsFixed(l, states, actions, i - 1, i, t);
    } else {
      k := i - 1;
      IssuedAt(l, states, actions, k, t);
    }
  }

  lemma IssuedAt(l: Limits, states: seq<System>, actions: seq<Action>, i: nat, t: nat)
    requires IsRun(l, states, actions) && i < |actions| && t in states[i + 1].issued && t !in states[i].issued
    ensures Issues(actions[i], t, states[i + 1].issued[t])
  {
    StepOfRun(l, states, actions, i);
    if !actions[i].IssueTicket? { OnlyIssueAdds(l, states[i], actions[i]); }
  }

  /**
    Issuing makes the new ticket valid; of the unexpired tickets of other pairs it drops one at most, the soonest to
    expire.
  */
  lemma IssueSparesOthers(l: Limits, s: System, a: Action, t: nat)
    requires |s.tickets| <= MAX_CAMERA_TICKETS && PartOf(s.tickets, s.issued)
    requires a.IssueTicket? && Step(l, s, a).Some?
    requires t in s.tickets && s.tickets[t].expiresAt > a.now
    requires !(s.tickets[t].printer == a.printer && s.tickets[t].session == a.session)
    ensures var kept := Step(l, s, a).value.tickets;
            && Accepted(kept, a.ticket, a.printer, a.session, a.now)
            && (t in kept || (t == a.victim && |kept| == MAX_CAMERA_TICKETS
                  && forall u :: u in kept && u != a.ticket ==> s.tickets[t].expiresAt <= kept[u].expiresAt))
  {
    var pairless := WithoutPair(Prune(s.tickets, a.now), a.printer, a.session);
    assert t in pairless;
    if |pairless| >= MAX_CAMERA_TICKETS {
      SubsetSize(pairless.Keys, s.tickets.Keys);
      assert Evict(pairless, a.victim).Keys == pairless.Keys - {a.victim};
      assert Step(l, s, a).value.tickets.Keys == pairless.Keys - {a.victim} + {a.ticket};
    }
  }

  predicate Presents(a: Action, t: nat, printer: string, session: string, now: real) {
    || (a.ConsumeTicket? && a.ticket == t && a.printer == printer && a.session == session && a.now == now)
    || (a.OpenTicketed? && a.ticket == t && a.printer == printer && a.session == session && a.now == now)
  }

  /** A ticket is accepted only for the printer and session it was issued to, and strictly before it expires. */
  lemma AcceptedAsIssued(l: Limits, states: seq<System>, actions: seq<Action>, i: nat,
                         t: nat, printer: string, session: string, now: real) returns (k: nat)
    requires IsRun(l, states, actions) && i < |actions|
    requires Admits(states[i], actions[i]) && Presents(actions[i], t, printer, session, now)
    ensures k < i && actions[k].IssueTicket? && actions[k].ticket == t
    ensures actions[k].printer == printer && actions[k].session == session
    ensures now < actions[k].now + TICKET_TTL_SECONDS
  {
    RunKeepsInv(l, states, actions, i);
    k := WhoIssued(l, states, actions, i, t);
  }

  /** A ticket is accepted at most once in a run. */
  lemma AcceptedOnce(l: Limits, states: seq<System>, actions: seq<Action>, i: nat, j: nat,
                     t: nat, p: string, k: string, now: real, p': string, k': string, now': real)
    requires IsRun(l, states, actions) && i < j < |actions|
    requires Admits(states[i], actions[i]) && Presents(actions[i], t, p, k, now)
    requires Presents(actions[j], t, p', k', now')
    ensures !Admits(states[j], actions[j])
  {
    RunKeepsInv(l, states, actions, i);
    PresentedIsSpent(l, states, actions, i, t, p, k, now);
    SpentForGood(l, states, actions, i + 1, j, t);
  }

  lemma PresentedIsSpent(l: Limits, states: seq<System>, actions: seq<Action>, i: nat, t: nat, p: string, k: string,
                         now: real)
    requires IsRun(l, states, actions) && i < |actions| && TicketInv(states[i])
    requires Admits(states[i], actions[i]) && Presents(actions[i], t, p, k, now)
    ensures Spent(states[i + 1], t)
  {
    StepOfRun(l, states, actions, i);
  }

  /** Nor after a revocation that covers it; and the revocation leaves other printers and sessions alone. */
  lemma RevokedForGood(l: Limits, states: seq<System>, actions: seq<Action>, r: nat, j: nat, scope: Scope, t: nat)
    requires IsRun(l, states, actions) && r < |actions| && r < j < |states|
    requires actions[r] == RevokeTickets(scope)
    requires t in states[r].issued && scope.Covers(states[r].issued[t].printer, states[r].issued[t].session)
    ensures Spent(states[j], t)
    ensures forall u :: u in states[r].tickets && u !in states[r + 1].tickets ==>
              scope.Covers(states[r].tickets[u].printer, states[r].tickets[u].session)
  {
    RunKeepsInv(l, states, actions, r);
    RevokedAt(l, states, actions, r, scope, t);
    SpentForGood(l, states, actions, r + 1, j, t);
  }

  lemma RevokedAt(l: Limits, states: seq<System>, actions: seq<Action>, r: nat, scope: Scope, t: nat)
    requires IsRun(l, states, actions) && r < |actions| && actions[r] == RevokeTickets(scope) && TicketInv(states[r])
    requires t in states[r].issued && scope.Covers(states[r].issued[t].printer, states[r].issued[t].session)
    ensures Spent(states[r + 1], t)
    ensures forall u :: u in states[r].tickets && u !in states[r + 1].tickets ==>
              scope.Covers(states[r].tickets[u].printer, states[r].tickets[u].session)
  {
    StepOfRun(l, states, actions, r);
  }

  // --------------------------------------------------------------- stopping

  /** A stream opened by a spent ticket was opened before the ticket was spent. */
  lemma {:induction false} NoLateOpening(l: Limits, states: seq<System>, actions: seq<Action>, i: nat, j: nat,
                                         t: nat, id: nat)
    requires IsRun(l, states, actions) && i <= j < |states| && Spent(states[i], t)
    requires id in states[j].streams && states[j].streams[id].ticket == Some(t)
    ensures id in states[i].streams && states[i].streams[id].ticket == Some(t)
  {
    if i == j {
    } else {
      SpentForGood(l, states, actions, i, j - 1, t);
      OpenedAt(l, states, actions, j - 1, t, id);
      NoLateOpening(l, states, actions, i, j - 1, t, id);
    }
  }

  lemma OpenedAt(l: Limits, states: seq<System>, actions: seq<Action>, i: nat, t: nat, id: nat)
    requires IsRun(l, states, actions) && i < |actions| && Spent(states[i], t)
    requires id in states[i + 1].streams && states[i + 1].streams[id].ticket == Some(t)
    ensures id in states[i].streams && states[i].streams[id].ticket == Some(t)
  {
    StepOfRun(l, states, actions, i);
    OpensAdmitted(l, states[i], actions[i], id);
  }

  lemma OpensAdmitted(l: Limits, s: System, a: Action, id: nat)
    requires Step(l, s, a).Some? && id in Step(l, s, a).value.streams
    ensures var ticket := Step(l, s, a).value.streams[id].ticket;
            if id in s.streams then ticket == s.streams[id].ticket
            else ticket.Some? ==> ticket.value in s.tickets && Admits(s, a)
  {
    match a
    case Work(jd, step) =>
      RunsKeepIdentity(l.maxRestarts, s.streams[jd], step);
      ApplyFrame(s, jd, WorkerRun(l.maxRestarts, s.streams[jd], step).value);
    case Clean(jd) => ApplyFrame(s, jd, CleanupRun(s.streams[jd]).value);
    case _ =>
  }

  /**
    Stop is linearised against start.  Revoke the tickets of a printer (or session), look its streams up, close
    each and await the cleanup: from then on no ticket issued before the revocation yields another chunk, wherever
    its open_ticketed_stream had got to.
  */
  lemma StopIsLinearised(l: Limits, states: seq<System>, actions: seq<Action>,
                         scope: Scope, revoke: nat, look: nat, done: nat, n: nat, t: nat)
    requires IsRun(l, states, actions) && revoke < look <= done <= n < |actions|
    requires actions[revoke] == RevokeTickets(scope)
    requires t in states[revoke].issued
    requires scope.Covers(states[revoke].issued[t].printer, states[revoke].issued[t].session)
    requires forall id :: id in Found(states[look], scope) ==>
               id in states[done].streams && states[done].streams[id].cleanup.Released?
    ensures YieldsChunk(l, states[n], actions[n]) ==> states[n].streams[actions[n].id].ticket != Some(t)
  {
    if YieldsChunk(l, states[n], actions[n]) && states[n].streams[actions[n].id].ticket == Some(t) {
      var id := actions[n].id;
      RevokedForGood(l, states, actions, revoke, look, scope, t);
      NoLateOpening(l, states, actions, look, n, t, id);
      FoundOrReleased(l, states, actions, scope, revoke, look, t, id);
      if states[look].streams[id].cleanup.Released? {
        ReleasedIsFinal(l, states, actions, look, n, id);
      } else {
        ReleasedIsFinal(l, states, actions, done, n, id);
      }
    }
  }

  lemma FoundOrReleased(l: Limits, states: seq<System>, actions: seq<Action>,
                        scope: Scope, revoke: nat, look: nat, t: nat, id: nat)
    requires IsRun(l, states, actions) && revoke < look < |states|
    requires t in states[revoke].issued
    requires scope.Covers(states[revoke].issued[t].printer, states[revoke].issued[t].session)
    requires id in states[look].streams && states[look].streams[id].ticket == Some(t)
    ensures states[look].streams[id].cleanup.Released? || id in Found(states[look], scope)
  {
    RunKeepsInv(l, states, actions, look);
    BindingIsFixed(l, states, actions, revoke, look, t);
    var s := states[look];
    assert SpentTicket(s, s.streams[id]);
    assert RightSlot(s, id);
  }

  /**
    A stop covering the ticket's printer or session has completed since the ticket was issued: its revocation, its
    lookup, and the close of every stream it found.
  */
  ghost predicate Stopped(states: seq<System>, actions: seq<Action>, t: nat) {
    exists scope, revoke: nat, look: nat, done: nat ::
      StopDone(states, actions, scope, revoke, look, done) && Covered(states[revoke], scope, t)
  }

  ghost predicate StopDone(states: seq<System>, actions: seq<Action>, scope: Scope, revoke: nat, look: nat, done: nat) {
    && revoke < look <= done < |states| && revoke < |actions|
    && actions[revoke] == RevokeTickets(scope)
    && forall id :: id in Found(states[look], scope) ==>
         id in states[done].streams && states[done].streams[id].cleanup.Released?
  }

  ghost predicate Covered(s: System, scope: Scope, t: nat) {
    t in s.issued && scope.Covers(s.issued[t].printer, s.issued[t].session)
  }

  lemma RunExtends(l: Limits, states: seq<System>, actions: seq<Action>, a: Action, s: System)
    requires IsRun(l, states, actions) && Step(l, states[|states| - 1], a) == Some(s)
    ensures IsRun(l, states + [s], actions + [a])
  {
    var longer, more := states + [s], actions + [a];
    forall i: nat | i < |more| ensures StepsAt(l, longer, more, i) {
      if i < |actions| { StepOfRun(l, states, actions, i); }
    }
  }

  /** Whatever happens afterwards, a stopped ticket stays stopped. */
  lemma StoppedStays(states: seq<System>, actions: seq<Action>, longer: seq<System>, more: seq<Action>, t: nat)
    requires Stopped(states, actions, t) && states <= longer && actions <= more
    ensures Stopped(longer, more, t)
  {
    var scope, revoke: nat, look: nat, done: nat :|
      StopDone(states, actions, scope, revoke, look, done) && Covered(states[revoke], scope, t);
    assert longer[revoke] == states[revoke] && longer[look] == states[look] && longer[done] == states[done];
    assert more[revoke] == actions[revoke];
    assert StopDone(longer, more, scope, revoke, look, done);
  }

  /** The next step of a run does not yield to the holder of a stopped ticket. */
  lemma StoppedYieldsNothing(l: Limits, states: seq<System>, actions: seq<Action>, a: Action, t: nat)
    requires IsRun(l, states, actions) && Step(l, states[|states| - 1], a).Some?
    requires Stopped(states, actions, t) && YieldsChunk(l, states[|states| - 1], a)
    ensures states[|states| - 1].streams[a.id].ticket != Some(t)
  {
    var s := Step(l, states[|states| - 1], a).value;
    RunExtends(l, states, actions, a, s);
    var longer, more := states + [s], actions + [a];
    var scope, revoke: nat, look: nat, done: nat :|
      StopDone(states, actions, scope, revoke, look, done) && Covered(states[revoke], scope, t);
    assert longer[revoke] == states[revoke] && longer[look] == states[look] && longer[done] == states[done];
    assert more[revoke] == actions[revoke] && more[|actions|] == a && longer[|actions|] == states[|states| - 1];
    StopIsLinearised(l, longer, more, scope, revoke, look, done, |actions|, t);
  }

  // ------------------------------------------------------- closing completes

  /** Runs the worker of a closed stream may still spend with, or waiting for, the process lock. */
  function WorkerRank(pc: WorkerPc): nat {
    match pc
    case Spawning(_) => 3
    case FirstRead(_) => 3
    case Spawned(_, _) => 2
    case AwaitLockToStop(_) => 2
    case SpawnStopping(_) => 1
    case Stopping(_) => 1
    case _ => 0
  }

  function CloseRank(st: Stream): nat {
    WorkerRank(st.pc) +
    match st.cleanup
    case NotStarted => 4
    case CleanupAwaitLock => 3
    case CleanupStopping => 2
    case CleanupReleasing => 1
    case Released => 0
  }

  /** No step of anyone delays a requested close. */
  lemma CloseNeverDelayed(l: Limits, s: System, a: Action, id: nat)
    requires id in s.streams && s.streams[id].closed && StreamInv(l.maxRestarts, s.streams[id])
    requires Step(l, s, a).Some?
    ensures id in Step(l, s, a).value.streams
    ensures CloseRank(Step(l, s, a).value.streams[id]) <= CloseRank(s.streams[id])
  {
    match a
    case Work(jd, step) =>
      ApplyFrame(s, jd, WorkerRun(l.maxRestarts, s.streams[jd], step).value);
      if jd == id { ClosedWorkerShrinks(l.maxRestarts, s.streams[id], step); }
    case Clean(jd) => ApplyFrame(s, jd, CleanupRun(s.streams[jd]).value);
    case _ =>
  }

  lemma ClosedWorkerShrinks(max: nat, st: Stream, step: WorkerStep)
    requires StreamInv(max, st) && st.closed && WorkerRun(max, st, step).Some?
    ensures WorkerRank(WorkerRun(max, st, step).value.stream.pc) <= WorkerRank(st.pc)
    ensures WorkerRun(max, st, step).value.stream.cleanup == st.cleanup
  {
    if step.Resume? { ClosedResumeShrinks(max, st); }
  }

  lemma ClosedResumeShrinks(max: nat, st: Stream)
    requires StreamInv(max, st) && st.closed && ResumeRun(max, st).Some?
    ensures WorkerRank(ResumeRun(max, st).value.stream.pc) <= WorkerRank(st.pc)
    ensures ResumeRun(max, st).value.stream.cleanup == st.cleanup
  {
  }

  /** The step that brings a requested close nearer: the cleanup's own, or that of whoever holds the process lock. */
  function NextForClose(id: nat, st: Stream): Action {
    if st.cleanup.CleanupReleasing? then Release(id)
    else if st.processLock.ByWorker? then
      if st.pc.Spawning? then Work(id, SpawnFails)
      else if st.pc.Spawned? then Work(id, SpawnReturns(true))
      else Work(id, Resume)
    else Clean(id)
  }

  lemma NextRunShrinks(max: nat, id: nat, st: Stream)
    requires StreamInv(max, st) && st.closed && !st.cleanup.Released?
    ensures match NextForClose(id, st)
            case Work(_, step) =>
              && WorkerRun(max, st, step).Some?
              && CloseRank(WorkerRun(max, st, step).value.stream) < CloseRank(st)
              && !step.SpawnCreates?
            case Clean(_) => CleanupRun(st).Some? && CloseRank(CleanupRun(st).value.stream) < CloseRank(st)
            case _ => st.cleanup.CleanupReleasing?
  {
  }

  /** The close never deadlocks: until the slot is released there is always a step that brings it nearer. */
  lemma CloseNeverStuck(l: Limits, s: System, id: nat)
    requires id in s.streams && s.streams[id].closed && StreamInv(l.maxRestarts, s.streams[id])
    requires !s.streams[id].cleanup.Released?
    ensures var a := NextForClose(id, s.streams[id]);
            && Step(l, s, a).Some?
            && id in Step(l, s, a).value.streams
            && CloseRank(Step(l, s, a).value.streams[id]) < CloseRank(s.streams[id])
  {
    NextRunShrinks(l.maxRestarts, id, s.streams[id]);
    match NextForClose(id, s.streams[id])
    case Work(jd, step) => ApplyFrame(s, jd, WorkerRun(l.maxRestarts, s.streams[jd], step).value);
    case Clean(jd) => ApplyFrame(s, jd, CleanupRun(s.streams[jd]).value);
    case _ =>
  }

  /** A step of this stream's own coroutines. */
  predicate OfStream(a: Action, id: nat) {
    match a
    case Work(jd, _) => jd == id
    case Clean(jd) => jd == id
    case Release(jd) => jd == id
    case _ => false
  }

  ghost function Play(l: Limits, s: System, path: seq<Action>): Option<System>
    decreases |path|
  {
    if path == [] then Some(s)
    else
      var next := Step(l, s, path[0]);
      if next.None? then None else Play(l, next.value, path[1..])
  }

  lemma PlayMore(l: Limits, s: System, a: Action, rest: seq<Action>)
    requires Step(l, s, a).Some?
    ensures Play(l, s, [a] + rest) == Play(l, Step(l, s, a).value, rest)
  {
    assert ([a] + rest)[1..] == rest;
  }

  lemma NextIsOwn(id: nat, st: Stream)
    ensures OfStream(NextForClose(id, st), id)
  {
  }

  /** From every state of a run in which a close was requested, a few steps of that stream alone finish it. */
  lemma {:induction false} CloseCompletes(l: Limits, s: System, id: nat) returns (path: seq<Action>)
    requires Inv(l, s) && id in s.streams && s.streams[id].closed
    ensures |path| <= CloseRank(s.streams[id]) <= 7 && forall a :: a in path ==> OfStream(a, id)
    ensures var end := Play(l, s, path);
            end.Some? && id in end.value.streams && end.value.streams[id].cleanup.Released? && id !in end.value.sessions
    decreases CloseRank(s.streams[id])
  {
    assert StreamInv(l.maxRestarts, s.streams[id]) && RightSlot(s, id);
    if s.streams[id].cleanup.Released? {
      path := [];
    } else {
      var a := NextForClose(id, s.streams[id]);
      CloseNeverStuck(l, s, id);
      StepKeepsInv(l, s, a);
      StepKeepsClosed(l, s, a, id);
      NextIsOwn(id, s.streams[id]);
      var rest := CloseCompletes(l, Step(l, s, a).value, id);
      path := [a] + rest;
      PlayMore(l, s, a, rest);
    }
  }
}
