/** Exactly when a camera ticket is accepted and a stream opened, told from the history of the manager alone. */
module CameraTickets {
  import opened Wrappers
  import opened CameraModel
  import opened CameraInvariant
  import opened CameraSafety

  // -------------------------------------------------------------- one ticket

  predicate HasPair(a: Action, b: Binding) {
    a.IssueTicket? && a.printer == b.printer && a.session == b.session
  }

  /** The step reads the clock, and finds the binding expired. */
  predicate SeesExpired(a: Action, b: Binding) {
    (a.IssueTicket? || a.ConsumeTicket? || a.OpenTicketed?) && a.now >= b.expiresAt
  }

  /** The unexpired tickets of other pairs already fill the table. */
  ghost predicate TableFull(s: System, a: Action)
    requires a.IssueTicket?
  {
    |set u | u in s.tickets && s.tickets[u].expiresAt > a.now && !HasPair(a, s.tickets[u])| >= 256
  }

  /**
    What ends the life of a ticket: it is presented, its printer or session is revoked, its pair is issued another, it
    is the one evicted from a full table, or it is seen to have expired.
  */
  ghost predicate Ends(s: System, a: Action, t: nat, b: Binding) {
    || SeesExpired(a, b)
    || ((a.ConsumeTicket? || a.OpenTicketed?) && a.ticket == t)
    || a == RevokeTickets(OfPrinter(b.printer))
    || a == RevokeTickets(OfSession(b.session))
    || HasPair(a, b)
    || (a.IssueTicket? && a.victim == t && TableFull(s, a))
  }

  lemma StaysIff(l: Limits, s: System, a: Action, t: nat)
    requires Step(l, s, a).Some? && TicketInv(s) && t in s.tickets
    ensures t in Step(l, s, a).value.tickets <==> !Ends(s, a, t, s.tickets[t])
    ensures t in Step(l, s, a).value.tickets ==> Step(l, s, a).value.tickets[t] == s.tickets[t]
  {
    match a
    case IssueTicket(_, _, _, _, _) =>
      assert t in s.issued && a.ticket != t;
      SparedIff(s, a, t);
    case ConsumeTicket(_, _, _, _) => PresentedIff(l, s, a, t);
    case OpenTicketed(_, _, _, _, _, _) => PresentedIff(l, s, a, t);
    case RevokeTickets(scope) => CoversIff(scope, s.tickets[t]);
    case _ => OthersSpare(l, s, a);
  }

  lemma PresentedIff(l: Limits, s: System, a: Action, t: nat)
    requires (a.ConsumeTicket? || a.OpenTicketed?) && Step(l, s, a).Some? && t in s.tickets
    ensures t in Step(l, s, a).value.tickets <==> !Ends(s, a, t, s.tickets[t])
    ensures t in Step(l, s, a).value.tickets ==> Step(l, s, a).value.tickets[t] == s.tickets[t]
  {
  }

  lemma OthersSpare(l: Limits, s: System, a: Action)
    requires Step(l, s, a).Some? && !a.IssueTicket? && !a.ConsumeTicket? && !a.OpenTicketed? && !a.RevokeTickets?
    ensures Step(l, s, a).value.tickets == s.tickets
  {
    match a
    case Work(id, step) => ApplyFrame(s, id, WorkerRun(l.maxRestarts, s.streams[id], step).value);
    case Clean(id) => ApplyFrame(s, id, CleanupRun(s.streams[id]).value);
    case _ =>
  }

  lemma CoversIff(scope: Scope, b: Binding)
    ensures scope.Covers(b.printer, b.session) <==> scope == OfPrinter(b.printer) || scope == OfSession(b.session)
  {
  }

  lemma SparedIff(s: System, a: Action, t: nat)
    requires a.IssueTicket? && t in s.tickets && a.ticket != t
    ensures t in RoomForTicket(s.tickets, a.printer, a.session, a.now, a.victim) <==> !Ends(s, a, t, s.tickets[t])
  {
    var kept := WithoutPair(Prune(s.tickets, a.now), a.printer, a.session);
    assert kept.Keys == set u | u in s.tickets && s.tickets[u].expiresAt > a.now && !HasPair(a, s.tickets[u]);
    assert |kept| == |kept.Keys|;
  }

  // ------------------------------------------------------------- its history

  /** Issued by step k, and since then, up to step i, nothing has ended it. */
  ghost predicate AliveSince(states: seq<System>, actions: seq<Action>, k: nat, i: nat, t: nat, b: Binding) {
    && k < i <= |actions| && |actions| <= |states|
    && Issues(actions[k], t, b)
    && forall j: nat :: k < j < i ==> !EndsAt(states, actions, j, t, b)
  }

  ghost predicate EndsAt(states: seq<System>, actions: seq<Action>, j: nat, t: nat, b: Binding) {
    j < |actions| && j < |states| && Ends(states[j], actions[j], t, b)
  }

  ghost predicate Alive(states: seq<System>, actions: seq<Action>, i: nat, t: nat, b: Binding) {
    exists k: nat :: AliveSince(states, actions, k, i, t, b)
  }

  /** The table holds exactly the tickets that are alive. */
  lemma {:induction false} HeldIff(l: Limits, states: seq<System>, actions: seq<Action>, i: nat, t: nat, b: Binding)
    requires IsRun(l, states, actions) && i <= |actions|
    ensures Holds(states[i], t, b) <==> Alive(states, actions, i, t, b)
  {
    if i == 0 {
    } else {
      HeldIff(l, states, actions, i - 1, t, b);
      AliveNext(states, actions, i - 1, t, b);
      HoldsAt(l, states, actions, i - 1, t, b);
    }
  }

  lemma HoldsAt(l: Limits, states: seq<System>, actions: seq<Action>, i: nat, t: nat, b: Binding)
    requires IsRun(l, states, actions) && i < |actions|
    ensures Holds(states[i + 1], t, b) <==>
              Issues(actions[i], t, b) || (Holds(states[i], t, b) && !Ends(states[i], actions[i], t, b))
  {
    StepOfRun(l, states, actions, i);
    RunKeepsInv(l, states, actions, i);
    HoldsNext(l, states[i], actions[i], t, b);
  }

  predicate Holds(s: System, t: nat, b: Binding) {
    t in s.tickets && s.tickets[t] == b
  }

  lemma HoldsNext(l: Limits, s: System, a: Action, t: nat, b: Binding)
    requires Step(l, s, a).Some? && TicketInv(s)
    ensures Holds(Step(l, s, a).value, t, b) <==> Issues(a, t, b) || (Holds(s, t, b) && !Ends(s, a, t, b))
  {
    if Issues(a, t, b) {
    } else if t in s.tickets {
      StaysIff(l, s, a, t);
    } else {
      NotAdded(l, s, a, t, b);
    }
  }

  lemma NotAdded(l: Limits, s: System, a: Action, t: nat, b: Binding)
    requires Step(l, s, a).Some? && t !in s.tickets && !Issues(a, t, b)
    ensures t in Step(l, s, a).value.tickets ==> Step(l, s, a).value.tickets[t] != b
  {
    if !a.IssueTicket? { OnlyIssueAdds(l, s, a); }
  }

  lemma AliveNext(states: seq<System>, actions: seq<Action>, i: nat, t: nat, b: Binding)
    requires i < |actions| <= |states|
    ensures Alive(states, actions, i + 1, t, b) <==>
              Issues(actions[i], t, b) || (Alive(states, actions, i, t, b) && !Ends(states[i], actions[i], t, b))
  {
    if Issues(actions[i], t, b) { assert AliveSince(states, actions, i, i + 1, t, b); }
    if Alive(states, actions, i, t, b) && !Ends(states[i], actions[i], t, b) {
      var k: nat :| AliveSince(states, actions, k, i, t, b);
      assert AliveSince(states, actions, k, i + 1, t, b);
    }
    if Alive(states, actions, i + 1, t, b) {
      var k: nat :| AliveSince(states, actions, k, i + 1, t, b);
      if k < i {
        assert AliveSince(states, actions, k, i, t, b);
        assert !EndsAt(states, actions, i, t, b);
      }
    }
  }

  // --------------------------------------------------------------- presenting

  /** The ticket was issued to this pair less than 30 seconds before `now`, and nothing has ended it since. */
  ghost predicate GoodTicket(states: seq<System>, actions: seq<Action>, i: nat,
                             t: nat, printer: string, session: string, now: real) {
    exists k: nat :: k < |actions| && actions[k].IssueTicket? && now < actions[k].now + 30.0
                     && AliveSince(states, actions, k, i, t, Binding(printer, session, actions[k].now + 30.0))
  }

  /** A presented ticket is accepted if and only if it is good, and for a stream the session still authorised. */
  lemma AcceptedIff(l: Limits, states: seq<System>, actions: seq<Action>, i: nat,
                    t: nat, printer: string, session: string, now: real)
    requires IsRun(l, states, actions) && i < |actions| && Presents(actions[i], t, printer, session, now)
    ensures Admits(states[i], actions[i]) <==>
              && GoodTicket(states, actions, i, t, printer, session, now)
              && (actions[i].OpenTicketed? ==> actions[i].authorized)
  {
    var tickets := states[i].tickets;
    if t in tickets {
      var b := tickets[t];
      HeldIff(l, states, actions, i, t, b);
      var k: nat :| AliveSince(states, actions, k, i, t, b);
      assert b == Binding(b.printer, b.session, actions[k].now + 30.0);
    }
    if GoodTicket(states, actions, i, t, printer, session, now) {
      var k: nat :| k < |actions| && actions[k].IssueTicket? && now < actions[k].now + 30.0
                    && AliveSince(states, actions, k, i, t, Binding(printer, session, actions[k].now + 30.0));
      HeldIff(l, states, actions, i, t, Binding(printer, session, actions[k].now + 30.0));
    }
  }

  // ------------------------------------------------------------------ opening

  /** The streams whose slot has not been given back. */
  ghost function Running(s: System): set<nat> {
    set id | id in s.streams && s.streams[id].cleanup != Released
  }

  /** No running stream of this printer, and fewer of all printers than allowed. */
  ghost predicate Room(l: Limits, s: System, printer: string) {
    (forall id :: id in Running(s) ==> s.streams[id].printer != printer) && |Running(s)| < l.maxTotalSessions
  }

  lemma RoomIff(l: Limits, s: System, printer: string)
    requires RegistryInv(l, s)
    ensures SlotAvailable(l, s.sessions, s.byPrinter, printer) <==> Room(l, s, printer)
  {
    forall id ensures id in s.sessions <==> id in Running(s) {
      if id in s.streams { assert RightSlot(s, id); }
    }
    assert s.sessions == Running(s);
    if printer in s.byPrinter { assert s.byPrinter[printer] in Running(s); }
    forall id | id in Running(s) && s.streams[id].printer == printer ensures printer in s.byPrinter {
      assert RightSlot(s, id);
    }
  }

  predicate Opened(s: System, id: nat, printer: string, session: string, ticket: Option<nat>) {
    && id in s.streams && id in s.sessions
    && s.streams[id].printer == printer && s.streams[id].session == session && s.streams[id].ticket == ticket
    && s.streams[id].pc == Starting && !s.streams[id].closed && s.streams[id].restarts == 0
  }

  /** A good ticket of an authorised session opens a stream exactly while there is room; without, there is none. */
  lemma OpensIff(l: Limits, states: seq<System>, actions: seq<Action>, i: nat)
    requires IsRun(l, states, actions) && i < |actions| && actions[i].OpenTicketed?
    ensures var a := actions[i];
            var opens := GoodTicket(states, actions, i, a.ticket, a.printer, a.session, a.now) && a.authorized &&
                         Room(l, states[i], a.printer);
            if opens then Opened(states[i + 1], a.id, a.printer, a.session, Some(a.ticket))
            else states[i + 1].streams == states[i].streams
  {
    var a := actions[i];
    StepOfRun(l, states, actions, i);
    RunKeepsInv(l, states, actions, i);
    AcceptedIff(l, states, actions, i, a.ticket, a.printer, a.session, a.now);
    RoomIff(l, states[i], a.printer);
  }

  /** Without tickets, a stream opens exactly while there is room. */
  lemma OpensPlainIff(l: Limits, s: System, id: nat, printer: string, session: string)
    requires RegistryInv(l, s) && Step(l, s, OpenStream(id, printer, session)).Some?
    ensures var s' := Step(l, s, OpenStream(id, printer, session)).value;
            if Room(l, s, printer) then Opened(s', id, printer, session, None) else s'.streams == s.streams
  {
    RoomIff(l, s, printer);
  }
}
