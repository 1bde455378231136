/**
  What a viewer gets from a stream: which chunk a step hands on, that chunks arrive in the order read with none lost or
  made up, and exactly when a stream can still deliver one.
*/
module CameraFlow {
  import opened Wrappers
  import opened CameraModel
  import opened CameraInvariant
  import opened CameraSafety

  // ------------------------------------------------------------- one step

  /**
    The step hands this chunk to the viewer: it has just been read, or is the one pending since the start; the stream is
    open, and the session is authorised, before the pending chunk also not past its time.
  */
  predicate Delivers(st: Stream, step: WorkerStep, c: nat) {
    && !st.closed
    && (|| (st.pc == Reading && step.ReadReturns? && step.authorized && step.chunk == Some(c))
        || (st.pc == IterTop && step.Iterate? && step.authorized && !step.expired && step.stillAuthorized
            && st.firstChunk == Some(c)))
  }

  /** Such a step is possible, and yields that chunk; no other step yields anything. */
  lemma YieldsIff(max: nat, st: Stream, step: WorkerStep, c: nat)
    ensures Delivers(st, step, c) <==>
              WorkerRun(max, st, step).Some? && WorkerRun(max, st, step).value.effect == Yields(c)
    ensures Delivers(st, step, c) ==>
              WorkerRun(max, st, step).value.stream ==
              st.(pc := Yielded, firstChunk := if st.pc == IterTop then None else st.firstChunk)
  {
  }

  /** The head of the loop goes on exactly while the stream is open and the session authorised and within its time. */
  lemma LoopGoesOnIff(max: nat, st: Stream, authorized: bool, expired: bool, stillAuthorized: bool)
    requires st.pc == IterTop
    ensures var run := WorkerRun(max, st, Iterate(authorized, expired, stillAuthorized));
            var goesOn := !st.closed && authorized && !expired;
            && run.Some?
            && (run.value.stream.pc == Reading <==> goesOn && st.firstChunk.None?)
            && (run.value.stream.pc == Yielded <==> goesOn && st.firstChunk.Some? && stillAuthorized)
            && (run.value.stream.pc == MustClose <==> !goesOn || (st.firstChunk.Some? && !stillAuthorized))
  {
  }

  /** An empty read restarts the process exactly while open, authorised, within its time, and with a restart left. */
  lemma EmptyReadIff(max: nat, st: Stream, authorized: bool, expired: bool)
    requires st.pc == Reading
    ensures var run := WorkerRun(max, st, ReadReturns(None, authorized, expired));
            var restarts := !st.closed && authorized && !expired && st.restarts < max;
            && run.Some? && run.value.effect == Quiet
            && run.value.stream ==
               if restarts then st.(restarts := st.restarts + 1, pc := AwaitLockToStop(PauseThenRestart))
               else st.(pc := MustClose)
  {
  }

  // ------------------------------------------------- in order, and all of them

  /** The step reads this chunk into an open stream of an authorised session. */
  predicate Takes(st: Stream, step: WorkerStep, c: nat) {
    && !st.closed && (st.pc == Reading || st.pc.FirstRead?)
    && step.ReadReturns? && step.authorized && step.chunk == Some(c)
  }

  function TakenBy(st: Stream, step: WorkerStep): seq<nat> {
    if step.ReadReturns? && step.chunk.Some? && Takes(st, step, step.chunk.value) then [step.chunk.value] else []
  }

  function GivenBy(st: Stream, step: WorkerStep): seq<nat> {
    if step.ReadReturns? && step.chunk.Some? && Delivers(st, step, step.chunk.value) then [step.chunk.value]
    else if st.firstChunk.Some? && Delivers(st, step, st.firstChunk.value) then [st.firstChunk.value]
    else []
  }

  predicate Runs(s: System, a: Action, id: nat) {
    a.Work? && a.id == id && id in s.streams
  }

  /** The chunks the stream has read in the first n steps, and those it has handed on. */
  function Taken(states: seq<System>, actions: seq<Action>, id: nat, n: nat): seq<nat>
    requires n <= |actions| && n <= |states|
  {
    if n == 0 then []
    else
      Taken(states, actions, id, n - 1)
      + if Runs(states[n - 1], actions[n - 1], id) then TakenBy(states[n - 1].streams[id], actions[n - 1].step) else []
  }

  function Given(states: seq<System>, actions: seq<Action>, id: nat, n: nat): seq<nat>
    requires n <= |actions| && n <= |states|
  {
    if n == 0 then []
    else
      Given(states, actions, id, n - 1)
      + if Runs(states[n - 1], actions[n - 1], id) then GivenBy(states[n - 1].streams[id], actions[n - 1].step) else []
  }

  predicate Ending(pc: WorkerPc) {
    pc == MustClose || pc == AwaitCleanup || pc == Finished
  }

  function Pending(st: Stream): seq<nat> {
    if st.firstChunk.Some? then [st.firstChunk.value] else []
  }

  /** While the stream goes on, all but the pending chunk have been handed on; one that ends may drop its last. */
  predicate InOrder(taken: seq<nat>, given: seq<nat>, st: Stream) {
    if Ending(st.pc) then given <= taken && |taken| <= |given| + 1
    else taken == given + Pending(st) && (st.firstChunk.Some? ==> st.pc == Opened || st.pc == IterTop)
  }

  lemma RunKeepsOrder(max: nat, st: Stream, step: WorkerStep, taken: seq<nat>, given: seq<nat>)
    requires InOrder(taken, given, st) && WorkerRun(max, st, step).Some?
    ensures InOrder(taken + TakenBy(st, step), given + GivenBy(st, step), WorkerRun(max, st, step).value.stream)
  {
    assert given + [] == given && taken + [] == taken;
    if step.Resume? { ResumeKeepsOrder(max, st, taken, given); }
  }

  lemma ResumeKeepsOrder(max: nat, st: Stream, taken: seq<nat>, given: seq<nat>)
    requires InOrder(taken, given, st) && ResumeRun(max, st).Some?
    ensures InOrder(taken, given, ResumeRun(max, st).value.stream)
  {
  }

  predicate SameFlow(before: Stream, after: Stream) {
    after.pc == before.pc && after.firstChunk == before.firstChunk && after.restarts == before.restarts
  }

  lemma OthersKeepFlow(l: Limits, s: System, a: Action, id: nat)
    requires Step(l, s, a).Some? && !Runs(s, a, id) && id in s.streams
    ensures id in Step(l, s, a).value.streams && SameFlow(s.streams[id], Step(l, s, a).value.streams[id])
  {
    match a
    case Work(jd, step) => ApplyFrame(s, jd, WorkerRun(l.maxRestarts, s.streams[jd], step).value);
    case Clean(jd) => ApplyFrame(s, jd, CleanupRun(s.streams[jd]).value);
    case _ =>
  }

  lemma OpensEmpty(l: Limits, s: System, a: Action, id: nat)
    requires Step(l, s, a).Some? && id !in s.streams && id in Step(l, s, a).value.streams
    ensures Step(l, s, a).value.streams[id].pc == Starting && Step(l, s, a).value.streams[id].firstChunk == None
  {
    match a
    case Work(jd, step) => ApplyFrame(s, jd, WorkerRun(l.maxRestarts, s.streams[jd], step).value);
    case Clean(jd) => ApplyFrame(s, jd, CleanupRun(s.streams[jd]).value);
    case _ =>
  }

  lemma RunAt(l: Limits, s: System, a: Action, id: nat)
    requires Step(l, s, a).Some? && Runs(s, a, id)
    ensures WorkerRun(l.maxRestarts, s.streams[id], a.step).Some?
    ensures id in Step(l, s, a).value.streams
    ensures Step(l, s, a).value.streams[id] == WorkerRun(l.maxRestarts, s.streams[id], a.step).value.stream
  {
    ApplyFrame(s, id, WorkerRun(l.maxRestarts, s.streams[id], a.step).value);
  }

  /**
    What a viewer has been given is what the stream has read, in that order and each chunk once, but for one chunk at
    most: the one pending, or the one a stream that ends did not hand on any more.
  */
  lemma {:induction false} ChunksInOrder(l: Limits, states: seq<System>, actions: seq<Action>, id: nat, n: nat)
    requires IsRun(l, states, actions) && n < |states|
    ensures if id in states[n].streams
            then InOrder(Taken(states, actions, id, n), Given(states, actions, id, n), states[n].streams[id])
            else Taken(states, actions, id, n) == Given(states, actions, id, n) == []
  {
    if n == 0 {
    } else {
      var s, a := states[n - 1], actions[n - 1];
      ChunksInOrder(l, states, actions, id, n - 1);
      StepOfRun(l, states, actions, n - 1);
      if Runs(s, a, id) {
        RunAt(l, s, a, id);
        var taken, given := Taken(states, actions, id, n - 1), Given(states, actions, id, n - 1);
        RunKeepsOrder(l.maxRestarts, s.streams[id], a.step, taken, given);
      } else if id in s.streams {
        OthersKeepFlow(l, s, a, id);
      } else if id in states[n].streams {
        OpensEmpty(l, s, a, id);
      }
    }
  }

  // ------------------------------------------------------- going on delivering

  predicate Retries(max: nat, st: Stream, phase: Phase) {
    phase == InStart && st.restarts < max
  }

  /** Nothing stands in the way of a further chunk: the stream is open and not about to give up. */
  predicate Hopeful(max: nat, st: Stream) {
    && !st.closed && !Ending(st.pc)
    && match st.pc
       case SpawnStopping(phase) => Retries(max, st, phase)
       case AwaitLockToStop(GiveUp(phase)) => Retries(max, st, phase)
       case Stopping(GiveUp(phase)) => Retries(max, st, phase)
       case _ => true
  }

  lemma HopelessStays(max: nat, st: Stream, step: WorkerStep)
    requires !Hopeful(max, st) && WorkerRun(max, st, step).Some?
    ensures !Hopeful(max, WorkerRun(max, st, step).value.stream)
  {
    if step.Resume? { HopelessResumes(max, st); }
  }

  lemma HopelessResumes(max: nat, st: Stream)
    requires !Hopeful(max, st) && ResumeRun(max, st).Some?
    ensures !Hopeful(max, ResumeRun(max, st).value.stream)
  {
  }

  /** What ends an open stream, beside its close: a failure that no restart is left for, or the end of the session. */
  predicate GivesUp(max: nat, st: Stream, step: WorkerStep) {
    match step
    case Interrupt => true
    case SpawnFails => st.pc.Spawning? && !Retries(max, st, st.pc.phase)
    case SpawnReturns(hasPipe) => st.pc.Spawned? && !hasPipe && !Retries(max, st, st.pc.phase)
    case ReadReturns(chunk, authorized, expired) =>
      if st.pc.FirstRead? then (chunk.None? || !authorized) && !Retries(max, st, st.pc.phase)
      else !authorized || (chunk.None? && (expired || st.restarts >= max))
    case Iterate(authorized, expired, stillAuthorized) =>
      !authorized || expired || (st.firstChunk.Some? && !stillAuthorized)
    case _ => false
  }

  /** A stream that can still deliver goes on with every step but these. */
  lemma GivesUpIff(max: nat, st: Stream, step: WorkerStep)
    requires Hopeful(max, st) && WorkerRun(max, st, step).Some?
    ensures Hopeful(max, WorkerRun(max, st, step).value.stream) <==> !GivesUp(max, st, step)
  {
    if step.Resume? { HopefulResumes(max, st); }
  }

  lemma HopefulResumes(max: nat, st: Stream)
    requires Hopeful(max, st) && ResumeRun(max, st).Some?
    ensures Hopeful(max, ResumeRun(max, st).value.stream)
  {
  }

  /** How far the next chunk is, if the environment is kind. */
  function FlowRank(st: Stream): nat {
    match st.pc
    case Reading => 0
    case IterTop => if st.firstChunk.Some? then 0 else 1
    case Opened => 2
    case Yielded => 2
    case FirstRead(_) => 3
    case Spawned(_, _) => 4
    case Spawning(_) => 5
    case AwaitLockToSpawn(_) => 6
    case Starting => 7
    case Pausing(_) => 8
    case Stopping(_) => 9
    case SpawnStopping(_) => 9
    case AwaitLockToStop(_) => 10
    case _ => 11
  }

  /** A kind next step: whatever is waited for comes, and the process has a picture. */
  function KindStep(st: Stream, pid: nat, c: nat): WorkerStep {
    match st.pc
    case Reading => ReadReturns(Some(c), true, false)
    case FirstRead(_) => ReadReturns(Some(c), true, false)
    case IterTop => Iterate(true, false, true)
    case Spawned(_, _) => SpawnReturns(true)
    case Spawning(_) => SpawnCreates(pid)
    case _ => Resume
  }

  lemma KindRunAdvances(max: nat, st: Stream, pid: nat, c: nat)
    requires StreamInv(max, st) && Hopeful(max, st) && FlowRank(st) > 0
    ensures var run := WorkerRun(max, st, KindStep(st, pid, c));
            run.Some? && Hopeful(max, run.value.stream) && FlowRank(run.value.stream) < FlowRank(st)
  {
    if KindStep(st, pid, c).Resume? { KindResumeAdvances(max, st); }
  }

  lemma KindResumeAdvances(max: nat, st: Stream)
    requires StreamInv(max, st) && Hopeful(max, st) && KindStep(st, 0, 0).Resume?
    ensures ResumeRun(max, st).Some?
    ensures Hopeful(max, ResumeRun(max, st).value.stream) && FlowRank(ResumeRun(max, st).value.stream) < FlowRank(st)
  {
  }

  /** Steps of the stream's own coroutine. */
  predicate OwnPath(path: seq<Action>, id: nat) {
    forall a :: a in path ==> a.Work? && a.id == id
  }

  ghost predicate DeliversAfter(l: Limits, s: System, id: nat, path: seq<Action>, step: WorkerStep, c: nat) {
    var end := Play(l, s, path);
    end.Some? && id in end.value.streams && Delivers(end.value.streams[id], step, c)
  }

  lemma KindStepPossible(l: Limits, s: System, id: nat, pid: nat, c: nat)
    requires Inv(l, s) && id in s.streams && Hopeful(l.maxRestarts, s.streams[id])
    requires FlowRank(s.streams[id]) >= 5 ==> pid !in s.live
    requires FlowRank(s.streams[id]) > 0
    ensures var next := Step(l, s, Work(id, KindStep(s.streams[id], pid, c)));
            && next.Some? && id in next.value.streams
            && Hopeful(l.maxRestarts, next.value.streams[id])
            && FlowRank(next.value.streams[id]) < FlowRank(s.streams[id])
            && (FlowRank(next.value.streams[id]) >= 5 ==> pid !in next.value.live)
  {
    var st := s.streams[id];
    assert StreamInv(l.maxRestarts, st);
    KindRunAdvances(l.maxRestarts, st, pid, c);
    var outcome := WorkerRun(l.maxRestarts, st, KindStep(st, pid, c)).value;
    ApplyFrame(s, id, outcome);
    if outcome.effect.Spawns? { SpawnsFresh(l.maxRestarts, st, KindStep(st, pid, c)); }
  }

  /** From any state a hopeful stream is at most ten steps of its own away from a further chunk. */
  lemma {:induction false} FlowsOn(l: Limits, s: System, id: nat, pid: nat, c: nat)
    returns (path: seq<Action>, step: WorkerStep, chunk: nat)
    requires Inv(l, s) && id in s.streams && Hopeful(l.maxRestarts, s.streams[id])
    requires FlowRank(s.streams[id]) >= 5 ==> pid !in s.live
    ensures |path| <= FlowRank(s.streams[id]) <= 10 && OwnPath(path, id)
    ensures DeliversAfter(l, s, id, path, step, chunk)
    decreases FlowRank(s.streams[id])
  {
    var st := s.streams[id];
    if FlowRank(st) == 0 {
      path, step := [], KindStep(st, pid, c);
      chunk := if st.pc == IterTop then st.firstChunk.value else c;
    } else {
      var a := Work(id, KindStep(st, pid, c));
      KindStepPossible(l, s, id, pid, c);
      StepKeepsInv(l, s, a);
      var rest;
      rest, step, chunk := FlowsOn(l, Step(l, s, a).value, id, pid, c);
      path := [a] + rest;
      PlayMore(l, s, a, rest);
    }
  }

  lemma HopelessStep(l: Limits, s: System, a: Action, id: nat)
    requires Step(l, s, a).Some? && id in s.streams && !Hopeful(l.maxRestarts, s.streams[id])
    ensures id in Step(l, s, a).value.streams && !Hopeful(l.maxRestarts, Step(l, s, a).value.streams[id])
  {
    if Runs(s, a, id) {
      RunAt(l, s, a, id);
      HopelessStays(l.maxRestarts, s.streams[id], a.step);
    } else {
      OthersKeepFlow(l, s, a, id);
      StepKeepsClosed(l, s, a, id);
    }
  }

  lemma {:induction false} HopelessForGood(l: Limits, s: System, id: nat, path: seq<Action>, step: WorkerStep, c: nat)
    requires id in s.streams && !Hopeful(l.maxRestarts, s.streams[id])
    ensures !DeliversAfter(l, s, id, path, step, c)
    decreases |path|
  {
    if path == [] {
    } else if Step(l, s, path[0]).Some? {
      HopelessStep(l, s, path[0], id);
      HopelessForGood(l, Step(l, s, path[0]).value, id, path[1..], step, c);
    }
  }

  lemma {:induction false} FreshPid(pids: set<nat>) returns (pid: nat)
    ensures forall q :: q in pids ==> q < pid
  {
    if pids == {} {
      pid := 0;
    } else {
      var q :| q in pids;
      var rest := pids - {q};
      pid := FreshPid(rest);
      if pid <= q { pid := q + 1; }
      assert forall r :: r in pids ==> r == q || r in rest;
    }
  }

  /** Hope is exactly the possibility of a further chunk, whatever anyone may do. */
  lemma CanDeliverIff(l: Limits, s: System, id: nat)
    requires Inv(l, s) && id in s.streams
    ensures (exists path, step, c: nat :: DeliversAfter(l, s, id, path, step, c)) <==>
              Hopeful(l.maxRestarts, s.streams[id])
  {
    if Hopeful(l.maxRestarts, s.streams[id]) {
      var pid := FreshPid(s.live.Keys);
      var path, step, c := FlowsOn(l, s, id, pid, 0);
    } else {
      forall path, step, c: nat ensures !DeliversAfter(l, s, id, path, step, c) {
        HopelessForGood(l, s, id, path, step, c);
      }
    }
  }

  // ------------------------------------------------------------- restarting

  predicate Pauses(s: System, id: nat, st: Stream, live: map<nat, nat>) {
    id in s.streams && s.streams[id] == st && s.live == live && st.pc == Pausing(InRestart)
  }

  predicate Respawned(s: System, id: nat, pid: nat, restarts: nat, live: map<nat, nat>) {
    && id in s.streams && s.streams[id].pc == Spawned(InRestart, pid) && s.streams[id].process.None?
    && s.streams[id].restarts == restarts && s.live == live
  }

  lemma Plays(l: Limits, s: System, id: nat, step: WorkerStep, rest: seq<Action>, outcome: Outcome)
    requires id in s.streams && WorkerRun(l.maxRestarts, s.streams[id], step) == Some(outcome)
    requires step.SpawnCreates? ==> step.pid !in s.live
    ensures Play(l, s, [Work(id, step)] + rest) == Play(l, Apply(s, id, outcome), rest)
  {
    PlayMore(l, s, Work(id, step), rest);
  }

  /**
    An empty read of an open, authorised stream within its time and with a restart left: the restart is counted and
    the old process stopped.
  */
  lemma EmptyReadStops(l: Limits, s: System, id: nat, pid: nat) returns (path: seq<Action>)
    requires id in s.streams && s.streams[id].process == Some(pid) && s.streams[id].processLock == Free
    requires s.streams[id].pc == Reading && !s.streams[id].closed && s.streams[id].restarts < l.maxRestarts
    ensures var st := s.streams[id];
            var end := Play(l, s, path);
            && |path| == 3 && OwnPath(path, id) && path[0] == Work(id, ReadReturns(None, true, false))
            && end.Some?
            && Pauses(end.value, id, st.(restarts := st.restarts + 1, process := None, pc := Pausing(InRestart)),
                      map q | q in s.live && q != pid :: s.live[q])
  {
    var st := s.streams[id];
    var st1 := st.(restarts := st.restarts + 1, pc := AwaitLockToStop(PauseThenRestart));
    var st2 := st1.(process := None, processLock := ByWorker, pc := Stopping(PauseThenRestart));
    var st3 := st2.(processLock := Free, pc := Pausing(InRestart));
    var s1 := Apply(s, id, Outcome(st1, Quiet));
    var s2 := Apply(s1, id, Outcome(st2, Stops(pid)));
    var rest := [Work(id, Resume)] + ([Work(id, Resume)] + []);
    Plays(l, s, id, ReadReturns(None, true, false), rest, Outcome(st1, Quiet));
    Plays(l, s1, id, Resume, [Work(id, Resume)] + [], Outcome(st2, Stops(pid)));
    Plays(l, s2, id, Resume, [], Outcome(st3, Quiet));
    path := [Work(id, ReadReturns(None, true, false))] + rest;
  }

  /** And from there, unless it is closed, the stream gets a new process. */
  lemma PauseSpawns(l: Limits, s: System, id: nat, pid: nat) returns (path: seq<Action>)
    requires id in s.streams && s.streams[id].pc == Pausing(InRestart) && s.streams[id].processLock == Free
    requires !s.streams[id].closed && pid !in s.live
    ensures var end := Play(l, s, path);
            && |path| == 3 && OwnPath(path, id)
            && end.Some? && id in end.value.streams && end.value.live == s.live[pid := id]
            && end.value.streams[id] == s.streams[id].(processLock := ByWorker, pc := Spawned(InRestart, pid))
  {
    var st1 := s.streams[id].(pc := AwaitLockToSpawn(InRestart));
    var st2 := st1.(processLock := ByWorker, pc := Spawning(InRestart));
    var st3 := st2.(pc := Spawned(InRestart, pid));
    var s1 := Apply(s, id, Outcome(st1, Quiet));
    var s2 := Apply(s1, id, Outcome(st2, Quiet));
    Plays(l, s, id, Resume, [Work(id, Resume)] + ([Work(id, SpawnCreates(pid))] + []), Outcome(st1, Quiet));
    Plays(l, s1, id, Resume, [Work(id, SpawnCreates(pid))] + [], Outcome(st2, Quiet));
    Plays(l, s2, id, SpawnCreates(pid), [], Outcome(st3, Spawns(pid)));
    path := [Work(id, Resume)] + ([Work(id, Resume)] + ([Work(id, SpawnCreates(pid))] + []));
  }

  lemma {:induction false} PlayBoth(l: Limits, s: System, first: seq<Action>, second: seq<Action>)
    requires Play(l, s, first).Some?
    ensures Play(l, s, first + second) == Play(l, Play(l, s, first).value, second)
    decreases |first|
  {
    if first == [] {
      assert first + second == second;
    } else {
      assert (first + second)[1..] == first[1..] + second;
      PlayBoth(l, Step(l, s, first[0]).value, first[1..], second);
    }
  }

  /** An empty read and five own steps later: a new process, the old one gone, one restart more. */
  lemma EmptyReadRestarts(l: Limits, s: System, id: nat, pid: nat) returns (path: seq<Action>)
    requires id in s.streams && StreamInv(l.maxRestarts, s.streams[id]) && pid !in s.live
    requires s.streams[id].pc == Reading && !s.streams[id].closed && s.streams[id].restarts < l.maxRestarts
    ensures |path| == 6 && OwnPath(path, id) && path[0] == Work(id, ReadReturns(None, true, false))
    ensures s.streams[id].process.Some?
    ensures var st := s.streams[id];
            var end := Play(l, s, path);
            && end.Some?
            && Respawned(end.value, id, pid, st.restarts + 1,
                         (map q | q in s.live && q != st.process.value :: s.live[q])[pid := id])
  {
    var st := s.streams[id];
    var first := EmptyReadStops(l, s, id, st.process.value);
    var second := PauseSpawns(l, Play(l, s, first).value, id, pid);
    path := first + second;
    PlayBoth(l, s, first, second);
  }
}
