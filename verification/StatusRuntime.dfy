/** StateStore of app/state.py and the drying path of ControlManager.send_command, in their own form. */
module StatusRuntime {
  import opened Wrappers
  import opened DeepMerge
  import opened StatusStore
  import opened CommandGates
  import DryingRules

  /** An event another thread applies to the store while a command thread is waiting. */
  datatype Arrival = Arrival(printer: string, event: Event)

  /** The events among the arrivals that concern one printer. */
  function EventsFor(arrivals: seq<Arrival>, printer: string): seq<Event> {
    if arrivals == [] then []
    else
      EventsFor(arrivals[..|arrivals| - 1], printer) +
      if arrivals[|arrivals| - 1].printer == printer then [arrivals[|arrivals| - 1].event] else []
  }

  function Flatten(batches: seq<seq<Arrival>>): seq<Arrival> {
    if batches == [] then [] else Flatten(batches[..|batches| - 1]) + batches[|batches| - 1]
  }

  lemma {:induction false} EventsForConcat(a: seq<Arrival>, b: seq<Arrival>, printer: string)
    ensures EventsFor(a + b, printer) == EventsFor(a, printer) + EventsFor(b, printer)
  {
    if b == [] {
      assert a + b == a;
    } else {
      EventsForConcat(a, b[..|b| - 1], printer);
      assert (a + b)[..|a + b| - 1] == a + b[..|b| - 1];
    }
  }

  predicate Known(arrivals: seq<Arrival>, printers: set<string>) {
    forall i :: 0 <= i < |arrivals| ==> arrivals[i].printer in printers
  }

  /** The status of one printer after the arrivals. */
  function Evolved(integer: Json -> Option<int>, s: Status, arrivals: seq<Arrival>, printer: string): Status {
    After(integer, s, EventsFor(arrivals, printer))
  }

  lemma EvolvedStep(integer: Json -> Option<int>, s: Status, arrivals: seq<Arrival>, i: nat, printer: string)
    requires i < |arrivals|
    ensures Evolved(integer, s, arrivals[..i + 1], printer) ==
            var before := Evolved(integer, s, arrivals[..i], printer);
            if arrivals[i].printer == printer then Step(integer, before, arrivals[i].event) else before
  {
    assert arrivals[..i + 1] == arrivals[..i] + [arrivals[i]];
    EvolvedConcat(integer, s, arrivals[..i], [arrivals[i]], printer);
    EventsForOne(arrivals[i], printer);
  }

  lemma EventsForOne(a: Arrival, printer: string)
    ensures EventsFor([a], printer) == if a.printer == printer then [a.event] else []
    ensures a.printer == printer ==>
              forall integer, s {:trigger Step(integer, s, a.event)} ::
                After(integer, s, [a.event]) == Step(integer, s, a.event)
  {
    assert [a][..0] == [];
    assert [a.event][..0] == [];
  }

  lemma EvolvedConcat(integer: Json -> Option<int>, s: Status, a: seq<Arrival>, b: seq<Arrival>, printer: string)
    ensures Evolved(integer, s, a + b, printer) == Evolved(integer, Evolved(integer, s, a, printer), b, printer)
  {
    EventsForConcat(a, b, printer);
    AfterConcat(integer, s, EventsFor(a, printer), EventsFor(b, printer));
  }

  predicate KnownBatches(batches: seq<seq<Arrival>>, printers: set<string>) {
    forall i :: 0 <= i < |batches| ==> Known(batches[i], printers)
  }

  /** The status a waiting thread sees at its n-th look. */
  function Seen(integer: Json -> Option<int>, s: Status, batches: seq<seq<Arrival>>, n: nat, printer: string): Status
    requires n <= |batches|
  {
    Evolved(integer, s, Flatten(batches[..n]), printer)
  }

  lemma SeenStep(integer: Json -> Option<int>, s: Status, batches: seq<seq<Arrival>>, n: nat, printer: string)
    requires n < |batches|
    ensures Seen(integer, s, batches, n + 1, printer) ==
            Evolved(integer, Seen(integer, s, batches, n, printer), batches[n], printer)
  {
    assert batches[..n + 1][..n] == batches[..n];
    EvolvedConcat(integer, s, Flatten(batches[..n]), batches[n], printer);
  }

  /** None of the first n looks satisfied the wait. */
  predicate NotBefore(integer: Json -> Option<int>, s: Status, batches: seq<seq<Arrival>>, n: nat, printer: string,
                      id: int, active: bool, afterGeneration: nat)
    requires n <= |batches|
  {
    forall m :: 0 <= m < n ==> !Confirmed(integer, Seen(integer, s, batches, m, printer), id, active, afterGeneration)
  }

  /** `now` is what the look after n batches sees, and no look before satisfied the wait. */
  predicate Waited(integer: Json -> Option<int>, s: Status, now: Status, batches: seq<seq<Arrival>>, n: nat,
                   printer: string, id: int, active: bool, afterGeneration: nat)
    requires n <= |batches|
  {
    now == Seen(integer, s, batches, n, printer) &&
    NotBefore(integer, s, batches, n, printer, id, active, afterGeneration)
  }

  lemma WaitedOn(integer: Json -> Option<int>, s: Status, now: Status, batches: seq<seq<Arrival>>, n: nat,
                 printer: string, id: int, active: bool, afterGeneration: nat)
    requires n < |batches| && Waited(integer, s, now, batches, n, printer, id, active, afterGeneration)
    requires !Confirmed(integer, now, id, active, afterGeneration)
    ensures Waited(integer, s, Evolved(integer, now, batches[n], printer), batches, n + 1, printer, id, active,
                   afterGeneration)
  {
    SeenStep(integer, s, batches, n, printer);
  }

  class StateStore {
    const integer: Json -> Option<int>
    const printers: set<string>
    var raw: map<string, Fields>
    var lastSeen: map<string, Option<real>>
    var connection: map<string, Connection>
    var complete: map<string, bool>
    var generations: map<string, map<int, nat>>

    predicate Valid()
      reads this
    {
      printers <= raw.Keys && printers <= lastSeen.Keys && printers <= connection.Keys &&
      printers <= complete.Keys && printers <= generations.Keys
    }

    function Of(printer: string): Status
      requires Valid() && printer in printers
      reads this
    {
      Status(raw[printer], lastSeen[printer], connection[printer], complete[printer], generations[printer])
    }

    constructor (integer: Json -> Option<int>, printers: set<string>)
      ensures Valid() && this.integer == integer && this.printers == printers
      ensures forall p :: p in printers ==> Of(p) == INITIAL
    {
      this.integer, this.printers := integer, printers;
      raw := map p | p in printers :: map[];
      lastSeen := map p | p in printers :: None;
      connection := map p | p in printers :: Starting;
      complete := map p | p in printers :: false;
      generations := map p | p in printers :: map[];
    }

    method MarkConnection(printer: string, state: Connection)
      requires Valid() && printer in printers
      modifies this
      ensures Valid() && Of(printer) == Mark(old(Of(printer)), state)
      ensures forall p :: p in printers && p != printer ==> Of(p) == old(Of(p))
    {
      connection := connection[printer := state];
      if state != Online { complete := complete[printer := false]; }
    }

    method ApplyReport(printer: string, payload: Fields, now: real)
      requires Valid() && printer in printers
      modifies this
      ensures Valid() && Of(printer) == Apply(integer, old(Of(printer)), payload, now)
      ensures forall p :: p in printers && p != printer ==> Of(p) == old(Of(p))
    {
      var status := StatusSection(payload);
      if status.None? { return; }
      var section := status.value;
      Absorb(printer, section);
      NoteSeen(printer, IsFullStatus(integer, section), now);
    }

    method NoteSeen(printer: string, full: bool, now: real)
      requires Valid() && printer in printers
      modifies this`complete, this`lastSeen, this`connection
      ensures Valid() && connection == old(connection)[printer := Online]
      ensures lastSeen == old(lastSeen)[printer := Some(now)]
      ensures complete == if full then old(complete)[printer := true] else old(complete)
    {
      if full { complete := complete[printer := true]; }
      lastSeen := lastSeen[printer := Some(now)];
      connection := connection[printer := Online];
    }

    /** The part of `apply_report` that merges the section and counts what it says about drying. */
    method Absorb(printer: string, section: Fields)
      requires Valid() && printer in printers
      modifies this`generations, this`raw
      ensures Valid()
      ensures generations == match ReportedUnits(section)
                             case Some(units) =>
                               old(generations)[printer := Counted(integer, units, |units|, old(generations)[printer])]
                             case None => old(generations)
      ensures raw == old(raw)[printer := Merge(Obj(old(raw)[printer]), Obj(map["print" := Obj(section)])).fields]
    {
      var units := ReportedUnits(section);
      if units.Some? { AdvanceGenerations(printer, units.value); }
      var merged := DeepMergeInto(raw[printer], map["print" := Obj(section)]);
      raw := raw[printer := merged];
    }

    method AdvanceGenerations(printer: string, units: seq<Json>)
      requires Valid() && printer in printers
      modifies this`generations
      ensures Valid()
      ensures generations == old(generations)[printer := Counted(integer, units, |units|, old(generations)[printer])]
    {
      var i := 0;
      while i < |units|
        invariant i <= |units| && Valid()
        invariant generations == old(generations)[printer := Counted(integer, units, i, old(generations)[printer])]
      {
        var unit := CountedUnit(integer, units, i);
        if unit.Some? {
          var mine := generations[printer];
          generations := generations[printer := mine[unit.value := Generation(mine, unit.value) + 1]];
        }
        i := i + 1;
      }
    }

    method Arrive(a: Arrival)
      requires Valid() && a.printer in printers
      modifies this
      ensures Valid() && Of(a.printer) == Step(integer, old(Of(a.printer)), a.event)
      ensures forall p :: p in printers && p != a.printer ==> Of(p) == old(Of(p))
    {
      match a.event {
        case Marked(state) => MarkConnection(a.printer, state);
        case Reported(payload, now) => ApplyReport(a.printer, payload, now);
      }
    }

    /** What other threads do while this one does not hold the lock. */
    method LetOthersRun(arrivals: seq<Arrival>)
      requires Valid() && Known(arrivals, printers)
      modifies this
      ensures Valid()
      ensures forall p :: p in printers ==> Of(p) == Evolved(integer, old(Of(p)), arrivals, p)
    {
      var i := 0;
      while i < |arrivals|
        invariant i <= |arrivals| && Valid()
        invariant forall p :: p in printers ==> Of(p) == Evolved(integer, old(Of(p)), arrivals[..i], p)
      {
        label Before:
        Arrive(arrivals[i]);
        forall p | p in printers ensures Of(p) == Evolved(integer, old(Of(p)), arrivals[..i + 1], p) {
          EvolvedStep(integer, old(Of(p)), arrivals, i, p);
          assert old@Before(Of(p)) == Evolved(integer, old(Of(p)), arrivals[..i], p);
        }
        i := i + 1;
      }
      assert arrivals[..i] == arrivals;
    }

    /** The loop over the stored units: the first one with the id decides. */
    method Satisfied(printer: string, id: int, active: bool, afterGeneration: nat) returns (satisfied: bool)
      requires Valid() && printer in printers
      ensures satisfied <==> Confirmed(integer, Of(printer), id, active, afterGeneration)
    {
      var generation := Generation(generations[printer], id);
      var stored := StoredUnits(raw[printer]);
      if stored.None? { return false; }
      var i := 0;
      while i < |stored.value|
        invariant i <= |stored.value|
        invariant FindUnit(integer, stored.value, 0, id) == FindUnit(integer, stored.value, i, id)
      {
        var unit := stored.value[i];
        if unit.Obj? && UnitId(integer, unit.fields) == Some(id) {
          return generation > afterGeneration && Directed(integer, unit.fields, active);
        }
        i := i + 1;
      }
      satisfied := false;
    }

    /**
      `wait_for_ams_drying_state`: between two looks at the store the lock is released and other threads apply one
      batch of arrivals; after the last batch the deadline has passed.
    */
    method WaitForAmsDryingState(printer: string, id: int, active: bool, afterGeneration: nat,
                                 batches: seq<seq<Arrival>>)
      returns (confirmed: bool, looks: nat)
      requires Valid() && printer in printers && KnownBatches(batches, printers)
      modifies this
      ensures Valid() && looks <= |batches|
      ensures Of(printer) == Seen(integer, old(Of(printer)), batches, looks, printer)
      ensures confirmed <==> Confirmed(integer, Of(printer), id, active, afterGeneration)
      ensures !confirmed ==> looks == |batches|
      ensures NotBefore(integer, old(Of(printer)), batches, looks, printer, id, active, afterGeneration)
    {
      ghost var start := Of(printer);
      looks := 0;
      while true
        invariant Valid() && looks <= |batches|
        invariant Waited(integer, start, Of(printer), batches, looks, printer, id, active, afterGeneration)
        decreases |batches| - looks
      {
        confirmed := Satisfied(printer, id, active, afterGeneration);
        if confirmed || looks == |batches| { return; }
        WaitedOn(integer, start, Of(printer), batches, looks, printer, id, active, afterGeneration);
        LetOthersRun(batches[looks]);
        looks := looks + 1;
      }
    }

    /** `ams_operation_risk`, loop by loop. */
    method AmsOperationRisk(printer: string) returns (risk: bool)
      requires Valid() && printer in printers
      ensures risk <==> OperationRisk(integer, raw[printer])
    {
      var top := Field(raw[printer], "print");
      if top.None? || !top.value.Obj? { return true; }
      var section := top.value.fields;
      var ams := Field(section, "ams");
      if ams.None? || !ams.value.Obj? { return true; }
      var fields := ams.value.fields;
      if Loaded(integer, fields, "tray_now") || Loaded(integer, fields, "tray_tar") { return true; }
      var status := Integer(integer, if "ams_status" in section then Some(section["ams_status"])
                                     else Field(fields, "ams_status"));
      if status != Some(0) { return true; }
      var units := Field(fields, "ams");
      if units.None? || !units.value.List? { return true; }
      var i := 0;
      while i < |units.value.items|
        invariant i <= |units.value.items|
        invariant forall k :: 0 <= k < i ==> !HasActiveTray(units.value.items[k])
      {
        var trays := Trays(units.value.items[i]);
        var j := 0;
        while j < |trays|
          invariant j <= |trays| && forall k :: 0 <= k < j ==> !IsActive(trays[k])
        {
          if IsActive(trays[j]) {
            assert HasActiveTray(units.value.items[i]);
            return true;
          }
          j := j + 1;
        }
        i := i + 1;
      }
      risk := false;
    }
  }

  // ---------------------------------------------------------- drying commands

  /** What publish_and_wait comes back with: MqttPublishError, a reply in time, or none. */
  datatype Publication = NotPublished | Replied(success: bool) | NoReply

  datatype SendResult =
    | PrinterNotFound
    | Refused(reason: Refusal)
    | RateLimited
    | PublishFailed
    | Rejected                 // the printer answered with anything but success
    | Unconfirmed(acknowledged: bool)
    | ConfirmedAs(acknowledged: bool)

  datatype AuditResult =
    AuditForbidden | AuditRejected | AuditRateLimited | AuditFailed | AuditUnconfirmed | AuditConfirmed

  function AuditFor(result: SendResult): seq<AuditResult> {
    match result
    case PrinterNotFound => []
    case Refused(reason) => if reason == Forbidden then [AuditForbidden] else [AuditRejected]
    case RateLimited => [AuditRateLimited]
    case PublishFailed => [AuditFailed]
    case Rejected => [AuditRejected]
    case Unconfirmed(_) => [AuditUnconfirmed]
    case ConfirmedAs(_) => [AuditConfirmed]
  }

  /** Some event of the list is a push_status that itself shows the unit in the requested state. */
  ghost predicate FreshEvidence(integer: Json -> Option<int>, events: seq<Event>, id: int, active: bool) {
    exists e :: 0 <= e < |events| && CarriesUnits(events[e]) && ShowsDrying(integer, UnitsOf(events[e]), id, active)
  }

  /**
    The verdict of a confirmation: positive exactly when the wait's test holds of the status reached, and then the
    evidence arrived after the generation was read; negative only when the deadline has passed.
  */
  ghost predicate FreshVerdict(integer: Json -> Option<int>, read: Status, since: seq<Arrival>, printer: string,
                               id: int, active: bool, result: SendResult)
  {
    && (result.ConfirmedAs? <==>
          Confirmed(integer, Evolved(integer, read, since, printer), id, active, Generation(read.generations, id)))
    && (result.ConfirmedAs? ==> FreshEvidence(integer, EventsFor(since, printer), id, active))
  }

  lemma VerdictIsFresh(integer: Json -> Option<int>, read: Status, during: seq<Arrival>, waits: seq<seq<Arrival>>,
                       looks: nat, printer: string, id: int, active: bool, result: SendResult)
    requires looks <= |waits|
    requires result.ConfirmedAs? <==>
               Confirmed(integer, Seen(integer, Evolved(integer, read, during, printer), waits, looks, printer), id,
                         active,
                         Generation(read.generations, id))
    ensures FreshVerdict(integer, read, during + Flatten(waits[..looks]), printer, id, active, result)
  {
    var since := during + Flatten(waits[..looks]);
    EvolvedConcat(integer, read, during, Flatten(waits[..looks]), printer);
    if result.ConfirmedAs? { ConfirmationIsFresh(integer, read, EventsFor(since, printer), id, active); }
  }

  /** Readings of the wall clock by the two snapshots, and of the monotonic clock by the rate limit. */
  datatype Clocks = Clocks(wall: real, next: real, steady: real)

  class ControlManager {
    const store: StateStore
    const readers: Readers
    const configs: map<string, PrinterRules>
    const models: map<string, map<int, AmsModel>>
    var lastCommandAt: map<string, real>
    var published: nat
    var audit: seq<AuditResult>

    constructor (store: StateStore, readers: Readers, configs: map<string, PrinterRules>,
                 models: map<string, map<int, AmsModel>>)
      requires store.Valid() && store.printers == configs.Keys && store.integer == readers.integer
      ensures this.store == store && this.readers == readers && this.configs == configs && this.models == models
      ensures Valid() && published == 0 && audit == []
    {
      this.store, this.readers, this.configs, this.models := store, readers, configs, models;
      lastCommandAt := map p | p in configs :: 0.0;
      published, audit := 0, [];
    }

    ghost predicate Valid()
      reads this, store
    {
      && store.Valid() && store.printers == configs.Keys && store.integer == readers.integer
      && forall p :: p in configs ==> p in lastCommandAt
    }

    function Models(printer: string): map<int, AmsModel> {
      if printer in models then models[printer] else map[]
    }

    method TakeSnapshot(printer: string, now: real) returns (v: Snapshot)
      requires Valid() && printer in configs
      ensures v == SnapshotOf(readers, configs[printer], store.Of(printer), Models(printer), now)
    {
      v := SnapshotOf(readers, configs[printer], store.Of(printer), Models(printer), now);
    }

    method Record(result: SendResult)
      modifies this`audit
      ensures audit == old(audit) + AuditFor(result)
    {
      audit := audit + AuditFor(result);
    }

    /** The gates, then the rate limit; None leaves the command to be published. */
    method Admit(printer: string, command: Command, params: Params, clocks: Clocks, early: seq<Arrival>,
                 late: seq<Arrival>)
      returns (refusal: Option<SendResult>)
      requires Valid() && printer in configs
      requires Known(early, configs.Keys) && Known(late, configs.Keys)
      modifies this`lastCommandAt, store
      ensures Valid()
      ensures refusal == Admission(printer, old(store.Of(printer)), command, params, clocks, early, late,
                                   old(lastCommandAt)[printer])
      ensures lastCommandAt == if refusal.None? then old(lastCommandAt)[printer := clocks.steady]
                               else old(lastCommandAt)
      ensures refusal.None? ==>
                && AmsId in params && readers.parameter(params[AmsId]).Some?
                && store.Of(printer) == Evolved(readers.integer, old(store.Of(printer)), early + late, printer)
    {
      var gate := RunGates(printer, command, params, clocks, early, late);
      if gate.Some? { return Some(Refused(gate.value)); }
      if clocks.steady - lastCommandAt[printer] < 0.75 { return Some(RateLimited); }
      lastCommandAt := lastCommandAt[printer := clocks.steady];
      refusal := None;
    }

    /**
      The checks before anything is sent, in their order.  Other threads apply `early` between the snapshot of the
      state gate and that of the drying gate, and `late` before the risk is read.
    */
    method RunGates(printer: string, command: Command, params: Params, clocks: Clocks, early: seq<Arrival>,
                    late: seq<Arrival>)
      returns (gate: Option<Refusal>)
      requires Valid() && printer in configs
      requires Known(early, configs.Keys) && Known(late, configs.Keys)
      modifies store
      ensures Valid()
      ensures gate == GateSeen(printer, old(store.Of(printer)), command, params, clocks, early, late)
      ensures gate.None? ==>
                && AmsId in params && readers.parameter(params[AmsId]).Some?
                && store.Of(printer) == Evolved(readers.integer, old(store.Of(printer)), early + late, printer)
    {
      var v := TakeSnapshot(printer, clocks.wall);
      gate := FirstGates(readers, configs[printer], v, command, params);
      if gate.None? { gate := LateGates(printer, command, params, clocks, early, late); }
    }

    /** `_validate_drying_command`: a second snapshot, and then the risk. */
    method LateGates(printer: string, command: Command, params: Params, clocks: Clocks, early: seq<Arrival>,
                     late: seq<Arrival>)
      returns (refusal: Option<Refusal>)
      requires Valid() && printer in configs && Buildable(readers, command, params)
      requires Known(early, configs.Keys) && Known(late, configs.Keys)
      modifies store
      ensures Valid()
      ensures refusal == DryingGate(readers, SecondView(printer, old(store.Of(printer)), clocks, early),
                                    RiskSeen(printer, old(store.Of(printer)), early, late), command, params)
      ensures store.Of(printer) == Evolved(readers.integer, old(store.Of(printer)), early + late, printer)
    {
      store.LetOthersRun(early);
      var w := TakeSnapshot(printer, clocks.next);
      store.LetOthersRun(late);
      var risk := store.AmsOperationRisk(printer);
      EvolvedConcat(readers.integer, old(store.Of(printer)), early, late, printer);
      refusal := DryingGate(readers, w, risk, command, params);
    }

    function SecondView(printer: string, s: Status, clocks: Clocks, early: seq<Arrival>): Snapshot
      requires printer in configs
    {
      SnapshotOf(readers, configs[printer], Evolved(readers.integer, s, early, printer), Models(printer), clocks.next)
    }

    ghost predicate RiskSeen(printer: string, s: Status, early: seq<Arrival>, late: seq<Arrival>) {
      OperationRisk(readers.integer, Evolved(readers.integer, s, early + late, printer).raw)
    }

    /** The verdict of the gates, each at its own reading of the store. */
    ghost function GateSeen(printer: string, s: Status, command: Command, params: Params, clocks: Clocks,
                            early: seq<Arrival>, late: seq<Arrival>): Option<Refusal>
      requires printer in configs
    {
      Gate(readers, configs[printer], SnapshotOf(readers, configs[printer], s, Models(printer), clocks.wall),
           SecondView(printer, s, clocks, early), RiskSeen(printer, s, early, late), command, params)
    }

    /** Who is refused, and as what: the gates decide first, then commands less than 750 ms apart. */
    ghost function Admission(printer: string, s: Status, command: Command, params: Params, clocks: Clocks,
                             early: seq<Arrival>, late: seq<Arrival>, last: real): Option<SendResult>
      requires printer in configs
    {
      var gate := GateSeen(printer, s, command, params, clocks, early, late);
      if gate.Some? then Some(Refused(gate.value))
      else if clocks.steady - last < 0.75 then Some(RateLimited)
      else None
    }

    /** The rules for starting or stopping, at the three readings of the store. */
    ghost predicate Allowed(printer: string, s: Status, command: Command, params: Params, clocks: Clocks,
                            early: seq<Arrival>, late: seq<Arrival>)
      requires printer in configs
    {
      var t, u := Evolved(readers.integer, s, early, printer), Evolved(readers.integer, s, early + late, printer);
      if command == StartDrying
      then DryingRules.StartRules(readers, configs[printer], Models(printer), s, t, u, clocks.wall, params)
      else DryingRules.StopRules(readers, configs[printer], Models(printer), s, t, clocks.wall, params)
    }

    predicate Permitted(printer: string, command: Command)
      requires printer in configs
    {
      && configs[printer].writable && command in configs[printer].allowed
      && (command == StartDrying ==> StopDrying in configs[printer].allowed)
    }

    /** Forbidden without the permissions, refused against the rules, limited within 750 ms of the last command. */
    ghost predicate Judges(printer: string, s: Status, last: real, command: Command, params: Params, clocks: Clocks,
                           early: seq<Arrival>, late: seq<Arrival>, refusal: Option<SendResult>)
      requires printer in configs
    {
      var allowed := Allowed(printer, s, command, params, clocks, early, late);
      && (refusal == Some(Refused(Forbidden)) <==> !Permitted(printer, command))
      && (refusal.Some? && refusal.value.Refused? <==> !allowed)
      && (refusal == Some(RateLimited) <==> allowed && clocks.steady - last < 0.75)
      && (refusal.None? <==> allowed && clocks.steady - last >= 0.75)
    }

    lemma AdmissionIff(printer: string, s: Status, command: Command, params: Params, clocks: Clocks,
                       early: seq<Arrival>, late: seq<Arrival>, last: real)
      requires printer in configs && (command == StartDrying || command == StopDrying)
      ensures Judges(printer, s, last, command, params, clocks, early, late,
                     Admission(printer, s, command, params, clocks, early, late, last))
    {
      var t, u := Evolved(readers.integer, s, early, printer), Evolved(readers.integer, s, early + late, printer);
      if command == StartDrying {
        DryingRules.StartGateIff(readers, configs[printer], Models(printer), s, t, u, clocks.wall, clocks.next, params);
      } else {
        DryingRules.StopGateIff(readers, configs[printer], Models(printer), s, t, RiskSeen(printer, s, early, late),
                                clocks.wall, clocks.next, params);
      }
    }

    /** Nothing stands in the way of the command. */
    ghost predicate Goes(printer: string, s: Status, last: real, command: Command, params: Params, clocks: Clocks,
                         early: seq<Arrival>, late: seq<Arrival>)
      requires printer in configs
    {
      Allowed(printer, s, command, params, clocks, early, late) && clocks.steady - last >= 0.75
    }

    /** A refusal says why; a command that goes ends as its verdict says. */
    ghost predicate Answered(printer: string, s: Status, last: real, command: Command, params: Params, clocks: Clocks,
                             publication: Publication, early: seq<Arrival>, late: seq<Arrival>, queued: seq<Arrival>,
                             during: seq<Arrival>, waits: seq<seq<Arrival>>, result: SendResult, looks: nat)
      requires printer in configs && looks <= |waits|
    {
      && (result == Refused(Forbidden) <==> !Permitted(printer, command))
      && (result.Refused? <==> !Allowed(printer, s, command, params, clocks, early, late))
      && (result == RateLimited <==>
            Allowed(printer, s, command, params, clocks, early, late) && clocks.steady - last < 0.75)
      && (Goes(printer, s, last, command, params, clocks, early, late) ==>
            Sent(printer, Evolved(readers.integer, s, early + late, printer), command, params, publication, queued,
                 during, waits, result, looks))
    }

    /** The command for the unit that the parameters name has ended so. */
    ghost predicate Sent(printer: string, s: Status, command: Command, params: Params, publication: Publication,
                         queued: seq<Arrival>, during: seq<Arrival>, waits: seq<seq<Arrival>>, result: SendResult,
                         looks: nat)
      requires looks <= |waits|
    {
      && AmsId in params && readers.parameter(params[AmsId]).Some?
      && SentVerdict(s, printer, readers.parameter(params[AmsId]).value, command == StartDrying,
                     publication, queued, during, waits, result, looks)
    }

    lemma AnsweredSo(printer: string, s: Status, last: real, command: Command, params: Params, clocks: Clocks,
                     publication: Publication, early: seq<Arrival>, late: seq<Arrival>, queued: seq<Arrival>,
                     during: seq<Arrival>, waits: seq<seq<Arrival>>, refusal: Option<SendResult>, result: SendResult,
                     looks: nat)
      requires printer in configs && looks <= |waits|
      requires Judges(printer, s, last, command, params, clocks, early, late, refusal)
      requires refusal.Some? ==> result == refusal.value
      requires refusal.None? ==>
                 Sent(printer, Evolved(readers.integer, s, early + late, printer), command, params, publication, queued,
                      during, waits, result, looks)
      ensures Answered(printer, s, last, command, params, clocks, publication, early, late, queued, during, waits,
                       result, looks)
      ensures refusal.None? <==> Goes(printer, s, last, command, params, clocks, early, late)
    {
    }

    /**
      `send_command` for start_drying and stop_drying.  Other threads change the store between its three readings by
      the gates, before the generation is read (`queued`), while the command is published and its reply awaited
      (`during`), and each time the confirmation wait releases the lock (one of `waits`).
    */
    method SendDryingCommand(printer: string, command: Command, params: Params, clocks: Clocks,
                             publication: Publication, early: seq<Arrival>, late: seq<Arrival>, queued: seq<Arrival>,
                             during: seq<Arrival>, waits: seq<seq<Arrival>>)
      returns (result: SendResult, ghost looks: nat)
      requires Valid() && (command == StartDrying || command == StopDrying)
      requires Known(early, configs.Keys) && Known(late, configs.Keys)
      requires Known(queued, configs.Keys) && Known(during, configs.Keys) && KnownBatches(waits, configs.Keys)
      modifies this, store
      ensures Valid() && looks <= |waits|
      ensures result == PrinterNotFound <==> printer !in configs
      ensures printer !in configs ==> published == old(published)
      ensures printer in configs ==>
        var before, last := old(store.Of(printer)), old(lastCommandAt)[printer];
        var goes := Goes(printer, before, last, command, params, clocks, early, late);
        && Answered(printer, before, last, command, params, clocks, publication, early, late, queued, during, waits,
                    result, looks)
        && published == old(published) + (if goes && publication != NotPublished then 1 else 0)
        && lastCommandAt == if goes then old(lastCommandAt)[printer := clocks.steady] else old(lastCommandAt)
      ensures Audited(old(audit), result)
    {
      looks := 0;
      if printer !in configs {
        result := PrinterNotFound;
      } else {
        result, looks :=
          SendKnown(printer, command, params, clocks, publication, early, late, queued, during, waits);
      }
      Record(result);
    }

    /** One row for every command but one to an unknown printer, saying how it ended. */
    predicate Audited(before: seq<AuditResult>, result: SendResult)
      reads this
    {
      match result
      case PrinterNotFound => audit == before
      case Refused(Forbidden) => audit == before + [AuditForbidden]
      case Refused(_) => audit == before + [AuditRejected]
      case RateLimited => audit == before + [AuditRateLimited]
      case PublishFailed => audit == before + [AuditFailed]
      case Rejected => audit == before + [AuditRejected]
      case Unconfirmed(_) => audit == before + [AuditUnconfirmed]
      case ConfirmedAs(_) => audit == before + [AuditConfirmed]
    }

    method SendKnown(printer: string, command: Command, params: Params, clocks: Clocks, publication: Publication,
                     early: seq<Arrival>, late: seq<Arrival>, queued: seq<Arrival>, during: seq<Arrival>,
                     waits: seq<seq<Arrival>>)
      returns (result: SendResult, ghost looks: nat)
      requires Valid() && printer in configs && (command == StartDrying || command == StopDrying)
      requires Known(early, configs.Keys) && Known(late, configs.Keys)
      requires Known(queued, configs.Keys) && Known(during, configs.Keys) && KnownBatches(waits, configs.Keys)
      modifies this`lastCommandAt, this`published, store
      ensures Valid() && looks <= |waits| && result != PrinterNotFound
      ensures Answered(printer, old(store.Of(printer)), old(lastCommandAt)[printer], command, params, clocks,
                       publication, early, late, queued, during, waits, result, looks)
      ensures var goes := Goes(printer, old(store.Of(printer)), old(lastCommandAt)[printer], command, params, clocks,
                               early, late);
        && published == old(published) + (if goes && publication != NotPublished then 1 else 0)
        && lastCommandAt == if goes then old(lastCommandAt)[printer := clocks.steady] else old(lastCommandAt)
    {
      ghost var s, last := store.Of(printer), lastCommandAt[printer];
      ghost var refusal := Admission(printer, s, command, params, clocks, early, late, last);
      result, looks :=
        TrySend(printer, command, params, clocks, publication, early, late, queued, during, waits, refusal);
      AdmissionIff(printer, s, command, params, clocks, early, late, last);
      AnsweredSo(printer, s, last, command, params, clocks, publication, early, late, queued, during, waits, refusal,
                 result, looks);
    }

    method TrySend(printer: string, command: Command, params: Params, clocks: Clocks, publication: Publication,
                   early: seq<Arrival>, late: seq<Arrival>, queued: seq<Arrival>, during: seq<Arrival>,
                   waits: seq<seq<Arrival>>, ghost refusal: Option<SendResult>)
      returns (result: SendResult, ghost looks: nat)
      requires Valid() && printer in configs
      requires refusal == Admission(printer, store.Of(printer), command, params, clocks, early, late,
                                    lastCommandAt[printer])
      requires Known(early, configs.Keys) && Known(late, configs.Keys)
      requires Known(queued, configs.Keys) && Known(during, configs.Keys) && KnownBatches(waits, configs.Keys)
      modifies this`lastCommandAt, this`published, store
      ensures Valid() && looks <= |waits| && result != PrinterNotFound
      ensures refusal.Some? ==> result == refusal.value && published == old(published)
      ensures lastCommandAt == if refusal.None? then old(lastCommandAt)[printer := clocks.steady]
                               else old(lastCommandAt)
      ensures refusal.None? ==>
                && published == old(published) + (if publication == NotPublished then 0 else 1)
                && Sent(printer, Evolved(readers.integer, old(store.Of(printer)), early + late, printer), command,
                        params, publication, queued, during, waits, result, looks)
    {
      looks := 0;
      var refused := Admit(printer, command, params, clocks, early, late);
      if refused.Some? {
        result := refused.value;
      } else {
        result, looks := Publish(printer, command, params, publication, queued, during, waits);
      }
    }

    method Publish(printer: string, command: Command, params: Params, publication: Publication, queued: seq<Arrival>,
                   during: seq<Arrival>, waits: seq<seq<Arrival>>)
      returns (result: SendResult, ghost looks: nat)
      requires Valid() && printer in configs && AmsId in params && readers.parameter(params[AmsId]).Some?
      requires Known(queued, configs.Keys) && Known(during, configs.Keys) && KnownBatches(waits, configs.Keys)
      modifies this`published, store
      ensures Valid() && looks <= |waits| && !result.PrinterNotFound?
      ensures published == old(published) + if publication == NotPublished then 0 else 1
      ensures Sent(printer, old(store.Of(printer)), command, params, publication, queued, during, waits, result, looks)
    {
      result, looks := PublishAndConfirm(printer, readers.parameter(params[AmsId]).value, command == StartDrying,
                                         publication, queued, during, waits);
    }

    /**
      How a published command ends.  A failed publication and a reply other than success decide; otherwise the
      command is confirmed exactly when the wait's test holds of a status reached by reports applied after the
      generation was read, and left unconfirmed only after the last look.
    */
    ghost predicate SentVerdict(before: Status, printer: string, id: int, active: bool, publication: Publication,
                                queued: seq<Arrival>, during: seq<Arrival>, waits: seq<seq<Arrival>>,
                                result: SendResult, looks: nat)
      requires looks <= |waits|
    {
      match publication
      case NotPublished => result == PublishFailed
      case Replied(false) => result == Rejected
      case _ =>
        && (result == ConfirmedAs(publication == Replied(true)) || result == Unconfirmed(publication == Replied(true)))
        && (result.Unconfirmed? ==> looks == |waits|)
        && FreshVerdict(readers.integer, Evolved(readers.integer, before, queued, printer),
                        during + Flatten(waits[..looks]),
                        printer, id, active, result)
    }

    /** Generation read, publication, verdict on the reply, confirmation: in this order. */
    method PublishAndConfirm(printer: string, id: int, active: bool, publication: Publication,
                             queued: seq<Arrival>, during: seq<Arrival>, waits: seq<seq<Arrival>>)
      returns (result: SendResult, ghost looks: nat)
      requires Valid() && printer in configs
      requires Known(queued, configs.Keys) && Known(during, configs.Keys) && KnownBatches(waits, configs.Keys)
      modifies this`published, store
      ensures Valid() && looks <= |waits|
      ensures published == old(published) + if publication == NotPublished then 0 else 1
      ensures SentVerdict(old(store.Of(printer)), printer, id, active, publication, queued, during, waits, result,
                          looks)
    {
      looks := 0;
      store.LetOthersRun(queued);
      ghost var read := store.Of(printer);
      var generation := Generation(store.generations[printer], id);
      store.LetOthersRun(during);
      if publication == NotPublished { return PublishFailed, 0; }
      published := published + 1;
      if publication == Replied(false) { return Rejected, 0; }
      result, looks := Confirm(printer, id, active, publication, read, generation, during, waits);
    }

    /** The wait for reports, and the verdict on them. */
    method Confirm(printer: string, id: int, active: bool, publication: Publication, ghost read: Status,
                   generation: nat, ghost during: seq<Arrival>, waits: seq<seq<Arrival>>)
      returns (result: SendResult, ghost looks: nat)
      requires Valid() && printer in configs && KnownBatches(waits, configs.Keys)
      requires generation == Generation(read.generations, id)
      requires store.Of(printer) == Evolved(readers.integer, read, during, printer)
      modifies store
      ensures Valid() && looks <= |waits|
      ensures result == ConfirmedAs(publication == Replied(true)) || result == Unconfirmed(publication == Replied(true))
      ensures result.Unconfirmed? ==> looks == |waits|
      ensures FreshVerdict(readers.integer, read, during + Flatten(waits[..looks]), printer, id, active, result)
    {
      var confirmed, seen := store.WaitForAmsDryingState(printer, id, active, generation, waits);
      looks := seen;
      result := if confirmed then ConfirmedAs(publication == Replied(true))
                else Unconfirmed(publication == Replied(true));
      VerdictIsFresh(readers.integer, read, during, waits, looks, printer, id, active, result);
    }
  }
}
