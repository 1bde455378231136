/**
  When a command passes the gates of app/manager.py, told from the stored reports, the parameters and the printer's
  rules alone: nothing here refers to a gate's own intermediate results.
*/
module DryingRules {
  import opened Wrappers
  import opened DeepMerge
  import opened StatusStore
  import opened CommandGates

  // ------------------------------------------------------------- the reports

  /** The stored print section; before the first report the store itself. */
  function Printed(raw: Fields): Fields {
    if "print" in raw && raw["print"].Obj? then raw["print"].fields else raw
  }

  /** The stored list of units. */
  function Listed(raw: Fields): seq<Json> {
    var section := Printed(raw);
    if "ams" in section && section["ams"].Obj? && "ams" in section["ams"].fields && section["ams"].fields["ams"].List?
    then section["ams"].fields["ams"].items else []
  }

  /** Unit i of the list has this number: its "id", or else "ams_id", if that reads as an integer, or else i. */
  predicate Numbered(integer: Json -> Option<int>, units: seq<Json>, i: nat, id: int) {
    && i < |units| && units[i].Obj?
    && var unit := units[i].fields;
       var key := if "id" in unit then "id" else "ams_id";
       if key in unit && integer(unit[key]).Some? then integer(unit[key]) == Some(id) else id == i
  }

  predicate FirstNumbered(integer: Json -> Option<int>, units: seq<Json>, i: nat, id: int) {
    Numbered(integer, units, i, id) && forall j: nat :: j < i ==> !Numbered(integer, units, j, id)
  }

  /** The unit reports drying time left. */
  predicate Drying(integer: Json -> Option<int>, unit: Json) {
    && unit.Obj? && "dry_time" in unit.fields
    && integer(unit.fields["dry_time"]).Some? && integer(unit.fields["dry_time"]).value > 0
  }

  predicate NoTray(integer: Json -> Option<int>, ams: Fields, key: string) {
    key in ams && integer(ams[key]).Some? ==> integer(ams[key]) == Some(255)
  }

  predicate IdleTray(tray: Json) {
    tray.Obj? ==> !("active" in tray.fields && tray.fields["active"] == Bool(true))
  }

  predicate IdleTrays(trays: Json) {
    trays.List? ==> forall j :: 0 <= j < |trays.items| ==> IdleTray(trays.items[j])
  }

  /** No tray of the unit is in use; the list of trays is under "tray" or, without that key, under "trays". */
  predicate IdleUnit(unit: Json) {
    unit.Obj? ==>
      && ("tray" in unit.fields ==> IdleTrays(unit.fields["tray"]))
      && ("tray" !in unit.fields && "trays" in unit.fields ==> IdleTrays(unit.fields["trays"]))
  }

  /** The reports say that no filament is loaded, none is being fetched, and nothing moves. */
  predicate AtRest(integer: Json -> Option<int>, raw: Fields) {
    && "print" in raw && raw["print"].Obj?
    && var section := raw["print"].fields;
    && "ams" in section && section["ams"].Obj?
    && var ams := section["ams"].fields;
    && NoTray(integer, ams, "tray_now") && NoTray(integer, ams, "tray_tar")
    && (if "ams_status" in section then integer(section["ams_status"]) == Some(0)
        else "ams_status" in ams && integer(ams["ams_status"]) == Some(0))
    && "ams" in ams && ams["ams"].List?
    && forall i :: 0 <= i < |ams["ams"].items| ==> IdleUnit(ams["ams"].items[i])
  }

  lemma AtRestIff(integer: Json -> Option<int>, raw: Fields)
    ensures AtRest(integer, raw) <==> !OperationRisk(integer, raw)
  {
    if "print" in raw && raw["print"].Obj? {
      var section := raw["print"].fields;
      if "ams" in section && section["ams"].Obj? {
        var ams := section["ams"].fields;
        if "ams" in ams && ams["ams"].List? {
          var units := ams["ams"].items;
          forall i | 0 <= i < |units| ensures IdleUnit(units[i]) <==> !HasActiveTray(units[i]) {
            IdleUnitIff(units[i]);
          }
        }
      }
    }
  }

  lemma IdleUnitIff(unit: Json)
    ensures IdleUnit(unit) <==> !HasActiveTray(unit)
  {
    if unit.Obj? && "tray" in unit.fields {
      TraysIdle(unit.fields["tray"]);
      assert Trays(unit) == if unit.fields["tray"].List? then unit.fields["tray"].items else [];
    } else if unit.Obj? && "trays" in unit.fields {
      TraysIdle(unit.fields["trays"]);
      assert Trays(unit) == if unit.fields["trays"].List? then unit.fields["trays"].items else [];
    }
  }

  lemma TraysIdle(trays: Json)
    ensures trays.List? ==>
              (IdleTrays(trays) <==> !(exists j :: 0 <= j < |trays.items| && IsActive(trays.items[j])))
  {
    if trays.List? && IdleTrays(trays) {
      forall j | 0 <= j < |trays.items| ensures !IsActive(trays.items[j]) {
        assert IdleTray(trays.items[j]);
      }
    }
  }

  // ------------------------------------------------------------- one dryer

  predicate CanDry(model: AmsModel) {
    model == Ams2Pro || model == AmsHt
  }

  /** What the published unit of this number says, if there is one among the units from n on. */
  ghost predicate SaysOf(integer: Json -> Option<int>, models: map<int, AmsModel>, policy: Policy, units: seq<Json>,
                         n: nat, id: int, unit: Option<AmsUnit>)
  {
    match unit
    case None => forall i: nat :: n <= i ==> !Numbered(integer, units, i, id)
    case Some(u) =>
      && u.model == (if id in models then models[id] else UnknownAms)
      && (u.dryCapable <==> CanDry(u.model) && (policy.Supported? || policy.Experimental?))
      && exists i: nat :: n <= i && Numbered(integer, units, i, id)
                          && (forall j: nat :: n <= j < i ==> !Numbered(integer, units, j, id))
                          && (u.remaining.Some? && u.remaining.value > 0 <==> Drying(integer, units[i]))
  }

  lemma {:induction false} PublishedUnit(r: Readers, models: map<int, AmsModel>, policy: Policy, units: seq<Json>,
                                         n: nat, id: int)
    requires n <= |units|
    ensures SaysOf(r.integer, models, policy, units, n, id, UnitNamed(Units(r, models, policy, units, n), id))
    decreases |units| - n
  {
    if n == |units| {
    } else {
      PublishedUnit(r, models, policy, units, n + 1, id);
      OneMoreUnit(r, models, policy, units, n, id);
      if !Numbered(r.integer, units, n, id) {
        NotFirst(r.integer, models, policy, units, n, id, UnitNamed(Units(r, models, policy, units, n + 1), id));
      }
    }
  }

  /** The unit at position n is the one sought, or the search goes on behind it. */
  lemma OneMoreUnit(r: Readers, models: map<int, AmsModel>, policy: Policy, units: seq<Json>, n: nat, id: int)
    requires n < |units|
    ensures var found := UnitNamed(Units(r, models, policy, units, n), id);
            if Numbered(r.integer, units, n, id) then SaysOf(r.integer, models, policy, units, n, id, found)
            else found == UnitNamed(Units(r, models, policy, units, n + 1), id)
  {
    var rest := Units(r, models, policy, units, n + 1);
    var all := Units(r, models, policy, units, n);
    if units[n].Obj? { assert all[1..] == rest && (all[0].id == id <==> Numbered(r.integer, units, n, id)); }
  }

  lemma NotFirst(integer: Json -> Option<int>, models: map<int, AmsModel>, policy: Policy, units: seq<Json>, n: nat,
                 id: int, unit: Option<AmsUnit>)
    requires SaysOf(integer, models, policy, units, n + 1, id, unit) && !Numbered(integer, units, n, id)
    ensures SaysOf(integer, models, policy, units, n, id, unit)
  {
  }

  // ---------------------------------------------------------- the three rules

  /** Printers of the P1 and A1 families never dry by remote control; these do, or do once it is acknowledged. */
  predicate Dries(model: string) {
    var key := ModelKey(model);
    "p2s" <= key || "h2d" <= key
  }

  predicate DriesExperimentally(model: string) {
    var key := ModelKey(model);
    "x1" <= key || "h2c" <= key || "h2s" <= key || "x2d" <= key
  }

  lemma PolicyIff(model: string)
    ensures DryingPolicy(model).Supported? <==> Dries(model)
    ensures DryingPolicy(model).Experimental? <==> DriesExperimentally(model)
    ensures Dries(model) ==> !DriesExperimentally(model)
  {
    var key := ModelKey(model);
    if |key| >= 2 {
      assert "p1" <= key ==> key[0] == 'p' && key[1] == '1';
      assert "a1" <= key ==> key[0] == 'a';
      assert "p2s" <= key ==> key[0] == 'p' && key[1] == '2';
      assert "h2d" <= key ==> key[0] == 'h' && key[1] == '2' && key[2] == 'd';
      assert "h2c" <= key ==> key[0] == 'h' && key[2] == 'c';
      assert "h2s" <= key ==> key[0] == 'h' && key[2] == 's';
      assert "x1" <= key ==> key[0] == 'x';
      assert "x2d" <= key ==> key[0] == 'x';
    }
  }

  /** The key of a model is its letters, in lower case, and digits, in their order. */
  lemma {:induction false} KeyOf(a: string, b: string)
    ensures ModelKey(a + b) == ModelKey(a) + ModelKey(b)
    ensures |a| == 1 ==>
              ModelKey(a) == if 'a' <= a[0] <= 'z' || '0' <= a[0] <= '9' then a
                             else if 'A' <= a[0] <= 'Z' then [a[0] - 'A' + 'a'] else ""
  {
    if a == "" {
      assert a + b == b;
    } else {
      KeyOf(a[1..], b);
      assert (a + b)[0] == a[0] && (a + b)[1..] == a[1..] + b;
    }
  }

  predicate Between(r: Readers, params: Params, name: Parameter, low: int, high: int) {
    && name in params && r.parameter(params[name]).Some?
    && low <= r.parameter(params[name]).value <= high
  }

  predicate FlagIfGiven(params: Params, name: Parameter) {
    name in params ==> params[name].Bool?
  }

  predicate FilamentIfGiven(params: Params) {
    Filament in params ==>
      && params[Filament].Str? && |params[Filament].text| <= 80
      && forall i :: 0 <= i < |params[Filament].text| ==> params[Filament].text[i] !in {'\0', '\n', '\r'}
  }

  predicate StartParameters(r: Readers, params: Params) {
    && (forall name :: name in params ==> name in {AmsId, Temp, Duration, RotateTray, Filament, ExperimentalAck})
    && Between(r, params, AmsId, 0, 255) && Between(r, params, Temp, 45, 85) && Between(r, params, Duration, 1, 24)
    && FlagIfGiven(params, RotateTray) && FlagIfGiven(params, ExperimentalAck) && FilamentIfGiven(params)
  }

  /** Connected, with a full status since, and a recent one. */
  predicate Current(s: Status, now: real, staleAfter: real) {
    s.connection == Online && s.complete && s.lastSeen.Some? && now - s.lastSeen.value <= staleAfter
  }

  /** The flag without which the printer ignores unsigned commands. */
  predicate Unlocked(r: Readers, raw: Fields) {
    r.lanMode(Printed(raw)) == Some(true)
  }

  /** The list has the unit, a dryer, and it is not drying; an AMS 2 Pro is not to be heated above 65 degrees. */
  ghost predicate DryerWaits(integer: Json -> Option<int>, models: map<int, AmsModel>, units: seq<Json>, id: int,
                             temperature: int)
  {
    && id in models && (models[id] == AmsHt || (models[id] == Ams2Pro && temperature <= 65))
    && exists i: nat :: FirstNumbered(integer, units, i, id) && !Drying(integer, units[i])
  }

  ghost predicate DryerListed(integer: Json -> Option<int>, models: map<int, AmsModel>, units: seq<Json>, id: int) {
    id in models && CanDry(models[id]) && exists i: nat :: FirstNumbered(integer, units, i, id)
  }

  /**
    A start is admitted: by the printer's rules, its model and the parameters, by the first reading of the store, `s`,
    the second, `t`, and the third, `u`.
  */
  ghost predicate StartRules(r: Readers, config: PrinterRules, models: map<int, AmsModel>, s: Status, t: Status,
                             u: Status, now: real, params: Params)
  {
    && config.writable && StartDrying in config.allowed && StopDrying in config.allowed
    && StartParameters(r, params)
    && (Dries(config.model) ||
        (DriesExperimentally(config.model) && ExperimentalAck in params && params[ExperimentalAck] == Bool(true)))
    && Current(s, now, config.staleAfter) && r.status(Printed(s.raw)) == StatusIdle
    && Unlocked(r, s.raw) && Unlocked(r, t.raw)
    && DryerWaits(r.integer, models, Listed(t.raw), r.parameter(params[AmsId]).value, r.parameter(params[Temp]).value)
    && AtRest(r.integer, u.raw)
  }

  /** A stop is admitted: nothing is asked of the print status, the flag, the trays or the drying. */
  ghost predicate StopRules(r: Readers, config: PrinterRules, models: map<int, AmsModel>, s: Status, t: Status,
                            now: real, params: Params)
  {
    && config.writable && StopDrying in config.allowed
    && (forall name :: name in params ==> name in {AmsId, ExperimentalAck})
    && Between(r, params, AmsId, 0, 255) && FlagIfGiven(params, ExperimentalAck)
    && (Dries(config.model) || DriesExperimentally(config.model))
    && Current(s, now, config.staleAfter)
    && DryerListed(r.integer, models, Listed(t.raw), r.parameter(params[AmsId]).value)
  }

  lemma SnapshotSays(r: Readers, config: PrinterRules, s: Status, models: map<int, AmsModel>, now: real)
    ensures var v := SnapshotOf(r, config, s, models, now);
            && v.model == config.model
            && (v.online && !v.stale && v.connection != Partial <==> Current(s, now, config.staleAfter))
            && v.status == r.status(Printed(s.raw)) && v.lanMode == r.lanMode(Printed(s.raw))
            && v.camera == r.camera(Printed(s.raw))
            && v.units == Units(r, models, DryingPolicy(config.model), Listed(s.raw), 0)
  {
    assert PrintState(s.raw) == Printed(s.raw);
    assert ["ams", "ams"][1..] == ["ams"] && ["ams"][1..] == [];
    assert UnitValues(Printed(s.raw)) == Listed(s.raw);
  }

  lemma WaitsIff(r: Readers, models: map<int, AmsModel>, policy: Policy, units: seq<Json>, id: int, temperature: int)
    requires policy.Supported? || policy.Experimental?
    ensures var unit := UnitNamed(Units(r, models, policy, units, 0), id);
            && (DryerListed(r.integer, models, units, id) <==> unit.Some? && unit.value.dryCapable)
            && (DryerWaits(r.integer, models, units, id, temperature) <==>
                  && unit.Some? && unit.value.dryCapable
                  && !(unit.value.remaining.Some? && unit.value.remaining.value > 0)
                  && !(unit.value.model == Ams2Pro && temperature > 65))
  {
    PublishedUnit(r, models, policy, units, 0, id);
    var unit := UnitNamed(Units(r, models, policy, units, 0), id);
    if unit.Some? {
      var i: nat :| Numbered(r.integer, units, i, id) && (forall j: nat :: j < i ==> !Numbered(r.integer, units, j, id))
                    && (unit.value.remaining.Some? && unit.value.remaining.value > 0 <==> Drying(r.integer, units[i]));
      assert FirstNumbered(r.integer, units, i, id);
      assert forall j: nat :: FirstNumbered(r.integer, units, j, id) ==> j == i;
    }
  }

  lemma StartParametersIff(r: Readers, params: Params)
    ensures StartParameters(r, params) <==>
              Buildable(r, StartDrying, params) && (ExperimentalAck in params ==> params[ExperimentalAck].Bool?)
  {
    if FilamentOk(params) && Filament in params {
      forall i | 0 <= i < |params[Filament].text| ensures params[Filament].text[i] !in {'\0', '\n', '\r'} {
        assert params[Filament].text[i] in params[Filament].text;
      }
    }
  }

  predicate FreshView(v: Snapshot) {
    v.online && !v.stale && v.connection != Partial
  }

  lemma StartGateSays(r: Readers, config: PrinterRules, v: Snapshot, w: Snapshot, risk: bool, params: Params)
    requires w.model == config.model
    ensures Gate(r, config, v, w, risk, StartDrying, params) == None <==>
      && config.writable && StartDrying in config.allowed && StopDrying in config.allowed
      && StartParameters(r, params)
      && (Dries(config.model) ||
          (DriesExperimentally(config.model) && ExperimentalAck in params && params[ExperimentalAck] == Bool(true)))
      && FreshView(v) && v.status == StatusIdle && v.lanMode == Some(true) && w.lanMode == Some(true)
      && WaitsIn(w.units, r.parameter(params[AmsId]).value, r.parameter(params[Temp]).value)
      && !risk
  {
    StartParametersIff(r, params);
    PolicyIff(config.model);
  }

  predicate WaitsIn(units: seq<AmsUnit>, id: int, temperature: int) {
    var unit := UnitNamed(units, id);
    && unit.Some? && unit.value.dryCapable
    && !(unit.value.remaining.Some? && unit.value.remaining.value > 0)
    && !(unit.value.model == Ams2Pro && temperature > 65)
  }

  lemma StopGateSays(r: Readers, config: PrinterRules, v: Snapshot, w: Snapshot, risk: bool, params: Params)
    requires w.model == config.model
    ensures Gate(r, config, v, w, risk, StopDrying, params) == None <==>
      && config.writable && StopDrying in config.allowed
      && (forall name :: name in params ==> name in {AmsId, ExperimentalAck})
      && Between(r, params, AmsId, 0, 255) && FlagIfGiven(params, ExperimentalAck)
      && (Dries(config.model) || DriesExperimentally(config.model))
      && FreshView(v)
      && UnitNamed(w.units, r.parameter(params[AmsId]).value).Some?
      && UnitNamed(w.units, r.parameter(params[AmsId]).value).value.dryCapable
  {
    PolicyIff(config.model);
  }

  /** The gates admit a start exactly by these rules. */
  lemma StartGateIff(r: Readers, config: PrinterRules, models: map<int, AmsModel>, s: Status, t: Status, u: Status,
                     now: real, next: real, params: Params)
    ensures Gate(r, config, SnapshotOf(r, config, s, models, now), SnapshotOf(r, config, t, models, next),
                 OperationRisk(r.integer, u.raw), StartDrying, params) == None <==>
              StartRules(r, config, models, s, t, u, now, params)
  {
    var v, w := SnapshotOf(r, config, s, models, now), SnapshotOf(r, config, t, models, next);
    SnapshotSays(r, config, s, models, now);
    SnapshotSays(r, config, t, models, next);
    StartGateSays(r, config, v, w, OperationRisk(r.integer, u.raw), params);
    AtRestIff(r.integer, u.raw);
    PolicyIff(config.model);
    if StartParameters(r, params) && (Dries(config.model) || DriesExperimentally(config.model)) {
      WaitsIff(r, models, DryingPolicy(config.model), Listed(t.raw), r.parameter(params[AmsId]).value,
               r.parameter(params[Temp]).value);
    }
  }

  /** And a stop by these. */
  lemma StopGateIff(r: Readers, config: PrinterRules, models: map<int, AmsModel>, s: Status, t: Status, risk: bool,
                    now: real, next: real, params: Params)
    ensures Gate(r, config, SnapshotOf(r, config, s, models, now), SnapshotOf(r, config, t, models, next), risk,
                 StopDrying, params) == None <==>
              StopRules(r, config, models, s, t, now, params)
  {
    var v, w := SnapshotOf(r, config, s, models, now), SnapshotOf(r, config, t, models, next);
    SnapshotSays(r, config, s, models, now);
    SnapshotSays(r, config, t, models, next);
    StopGateSays(r, config, v, w, risk, params);
    PolicyIff(config.model);
    if Between(r, params, AmsId, 0, 255) && (Dries(config.model) || DriesExperimentally(config.model)) {
      WaitsIff(r, models, DryingPolicy(config.model), Listed(t.raw), r.parameter(params[AmsId]).value, 0);
    }
  }

  // ------------------------------------------------------ over all histories

  lemma CurrentIff(integer: Json -> Option<int>, events: seq<Event>, now: real, staleAfter: real)
    ensures Current(After(integer, INITIAL, events), now, staleAfter) <==>
              FullReportSinceDisconnect(integer, events) && LastStatusWithin(events, now, staleAfter)
  {
    CompleteIff(integer, events);
    ConnectedIff(integer, events);
    LastSeenIff(integer, events, now, staleAfter);
    FullMeansConnected(integer, events);
  }

  lemma ListedIsLast(integer: Json -> Option<int>, events: seq<Event>)
    ensures Listed(After(integer, INITIAL, events).raw) ==
            if LastList(events).Some? then LastList(events).value else []
  {
    StoredIsLastList(integer, events);
    var raw := After(integer, INITIAL, events).raw;
    assert ["print", "ams", "ams"][1..] == ["ams", "ams"] && ["ams", "ams"][1..] == ["ams"] && ["ams"][1..] == [];
    if "print" !in raw { assert raw == map[]; }
  }

  /**
    Exactly when start_drying is admitted, its gates reading the store after three histories.  The rules of the printer
    and the parameters are kept.  The first history: a full status since the last disconnect and a recent one, an idle
    printer, the flag set.  The second: the flag still set, and the last list reported has the dryer, which is not
    drying; on an AMS 2 Pro at most 65 degrees.  The third: nothing loaded and nothing moving.
  */
  lemma StartAdmittedIff(r: Readers, config: PrinterRules, first: seq<Event>, second: seq<Event>, third: seq<Event>,
                         models: map<int, AmsModel>, now: real, next: real, params: Params)
    ensures StartAdmitted(r, config, first, second, third, models, now, next, params) <==>
      && config.writable && StartDrying in config.allowed && StopDrying in config.allowed
      && StartParameters(r, params)
      && (Dries(config.model) ||
          (DriesExperimentally(config.model) && ExperimentalAck in params && params[ExperimentalAck] == Bool(true)))
      && FullReportSinceDisconnect(r.integer, first) && LastStatusWithin(first, now, config.staleAfter)
      && r.status(Printed(After(r.integer, INITIAL, first).raw)) == StatusIdle
      && Unlocked(r, After(r.integer, INITIAL, first).raw)
      && Unlocked(r, After(r.integer, INITIAL, second).raw)
      && DryerWaits(r.integer, models, if LastList(second).Some? then LastList(second).value else [],
                    r.parameter(params[AmsId]).value, r.parameter(params[Temp]).value)
      && AtRest(r.integer, After(r.integer, INITIAL, third).raw)
  {
    StartGateIff(r, config, models, After(r.integer, INITIAL, first), After(r.integer, INITIAL, second),
                 After(r.integer, INITIAL, third), now, next, params);
    CurrentIff(r.integer, first, now, config.staleAfter);
    ListedIsLast(r.integer, second);
  }

  /** What each command demands of the reported status. */
  predicate StatusAllows(command: Command, status: PrintStatus, camera: bool) {
    var printing := status in {StatusRunning, StatusPrinting, StatusPrepare, StatusSlicing};
    var paused := status in {StatusPause, StatusPaused};
    match command
    case Pause => printing
    case Resume => paused
    case Stop => printing || paused
    case Speed => printing || paused
    case StartDrying => status == StatusIdle
    case CameraRecording => camera
    case CameraTimelapse => camera
    case CameraResolution => camera
    case RefreshRfid => true
    case StopDrying => true
    case Light => true
  }

  predicate NeedsFlag(command: Command) {
    command in {Pause, Resume, Stop, Speed, RefreshRfid, StartDrying}
  }

  lemma StateGateSays(v: Snapshot, command: Command)
    ensures StateGate(v, command) == None <==>
      FreshView(v) && (NeedsFlag(command) ==> v.lanMode == Some(true)) && StatusAllows(command, v.status, v.camera)
  {
  }

  /**
    A command of any kind passes the state gate exactly after a history that is fresh and full, with the flag set if
    the printer wants it signed, and in a status that allows it.
  */
  lemma StateGateIff(r: Readers, config: PrinterRules, events: seq<Event>, models: map<int, AmsModel>, now: real,
                     command: Command)
    ensures StateGate(SnapshotAfter(r, config, events, models, now), command) == None <==>
      var raw := After(r.integer, INITIAL, events).raw;
      && FullReportSinceDisconnect(r.integer, events) && LastStatusWithin(events, now, config.staleAfter)
      && (NeedsFlag(command) ==> Unlocked(r, raw))
      && StatusAllows(command, r.status(Printed(raw)), r.camera(Printed(raw)))
  {
    SnapshotSays(r, config, After(r.integer, INITIAL, events), models, now);
    StateGateSays(SnapshotAfter(r, config, events, models, now), command);
    CurrentIff(r.integer, events, now, config.staleAfter);
  }

  // ------------------------------------------------------------ confirmation

  /** The first unit of the list that names itself by this id. */
  predicate FirstNamed(integer: Json -> Option<int>, units: seq<Json>, i: nat, id: int) {
    NamesItself(integer, units, i, id) && forall j: nat :: j < i ==> !NamesItself(integer, units, j, id)
  }

  predicate NamesItself(integer: Json -> Option<int>, units: seq<Json>, i: nat, id: int) {
    && i < |units| && units[i].Obj?
    && var unit := units[i].fields;
       var key := if "id" in unit then "id" else "ams_id";
       key in unit && integer(unit[key]) == Some(id)
  }

  /** It reports drying time left, or none, as asked. */
  predicate Reports(integer: Json -> Option<int>, unit: Json, active: bool) {
    && unit.Obj? && "dry_time" in unit.fields && integer(unit.fields["dry_time"]).Some?
    && if active then integer(unit.fields["dry_time"]).value > 0 else integer(unit.fields["dry_time"]).value == 0
  }

  lemma {:induction false} FindsFirstNamed(integer: Json -> Option<int>, units: seq<Json>, n: nat, id: int)
    requires n <= |units|
    ensures match FindUnit(integer, units, n, id)
            case None => forall i: nat :: n <= i ==> !NamesItself(integer, units, i, id)
            case Some(i) => n <= i && NamesItself(integer, units, i, id)
                            && forall j: nat :: n <= j < i ==> !NamesItself(integer, units, j, id)
    decreases |units| - n
  {
    if n == |units| {
    } else {
      FindsFirstNamed(integer, units, n + 1, id);
      assert units[n].Obj? && UnitId(integer, units[n].fields) == Some(id) <==> NamesItself(integer, units, n, id);
    }
  }

  /** The confirmation wait looks at that unit and at its drying time. */
  lemma ShowsDryingIff(integer: Json -> Option<int>, units: seq<Json>, id: int, active: bool)
    ensures ShowsDrying(integer, units, id, active) <==>
              exists i: nat :: FirstNamed(integer, units, i, id) && Reports(integer, units[i], active)
  {
    FindsFirstNamed(integer, units, 0, id);
    var found := FindUnit(integer, units, 0, id);
    if found.Some? {
      assert FirstNamed(integer, units, found.value, id);
      assert forall j: nat :: FirstNamed(integer, units, j, id) ==> j == found.value;
    }
  }

  /** The reported unit that counts for this id: it says something about drying. */
  predicate CountsFor(integer: Json -> Option<int>, units: seq<Json>, i: nat, id: int) {
    Numbered(integer, units, i, id) && "dry_time" in units[i].fields
  }

  function Counting(integer: Json -> Option<int>, units: seq<Json>, n: nat, id: int): nat {
    if n == 0 then 0
    else Counting(integer, units, n - 1, id) + if CountsFor(integer, units, n - 1, id) then 1 else 0
  }

  /** A report advances the generation of each unit by the number of its entries that say something about drying. */
  lemma {:induction false} CountedExactly(integer: Json -> Option<int>, units: seq<Json>, n: nat, g: map<int, nat>,
                                          id: int)
    requires n <= |units|
    ensures Generation(Counted(integer, units, n, g), id) == Generation(g, id) + Counting(integer, units, n, id)
  {
    if n == 0 {
    } else {
      CountedExactly(integer, units, n - 1, g, id);
      assert CountedUnit(integer, units, n - 1) == Some(id) <==> CountsFor(integer, units, n - 1, id);
    }
  }
}
