/**
  The gates of app/manager.py between a command and its publication: permissions, printer state, and the drying
  rules, as checks over a published snapshot.
*/
module CommandGates {
  import opened Wrappers
  import opened DeepMerge
  import opened StatusStore

  datatype Command =
    | Pause | Resume | Stop | Speed | RefreshRfid | StartDrying | StopDrying
    | CameraRecording | CameraTimelapse | CameraResolution | Light

  /** The lower-cased gcode_state, as far as a gate looks at it. */
  datatype PrintStatus =
    | StatusRunning | StatusPrinting | StatusPrepare | StatusSlicing | StatusPause | StatusPaused | StatusIdle
    | StatusOther

  /** The names of command parameters. */
  datatype Parameter = AmsId | Temp | Duration | RotateTray | Filament | ExperimentalAck | OtherParameter(name: string)

  type Params = map<Parameter, Json>

  /** How values of reports and parameters are read, as arbitrary functions. */
  datatype Readers = Readers(
    integer: Json -> Option<int>,       // _integer of app/state.py
    parameter: Json -> Option<int>,     // CommandBuilder._integer before its range check
    status: Fields -> PrintStatus,
    lanMode: Fields -> Option<bool>,    // the signature flag
    camera: Fields -> bool)

  datatype PrinterRules = PrinterRules(model: string, writable: bool, allowed: set<Command>, staleAfter: real)

  datatype AmsModel = AmsLite | Ams | Ams2Pro | AmsHt | UnknownAms

  datatype AmsUnit = AmsUnit(id: int, model: AmsModel, dryCapable: bool, remaining: Option<int>)

  datatype Snapshot = Snapshot(
    online: bool,
    stale: bool,
    connection: PublicConnection,
    lanMode: Option<bool>,
    status: PrintStatus,
    camera: bool,
    model: string,
    units: seq<AmsUnit>)

  /** None means admitted. */
  datatype Refusal = Forbidden | Unavailable | CommandError

  // ------------------------------------------------------------ drying policy

  datatype Policy = Blocked | Experimental | Supported | Unsupported

  function Lower(c: char): char {
    if 'A' <= c <= 'Z' then c - 'A' + 'a' else c
  }

  /** The letters and digits of a model name, lower-cased; everything else is dropped. */
  function ModelKey(model: string): string {
    if model == "" then ""
    else
      var c := Lower(model[0]);
      (if 'a' <= c <= 'z' || '0' <= c <= '9' then [c] else []) + ModelKey(model[1..])
  }

  function DryingPolicy(model: string): Policy {
    var name := ModelKey(model);
    if "p1" <= name || "a1" <= name then Blocked
    else if "x1" <= name || "h2c" <= name || "h2s" <= name || "x2d" <= name then Experimental
    else if "p2s" <= name || "h2d" <= name then Supported
    else Unsupported
  }

  // --------------------------------------------------------------- snapshot

  function PrintState(raw: Fields): Fields {
    match Field(raw, "print")
    case Some(Obj(section)) => section
    case _ => raw
  }

  function UnitValues(section: Fields): seq<Json> {
    match At(Obj(section), ["ams", "ams"])
    case Some(List(units)) => units
    case _ => []
  }

  /** The published units: those that are objects, under their id or position, from position n on. */
  function Units(r: Readers, models: map<int, AmsModel>, policy: Policy, values: seq<Json>, n: nat): seq<AmsUnit>
    requires n <= |values|
    decreases |values| - n
  {
    if n == |values| then []
    else if !values[n].Obj? then Units(r, models, policy, values, n + 1)
    else
      var own := UnitId(r.integer, values[n].fields);
      var id := if own.Some? then own.value else n;
      var model := if id in models then models[id] else UnknownAms;
      var dryTime := Integer(r.integer, Field(values[n].fields, "dry_time"));
      [AmsUnit(id, model,
               (model == Ams2Pro || model == AmsHt) && (policy.Supported? || policy.Experimental?),
               if dryTime.Some? && dryTime.value < 0 then None else dryTime)]
      + Units(r, models, policy, values, n + 1)
  }

  /** `ams_operation_risk`: everything not known to be at rest is a risk. */
  ghost predicate OperationRisk(integer: Json -> Option<int>, raw: Fields) {
    match Field(raw, "print")
    case Some(Obj(section)) =>
      (match Field(section, "ams")
       case Some(Obj(ams)) =>
         || Loaded(integer, ams, "tray_now")
         || Loaded(integer, ams, "tray_tar")
         || Integer(integer, if "ams_status" in section then Some(section["ams_status"])
                             else Field(ams, "ams_status")) != Some(0)
         || (match Field(ams, "ams")
             case Some(List(units)) => exists i :: 0 <= i < |units| && HasActiveTray(units[i])
             case _ => true)
       case _ => true)
    case _ => true
  }

  predicate Loaded(integer: Json -> Option<int>, ams: Fields, field: string) {
    var tray := Integer(integer, Field(ams, field));
    tray.Some? && tray.value != 255
  }

  /** The trays of a unit, under the newer of two keys if it is present. */
  function Trays(unit: Json): seq<Json> {
    if !unit.Obj? then []
    else
      var trays: Option<Json> := if "tray" in unit.fields then Some(unit.fields["tray"])
                                 else Field(unit.fields, "trays");
      match trays
      case Some(List(items)) => items
      case _ => []
  }

  predicate IsActive(tray: Json) {
    tray.Obj? && Field(tray.fields, "active") == Some(Bool(true))
  }

  ghost predicate HasActiveTray(unit: Json) {
    exists j :: 0 <= j < |Trays(unit)| && IsActive(Trays(unit)[j])
  }

  function SnapshotOf(r: Readers, config: PrinterRules, s: Status, models: map<int, AmsModel>, now: real): Snapshot {
    var section := PrintState(s.raw);
    Snapshot(PublishedOnline(s, now, config.staleAfter), Stale(s, now, config.staleAfter), PublishedConnection(s),
             r.lanMode(section), r.status(section), r.camera(section), config.model,
             Units(r, models, DryingPolicy(config.model), UnitValues(section), 0))
  }

  // ------------------------------------------------------------------ gates

  function PermissionGate(config: PrinterRules, command: Command): Option<Refusal> {
    if !config.writable then Some(Forbidden)
    else if command == StartDrying && StopDrying !in config.allowed then Some(Forbidden)
    else if command !in config.allowed then Some(Forbidden)
    else None
  }

  predicate Signed(command: Command) {
    command in {Pause, Resume, Stop, Speed, RefreshRfid, StartDrying, StopDrying}
  }

  predicate Printing(status: PrintStatus) {
    status.StatusRunning? || status.StatusPrinting? || status.StatusPrepare? || status.StatusSlicing?
  }

  predicate Paused(status: PrintStatus) {
    status.StatusPause? || status.StatusPaused?
  }

  /** `_validate_state`. */
  function StateGate(v: Snapshot, command: Command): Option<Refusal> {
    if !v.online || v.stale then Some(Unavailable)
    else if v.connection == Partial then Some(Unavailable)
    else if Signed(command) && command != StopDrying && v.lanMode != Some(true) then Some(Unavailable)
    else if command == Pause && !Printing(v.status) then Some(Unavailable)
    else if command == Resume && !Paused(v.status) then Some(Unavailable)
    else if command == Stop && !(Printing(v.status) || Paused(v.status)) then Some(Unavailable)
    else if command == Speed && !(Printing(v.status) || Paused(v.status)) then Some(Unavailable)
    else if command == StartDrying && v.status != StatusIdle then Some(Unavailable)
    else if command in {CameraRecording, CameraTimelapse, CameraResolution} && !v.camera then Some(Unavailable)
    else None
  }

  const START_PARAMETERS := {AmsId, Temp, Duration, RotateTray, Filament, ExperimentalAck}
  const STOP_PARAMETERS := {AmsId, ExperimentalAck}

  predicate InRange(r: Readers, params: Params, name: Parameter, low: int, high: int) {
    name in params && r.parameter(params[name]).Some? && low <= r.parameter(params[name]).value <= high
  }

  predicate FilamentOk(params: Params) {
    Filament in params ==>
      && params[Filament].Str?
      && |params[Filament].text| <= 80
      && forall c :: c in params[Filament].text ==> c != '\0' && c != '\n' && c != '\r'
  }

  /** What CommandBuilder.build accepts for the two drying commands. */
  predicate Buildable(r: Readers, command: Command, params: Params) {
    && params.Keys <= (if command == StartDrying then START_PARAMETERS else STOP_PARAMETERS)
    && InRange(r, params, AmsId, 0, 255)
    && (command == StartDrying ==>
          && InRange(r, params, Temp, 45, 85)
          && InRange(r, params, Duration, 1, 24)
          && (RotateTray in params ==> params[RotateTray].Bool?)
          && FilamentOk(params))
  }

  function UnitNamed(units: seq<AmsUnit>, id: int): Option<AmsUnit> {
    if units == [] then None else if units[0].id == id then Some(units[0]) else UnitNamed(units[1..], id)
  }

  /** `_validate_drying_command`, for a command that could be built; `risk` is what ams_operation_risk returns. */
  function DryingGate(r: Readers, v: Snapshot, risk: bool, command: Command, params: Params): Option<Refusal>
    requires Buildable(r, command, params)
  {
    var policy := DryingPolicy(v.model);
    var ack := if ExperimentalAck in params then params[ExperimentalAck] else Bool(false);
    var unit := UnitNamed(v.units, r.parameter(params[AmsId]).value);
    if policy.Blocked? || policy.Unsupported? then Some(Unavailable)
    else if !ack.Bool? then Some(CommandError)
    else if command == StartDrying && policy.Experimental? && !ack.flag then Some(Unavailable)
    else if unit.None? then Some(CommandError)
    else if !unit.value.dryCapable then Some(Unavailable)
    else if command != StartDrying then None
    else if v.lanMode != Some(true) then Some(Unavailable)
    else if unit.value.remaining.Some? && unit.value.remaining.value > 0 then Some(Unavailable)
    else if risk then Some(Unavailable)
    else if unit.value.model == Ams2Pro && r.parameter(params[Temp]).value > 65 then Some(CommandError)
    else None
  }

  /** The gates before the drying gate, in their order. */
  function FirstGates(r: Readers, config: PrinterRules, v: Snapshot, command: Command, params: Params): Option<Refusal>
  {
    var permission := PermissionGate(config, command);
    if permission.Some? then permission
    else
      var state := StateGate(v, command);
      if state.Some? then state
      else if !Buildable(r, command, params) then Some(CommandError) else None
  }

  /**
    All gates of `send_command` for a drying command.  The store is read three times, and other threads may change it
    in between: `v` is seen by the state gate, `w` by the drying gate, `risk` is read last.
  */
  function Gate(r: Readers, config: PrinterRules, v: Snapshot, w: Snapshot, risk: bool, command: Command,
                params: Params):
    Option<Refusal>
  {
    var first := FirstGates(r, config, v, command, params);
    if first.Some? then first else DryingGate(r, w, risk, command, params)
  }

  // -------------------------------------------------------------- guarantees

  /** The same dryers under the same ids; their trays, temperatures and drying times may have changed. */
  predicate SameDryers(a: seq<AmsUnit>, b: seq<AmsUnit>) {
    |a| == |b| && forall i :: 0 <= i < |a| ==> a[i].id == b[i].id && a[i].dryCapable == b[i].dryCapable
  }

  lemma {:induction false} SameDryerFound(a: seq<AmsUnit>, b: seq<AmsUnit>, id: int)
    requires SameDryers(a, b)
    ensures UnitNamed(a, id).Some? <==> UnitNamed(b, id).Some?
    ensures UnitNamed(a, id).Some? ==> UnitNamed(a, id).value.dryCapable == UnitNamed(b, id).value.dryCapable
  {
    if a == [] {
    } else if a[0].id != id {
      SameDryerFound(a[1..], b[1..], id);
    }
  }

  /**
    Start implies stop.  If every gate admits start_drying on an AMS, then stop_drying on it is admitted as well,
    then and after any change to the print status, the signature flag, the trays, the AMS motion or the drying
    itself, as long as the printer is online with full status and still reports that AMS.
  */
  lemma StartImpliesStop(r: Readers, config: PrinterRules, v: Snapshot, w: Snapshot, risk: bool, params: Params,
                         later: Snapshot, last: Snapshot, anyRisk: bool)
    requires Gate(r, config, v, w, risk, StartDrying, params) == None
    requires later.online && !later.stale && later.connection != Partial
    requires last.model == w.model && SameDryers(w.units, last.units)
    ensures AmsId in params
    ensures Gate(r, config, later, last, anyRisk, StopDrying, map[AmsId := params[AmsId]]) == None
  {
    SameDryerFound(w.units, last.units, r.parameter(params[AmsId]).value);
  }

  // -------------------------------------------- guarantees over all histories

  /** What a command thread sees of a printer after these events. */
  function SnapshotAfter(r: Readers, config: PrinterRules, events: seq<Event>, models: map<int, AmsModel>,
                         now: real): Snapshot
  {
    SnapshotOf(r, config, After(r.integer, INITIAL, events), models, now)
  }

  /** The last list of units that was reported names this one, and as a dryer of a printer that allows drying. */
  predicate NamesDryer(r: Readers, config: PrinterRules, events: seq<Event>, models: map<int, AmsModel>, id: int) {
    var units := if LastList(events).Some? then LastList(events).value else [];
    var unit := UnitNamed(Units(r, models, DryingPolicy(config.model), units, 0), id);
    unit.Some? && unit.value.dryCapable
  }

  /** The last push_status is recent, and a full one came since the connection was last lost. */
  ghost predicate FreshAndFull(r: Readers, config: PrinterRules, events: seq<Event>, now: real) {
    FullReportSinceDisconnect(r.integer, events) && LastStatusWithin(events, now, config.staleAfter)
  }

  lemma SeenFresh(r: Readers, config: PrinterRules, events: seq<Event>, models: map<int, AmsModel>, now: real)
    ensures var v := SnapshotAfter(r, config, events, models, now);
            v.online && !v.stale && v.connection != Partial <==> FreshAndFull(r, config, events, now)
  {
    ControlsUnlockOnFreshState(r.integer, events, now, config.staleAfter);
    LastSeenIff(r.integer, events, now, config.staleAfter);
    FullMeansConnected(r.integer, events);
  }

  lemma SeenUnits(r: Readers, config: PrinterRules, events: seq<Event>, models: map<int, AmsModel>, now: real)
    ensures SnapshotAfter(r, config, events, models, now).units ==
            var units := if LastList(events).Some? then LastList(events).value else [];
            Units(r, models, DryingPolicy(config.model), units, 0)
  {
    StoredIsLastList(r.integer, events);
    var raw := After(r.integer, INITIAL, events).raw;
    assert ["print", "ams", "ams"][1..] == ["ams", "ams"];
    if "print" !in raw { assert raw == map[]; }
  }

  lemma StopGateIff(r: Readers, config: PrinterRules, v: Snapshot, w: Snapshot, risk: bool, id: Json)
    ensures Gate(r, config, v, w, risk, StopDrying, map[AmsId := id]) == None <==>
      && config.writable && StopDrying in config.allowed
      && r.parameter(id).Some? && 0 <= r.parameter(id).value <= 255
      && (DryingPolicy(w.model).Supported? || DryingPolicy(w.model).Experimental?)
      && v.online && !v.stale && v.connection != Partial
      && UnitNamed(w.units, r.parameter(id).value).Some?
      && UnitNamed(w.units, r.parameter(id).value).value.dryCapable
  {
    var params: Params := map[AmsId := id];
    assert params.Keys == {AmsId};
  }

  /**
    Exactly when stop_drying is admitted, whatever happened before: the printer and the two permissions allow it, the
    state gate's history is fresh and full, and the last list reported before the drying gate names the dryer.
  */
  lemma StopAdmittedIff(r: Readers, config: PrinterRules, first: seq<Event>, second: seq<Event>,
                        models: map<int, AmsModel>, now: real, next: real, risk: bool, id: Json)
    ensures Gate(r, config, SnapshotAfter(r, config, first, models, now),
                 SnapshotAfter(r, config, second, models, next), risk,
                 StopDrying, map[AmsId := id]) == None <==>
      && config.writable && StopDrying in config.allowed
      && r.parameter(id).Some? && 0 <= r.parameter(id).value <= 255
      && (DryingPolicy(config.model).Supported? || DryingPolicy(config.model).Experimental?)
      && FreshAndFull(r, config, first, now)
      && NamesDryer(r, config, second, models, r.parameter(id).value)
  {
    SeenFresh(r, config, first, models, now);
    SeenUnits(r, config, second, models, next);
    StopGateIff(r, config, SnapshotAfter(r, config, first, models, now),
                SnapshotAfter(r, config, second, models, next), risk, id);
  }

  /** start_drying on the unit the parameters name was admitted, its gates reading after these three histories. */
  ghost predicate StartAdmitted(r: Readers, config: PrinterRules, first: seq<Event>, second: seq<Event>,
                                third: seq<Event>, models: map<int, AmsModel>, now: real, next: real, params: Params)
  {
    Gate(r, config, SnapshotAfter(r, config, first, models, now), SnapshotAfter(r, config, second, models, next),
         OperationRisk(r.integer, After(r.integer, INITIAL, third).raw), StartDrying, params) == None
  }

  /**
    After an admitted start, and any events since, stop_drying on that AMS is admitted exactly while the history is
    fresh and full and the last reported list still names it as a dryer: nothing else can come to block it.
  */
  lemma StopStaysAdmitted(r: Readers, config: PrinterRules, first: seq<Event>, second: seq<Event>, third: seq<Event>,
                          models: map<int, AmsModel>, now: real, next: real, params: Params, later: seq<Event>,
                          last: seq<Event>, modelsThen: map<int, AmsModel>, laterNow: real, lastNow: real, risk: bool)
    requires StartAdmitted(r, config, first, second, third, models, now, next, params)
    ensures AmsId in params && r.parameter(params[AmsId]).Some?
    ensures Gate(r, config, SnapshotAfter(r, config, later, modelsThen, laterNow),
                 SnapshotAfter(r, config, last, modelsThen, lastNow), risk,
                 StopDrying, map[AmsId := params[AmsId]]) == None <==>
      && FreshAndFull(r, config, later, laterNow)
      && NamesDryer(r, config, last, modelsThen, r.parameter(params[AmsId]).value)
  {
    StopAdmittedIff(r, config, later, last, modelsThen, laterNow, lastNow, risk, params[AmsId]);
  }

  /**
    What each of the three readings guarantees of an admitted start: the first that the history is fresh and full, the
    printer idle and the flag set; the second that the flag is set and the AMS is a dryer not drying; the third that
    nothing is loaded or moving.
  */
  lemma StartNeedsRest(r: Readers, config: PrinterRules, first: seq<Event>, second: seq<Event>, third: seq<Event>,
                       models: map<int, AmsModel>, now: real, next: real, params: Params)
    requires StartAdmitted(r, config, first, second, third, models, now, next, params)
    ensures StartDrying in config.allowed && StopDrying in config.allowed
    ensures FreshAndFull(r, config, first, now)
    ensures r.status(PrintState(After(r.integer, INITIAL, first).raw)) == StatusIdle
    ensures r.lanMode(PrintState(After(r.integer, INITIAL, first).raw)) == Some(true)
    ensures r.lanMode(PrintState(After(r.integer, INITIAL, second).raw)) == Some(true)
    ensures NamesDryer(r, config, second, models, r.parameter(params[AmsId]).value)
    ensures var units := if LastList(second).Some? then LastList(second).value else [];
            var unit := UnitNamed(Units(r, models, DryingPolicy(config.model), units, 0),
                                  r.parameter(params[AmsId]).value);
            !(unit.value.remaining.Some? && unit.value.remaining.value > 0)
    ensures !OperationRisk(r.integer, After(r.integer, INITIAL, third).raw)
  {
    SeenFresh(r, config, first, models, now);
    SeenUnits(r, config, second, models, next);
  }

  /** No command of any kind passes the state gate but on fresh full state. */
  lemma AdmittedOnFreshState(r: Readers, config: PrinterRules, events: seq<Event>, models: map<int, AmsModel>,
                             now: real, command: Command)
    requires StateGate(SnapshotAfter(r, config, events, models, now), command) == None
    ensures FreshAndFull(r, config, events, now)
  {
    SeenFresh(r, config, events, models, now);
  }
}
