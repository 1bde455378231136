/**
  The printer status store of app/state.py: merging reports, tracking completeness and staleness, and the AMS
  drying generations.  `_integer` is an arbitrary function, so nothing here depends on how numbers are read.
*/
module StatusStore {
  import opened Wrappers
  import opened DeepMerge

  type Fields = map<string, Json>

  datatype Connection = Starting | Connecting | Online | Offline | ConnectionError | Stopped

  /** What the store keeps for one printer. */
  datatype Status = Status(
    raw: Fields,
    lastSeen: Option<real>,
    connection: Connection,
    complete: bool,
    generations: map<int, nat>)

  const INITIAL := Status(map[], None, Starting, false, map[])

  // ---------------------------------------------------------------- reports

  const FULL_STATUS_FIELD_GROUPS: seq<set<string>> := [
    {"gcode_state"}, {"nozzle_temper"}, {"bed_temper"}, {"mc_percent", "percent"}, {"mc_remaining_time", "remain_time"},
    {"layer_num"}, {"total_layer_num"}, {"spd_lvl"}, {"ams"}, {"lights_report"}, {"hms"}, {"print_error"},
    {"cooling_fan_speed"}, {"nozzle_target_temper"}, {"bed_target_temper"}]

  function Integer(integer: Json -> Option<int>, value: Option<Json>): Option<int> {
    if value.Some? then integer(value.value) else None
  }

  function Field(fields: Fields, key: string): Option<Json> {
    if key in fields then Some(fields[key]) else None
  }

  /** `_is_full_status`. */
  predicate IsFullStatus(integer: Json -> Option<int>, section: Fields) {
    && ("msg" in section ==> integer(section["msg"]) == Some(0))
    && forall i :: 0 <= i < |FULL_STATUS_FIELD_GROUPS| ==> FULL_STATUS_FIELD_GROUPS[i] * section.Keys != {}
  }

  /** The print section of a push_status report. */
  function StatusSection(payload: Fields): Option<Fields> {
    match Field(payload, "print")
    case Some(Obj(section)) => if Field(section, "command") == Some(Str("push_status")) then Some(section) else None
    case _ => None
  }

  /** The list of units inside the AMS object of a section, if there is one. */
  function ReportedUnits(section: Fields): Option<seq<Json>> {
    match At(Obj(section), ["ams", "ams"])
    case Some(List(units)) => Some(units)
    case _ => None
  }

  /** The id of a unit, under either of two keys, read as an integer. */
  function UnitId(integer: Json -> Option<int>, unit: Fields): Option<int> {
    Integer(integer, if "id" in unit then Some(unit["id"]) else Field(unit, "ams_id"))
  }

  /** The unit whose generation a reported unit advances, if any: without an id, its position. */
  function CountedUnit(integer: Json -> Option<int>, units: seq<Json>, index: nat): Option<int>
    requires index < |units|
  {
    match units[index]
    case Obj(unit) =>
      if "dry_time" !in unit then None
      else if UnitId(integer, unit).Some? then UnitId(integer, unit) else Some(index)
    case _ => None
  }

  function Generation(generations: map<int, nat>, unit: int): nat {
    if unit in generations then generations[unit] else 0
  }

  /** The generations after the first n reported units. */
  function Counted(integer: Json -> Option<int>, units: seq<Json>, n: nat, generations: map<int, nat>): map<int, nat>
    requires n <= |units|
  {
    if n == 0 then generations
    else
      var before := Counted(integer, units, n - 1, generations);
      match CountedUnit(integer, units, n - 1)
      case Some(unit) => before[unit := Generation(before, unit) + 1]
      case None => before
  }

  /** `apply_report`, as far as it concerns these fields. */
  function Apply(integer: Json -> Option<int>, s: Status, payload: Fields, now: real): Status {
    match StatusSection(payload)
    case None => s
    case Some(section) =>
      var units := ReportedUnits(section);
      Status(Merge(Obj(s.raw), Obj(map["print" := Obj(section)])).fields,
             Some(now),
             Online,
             s.complete || IsFullStatus(integer, section),
             if units.Some? then Counted(integer, units.value, |units.value|, s.generations) else s.generations)
  }

  /** `mark_connection`. */
  function Mark(s: Status, connection: Connection): Status {
    s.(connection := connection, complete := connection == Online && s.complete)
  }

  datatype Event = Marked(connection: Connection) | Reported(payload: Fields, now: real)

  function Step(integer: Json -> Option<int>, s: Status, event: Event): Status {
    match event
    case Marked(connection) => Mark(s, connection)
    case Reported(payload, now) => Apply(integer, s, payload, now)
  }

  function After(integer: Json -> Option<int>, s: Status, events: seq<Event>): Status {
    if events == [] then s
    else Step(integer, After(integer, s, events[..|events| - 1]), events[|events| - 1])
  }

  lemma {:induction false} AfterConcat(integer: Json -> Option<int>, s: Status, a: seq<Event>, b: seq<Event>)
    ensures After(integer, s, a + b) == After(integer, After(integer, s, a), b)
  {
    if b == [] {
      assert a + b == a;
    } else {
      AfterConcat(integer, s, a, b[..|b| - 1]);
      assert (a + b)[..|a + b| - 1] == a + b[..|b| - 1];
    }
  }

  // --------------------------------------------------- what snapshot() publishes

  predicate Stale(s: Status, now: real, staleAfter: real) {
    s.lastSeen.None? || now - s.lastSeen.value > staleAfter
  }

  predicate PublishedOnline(s: Status, now: real, staleAfter: real) {
    s.connection == Online && !Stale(s, now, staleAfter)
  }

  datatype PublicConnection = Partial | As(connection: Connection)

  function PublishedConnection(s: Status): PublicConnection {
    if s.connection == Online && !s.complete then Partial else As(s.connection)
  }

  /** A report with a print section that is a push_status. */
  predicate IsStatusReport(e: Event) {
    && e.Reported? && "print" in e.payload && e.payload["print"].Obj?
    && "command" in e.payload["print"].fields && e.payload["print"].fields["command"] == Str("push_status")
  }

  /** The section says everything there is to say, and does not call itself a delta. */
  predicate SaysAll(integer: Json -> Option<int>, section: Fields) {
    && ("msg" in section ==> integer(section["msg"]) == Some(0))
    && "gcode_state" in section && "nozzle_temper" in section && "bed_temper" in section
    && ("mc_percent" in section || "percent" in section)
    && ("mc_remaining_time" in section || "remain_time" in section)
    && "layer_num" in section && "total_layer_num" in section && "spd_lvl" in section && "ams" in section
    && "lights_report" in section && "hms" in section && "print_error" in section
    && "cooling_fan_speed" in section && "nozzle_target_temper" in section && "bed_target_temper" in section
  }

  lemma IsFullIff(integer: Json -> Option<int>, section: Fields)
    ensures IsFullStatus(integer, section) <==> SaysAll(integer, section)
  {
    Meets(section, 0, "gcode_state", "gcode_state");
    Meets(section, 1, "nozzle_temper", "nozzle_temper");
    Meets(section, 2, "bed_temper", "bed_temper");
    Meets(section, 3, "mc_percent", "percent");
    Meets(section, 4, "mc_remaining_time", "remain_time");
    Meets(section, 5, "layer_num", "layer_num");
    Meets(section, 6, "total_layer_num", "total_layer_num");
    Meets(section, 7, "spd_lvl", "spd_lvl");
    Meets(section, 8, "ams", "ams");
    Meets(section, 9, "lights_report", "lights_report");
    Meets(section, 10, "hms", "hms");
    Meets(section, 11, "print_error", "print_error");
    Meets(section, 12, "cooling_fan_speed", "cooling_fan_speed");
    Meets(section, 13, "nozzle_target_temper", "nozzle_target_temper");
    Meets(section, 14, "bed_target_temper", "bed_target_temper");
  }

  lemma Meets(section: Fields, i: int, a: string, b: string)
    requires 0 <= i < |FULL_STATUS_FIELD_GROUPS| && FULL_STATUS_FIELD_GROUPS[i] == {a, b}
    ensures FULL_STATUS_FIELD_GROUPS[i] * section.Keys != {} <==> a in section || b in section
  {
    if a in section { assert a in {a, b} * section.Keys; }
    if b in section { assert b in {a, b} * section.Keys; }
  }

  predicate IsFullReport(integer: Json -> Option<int>, e: Event) {
    IsStatusReport(e) && SaysAll(integer, e.payload["print"].fields)
  }

  predicate Disconnects(e: Event) {
    e.Marked? && e.connection != Online
  }

  /** Some event sets the condition and none after it clears it. */
  ghost predicate SetAndNotCleared(events: seq<Event>, sets: Event -> bool, clears: Event -> bool) {
    exists i :: 0 <= i < |events| && sets(events[i]) && forall j :: i < j < |events| ==> !clears(events[j])
  }

  lemma LastEventDecides(events: seq<Event>, sets: Event -> bool, clears: Event -> bool)
    requires events != []
    ensures var n := |events| - 1;
            SetAndNotCleared(events, sets, clears) <==>
              sets(events[n]) || (!clears(events[n]) && SetAndNotCleared(events[..n], sets, clears))
  {
    var n := |events| - 1;
    if i :| 0 <= i < n && sets(events[..n][i]) && forall j :: i < j < n ==> !clears(events[..n][j]) {
      assert events[i] == events[..n][i];
      assert forall j :: i < j < n ==> events[j] == events[..n][j];
    }
    if i :| 0 <= i < |events| && sets(events[i]) && forall j :: i < j < |events| ==> !clears(events[j]) {
      assert i < n ==> events[..n][i] == events[i];
      assert forall j :: i < j < n ==> events[j] == events[..n][j];
    }
  }

  /** A full status report has been applied and the connection was never marked as lost since. */
  ghost predicate FullReportSinceDisconnect(integer: Json -> Option<int>, events: seq<Event>) {
    SetAndNotCleared(events, e => IsFullReport(integer, e), e => Disconnects(e))
  }

  ghost predicate ConnectedSinceDisconnect(events: seq<Event>) {
    SetAndNotCleared(events, e => IsStatusReport(e) || e == Marked(Online), e => Disconnects(e))
  }

  /** The last push_status report, whatever else came after it, is this recent. */
  ghost predicate LastStatusWithin(events: seq<Event>, now: real, staleAfter: real) {
    SetAndNotCleared(events, e => IsStatusReport(e) && now - e.now <= staleAfter, e => IsStatusReport(e))
  }

  lemma {:induction false} CompleteIff(integer: Json -> Option<int>, events: seq<Event>)
    ensures After(integer, INITIAL, events).complete <==> FullReportSinceDisconnect(integer, events)
  {
    if events == [] {
    } else {
      CompleteIff(integer, events[..|events| - 1]);
      var e := events[|events| - 1];
      if IsStatusReport(e) { IsFullIff(integer, e.payload["print"].fields); }
      LastEventDecides(events, e => IsFullReport(integer, e), e => Disconnects(e));
    }
  }

  lemma {:induction false} ConnectedIff(integer: Json -> Option<int>, events: seq<Event>)
    ensures After(integer, INITIAL, events).connection == Online <==> ConnectedSinceDisconnect(events)
  {
    if events == [] {
    } else {
      ConnectedIff(integer, events[..|events| - 1]);
      LastEventDecides(events, e => IsStatusReport(e) || e == Marked(Online), e => Disconnects(e));
    }
  }

  lemma {:induction false} LastSeenIff(integer: Json -> Option<int>, events: seq<Event>, now: real, staleAfter: real)
    ensures !Stale(After(integer, INITIAL, events), now, staleAfter) <==> LastStatusWithin(events, now, staleAfter)
  {
    if events == [] {
    } else {
      LastSeenIff(integer, events[..|events| - 1], now, staleAfter);
      LastEventDecides(events, e => IsStatusReport(e) && now - e.now <= staleAfter, e => IsStatusReport(e));
    }
  }

  lemma {:induction false} FullMeansConnected(integer: Json -> Option<int>, events: seq<Event>)
    ensures FullReportSinceDisconnect(integer, events) ==> ConnectedSinceDisconnect(events)
  {
    if events == [] {
    } else {
      FullMeansConnected(integer, events[..|events| - 1]);
      LastEventDecides(events, e => IsFullReport(integer, e), e => Disconnects(e));
      LastEventDecides(events, e => IsStatusReport(e) || e == Marked(Online), e => Disconnects(e));
    }
  }

  /**
    Controls unlock only on fresh full state.  After any sequence of events the published connection is "online"
    exactly when a full status report was applied since the connection was last marked as lost, and the printer
    is published as online exactly when it is connected and its last push_status is recent enough: deltas,
    version replies and AMS log lines alone achieve neither.
  */
  lemma ControlsUnlockOnFreshState(integer: Json -> Option<int>, events: seq<Event>, now: real, staleAfter: real)
    ensures PublishedConnection(After(integer, INITIAL, events)) == As(Online) <==>
            FullReportSinceDisconnect(integer, events)
    ensures PublishedOnline(After(integer, INITIAL, events), now, staleAfter) <==>
              ConnectedSinceDisconnect(events) && LastStatusWithin(events, now, staleAfter)
  {
    CompleteIff(integer, events);
    ConnectedIff(integer, events);
    LastSeenIff(integer, events, now, staleAfter);
    FullMeansConnected(integer, events);
  }

  // --------------------------------------------------------- drying confirmation

  function StoredUnits(raw: Fields): Option<seq<Json>> {
    match At(Obj(raw), ["print", "ams", "ams"])
    case Some(List(units)) => Some(units)
    case _ => None
  }

  /** The first unit, from `index` on, that names itself by this id. */
  function FindUnit(integer: Json -> Option<int>, units: seq<Json>, index: nat, id: int): Option<nat>
    requires index <= |units|
    decreases |units| - index
  {
    if index == |units| then None
    else if units[index].Obj? && UnitId(integer, units[index].fields) == Some(id) then Some(index)
    else FindUnit(integer, units, index + 1, id)
  }

  /** The unit's dry_time says what the command asked for. */
  predicate Directed(integer: Json -> Option<int>, unit: Fields, active: bool) {
    var dryTime := Integer(integer, Field(unit, "dry_time"));
    if active then dryTime.Some? && dryTime.value > 0 else dryTime == Some(0)
  }

  /** The list shows the unit in the requested state. */
  predicate ShowsDrying(integer: Json -> Option<int>, units: seq<Json>, id: int, active: bool) {
    var found := FindUnit(integer, units, 0, id);
    found.Some? && found.value < |units| && units[found.value].Obj? &&
    Directed(integer, units[found.value].fields, active)
  }

  /** The test `wait_for_ams_drying_state` makes each time it wakes up. */
  predicate Confirmed(integer: Json -> Option<int>, s: Status, id: int, active: bool, afterGeneration: nat) {
    && Generation(s.generations, id) > afterGeneration
    && StoredUnits(s.raw).Some?
    && ShowsDrying(integer, StoredUnits(s.raw).value, id, active)
  }

  lemma {:induction false} FoundUnit(integer: Json -> Option<int>, units: seq<Json>, index: nat, id: int)
    requires index <= |units|
    ensures var found := FindUnit(integer, units, index, id);
            found.Some? ==> index <= found.value < |units| && units[found.value].Obj?
                            && UnitId(integer, units[found.value].fields) == Some(id)
    decreases |units| - index
  {
    if index == |units| {
    } else {
      FoundUnit(integer, units, index + 1, id);
    }
  }

  lemma {:induction false} CountedGrows(integer: Json -> Option<int>, units: seq<Json>, n: nat, g: map<int, nat>,
                                        id: int)
    requires n <= |units|
    ensures Generation(Counted(integer, units, n, g), id) >= Generation(g, id)
    ensures forall i :: 0 <= i < n && CountedUnit(integer, units, i) == Some(id) ==>
              Generation(Counted(integer, units, n, g), id) > Generation(g, id)
  {
    if n == 0 {
    } else {
      CountedGrows(integer, units, n - 1, g, id);
    }
  }

  /** A report replaces the stored list of units by its own, whole; a report without one never brings in another. */
  lemma ReportReplacesUnits(integer: Json -> Option<int>, s: Status, payload: Fields, now: real)
    ensures var units := if StatusSection(payload).Some? then ReportedUnits(StatusSection(payload).value) else None;
            var after := StoredUnits(Apply(integer, s, payload, now).raw);
            if units.Some? then after == units else after.None? || after == StoredUnits(s.raw)
  {
    if StatusSection(payload).Some? {
      var section := StatusSection(payload).value;
      var path := ["print", "ams", "ams"];
      var update := Obj(map["print" := Obj(section)]);
      PathLaw(Obj(s.raw), update, path);
      assert path[1..] == ["ams", "ams"] && update.fields["print"] == Obj(section);
      assert At(update, path) == At(Obj(section), ["ams", "ams"]);
    }
  }

  /** The report puts something else where the list of units was. */
  predicate DropsUnits(section: Fields) {
    && "ams" in section
    && (!section["ams"].Obj? || ("ams" in section["ams"].fields && !section["ams"].fields["ams"].List?))
  }

  /** The list of units that the last report to say anything about it left. */
  function LastList(events: seq<Event>): Option<seq<Json>> {
    if events == [] then None
    else
      var before := LastList(events[..|events| - 1]);
      var e := events[|events| - 1];
      if !IsStatusReport(e) then before
      else
        var section := StatusSection(e.payload).value;
        if ReportedUnits(section).Some? then ReportedUnits(section)
        else if DropsUnits(section) then None else before
  }

  lemma UnitsAfterReport(integer: Json -> Option<int>, s: Status, payload: Fields, now: real)
    requires StatusSection(payload).Some?
    ensures var section := StatusSection(payload).value;
            StoredUnits(Apply(integer, s, payload, now).raw) ==
            if ReportedUnits(section).Some? then ReportedUnits(section)
            else if DropsUnits(section) then None else StoredUnits(s.raw)
  {
    var section := StatusSection(payload).value;
    var path := ["print", "ams", "ams"];
    var update := Obj(map["print" := Obj(section)]);
    PathLaw(Obj(s.raw), update, path);
    assert path[1..] == ["ams", "ams"] && ["ams", "ams"][1..] == ["ams"] && ["ams"][1..] == [];
    assert update.fields["print"] == Obj(section);
    AmsCutOff(section);
  }

  lemma AmsCutOff(section: Fields)
    ensures CutOff(Obj(map["print" := Obj(section)]), ["print", "ams", "ams"]) <==>
            "ams" in section && !section["ams"].Obj?
  {
    var update := Obj(map["print" := Obj(section)]);
    CutOffBelow(update, ["print", "ams", "ams"]);
    assert ["print", "ams", "ams"][1..] == ["ams", "ams"] && update.fields["print"] == Obj(section);
    CutOffBelow(Obj(section), ["ams", "ams"]);
    assert ["ams", "ams"][1..] == ["ams"];
    if "ams" in section {
      var v := section["ams"];
      assert ["ams"][..0] == [] && At(v, []) == Some(v);
      if v.Obj? { CutOffBelow(v, ["ams"]); assert ["ams"][1..] == []; }
    }
  }

  /** Nothing but a print section is ever stored. */
  predicate OnlyPrint(raw: Fields) {
    raw.Keys <= {"print"} && ("print" in raw ==> raw["print"].Obj?)
  }

  lemma PrintIsStored(integer: Json -> Option<int>, s: Status, payload: Fields, now: real)
    requires OnlyPrint(s.raw)
    ensures OnlyPrint(Apply(integer, s, payload, now).raw)
  {
    if StatusSection(payload).Some? {
      var section := Obj(StatusSection(payload).value);
      var update := map["print" := section];
      var merged := Merge(Obj(s.raw), Obj(update)).fields;
      assert merged.Keys == s.raw.Keys + update.Keys;
      assert merged["print"] == if "print" in s.raw then Merge(s.raw["print"], section) else section;
    }
  }

  /** What is stored of the units after any events is the last list reported. */
  lemma {:induction false} StoredIsLastList(integer: Json -> Option<int>, events: seq<Event>)
    ensures var raw := After(integer, INITIAL, events).raw; OnlyPrint(raw) && StoredUnits(raw) == LastList(events)
  {
    if events == [] {
      assert StoredUnits(INITIAL.raw) == None;
    } else {
      var n := |events| - 1;
      var before := After(integer, INITIAL, events[..n]);
      StoredIsLastList(integer, events[..n]);
      if events[n].Reported? { PrintIsStored(integer, before, events[n].payload, events[n].now); }
      if IsStatusReport(events[n]) {
        UnitsAfterReport(integer, before, events[n].payload, events[n].now);
      }
    }
  }

  /** The print sections of all reports, merged one after the other. */
  function MergedSections(events: seq<Event>): Option<Json> {
    if events == [] then None
    else
      var before, e := MergedSections(events[..|events| - 1]), events[|events| - 1];
      if !IsStatusReport(e) then before
      else if before.None? then Some(e.payload["print"]) else Some(Merge(before.value, e.payload["print"]))
  }

  /** What is stored is exactly that: no field of any report is left out or made up. */
  lemma {:induction false} StoredIsMerged(integer: Json -> Option<int>, events: seq<Event>)
    ensures var raw := After(integer, INITIAL, events).raw;
            match MergedSections(events)
            case None => raw == map[]
            case Some(section) => section.Obj? && raw == map["print" := section]
  {
    if events == [] {
    } else {
      StoredIsMerged(integer, events[..|events| - 1]);
      var before, e := After(integer, INITIAL, events[..|events| - 1]).raw, events[|events| - 1];
      if IsStatusReport(e) {
        var section := e.payload["print"];
        var merged := Merge(Obj(before), Obj(map["print" := section])).fields;
        assert merged.Keys == {"print"};
        assert merged["print"] == if "print" in before then Merge(before["print"], section) else section;
      }
    }
  }

  /** The value of a field in the last report that has it. */
  function LastValue(events: seq<Event>, key: string): Option<Json> {
    if events == [] then None
    else
      var e := events[|events| - 1];
      if IsStatusReport(e) && key in e.payload["print"].fields then Some(e.payload["print"].fields[key])
      else LastValue(events[..|events| - 1], key)
  }

  predicate HasLast(section: Fields, key: string, last: Option<Json>) {
    && (key in section <==> last.Some?)
    && (last.Some? ==> if last.value.Obj? then section[key].Obj? else section[key] == last.value)
  }

  lemma {:induction false} MergedHasLast(events: seq<Event>, key: string)
    ensures match MergedSections(events)
            case None => LastValue(events, key).None?
            case Some(section) => section.Obj? && HasLast(section.fields, key, LastValue(events, key))
  {
    if events == [] {
    } else {
      MergedHasLast(events[..|events| - 1], key);
      var before, e := MergedSections(events[..|events| - 1]), events[|events| - 1];
      if IsStatusReport(e) && before.Some? {
        LastAfterMerge(before.value.fields, e.payload["print"].fields, key, LastValue(events[..|events| - 1], key));
      }
    }
  }

  lemma LastAfterMerge(section: Fields, update: Fields, key: string, last: Option<Json>)
    requires HasLast(section, key, last)
    ensures HasLast(Merge(Obj(section), Obj(update)).fields, key, if key in update then Some(update[key]) else last)
  {
    var merged := Merge(Obj(section), Obj(update)).fields;
    assert key in merged <==> key in section || key in update;
    if key in update && key in section { assert merged[key] == Merge(section[key], update[key]); }
  }

  /** A field that is no object is stored as last reported, whichever reports left it out since. */
  lemma StoredIsLastValue(integer: Json -> Option<int>, events: seq<Event>, key: string)
    ensures var raw := After(integer, INITIAL, events).raw;
            if "print" in raw then raw["print"].Obj? && HasLast(raw["print"].fields, key, LastValue(events, key))
            else LastValue(events, key).None?
  {
    StoredIsMerged(integer, events);
    MergedHasLast(events, key);
  }

  /** The connection as last marked, or as a report implies. */
  function LastConnection(events: seq<Event>): Connection {
    if events == [] then Starting
    else
      var e := events[|events| - 1];
      if e.Marked? then e.connection else if IsStatusReport(e) then Online else LastConnection(events[..|events| - 1])
  }

  lemma {:induction false} ConnectionIsLast(integer: Json -> Option<int>, events: seq<Event>)
    ensures After(integer, INITIAL, events).connection == LastConnection(events)
  {
    if events == [] {
    } else {
      ConnectionIsLast(integer, events[..|events| - 1]);
    }
  }

  predicate CarriesUnits(e: Event) {
    IsStatusReport(e) && ReportedUnits(StatusSection(e.payload).value).Some?
  }

  function UnitsOf(e: Event): seq<Json>
    requires CarriesUnits(e)
  {
    ReportedUnits(StatusSection(e.payload).value).value
  }

  lemma {:induction false} LastUnits(integer: Json -> Option<int>, s: Status, events: seq<Event>)
    requires StoredUnits(After(integer, s, events).raw).Some?
    ensures var stored := StoredUnits(After(integer, s, events).raw).value;
            || (exists e :: 0 <= e < |events| && CarriesUnits(events[e]) && UnitsOf(events[e]) == stored)
            || ((forall e :: 0 <= e < |events| ==> !CarriesUnits(events[e])) && StoredUnits(s.raw) == Some(stored))
  {
    if events == [] {
    } else {
      var n := |events| - 1;
      var before := After(integer, s, events[..n]);
      if events[n].Reported? {
        ReportReplacesUnits(integer, before, events[n].payload, events[n].now);
      }
      if !CarriesUnits(events[n]) {
        LastUnits(integer, s, events[..n]);
        if e :| 0 <= e < n && CarriesUnits(events[..n][e]) && UnitsOf(events[..n][e]) == StoredUnits(before.raw).value {
          assert events[e] == events[..n][e];
        } else {
          assert forall e :: 0 <= e < n ==> events[e] == events[..n][e];
        }
      }
    }
  }

  lemma {:induction false} GenerationNeedsUnits(integer: Json -> Option<int>, s: Status, events: seq<Event>, id: int)
    requires forall e :: 0 <= e < |events| ==> !CarriesUnits(events[e])
    ensures After(integer, s, events).generations == s.generations
  {
    if events == [] {
    } else {
      GenerationNeedsUnits(integer, s, events[..|events| - 1], id);
    }
  }

  /**
    Fresh confirmation.  Read the generation in state s; if after any further events the wait is satisfied, then
    the dry_time it relied on was delivered by one of those events: a push_status whose own list of units shows
    the unit in the requested state.
  */
  lemma ConfirmationIsFresh(integer: Json -> Option<int>, s: Status, events: seq<Event>, id: int, active: bool)
    requires Confirmed(integer, After(integer, s, events), id, active, Generation(s.generations, id))
    ensures exists e :: 0 <= e < |events| && CarriesUnits(events[e])
              && StoredUnits(After(integer, s, events).raw) == Some(UnitsOf(events[e]))
              && ShowsDrying(integer, UnitsOf(events[e]), id, active)
  {
    LastUnits(integer, s, events);
    if forall e :: 0 <= e < |events| ==> !CarriesUnits(events[e]) {
      GenerationNeedsUnits(integer, s, events, id);
    }
  }

  /** Conversely a push_status that shows the unit, by its id, in the requested state is always enough. */
  lemma ReportConfirms(integer: Json -> Option<int>, s: Status, payload: Fields, now: real, id: int, active: bool)
    requires StatusSection(payload).Some? && ReportedUnits(StatusSection(payload).value).Some?
    requires ShowsDrying(integer, ReportedUnits(StatusSection(payload).value).value, id, active)
    ensures Confirmed(integer, Apply(integer, s, payload, now), id, active, Generation(s.generations, id))
  {
    var units := ReportedUnits(StatusSection(payload).value).value;
    ReportReplacesUnits(integer, s, payload, now);
    FoundUnit(integer, units, 0, id);
    var index := FindUnit(integer, units, 0, id).value;
    assert CountedUnit(integer, units, index) == Some(id);
    CountedGrows(integer, units, |units|, s.generations, id);
  }

  lemma {:induction false} GenerationGrows(integer: Json -> Option<int>, s: Status, events: seq<Event>, id: int)
    ensures Generation(After(integer, s, events).generations, id) >= Generation(s.generations, id)
  {
    if events == [] {
    } else {
      var n := |events| - 1;
      GenerationGrows(integer, s, events[..n], id);
      if CarriesUnits(events[n]) {
        CountedGrows(integer, UnitsOf(events[n]), |UnitsOf(events[n])|, After(integer, s, events[..n]).generations, id);
      }
    }
  }
}
