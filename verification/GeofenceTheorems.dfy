/** The engine refines one small automaton per (vehicle, zone), and what whole traces of that automaton satisfy. */
module GeofenceTheorems {
  import opened Wrappers
  import opened Geofence

  // --- The reference automaton -----------------------------------------------

  predicate IsRestricted(z: Zone) {
    z.kind == "restricted"
  }

  predicate IsNoParking(z: Zone) {
    z.kind == "no_parking"
  }

  /** What one evaluation means for zone `id` alone; `z` is the zone when it contains the vehicle. */
  function ZoneStep(id: string, z: Option<Zone>, st: Option<Visit>, now: real): (Option<Visit>, seq<Event>) {
    match z
    case None =>
      (None, if st.Some? then [Exit(id, Trunc(now - st.value.entry))] else [])
    case Some(zone) =>
      var v := if st.Some? then st.value else Visit(now, IsRestricted(zone));
      var entering :=
        if st.Some? then []
        else if IsRestricted(zone) then [Enter(id), RestrictedEntry(id)]
        else [Enter(id)];
      if Overruns(zone, v, now) then
        (Some(Visit(v.entry, true)),
         entering + [NoParkingViolation(id, Trunc(now - v.entry), now - v.entry >= zone.challanMin * 60.0)])
      else (Some(v), entering)
  }

  function At(inside: map<string, Zone>, id: string): Option<Zone> {
    if id in inside then Some(inside[id]) else None
  }

  function ForZone(events: seq<Event>, id: string): seq<Event> {
    if |events| == 0 then []
    else ForZone(events[..|events| - 1], id)
         + if events[|events| - 1].zone == id then [events[|events| - 1]] else []
  }

  function Visiting(stays: Stays, id: string): Option<Visit> {
    if id in stays.visits then Some(stays.visits[id]) else None
  }

  /** The key list names exactly the open stays. */
  ghost predicate Listed(stays: Stays) {
    forall id :: id in stays.keys <==> id in stays.visits
  }

  // --- The three phases, zone by zone ----------------------------------------

  lemma {:induction false} ForZoneConcat(a: seq<Event>, b: seq<Event>, id: string)
    ensures ForZone(a + b, id) == ForZone(a, id) + ForZone(b, id)
  {
    if |b| == 0 {
      assert a + b == a;
    } else {
      assert (a + b)[..|a + b| - 1] == a + b[..|b| - 1];
      ForZoneConcat(a, b[..|b| - 1], id);
    }
  }

  lemma {:induction false} ForZoneUniform(events: seq<Event>, x: string, id: string)
    requires forall i | 0 <= i < |events| :: events[i].zone == x
    ensures ForZone(events, id) == if x == id then events else []
  {
    if |events| != 0 {
      ForZoneUniform(events[..|events| - 1], x, id);
    }
  }

  lemma ForZoneAdd(events: seq<Event>, es: seq<Event>, x: string, id: string)
    requires forall i | 0 <= i < |es| :: es[i].zone == x
    ensures x != id ==> ForZone(events + es, id) == ForZone(events, id)
    ensures x == id && ForZone(events, id) == [] ==> ForZone(events + es, id) == es
  {
    ForZoneConcat(events, es, id);
    ForZoneUniform(es, x, id);
  }

  /** What the first phase does to one zone. */
  function Entering(inside: map<string, Zone>, id: string, st: Option<Visit>, now: real): (Option<Visit>, seq<Event>) {
    if st.None? && id in inside then
      (Some(Visit(now, inside[id].kind == RESTRICTED)), EnterEvents(inside[id], id))
    else (st, [])
  }

  function Dwelling(inside: map<string, Zone>, id: string, st: Option<Visit>, now: real): (Option<Visit>, seq<Event>) {
    if st.Some? && id in inside && Overruns(inside[id], st.value, now) then
      (Some(st.value.(violated := true)), [OverrunEvent(inside[id], id, st.value, now)])
    else (st, [])
  }

  function Exiting(inside: map<string, Zone>, id: string, st: Option<Visit>, now: real): (Option<Visit>, seq<Event>) {
    if st.Some? && id !in inside then (None, [ExitEvent(id, st.value, now)]) else (st, [])
  }

  /** A phase seen from one zone. */
  function View(p: Phase, id: string): (Option<Visit>, seq<Event>) {
    (Visiting(p.stays, id), ForZone(p.events, id))
  }

  lemma EnterOneByZone(z: Zone, x: string, p: Phase, now: real, id: string)
    ensures var before, after := View(p, id), View(EnterOne(z, x, p, now), id);
            && (x != id || before.0.Some? ==> after == before)
            && (x == id && before == (None, []) ==>
                  after == (Some(Visit(now, z.kind == RESTRICTED)), EnterEvents(z, id)))
  {
    if x !in p.stays.visits {
      ForZoneAdd(p.events, EnterEvents(z, x), x, id);
    }
  }

  lemma {:induction false} EnterPhaseByZone(inside: map<string, Zone>, order: seq<string>, stays: Stays, now: real,
                                            id: string)
    requires forall x | x in order :: x in inside
    ensures View(EnterPhase(inside, order, stays, now), id)
              == if id in order then Entering(inside, id, Visiting(stays, id), now) else (Visiting(stays, id), [])
  {
    if |order| != 0 {
      var front, x := order[..|order| - 1], order[|order| - 1];
      EnterPhaseByZone(inside, front, stays, now, id);
      assert id in order <==> id in front || id == x;
      EnterOneByZone(inside[x], x, EnterPhase(inside, front, stays, now), now, id);
    }
  }

  lemma {:induction false} EnterPhaseKeepsListed(inside: map<string, Zone>, order: seq<string>, stays: Stays, now: real)
    requires Listed(stays) && forall x | x in order :: x in inside
    ensures Listed(EnterPhase(inside, order, stays, now).stays)
  {
    if |order| != 0 {
      EnterPhaseKeepsListed(inside, order[..|order| - 1], stays, now);
    }
  }

  lemma DwellOneByZone(inside: map<string, Zone>, x: string, p: Phase, now: real, id: string)
    ensures var before, after := View(p, id), View(DwellOne(inside, x, p, now), id);
            && (x != id ==> after == before)
            && (x == id && before.1 == [] ==> after == Dwelling(inside, id, before.0, now))
            && (before.0.Some? && before.0.value.violated ==> after == before)
  {
    if x in p.stays.visits && x in inside && Overruns(inside[x], p.stays.visits[x], now) {
      ForZoneAdd(p.events, [OverrunEvent(inside[x], x, p.stays.visits[x], now)], x, id);
    }
  }

  lemma {:induction false} DwellPhaseByZone(inside: map<string, Zone>, keys: seq<string>, stays: Stays, now: real,
                                            id: string)
    ensures View(DwellPhase(inside, keys, stays, now), id)
              == if id in keys then Dwelling(inside, id, Visiting(stays, id), now) else (Visiting(stays, id), [])
  {
    if |keys| != 0 {
      var front, x := keys[..|keys| - 1], keys[|keys| - 1];
      DwellPhaseByZone(inside, front, stays, now, id);
      assert id in keys <==> id in front || id == x;
      DwellOneByZone(inside, x, DwellPhase(inside, front, stays, now), now, id);
    }
  }

  lemma {:induction false} DwellPhaseKeepsListed(inside: map<string, Zone>, keys: seq<string>, stays: Stays, now: real)
    requires Listed(stays)
    ensures DwellPhase(inside, keys, stays, now).stays.keys == stays.keys
    ensures DwellPhase(inside, keys, stays, now).stays.visits.Keys == stays.visits.Keys
  {
    if |keys| != 0 {
      DwellPhaseKeepsListed(inside, keys[..|keys| - 1], stays, now);
    }
  }

  lemma {:induction false} WithoutDrops(keys: seq<string>, id: string)
    ensures forall x :: x in Without(keys, id) <==> x in keys && x != id
  {
    if |keys| != 0 {
      WithoutDrops(keys[..|keys| - 1], id);
      assert keys == keys[..|keys| - 1] + [keys[|keys| - 1]];
    }
  }

  lemma {:induction false} ExitPhaseKeepsListed(inside: map<string, Zone>, keys: seq<string>, stays: Stays, now: real)
    requires Listed(stays)
    ensures Listed(ExitPhase(inside, keys, stays, now).stays)
  {
    if |keys| != 0 {
      ExitPhaseKeepsListed(inside, keys[..|keys| - 1], stays, now);
      WithoutDrops(ExitPhase(inside, keys[..|keys| - 1], stays, now).stays.keys, keys[|keys| - 1]);
    }
  }

  lemma ExitOneByZone(inside: map<string, Zone>, x: string, p: Phase, now: real, id: string)
    ensures var before, after := View(p, id), View(ExitOne(inside, x, p, now), id);
            && (x != id ==> after == before)
            && (x == id && before.1 == [] ==> after == Exiting(inside, id, before.0, now))
            && (before.0.None? ==> after == before)
  {
    if x in p.stays.visits && x !in inside {
      ForZoneAdd(p.events, [ExitEvent(x, p.stays.visits[x], now)], x, id);
    }
  }

  lemma {:induction false} ExitPhaseByZone(inside: map<string, Zone>, keys: seq<string>, stays: Stays, now: real,
                                           id: string)
    ensures View(ExitPhase(inside, keys, stays, now), id)
              == if id in keys then Exiting(inside, id, Visiting(stays, id), now) else (Visiting(stays, id), [])
  {
    if |keys| != 0 {
      var front, x := keys[..|keys| - 1], keys[|keys| - 1];
      ExitPhaseByZone(inside, front, stays, now, id);
      assert id in keys <==> id in front || id == x;
      ExitOneByZone(inside, x, ExitPhase(inside, front, stays, now), now, id);
    }
  }

  /** The three phases on one zone, put together. */
  lemma PhasesMakeZoneStep(inside: map<string, Zone>, st: Option<Visit>, id: string, now: real)
    ensures var (v1, e1) := Entering(inside, id, st, now);
            var (v2, e2) := Dwelling(inside, id, v1, now);
            var (v3, e3) := Exiting(inside, id, v2, now);
            (v3, e1 + e2 + e3) == ZoneStep(id, At(inside, id), st, now)
  {
    var (v1, e1) := Entering(inside, id, st, now);
    var (v2, e2) := Dwelling(inside, id, v1, now);
    var (v3, e3) := Exiting(inside, id, v2, now);
    if id in inside {
      var z := inside[id];
      assert EnterEvents(z, id) == if z.kind == RESTRICTED then [Enter(id), RestrictedEntry(id)] else [Enter(id)];
      assert e1 + e2 + e3 == e1 + e2;
      assert e2 == [] ==> e1 + e2 == e1;
      assert e1 == [] ==> e1 + e2 == e2;
    } else {
      assert e1 + e2 + e3 == e3;
    }
  }

  /** One evaluation over all zones does to each zone exactly what the automaton does to it alone. */
  lemma EvaluationRefinesZoneStep(inside: map<string, Zone>, order: seq<string>, stays: Stays, now: real, id: string)
    requires Listed(stays)
    requires forall x :: x in order <==> x in inside
    ensures var p := Evaluate(inside, order, stays, now);
            && Listed(p.stays)
            && (Visiting(p.stays, id), ForZone(p.events, id)) == ZoneStep(id, At(inside, id), Visiting(stays, id), now)
  {
    var p1 := EnterPhase(inside, order, stays, now);
    var p2 := DwellPhase(inside, p1.stays.keys, p1.stays, now);
    var p3 := ExitPhase(inside, p2.stays.keys, p2.stays, now);
    EnterPhaseByZone(inside, order, stays, now, id);
    EnterPhaseKeepsListed(inside, order, stays, now);
    DwellPhaseByZone(inside, p1.stays.keys, p1.stays, now, id);
    DwellPhaseKeepsListed(inside, p1.stays.keys, p1.stays, now);
    ExitPhaseByZone(inside, p2.stays.keys, p2.stays, now, id);
    ExitPhaseKeepsListed(inside, p2.stays.keys, p2.stays, now);
    ForZoneConcat(p1.events, p2.events, id);
    ForZoneConcat(p1.events + p2.events, p3.events, id);
    PhasesMakeZoneStep(inside, Visiting(stays, id), id, now);
  }

  // --- Whole runs ------------------------------------------------------------

  datatype Stamped = Stamped(at: real, event: Event)

  /** What the log says about one vehicle and one zone. */
  function Trace(log: seq<LogRow>, vehicle: string, id: string): seq<Stamped> {
    if |log| == 0 then []
    else
      var r := log[|log| - 1];
      Trace(log[..|log| - 1], vehicle, id)
      + if r.vehicle == vehicle && r.event.zone == id then [Stamped(r.at, r.event)] else []
  }

  function Stamp(events: seq<Event>, at: real): seq<Stamped> {
    if |events| == 0 then [] else Stamp(events[..|events| - 1], at) + [Stamped(at, events[|events| - 1])]
  }

  lemma StampAppend(events: seq<Event>, e: Event, at: real)
    ensures Stamp(events + [e], at) == Stamp(events, at) + [Stamped(at, e)]
  {
    assert (events + [e])[..|events|] == events;
  }

  datatype Course = Course(visit: Option<Visit>, trace: seq<Stamped>)

  /** An input that the engine evaluates for `vehicle`. */
  predicate Concerns(x: Input, vehicle: string) {
    x.vehicle == vehicle && x.lat.Some? && x.lon.Some?
  }

  function ZoneAt(pip: PointInPolygon, x: Input, id: string): Option<Zone>
    requires x.lat.Some? && x.lon.Some?
  {
    At(Inside(pip, x.zones, x.lat.value, x.lon.value), id)
  }

  /** The automaton of one vehicle and one zone, run over the inputs of that vehicle. */
  function ZoneRun(pip: PointInPolygon, inputs: seq<Input>, vehicle: string, id: string): Course {
    if |inputs| == 0 then Course(None, [])
    else
      var c := ZoneRun(pip, inputs[..|inputs| - 1], vehicle, id);
      var x := inputs[|inputs| - 1];
      if !Concerns(x, vehicle) then c
      else
        var (v, es) := ZoneStep(id, ZoneAt(pip, x, id), c.visit, x.now);
        Course(v, c.trace + Stamp(es, x.now))
  }

  lemma {:induction false} TraceConcat(a: seq<LogRow>, b: seq<LogRow>, vehicle: string, id: string)
    ensures Trace(a + b, vehicle, id) == Trace(a, vehicle, id) + Trace(b, vehicle, id)
  {
    if |b| == 0 {
      assert a + b == a;
    } else {
      assert (a + b)[..|a + b| - 1] == a + b[..|b| - 1];
      TraceConcat(a, b[..|b| - 1], vehicle, id);
    }
  }

  lemma {:induction false} TraceOfLogRows(x: Input, events: seq<Event>, vehicle: string, id: string)
    ensures Trace(LogRows(x, events), vehicle, id)
              == if x.vehicle == vehicle then Stamp(ForZone(events, id), x.now) else []
  {
    if |events| != 0 {
      var n := |events| - 1;
      TraceOfLogRows(x, events[..n], vehicle, id);
      assert LogRows(x, events)[..n] == LogRows(x, events[..n]);
      StampAppend(ForZone(events[..n], id), events[n], x.now);
      assert ForZone(events[..n], id) + [] == ForZone(events[..n], id);
      assert Trace(LogRows(x, events[..n]), vehicle, id) + [] == Trace(LogRows(x, events[..n]), vehicle, id);
    }
  }

  lemma {:induction false} StaysAreListed(pip: PointInPolygon, inputs: seq<Input>, vehicle: string)
    ensures Listed(StaysOf(Execute(pip, inputs), vehicle))
    ensures vehicle in Execute(pip, inputs).open ==> Execute(pip, inputs).open[vehicle].visits != map[]
  {
    if |inputs| != 0 {
      StaysAreListed(pip, inputs[..|inputs| - 1], vehicle);
      var x := inputs[|inputs| - 1];
      if Concerns(x, vehicle) {
        OrderIsInside(pip, x.zones, x.lat.value, x.lon.value);
        EvaluationRefinesZoneStep(Inside(pip, x.zones, x.lat.value, x.lon.value),
                                  InsideOrder(pip, x.zones, x.lat.value, x.lon.value),
                                  StaysOf(Execute(pip, inputs[..|inputs| - 1]), vehicle), x.now, "");
      }
    }
  }

  lemma StepLogsPhase(pip: PointInPolygon, st: State, x: Input, vehicle: string, id: string)
    requires x.lat.Some? && x.lon.Some?
    ensures var p := PhaseOf(pip, st, x);
            Trace(Step(pip, st, x).log, vehicle, id)
              == Trace(st.log, vehicle, id) + if x.vehicle == vehicle then Stamp(ForZone(p.events, id), x.now) else []
  {
    var p := PhaseOf(pip, st, x);
    TraceConcat(st.log, LogRows(x, p.events), vehicle, id);
    TraceOfLogRows(x, p.events, vehicle, id);
  }

  /** One engine step, seen from one vehicle and one zone. */
  lemma {:induction false} StepRefinesZoneStep(pip: PointInPolygon, st: State, x: Input, vehicle: string, id: string)
    requires Listed(StaysOf(st, vehicle))
    ensures var after := Step(pip, st, x);
            var v, t := Visiting(StaysOf(after, vehicle), id), Trace(after.log, vehicle, id);
            if !Concerns(x, vehicle) then v == Visiting(StaysOf(st, vehicle), id) && t == Trace(st.log, vehicle, id)
            else var (w, es) := ZoneStep(id, ZoneAt(pip, x, id), Visiting(StaysOf(st, vehicle), id), x.now);
                 v == w && t == Trace(st.log, vehicle, id) + Stamp(es, x.now)
  {
    if x.lat.Some? && x.lon.Some? {
      StepLogsPhase(pip, st, x, vehicle, id);
      if x.vehicle == vehicle {
        OrderIsInside(pip, x.zones, x.lat.value, x.lon.value);
        EvaluationRefinesZoneStep(Inside(pip, x.zones, x.lat.value, x.lon.value),
                                  InsideOrder(pip, x.zones, x.lat.value, x.lon.value), StaysOf(st, vehicle), x.now, id);
      }
    }
  }

  /** In every run, state and log seen from one vehicle and one zone are exactly the automaton's. */
  lemma {:induction false} EngineRefinesZoneRun(pip: PointInPolygon, inputs: seq<Input>, vehicle: string, id: string)
    ensures var st := Execute(pip, inputs);
            Course(Visiting(StaysOf(st, vehicle), id), Trace(st.log, vehicle, id)) == ZoneRun(pip, inputs, vehicle, id)
  {
    if |inputs| != 0 {
      var front := inputs[..|inputs| - 1];
      EngineRefinesZoneRun(pip, front, vehicle, id);
      StaysAreListed(pip, front, vehicle);
      StepRefinesZoneStep(pip, Execute(pip, front), inputs[|inputs| - 1], vehicle, id);
    }
  }

  // --- Occupancy -------------------------------------------------------------

  /** The `i`th zone of the list bears `id`, has a ring, and the ring holds the point. */
  predicate Holds(pip: PointInPolygon, zones: seq<Zone>, lat: real, lon: real, id: string, i: int) {
    0 <= i < |zones| && zones[i].id == id && |zones[i].ring| > 0 && pip(lat, lon, zones[i].ring)
  }

  /** And no later one does. */
  ghost predicate HoldsLast(pip: PointInPolygon, zones: seq<Zone>, lat: real, lon: real, id: string, i: int) {
    && Holds(pip, zones, lat, lon, id, i)
    && forall j | Holds(pip, zones, lat, lon, id, j) :: j <= i
  }

  /** The zones around a point are those of the list that hold it; of several with one id the last counts. */
  lemma {:induction false} InsideIsWhatHolds(pip: PointInPolygon, zones: seq<Zone>, lat: real, lon: real, id: string)
    ensures id in Inside(pip, zones, lat, lon) <==> exists i :: Holds(pip, zones, lat, lon, id, i)
    ensures forall i | HoldsLast(pip, zones, lat, lon, id, i) :: At(Inside(pip, zones, lat, lon), id) == Some(zones[i])
    ensures id in Inside(pip, zones, lat, lon) ==> exists i :: HoldsLast(pip, zones, lat, lon, id, i)
  {
    if |zones| != 0 {
      var n := |zones| - 1;
      var front := zones[..n];
      InsideIsWhatHolds(pip, front, lat, lon, id);
      assert forall i | i < n :: Holds(pip, front, lat, lon, id, i) <==> Holds(pip, zones, lat, lon, id, i);
      if Holds(pip, zones, lat, lon, id, n) {
        assert HoldsLast(pip, zones, lat, lon, id, n);
      } else {
        forall i ensures HoldsLast(pip, zones, lat, lon, id, i) <==> HoldsLast(pip, front, lat, lon, id, i) {
        }
      }
    }
  }

  /** Right after an evaluation, the vehicle's open zones are exactly those of the list whose ring holds it. */
  lemma {:induction false} OpenZonesAreTheContainingZones(pip: PointInPolygon, inputs: seq<Input>, id: string)
    requires |inputs| > 0 && Concerns(inputs[|inputs| - 1], inputs[|inputs| - 1].vehicle)
    ensures var x := inputs[|inputs| - 1];
            Visiting(StaysOf(Execute(pip, inputs), x.vehicle), id).Some?
            <==> exists i :: 0 <= i < |x.zones| && x.zones[i].id == id && |x.zones[i].ring| > 0
                             && pip(x.lat.value, x.lon.value, x.zones[i].ring)
  {
    var x := inputs[|inputs| - 1];
    EngineRefinesZoneRun(pip, inputs, x.vehicle, id);
    InsideIsWhatHolds(pip, x.zones, x.lat.value, x.lon.value, id);
    forall i ensures Holds(pip, x.zones, x.lat.value, x.lon.value, id, i)
                     <==> 0 <= i < |x.zones| && x.zones[i].id == id && |x.zones[i].ring| > 0
                          && pip(x.lat.value, x.lon.value, x.zones[i].ring)
    {
    }
    hide Holds;
  }

  /** An evaluation of one vehicle changes neither the open zones nor the trace of another. */
  lemma OtherVehiclesAreUntouched(pip: PointInPolygon, inputs: seq<Input>, vehicle: string, id: string)
    requires |inputs| > 0 && inputs[|inputs| - 1].vehicle != vehicle
    ensures var before, after := Execute(pip, inputs[..|inputs| - 1]), Execute(pip, inputs);
            && StaysOf(after, vehicle) == StaysOf(before, vehicle)
            && Trace(after.log, vehicle, id) == Trace(before.log, vehicle, id)
  {
    EngineRefinesZoneRun(pip, inputs, vehicle, id);
    EngineRefinesZoneRun(pip, inputs[..|inputs| - 1], vehicle, id);
  }

  // --- Trace shape -----------------------------------------------------------

  datatype Mode = Outside | Within(since: real, violated: bool)

  function Advance(before: Option<Mode>, s: Stamped): Option<Mode> {
    match s.event
    case Enter(_) =>
      if before == Some(Outside) then Some(Within(s.at, false)) else None
    case Exit(_, _) =>
      if before.Some? && before.value.Within? then Some(Outside) else None
    case _ =>
      if before.Some? && before.value.Within? && !before.value.violated then Some(Within(before.value.since, true))
      else None
  }

  /**
   * The legal traces: ENTER and EXIT alternate, and between them comes at most one violation. A legal trace
   * tells since when the vehicle is within the zone, and whether a violation was logged since then.
   */
  function Replay(trace: seq<Stamped>): Option<Mode> {
    if |trace| == 0 then Some(Outside)
    else Advance(Replay(trace[..|trace| - 1]), trace[|trace| - 1])
  }

  function ModeOf(v: Option<Visit>): Mode {
    if v.None? then Outside else Within(v.value.entry, v.value.violated)
  }

  lemma ReplayOne(trace: seq<Stamped>, s: Stamped)
    ensures Replay(trace + [s]) == Advance(Replay(trace), s)
  {
    assert (trace + [s])[..|trace|] == trace;
  }

  lemma ReplayNone(trace: seq<Stamped>, now: real)
    ensures trace + Stamp([], now) == trace
  {
  }

  lemma ReplayTwo(trace: seq<Stamped>, now: real, e: Event, f: Event)
    ensures Replay(trace + Stamp([e], now)) == Advance(Replay(trace), Stamped(now, e))
    ensures Replay(trace + Stamp([e, f], now)) == Advance(Advance(Replay(trace), Stamped(now, e)), Stamped(now, f))
  {
    assert [] + [e] == [e] && [e] + [f] == [e, f];
    StampAppend([], e, now);
    StampAppend([e], f, now);
    assert trace + Stamp([e], now) == trace + [Stamped(now, e)];
    assert trace + Stamp([e, f], now) == trace + [Stamped(now, e)] + [Stamped(now, f)];
    ReplayOne(trace, Stamped(now, e));
    ReplayOne(trace + [Stamped(now, e)], Stamped(now, f));
  }

  lemma OverrunIsUnreported(z: Zone, v: Visit, now: real)
    requires Overruns(z, v, now)
    ensures !v.violated
  {
  }

  lemma ReplayStep(trace: seq<Stamped>, id: string, z: Option<Zone>, st: Option<Visit>, now: real)
    requires Replay(trace) == Some(ModeOf(st))
    ensures var (v, es) := ZoneStep(id, z, st, now);
            Replay(trace + Stamp(es, now)) == Some(ModeOf(v))
  {
    hide IsRestricted, Overruns, Replay, Stamp, Trunc;
    var (v, es) := ZoneStep(id, z, st, now);
    if z.Some? {
      var u := if st.Some? then st.value else Visit(now, IsRestricted(z.value));
      if Overruns(z.value, u, now) {
        OverrunIsUnreported(z.value, u, now);
      }
    }
    if |es| == 0 {
      ReplayNone(trace, now);
    } else if |es| == 1 {
      assert es == [es[0]];
      ReplayTwo(trace, now, es[0], es[0]);
    } else {
      assert es == [es[0], es[1]];
      ReplayTwo(trace, now, es[0], es[1]);
    }
  }

  /** Every trace is legal, and what it tells is the engine's current state for that vehicle and zone. */
  lemma {:induction false} TracesAreLegal(pip: PointInPolygon, inputs: seq<Input>, vehicle: string, id: string)
    ensures var st := Execute(pip, inputs);
            Replay(Trace(st.log, vehicle, id)) == Some(ModeOf(Visiting(StaysOf(st, vehicle), id)))
  {
    EngineRefinesZoneRun(pip, inputs, vehicle, id);
    if |inputs| != 0 {
      var front, x := inputs[..|inputs| - 1], inputs[|inputs| - 1];
      TracesAreLegal(pip, front, vehicle, id);
      EngineRefinesZoneRun(pip, front, vehicle, id);
      if Concerns(x, vehicle) {
        var c := ZoneRun(pip, front, vehicle, id);
        ReplayStep(c.trace, id, ZoneAt(pip, x, id), c.visit, x.now);
      }
    }
  }

  // --- Parking limits --------------------------------------------------------

  /** When the stay that an evaluation finds or opens began. */
  function Since(m: Mode, now: real): real {
    if m.Within? then m.since else now
  }

  /** The vehicle is in a no-parking zone for at least the warning limit, with no violation logged since it entered. */
  predicate Due(z: Option<Zone>, m: Mode, now: real) {
    && z.Some? && IsNoParking(z.value)
    && !(m.Within? && m.violated)
    && now - Since(m, now) >= z.value.warnMin * 60.0
  }

  lemma ZoneStepReports(id: string, z: Option<Zone>, st: Option<Visit>, now: real)
    ensures var (v, es) := ZoneStep(id, z, st, now);
            var m := ModeOf(st);
            && (Due(z, m, now) ==>
                  |es| > 0 && es[|es| - 1] == OverrunEvent(z.value, id, Visit(Since(m, now), false), now))
            && forall i | 0 <= i < |es| :: es[i].NoParkingViolation? <==> Due(z, m, now) && i == |es| - 1
  {
  }

  lemma {:induction false} StampIs(events: seq<Event>, at: real)
    ensures |Stamp(events, at)| == |events|
    ensures forall i | 0 <= i < |events| :: Stamp(events, at)[i] == Stamped(at, events[i])
  {
    if |events| != 0 {
      StampIs(events[..|events| - 1], at);
    }
  }

  /** `e` is the violation of a stay in zone `z` that began at `since`. */
  predicate ReportsStay(e: Event, id: string, z: Zone, since: real, now: real) {
    e == NoParkingViolation(id, Trunc(now - since), now - since >= z.challanMin * 60.0)
  }

  /** From `before` to `after` the trace gains a violation last, and only then, if zone `z` is due to report one. */
  ghost predicate LogsTheDue(before: seq<Stamped>, after: seq<Stamped>, id: string, z: Option<Zone>, now: real) {
    && before <= after && Replay(before).Some?
    && (var m := Replay(before).value;
        && (Due(z, m, now) ==>
              && |after| > |before| && after[|after| - 1].at == now
              && ReportsStay(after[|after| - 1].event, id, z.value, Since(m, now), now))
        && forall i | |before| <= i < |after| ::
             after[i].event.NoParkingViolation? <==> Due(z, m, now) && i == |after| - 1)
  }

  lemma StepLogsTheDue(trace: seq<Stamped>, id: string, z: Option<Zone>, st: Option<Visit>, now: real)
    requires Replay(trace) == Some(ModeOf(st))
    ensures LogsTheDue(trace, trace + Stamp(ZoneStep(id, z, st, now).1, now), id, z, now)
  {
    var es := ZoneStep(id, z, st, now).1;
    ZoneStepReports(id, z, st, now);
    StampIs(es, now);
    hide ZoneStep, Due, Replay, Stamp, Trunc, Since;
    var after := trace + Stamp(es, now);
    assert forall i | |trace| <= i < |after| :: after[i] == Stamped(now, es[i - |trace|]);
  }

  lemma ViolationFollowsTheZone(pip: PointInPolygon, inputs: seq<Input>, id: string)
    requires |inputs| > 0 && Concerns(inputs[|inputs| - 1], inputs[|inputs| - 1].vehicle)
    ensures var x := inputs[|inputs| - 1];
            LogsTheDue(Trace(Execute(pip, inputs[..|inputs| - 1]).log, x.vehicle, id),
                       Trace(Execute(pip, inputs).log, x.vehicle, id), id, ZoneAt(pip, x, id), x.now)
  {
    var front, x := inputs[..|inputs| - 1], inputs[|inputs| - 1];
    hide LogsTheDue, ZoneStep, ZoneAt, Trace, Step, Visiting, Stamp, StaysOf, Replay;
    StaysAreListed(pip, front, x.vehicle);
    StepRefinesZoneStep(pip, Execute(pip, front), x, x.vehicle, id);
    TracesAreLegal(pip, front, x.vehicle, id);
    var before := Execute(pip, front);
    StepLogsTheDue(Trace(before.log, x.vehicle, id), id, ZoneAt(pip, x, id), Visiting(StaysOf(before, x.vehicle), id),
                   x.now);
  }

  /** The last zone `i` of the list that bears `id` and holds the vehicle is due to report it. */
  ghost predicate DueAt(pip: PointInPolygon, x: Input, id: string, m: Mode, i: int)
    requires x.lat.Some? && x.lon.Some?
  {
    && HoldsLast(pip, x.zones, x.lat.value, x.lon.value, id, i)
    && Due(Some(x.zones[i]), m, x.now)
  }

  /** The same, of the zone list. */
  ghost predicate LogsTheListed(pip: PointInPolygon, x: Input, id: string, before: seq<Stamped>, after: seq<Stamped>)
    requires x.lat.Some? && x.lon.Some?
  {
    && before <= after && Replay(before).Some?
    && (var m := Replay(before).value;
        && (forall i | DueAt(pip, x, id, m, i) ::
              && |after| > |before| && after[|after| - 1].at == x.now
              && ReportsStay(after[|after| - 1].event, id, x.zones[i], Since(m, x.now), x.now))
        && forall k | |before| <= k < |after| ::
             after[k].event.NoParkingViolation? <==> k == |after| - 1 && exists i :: DueAt(pip, x, id, m, i))
  }

  lemma ListedIsDue(pip: PointInPolygon, x: Input, id: string, m: Mode)
    requires x.lat.Some? && x.lon.Some?
    ensures Due(ZoneAt(pip, x, id), m, x.now) <==> exists i :: DueAt(pip, x, id, m, i)
    ensures forall i | DueAt(pip, x, id, m, i) :: ZoneAt(pip, x, id) == Some(x.zones[i])
  {
    InsideIsWhatHolds(pip, x.zones, x.lat.value, x.lon.value, id);
    assert Due(ZoneAt(pip, x, id), m, x.now) ==> ZoneAt(pip, x, id).Some?;
    hide Due, HoldsLast, Holds, Inside;
    if ZoneAt(pip, x, id).Some? {
      var i :| HoldsLast(pip, x.zones, x.lat.value, x.lon.value, id, i);
      assert DueAt(pip, x, id, m, i) <==> Due(ZoneAt(pip, x, id), m, x.now);
    }
  }

  lemma TheDueAreListed(pip: PointInPolygon, x: Input, id: string, before: seq<Stamped>, after: seq<Stamped>)
    requires x.lat.Some? && x.lon.Some? && LogsTheDue(before, after, id, ZoneAt(pip, x, id), x.now)
    ensures LogsTheListed(pip, x, id, before, after)
  {
    hide Due, DueAt, Replay, Since, ReportsStay, ZoneAt;
    ListedIsDue(pip, x, id, Replay(before).value);
  }

  /**
   * A parking violation is logged by exactly the evaluations at which it is due: the first one since the logged
   * entry whose dwell reaches the limit, with that dwell, and never again before the vehicle leaves.
   */
  lemma ViolationIsRaisedExactlyWhenDue(pip: PointInPolygon, inputs: seq<Input>, id: string)
    requires |inputs| > 0 && Concerns(inputs[|inputs| - 1], inputs[|inputs| - 1].vehicle)
    ensures var x := inputs[|inputs| - 1];
            LogsTheListed(pip, x, id, Trace(Execute(pip, inputs[..|inputs| - 1]).log, x.vehicle, id),
                          Trace(Execute(pip, inputs).log, x.vehicle, id))
  {
    hide LogsTheDue, LogsTheListed, Trace, Execute, ZoneAt;
    var x := inputs[|inputs| - 1];
    ViolationFollowsTheZone(pip, inputs, id);
    TheDueAreListed(pip, x, id, Trace(Execute(pip, inputs[..|inputs| - 1]).log, x.vehicle, id),
                    Trace(Execute(pip, inputs).log, x.vehicle, id));
  }

  // --- Dwell accounting ------------------------------------------------------

  /** Seconds of all finished stays. */
  function Dwelt(trace: seq<Stamped>): int {
    if |trace| == 0 then 0
    else Dwelt(trace[..|trace| - 1])
         + if trace[|trace| - 1].event.Exit? then trace[|trace| - 1].event.dwellS else 0
  }

  lemma {:induction false} DweltConcat(a: seq<Stamped>, b: seq<Stamped>)
    ensures Dwelt(a + b) == Dwelt(a) + Dwelt(b)
  {
    if |b| == 0 {
      assert a + b == a;
    } else {
      assert (a + b)[..|a + b| - 1] == a + b[..|b| - 1];
      DweltConcat(a, b[..|b| - 1]);
    }
  }

  /** First and last evaluation times of a vehicle. */
  datatype Span = Never | Span(first: real, last: real)

  function SpanOf(inputs: seq<Input>, vehicle: string): Span {
    if |inputs| == 0 then Never
    else
      var s, x := SpanOf(inputs[..|inputs| - 1], vehicle), inputs[|inputs| - 1];
      if !Concerns(x, vehicle) then s
      else if s.Never? then Span(x.now, x.now)
      else Span(s.first, x.now)
  }

  /** The clock never runs backwards between two evaluations of the vehicle. */
  ghost predicate ClockForward(inputs: seq<Input>, vehicle: string) {
    forall i, j | 0 <= i < j < |inputs| && Concerns(inputs[i], vehicle) && Concerns(inputs[j], vehicle) ::
      inputs[i].now <= inputs[j].now
  }

  lemma {:induction false} SpanEnds(inputs: seq<Input>, vehicle: string)
    ensures SpanOf(inputs, vehicle).Never? ==> forall i | 0 <= i < |inputs| :: !Concerns(inputs[i], vehicle)
    ensures SpanOf(inputs, vehicle).Span? ==>
              exists i :: 0 <= i < |inputs| && Concerns(inputs[i], vehicle)
                  && inputs[i].now == SpanOf(inputs, vehicle).last
  {
    if |inputs| != 0 {
      var n := |inputs| - 1;
      SpanEnds(inputs[..n], vehicle);
      if Concerns(inputs[n], vehicle) {
      } else if SpanOf(inputs, vehicle).Span? {
        var i :| 0 <= i < n && Concerns(inputs[..n][i], vehicle)
            && inputs[..n][i].now == SpanOf(inputs[..n], vehicle).last;
        assert Concerns(inputs[i], vehicle) && inputs[i].now == SpanOf(inputs, vehicle).last;
      }
    }
  }

  /** Time accounted to a course: finished stays and the running one. */
  ghost predicate WithinSpan(c: Course, s: Span) {
    if s.Never? then c == Course(None, [])
    else if c.visit.None? then Dwelt(c.trace) as real <= s.last - s.first
    else s.first <= c.visit.value.entry <= s.last
         && Dwelt(c.trace) as real + (s.last - c.visit.value.entry) <= s.last - s.first
  }

  lemma DweltOneExit(id: string, dwellS: int, at: real)
    ensures Dwelt(Stamp([Exit(id, dwellS)], at)) == dwellS
  {
    var s := Stamp([Exit(id, dwellS)], at);
    StampIs([Exit(id, dwellS)], at);
    assert |s| == 1 && s[..0] == [] && s[0].event == Exit(id, dwellS);
  }

  lemma {:induction false} StampWithoutExit(events: seq<Event>, at: real)
    requires forall i | 0 <= i < |events| :: !events[i].Exit?
    ensures Dwelt(Stamp(events, at)) == 0
  {
    if |events| != 0 {
      StampWithoutExit(events[..|events| - 1], at);
      StampIs(events, at);
      StampIs(events[..|events| - 1], at);
      assert Stamp(events, at)[..|events| - 1] == Stamp(events[..|events| - 1], at);
    }
  }

  lemma ZoneStepDwell(id: string, z: Option<Zone>, st: Option<Visit>, now: real)
    ensures var (v, es) := ZoneStep(id, z, st, now);
            && v.Some? == z.Some? && (v.Some? ==> v.value.entry == Since(ModeOf(st), now))
            && Dwelt(Stamp(es, now)) == if z.None? && st.Some? then Trunc(now - st.value.entry) else 0
  {
    var (v, es) := ZoneStep(id, z, st, now);
    if z.None? && st.Some? {
      DweltOneExit(id, Trunc(now - st.value.entry), now);
    } else {
      StampWithoutExit(es, now);
    }
  }

  lemma WithinSpanStep(c: Course, s: Span, id: string, z: Option<Zone>, now: real)
    requires WithinSpan(c, s) && (s.Span? ==> s.first <= s.last <= now)
    ensures var (v, es) := ZoneStep(id, z, c.visit, now);
            WithinSpan(Course(v, c.trace + Stamp(es, now)), if s.Never? then Span(now, now) else Span(s.first, now))
  {
    var es := ZoneStep(id, z, c.visit, now).1;
    DweltConcat(c.trace, Stamp(es, now));
    ZoneStepDwell(id, z, c.visit, now);
  }

  lemma {:induction false} CourseStaysWithinSpan(pip: PointInPolygon, inputs: seq<Input>, vehicle: string, id: string)
    requires ClockForward(inputs, vehicle)
    ensures WithinSpan(ZoneRun(pip, inputs, vehicle, id), SpanOf(inputs, vehicle))
    ensures SpanOf(inputs, vehicle).Span? ==> SpanOf(inputs, vehicle).first <= SpanOf(inputs, vehicle).last
  {
    if |inputs| != 0 {
      var n := |inputs| - 1;
      var front, x := inputs[..n], inputs[n];
      CourseStaysWithinSpan(pip, front, vehicle, id);
      if Concerns(x, vehicle) {
        SpanEnds(front, vehicle);
        if SpanOf(front, vehicle).Span? {
          var i :| 0 <= i < n && Concerns(front[i], vehicle) && front[i].now == SpanOf(front, vehicle).last;
          assert Concerns(inputs[i], vehicle);
        }
        WithinSpanStep(ZoneRun(pip, front, vehicle, id), SpanOf(front, vehicle), id, ZoneAt(pip, x, id), x.now);
      }
    }
  }

  /** On a clock that never runs backwards, the dwell logged for a zone fits in the time observed. */
  lemma DwellNeverExceedsElapsedTime(pip: PointInPolygon, inputs: seq<Input>, vehicle: string, id: string)
    requires ClockForward(inputs, vehicle)
    ensures var s, dwelt := SpanOf(inputs, vehicle), Dwelt(Trace(Execute(pip, inputs).log, vehicle, id));
            if s.Never? then dwelt == 0 else dwelt as real <= s.last - s.first
  {
    CourseStaysWithinSpan(pip, inputs, vehicle, id);
    EngineRefinesZoneRun(pip, inputs, vehicle, id);
  }
}
