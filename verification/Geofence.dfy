/** The geofence engine: one evaluation of a vehicle position against the live zones. */
module Geofence {
  import opened Wrappers

  type Ring = seq<(real, real)>

  /** Whether a (lat, lon) point lies in a ring; left abstract. */
  type PointInPolygon = (real, real, Ring) -> bool

  datatype Zone = Zone(id: string, kind: string, ring: Ring, warnMin: real, challanMin: real)

  /** One stay of a vehicle in a zone; times are seconds. */
  datatype Visit = Visit(entry: real, violated: bool)

  /** The open stays of one vehicle: a dictionary in insertion order. */
  datatype Stays = Stays(keys: seq<string>, visits: map<string, Visit>)

  const NONE_OPEN := Stays([], map[])

  datatype Event =
    | Enter(zone: string)
    | RestrictedEntry(zone: string)
    | NoParkingViolation(zone: string, dwellS: int, critical: bool)
    | Exit(zone: string, dwellS: int)

  datatype LogRow = LogRow(vehicle: string, driver: Option<string>, at: real, event: Event)

  /** One call; a position may lack either coordinate. */
  datatype Input = Input(vehicle: string, driver: Option<string>, lat: Option<real>, lon: Option<real>,
                         zones: seq<Zone>, now: real)

  const NO_PARKING := "no_parking"
  const RESTRICTED := "restricted"

  /** Python's `int` on a float: truncation toward zero. */
  function Trunc(x: real): int {
    if x >= 0.0 then x.Floor else -((-x).Floor)
  }

  /** Seconds are cut toward zero: never more than the time in size, and less than one off. */
  lemma TruncCutsTowardZero(x: real)
    ensures x >= 0.0 ==> 0.0 <= Trunc(x) as real <= x < Trunc(x) as real + 1.0
    ensures x <= 0.0 ==> Trunc(x) as real - 1.0 < x <= Trunc(x) as real <= 0.0
  {
  }

  predicate Contains(pip: PointInPolygon, z: Zone, lat: real, lon: real) {
    |z.ring| > 0 && pip(lat, lon, z.ring)
  }

  /** The zones around a point by id; of two zones with one id the later counts. */
  function Inside(pip: PointInPolygon, zones: seq<Zone>, lat: real, lon: real): map<string, Zone> {
    if |zones| == 0 then map[]
    else
      var last := zones[|zones| - 1];
      var rest := Inside(pip, zones[..|zones| - 1], lat, lon);
      if Contains(pip, last, lat, lon) then rest[last.id := last] else rest
  }

  /** The ids of those zones, each at its first place in the zone list. */
  function InsideOrder(pip: PointInPolygon, zones: seq<Zone>, lat: real, lon: real): seq<string> {
    if |zones| == 0 then []
    else
      var last := zones[|zones| - 1];
      var rest := InsideOrder(pip, zones[..|zones| - 1], lat, lon);
      if Contains(pip, last, lat, lon) && last.id !in rest then rest + [last.id] else rest
  }

  // --- The three phases of one evaluation ------------------------------------

  datatype Phase = Phase(stays: Stays, events: seq<Event>)

  function EnterEvents(z: Zone, id: string): seq<Event> {
    [Enter(id)] + if z.kind == RESTRICTED then [RestrictedEntry(id)] else []
  }

  function EnterOne(z: Zone, id: string, p: Phase, now: real): Phase {
    if id in p.stays.visits then p
    else Phase(Stays(p.stays.keys + [id], p.stays.visits[id := Visit(now, z.kind == RESTRICTED)]),
               p.events + EnterEvents(z, id))
  }

  /** Opens a stay for each zone of `order` that has none yet; a restricted entry is a violation at once. */
  function EnterPhase(inside: map<string, Zone>, order: seq<string>, stays: Stays, now: real): Phase
    requires forall id | id in order :: id in inside
  {
    if |order| == 0 then Phase(stays, [])
    else
      var id := order[|order| - 1];
      EnterOne(inside[id], id, EnterPhase(inside, order[..|order| - 1], stays, now), now)
  }

  /** The stay overruns the warning limit of its no-parking zone and was not reported yet. */
  predicate Overruns(z: Zone, v: Visit, now: real) {
    z.kind == NO_PARKING && !v.violated && now - v.entry >= z.warnMin * 60.0
  }

  function OverrunEvent(z: Zone, id: string, v: Visit, now: real): Event {
    NoParkingViolation(id, Trunc(now - v.entry), now - v.entry >= z.challanMin * 60.0)
  }

  function DwellOne(inside: map<string, Zone>, id: string, p: Phase, now: real): Phase {
    if id in p.stays.visits && id in inside && Overruns(inside[id], p.stays.visits[id], now) then
      var v := p.stays.visits[id];
      Phase(p.stays.(visits := p.stays.visits[id := v.(violated := true)]),
            p.events + [OverrunEvent(inside[id], id, v, now)])
    else p
  }

  /** Reports each overrunning stay once. */
  function DwellPhase(inside: map<string, Zone>, keys: seq<string>, stays: Stays, now: real): Phase {
    if |keys| == 0 then Phase(stays, [])
    else DwellOne(inside, keys[|keys| - 1], DwellPhase(inside, keys[..|keys| - 1], stays, now), now)
  }

  function Without(keys: seq<string>, id: string): seq<string> {
    if |keys| == 0 then []
    else Without(keys[..|keys| - 1], id) + if keys[|keys| - 1] == id then [] else [keys[|keys| - 1]]
  }

  function ExitEvent(id: string, v: Visit, now: real): Event {
    Exit(id, Trunc(now - v.entry))
  }

  function ExitOne(inside: map<string, Zone>, id: string, p: Phase, now: real): Phase {
    if id in p.stays.visits && id !in inside then
      Phase(Stays(Without(p.stays.keys, id), p.stays.visits - {id}),
            p.events + [ExitEvent(id, p.stays.visits[id], now)])
    else p
  }

  /** Closes the stays in zones that no longer contain the vehicle. */
  function ExitPhase(inside: map<string, Zone>, keys: seq<string>, stays: Stays, now: real): Phase {
    if |keys| == 0 then Phase(stays, [])
    else ExitOne(inside, keys[|keys| - 1], ExitPhase(inside, keys[..|keys| - 1], stays, now), now)
  }

  lemma {:induction false} OrderIsInside(pip: PointInPolygon, zones: seq<Zone>, lat: real, lon: real)
    ensures forall id :: id in InsideOrder(pip, zones, lat, lon) <==> id in Inside(pip, zones, lat, lon)
  {
    if |zones| != 0 {
      OrderIsInside(pip, zones[..|zones| - 1], lat, lon);
    }
  }

  function Evaluate(inside: map<string, Zone>, order: seq<string>, stays: Stays, now: real): Phase
    requires forall id | id in order :: id in inside
  {
    var p1 := EnterPhase(inside, order, stays, now);
    var p2 := DwellPhase(inside, p1.stays.keys, p1.stays, now);
    var p3 := ExitPhase(inside, p2.stays.keys, p2.stays, now);
    Phase(p3.stays, p1.events + p2.events + p3.events)
  }

  // --- The engine ------------------------------------------------------------

  datatype State = State(open: map<string, Stays>, log: seq<LogRow>)

  function StaysOf(st: State, vehicle: string): Stays {
    if vehicle in st.open then st.open[vehicle] else NONE_OPEN
  }

  function LogRows(x: Input, events: seq<Event>): (rows: seq<LogRow>)
    ensures |rows| == |events|
    ensures forall i | 0 <= i < |events| :: rows[i] == LogRow(x.vehicle, x.driver, x.now, events[i])
  {
    if |events| == 0 then []
    else LogRows(x, events[..|events| - 1]) + [LogRow(x.vehicle, x.driver, x.now, events[|events| - 1])]
  }

  function PhaseOf(pip: PointInPolygon, st: State, x: Input): Phase
    requires x.lat.Some? && x.lon.Some?
  {
    OrderIsInside(pip, x.zones, x.lat.value, x.lon.value);
    Evaluate(Inside(pip, x.zones, x.lat.value, x.lon.value), InsideOrder(pip, x.zones, x.lat.value, x.lon.value),
             StaysOf(st, x.vehicle), x.now)
  }

  function Step(pip: PointInPolygon, st: State, x: Input): State {
    if x.lat.None? || x.lon.None? then st
    else
      var p := PhaseOf(pip, st, x);
      State(if |p.stays.visits| > 0 then st.open[x.vehicle := p.stays] else st.open - {x.vehicle},
            st.log + LogRows(x, p.events))
  }

  const START := State(map[], [])

  function Execute(pip: PointInPolygon, inputs: seq<Input>): State {
    if |inputs| == 0 then START
    else Step(pip, Execute(pip, inputs[..|inputs| - 1]), inputs[|inputs| - 1])
  }

  // --- The engine as it runs -------------------------------------------------

  class GeofenceEngine {
    const pip: PointInPolygon
    var zones: seq<Zone>
    var state: map<string, Stays>
    var log: seq<LogRow>

    ghost function Snapshot(): State
      reads this
    {
      State(state, log)
    }

    constructor (pip: PointInPolygon)
      ensures this.pip == pip && zones == [] && Snapshot() == START
    {
      this.pip := pip;
      zones, state, log := [], map[], [];
    }

    /** Swaps in the zone list read from the database. */
    method RefreshZones(rows: seq<Zone>)
      modifies this`zones
      ensures zones == rows
    {
      zones := rows;
    }

    method FindInside(lat: real, lon: real) returns (inside: map<string, Zone>, order: seq<string>)
      ensures inside == Inside(pip, zones, lat, lon) && order == InsideOrder(pip, zones, lat, lon)
      ensures forall id | id in order :: id in inside
    {
      inside, order := map[], [];
      for i := 0 to |zones|
        invariant inside == Inside(pip, zones[..i], lat, lon) && order == InsideOrder(pip, zones[..i], lat, lon)
      {
        assert zones[..i + 1][..i] == zones[..i];
        if Contains(pip, zones[i], lat, lon) {
          if zones[i].id !in order {
            order := order + [zones[i].id];
          }
          inside := inside[zones[i].id := zones[i]];
        }
      }
      assert zones[..|zones|] == zones;
      OrderIsInside(pip, zones, lat, lon);
    }

    method OpenStays(inside: map<string, Zone>, order: seq<string>, start: Stays, now: real)
      returns (prev: Stays, emitted: seq<Event>)
      requires forall id | id in order :: id in inside
      ensures Phase(prev, emitted) == EnterPhase(inside, order, start, now)
    {
      prev, emitted := start, [];
      for i := 0 to |order|
        invariant EnterPhase(inside, order[..i], start, now) == Phase(prev, emitted)
      {
        assert order[..i + 1][..i] == order[..i];
        var id := order[i];
        if id !in prev.visits {
          prev := Stays(prev.keys + [id], prev.visits[id := Visit(now, inside[id].kind == RESTRICTED)]);
          emitted := emitted + EnterEvents(inside[id], id);
        }
      }
      assert order[..|order|] == order;
    }

    method RaiseOverruns(inside: map<string, Zone>, start: Stays, now: real)
      returns (prev: Stays, raised: seq<Event>)
      ensures Phase(prev, raised) == DwellPhase(inside, start.keys, start, now)
    {
      prev, raised := start, [];
      var items := start.keys;
      for i := 0 to |items|
        invariant DwellPhase(inside, items[..i], start, now) == Phase(prev, raised)
      {
        assert items[..i + 1][..i] == items[..i];
        var id := items[i];
        if id in prev.visits && id in inside && Overruns(inside[id], prev.visits[id], now) {
          raised := raised + [OverrunEvent(inside[id], id, prev.visits[id], now)];
          prev := prev.(visits := prev.visits[id := prev.visits[id].(violated := true)]);
        }
      }
      assert items[..|items|] == items;
    }

    method CloseStays(inside: map<string, Zone>, start: Stays, now: real)
      returns (prev: Stays, left: seq<Event>)
      ensures Phase(prev, left) == ExitPhase(inside, start.keys, start, now)
    {
      prev, left := start, [];
      var items := start.keys;
      for i := 0 to |items|
        invariant ExitPhase(inside, items[..i], start, now) == Phase(prev, left)
      {
        assert items[..i + 1][..i] == items[..i];
        var id := items[i];
        if id in prev.visits && id !in inside {
          left := left + [ExitEvent(id, prev.visits[id], now)];
          prev := Stays(Without(prev.keys, id), prev.visits - {id});
        }
      }
      assert items[..|items|] == items;
    }

    method Persist(x: Input, emitted: seq<Event>)
      modifies this`log
      ensures log == old(log) + LogRows(x, emitted)
    {
      for i := 0 to |emitted|
        invariant log == old(log) + LogRows(x, emitted[..i])
      {
        assert emitted[..i + 1][..i] == emitted[..i];
        log := log + [LogRow(x.vehicle, x.driver, x.now, emitted[i])];
      }
      assert emitted[..|emitted|] == emitted;
    }

    /** Evaluates one position, logs what happened and returns the emitted events. */
    method EvaluatePosition(vehicle: string, lat: Option<real>, lon: Option<real>, driver: Option<string>, now: real)
      returns (emitted: seq<Event>)
      modifies this`state, this`log
      ensures Snapshot() == Step(pip, old(Snapshot()), Input(vehicle, driver, lat, lon, zones, now))
      ensures log == old(log) + LogRows(Input(vehicle, driver, lat, lon, zones, now), emitted)
    {
      var x := Input(vehicle, driver, lat, lon, zones, now);
      emitted := [];
      if lat.None? || lon.None? {
        return;
      }
      var inside, order := FindInside(lat.value, lon.value);
      var prev := if vehicle in state then state[vehicle] else NONE_OPEN;
      var raised, left;
      prev, emitted := OpenStays(inside, order, prev, now);
      prev, raised := RaiseOverruns(inside, prev, now);
      prev, left := CloseStays(inside, prev, now);
      emitted := emitted + raised + left;
      if |prev.visits| > 0 {
        state := state[vehicle := prev];
      } else {
        state := state - {vehicle};
      }
      Persist(x, emitted);
    }
  }
}
