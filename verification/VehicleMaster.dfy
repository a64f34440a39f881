/** The vehicle master: rows added, imported from the simulator and backfilled from driver assignments. */
module VehicleMaster {
  import opened Wrappers
  import opened Text
  import opened Keyed
  import opened VehicleIds
  import opened Enrollment

  const DEFAULT_TYPE := "Container Truck"

  datatype Vehicle = Vehicle(vehicleId: string, number: Option<string>, kind: Option<string>, chassis: Option<string>,
                             rfid: Option<string>, status: string, createdBy: Option<string>, createdAt: int,
                             updatedAt: int)

  /** Rows in insertion order, keyed by vehicle id. */
  type Fleet = seq<Vehicle>

  datatype Device = Device(deviceId: Option<string>, vehicleId: Option<string>, plate: Option<string>)

  datatype Patch = Patch(number: Option<Option<string>>, kind: Option<Option<string>>, chassis: Option<Option<string>>,
                         rfid: Option<Option<string>>, status: Option<string>)

  datatype Orphan = Orphan(driverId: string, name: Option<string>, vehicleNoNorm: string)

  function VehicleKey(): Vehicle -> string {
    (v: Vehicle) => v.vehicleId
  }

  predicate HasId(fleet: Fleet, id: string) {
    Has(VehicleKey(), fleet, id)
  }

  function NoneIfEmpty(s: string): Option<string> {
    if s == "" then None else Some(s)
  }

  /** Registers a vehicle under its normal id; a taken id is refused. */
  function Add(fleet: Fleet, id: string, number: string, kind: string, chassis: string, rfid: string, status: string,
               creator: Option<string>, now: int): Option<Fleet>
  {
    var vid := Normalize(id);
    if HasId(fleet, vid) then None
    else Some(fleet + [Vehicle(vid, NoneIfEmpty(number), NoneIfEmpty(kind), NoneIfEmpty(chassis), NoneIfEmpty(rfid),
                               status, creator, now, now)])
  }

  function Update(fleet: Fleet, id: string, patch: Patch, now: int): Fleet {
    var i := Position(VehicleKey(), fleet, Normalize(id));
    if i == |fleet| || patch == Patch(None, None, None, None, None) then fleet
    else
      var v := fleet[i];
      fleet[i := v.(number := if patch.number.Some? then patch.number.value else v.number,
                    kind := if patch.kind.Some? then patch.kind.value else v.kind,
                    chassis := if patch.chassis.Some? then patch.chassis.value else v.chassis,
                    rfid := if patch.rfid.Some? then patch.rfid.value else v.rfid,
                    status := if patch.status.Some? then patch.status.value else v.status,
                    updatedAt := now)]
  }

  function DeviceVid(dev: Device): string {
    Normalize(if OrEmpty(dev.deviceId) != "" then dev.deviceId.value else OrEmpty(dev.vehicleId))
  }

  /** Imports one simulator device unless its id is known. */
  function Import(fleet: Fleet, dev: Device, now: int): Fleet {
    var vid := DeviceVid(dev);
    if vid == "" || HasId(fleet, vid) then fleet
    else fleet + [Vehicle(vid, NoneIfEmpty(OrEmpty(dev.plate)), Some(DEFAULT_TYPE), None, None, ACTIVE,
                          Some("system:truck-sim"), now, now)]
  }

  function ImportAll(fleet: Fleet, devices: seq<Device>, now: int): Fleet {
    if |devices| == 0 then fleet
    else Import(ImportAll(fleet, devices[..|devices| - 1], now), devices[|devices| - 1], now)
  }

  /** The number of a backfilled row: the plate itself, or the driver's own entry when that is a plate. */
  function BackfillNumber(vid: string, vehicleNo: Option<string>): string {
    var raw := Strip(OrEmpty(vehicleNo));
    if LooksLikeTrkId(vid) then (if LooksLikeTrkId(Upper(raw)) then "" else raw) else vid
  }

  /** Adds the row one assignment points at, unless it exists. */
  function Backfill(fleet: Fleet, d: Driver, now: int): Fleet {
    var vid := Normalize(OrEmpty(d.vehicleNoNorm));
    if vid == "" || HasId(fleet, Normalize(vid)) then fleet
    else
      var added := Add(fleet, vid, BackfillNumber(vid, d.vehicleNo), DEFAULT_TYPE, "", "", ACTIVE,
                       Some("system:assignment-backfill"), now);
      if added.Some? then added.value else fleet
  }

  function BackfillAll(fleet: Fleet, assignments: seq<Driver>, now: int): Fleet {
    if |assignments| == 0 then fleet
    else Backfill(BackfillAll(fleet, assignments[..|assignments| - 1], now), assignments[|assignments| - 1], now)
  }

  predicate IsOrphan(fleet: Fleet, d: Driver, activeOnly: bool) {
    && (activeOnly ==> d.status == ACTIVE)
    && Strip(OrEmpty(d.vehicleNoNorm)) != "" && !HasId(fleet, Strip(OrEmpty(d.vehicleNoNorm)))
  }

  function Orphans(fleet: Fleet, drivers: seq<Driver>, activeOnly: bool): seq<Orphan> {
    if |drivers| == 0 then []
    else
      var d := drivers[|drivers| - 1];
      Orphans(fleet, drivers[..|drivers| - 1], activeOnly)
      + if IsOrphan(fleet, d, activeOnly) then [Orphan(d.driverId, d.name, Strip(OrEmpty(d.vehicleNoNorm)))] else []
  }

  function Ids(fleet: Fleet): (ids: seq<string>)
    ensures |ids| == |fleet| && forall i | 0 <= i < |fleet| :: ids[i] == fleet[i].vehicleId
  {
    if |fleet| == 0 then [] else Ids(fleet[..|fleet| - 1]) + [fleet[|fleet| - 1].vehicleId]
  }

  // --- Runs ------------------------------------------------------------------

  datatype Op =
    | OpMint(number: string, kind: string, creator: Option<string>, now: int)
    | OpAdd(id: string, number: string, kind: string, status: string, creator: Option<string>, now: int)
    | OpUpdate(id: string, patch: Patch, now: int)
    | OpImport(devices: seq<Device>, now: int)
    | OpBackfill(drivers: seq<Driver>, now: int)

  function AddedOr(fleet: Fleet, added: Option<Fleet>): Fleet {
    if added.Some? then added.value else fleet
  }

  /** An operator creates a vehicle under the next id. */
  function Mint(fleet: Fleet, number: string, kind: string, creator: Option<string>, now: int): Fleet {
    AddedOr(fleet, Add(fleet, NextId(Ids(fleet)), number, kind, "", "", ACTIVE, creator, now))
  }

  function Step(fleet: Fleet, op: Op): Fleet {
    match op
    case OpMint(number, kind, creator, now) => Mint(fleet, number, kind, creator, now)
    case OpAdd(id, number, kind, status, creator, now) =>
      AddedOr(fleet, Add(fleet, id, number, kind, "", "", status, creator, now))
    case OpUpdate(id, patch, now) => Update(fleet, id, patch, now)
    case OpImport(devices, now) => ImportAll(fleet, devices, now)
    case OpBackfill(drivers, now) => BackfillAll(fleet, AllAssignments(drivers), now)
  }

  function Run(ops: seq<Op>): Fleet {
    if |ops| == 0 then [] else Step(Run(ops[..|ops| - 1]), ops[|ops| - 1])
  }

  class Master {
    var vehicles: Fleet

    constructor ()
      ensures vehicles == []
    {
      vehicles := [];
    }

    method NextVehicleId() returns (id: string)
      ensures id == NextId(Ids(vehicles))
    {
      var highest: nat := 0;
      for i := 0 to |vehicles|
        invariant highest == Highest(Ids(vehicles)[..i])
      {
        assert Ids(vehicles)[..i + 1][..i] == Ids(vehicles)[..i];
        var n := SeqOf(vehicles[i].vehicleId);
        if n >= OPERATOR_ID_FLOOR && n > highest {
          highest := n;
        }
      }
      assert Ids(vehicles)[..|vehicles|] == Ids(vehicles);
      id := NextAfter(highest);
    }

    method AddVehicle(id: string, number: string, kind: string, chassis: string, rfid: string, status: string,
                      creator: Option<string>, now: int)
      returns (ok: bool)
      modifies this
      ensures var added := Add(old(vehicles), id, number, kind, chassis, rfid, status, creator, now);
              ok == added.Some? && vehicles == AddedOr(old(vehicles), added)
    {
      var vid := Normalize(id);
      if HasId(vehicles, vid) {
        return false;
      }
      vehicles := vehicles + [Vehicle(vid, NoneIfEmpty(number), NoneIfEmpty(kind), NoneIfEmpty(chassis),
                                      NoneIfEmpty(rfid), status, creator, now, now)];
      return true;
    }

    method SyncFromFleet(devices: seq<Device>, now: int) returns (inserted: nat)
      modifies this
      ensures vehicles == ImportAll(old(vehicles), devices, now)
      ensures inserted == |vehicles| - |old(vehicles)|
    {
      inserted := 0;
      for i := 0 to |devices|
        invariant vehicles == ImportAll(old(vehicles), devices[..i], now)
        invariant inserted == |vehicles| - |old(vehicles)|
      {
        assert devices[..i + 1][..i] == devices[..i];
        var vid := DeviceVid(devices[i]);
        if vid == "" || HasId(vehicles, vid) {
          continue;
        }
        vehicles := vehicles + [Vehicle(vid, NoneIfEmpty(OrEmpty(devices[i].plate)), Some(DEFAULT_TYPE), None, None,
                                        ACTIVE, Some("system:truck-sim"), now, now)];
        inserted := inserted + 1;
      }
      assert devices[..|devices|] == devices;
    }

    method SyncFromAssignments(drivers: seq<Driver>, now: int) returns (inserted: nat)
      modifies this
      ensures vehicles == BackfillAll(old(vehicles), AllAssignments(drivers), now)
      ensures inserted == |vehicles| - |old(vehicles)|
    {
      var assignments := AllAssignments(drivers);
      inserted := 0;
      for i := 0 to |assignments|
        invariant vehicles == BackfillAll(old(vehicles), assignments[..i], now)
        invariant inserted == |vehicles| - |old(vehicles)|
      {
        assert assignments[..i + 1][..i] == assignments[..i];
        var vid := Normalize(OrEmpty(assignments[i].vehicleNoNorm));
        if vid == "" || HasId(vehicles, Normalize(vid)) {
          continue;
        }
        var ok := AddVehicle(vid, BackfillNumber(vid, assignments[i].vehicleNo), DEFAULT_TYPE, "", "", ACTIVE,
                             Some("system:assignment-backfill"), now);
        inserted := inserted + if ok then 1 else 0;
      }
      assert assignments[..|assignments|] == assignments;
    }

    method OrphanActiveDrivers(drivers: seq<Driver>, activeOnly: bool) returns (orphans: seq<Orphan>)
      ensures orphans == Orphans(vehicles, drivers, activeOnly)
    {
      orphans := [];
      for i := 0 to |drivers|
        invariant orphans == Orphans(vehicles, drivers[..i], activeOnly)
      {
        assert drivers[..i + 1][..i] == drivers[..i];
        var d := drivers[i];
        if activeOnly && d.status != ACTIVE {
          continue;
        }
        var vid := Strip(OrEmpty(d.vehicleNoNorm));
        if vid != "" && !HasId(vehicles, vid) {
          orphans := orphans + [Orphan(d.driverId, d.name, vid)];
        }
      }
      assert drivers[..|drivers|] == drivers;
    }
  }

  // --- Rows are keyed by distinct normal ids ---------------------------------

  ghost predicate FleetOk(fleet: Fleet) {
    && DistinctKeys(VehicleKey(), fleet)
    && forall i | 0 <= i < |fleet| :: Normalize(fleet[i].vehicleId) == fleet[i].vehicleId
  }

  lemma AppendKeepsFleet(fleet: Fleet, v: Vehicle, raw: string)
    requires FleetOk(fleet) && v.vehicleId == Normalize(raw) && !HasId(fleet, v.vehicleId)
    ensures FleetOk(fleet + [v])
  {
    NormalizeTwice(raw);
    HasExactly(VehicleKey(), fleet, v.vehicleId);
    hide Normalize;
  }

  lemma UpdateKeepsIds(fleet: Fleet, id: string, patch: Patch, now: int)
    ensures |Update(fleet, id, patch, now)| == |fleet| && Ids(Update(fleet, id, patch, now)) == Ids(fleet)
    ensures FleetOk(fleet) ==> FleetOk(Update(fleet, id, patch, now))
  {
    hide Normalize;
    var after := Update(fleet, id, patch, now);
    assert forall i | 0 <= i < |fleet| :: after[i].vehicleId == fleet[i].vehicleId;
  }

  lemma {:induction false} ImportKeepsFleet(fleet: Fleet, dev: Device, now: int)
    requires FleetOk(fleet)
    ensures FleetOk(Import(fleet, dev, now)) && fleet <= Import(fleet, dev, now)
  {
    hide Normalize, FleetOk, HasId;
    var raw := if OrEmpty(dev.deviceId) != "" then dev.deviceId.value else OrEmpty(dev.vehicleId);
    var after := Import(fleet, dev, now);
    if after != fleet {
      AppendKeepsFleet(fleet, after[|fleet|], raw);
    }
  }

  lemma {:induction false} ImportAllKeepsFleet(fleet: Fleet, devices: seq<Device>, now: int)
    requires FleetOk(fleet)
    ensures FleetOk(ImportAll(fleet, devices, now)) && fleet <= ImportAll(fleet, devices, now)
  {
    if |devices| != 0 {
      ImportAllKeepsFleet(fleet, devices[..|devices| - 1], now);
      ImportKeepsFleet(ImportAll(fleet, devices[..|devices| - 1], now), devices[|devices| - 1], now);
      hide FleetOk, Import;
    }
  }

  lemma {:induction false} AddKeepsFleet(fleet: Fleet, id: string, number: string, kind: string, chassis: string,
                                         rfid: string, status: string, creator: Option<string>, now: int)
    requires FleetOk(fleet)
    ensures var after := AddedOr(fleet, Add(fleet, id, number, kind, chassis, rfid, status, creator, now));
            FleetOk(after) && fleet <= after
  {
    hide Normalize, FleetOk, HasId;
    var after := AddedOr(fleet, Add(fleet, id, number, kind, chassis, rfid, status, creator, now));
    if after != fleet {
      AppendKeepsFleet(fleet, after[|fleet|], id);
    }
  }

  lemma {:induction false} BackfillKeepsFleet(fleet: Fleet, d: Driver, now: int)
    requires FleetOk(fleet)
    ensures FleetOk(Backfill(fleet, d, now)) && fleet <= Backfill(fleet, d, now)
  {
    hide Normalize, FleetOk, HasId, Add;
    var vid := Normalize(OrEmpty(d.vehicleNoNorm));
    AddKeepsFleet(fleet, vid, BackfillNumber(vid, d.vehicleNo), DEFAULT_TYPE, "", "", ACTIVE,
                  Some("system:assignment-backfill"), now);
  }

  lemma {:induction false} BackfillAllKeepsFleet(fleet: Fleet, assignments: seq<Driver>, now: int)
    requires FleetOk(fleet)
    ensures FleetOk(BackfillAll(fleet, assignments, now)) && fleet <= BackfillAll(fleet, assignments, now)
  {
    if |assignments| != 0 {
      BackfillAllKeepsFleet(fleet, assignments[..|assignments| - 1], now);
      BackfillKeepsFleet(BackfillAll(fleet, assignments[..|assignments| - 1], now), assignments[|assignments| - 1],
                         now);
      hide FleetOk, Backfill;
    }
  }
}
