/** Vehicle ids over every run of the master, and the backfill that closes orphaned assignments. */
module FleetTheorems {
  import opened Wrappers
  import opened Text
  import opened Keyed
  import opened VehicleIds
  import opened Enrollment
  import opened VM = VehicleMaster

  // --- What each operation writes --------------------------------------------

  /** An empty text is stored as nothing. */
  predicate Stores(field: Option<string>, given: string) {
    (given == "" ==> field == None) && (given != "" ==> field == Some(given))
  }

  ghost predicate IsTaken(fleet: Fleet, id: string) {
    exists i :: 0 <= i < |fleet| && fleet[i].vehicleId == id
  }

  lemma HasIdExactly(fleet: Fleet, id: string)
    ensures HasId(fleet, id) <==> IsTaken(fleet, id)
  {
    HasExactly(VehicleKey(), fleet, id);
    assert forall i | 0 <= i < |fleet| :: VehicleKey()(fleet[i]) == fleet[i].vehicleId;
  }

  /** One row goes to the end of the master. */
  ghost predicate Appends(fleet: Fleet, after: Fleet, id: string, number: string, kind: string, chassis: string,
                          rfid: string, status: string, creator: Option<string>, now: int)
  {
    && |after| == |fleet| + 1 && fleet <= after
    && (var v := after[|fleet|];
        && v.vehicleId == id && v.status == status && v.createdBy == creator && v.createdAt == v.updatedAt == now
        && Stores(v.number, number) && Stores(v.kind, kind) && Stores(v.chassis, chassis) && Stores(v.rfid, rfid))
  }

  /** A vehicle is added at the end under its normal id, and refused exactly when that id is taken. */
  lemma AddWrites(fleet: Fleet, id: string, number: string, kind: string, chassis: string, rfid: string, status: string,
                  creator: Option<string>, now: int)
    ensures var added := Add(fleet, id, number, kind, chassis, rfid, status, creator, now);
            && (added.None? <==> IsTaken(fleet, Normalize(id)))
            && (added.Some? ==>
                  Appends(fleet, added.value, Normalize(id), number, kind, chassis, rfid, status, creator, now))
  {
    HasIdExactly(fleet, Normalize(id));
    hide Normalize, HasId;
  }

  /** A field keeps its value unless the patch names it. */
  predicate Patched<T(==)>(before: T, after: T, patch: Option<T>) {
    after == if patch.Some? then patch.value else before
  }

  /** A patch that names a field changes those fields of the row of that id, and its time; any other changes nothing. */
  lemma UpdateWrites(fleet: Fleet, id: string, patch: Patch, now: int)
    ensures var after := Update(fleet, id, patch, now);
            && |after| == |fleet|
            && (!IsTaken(fleet, Normalize(id)) || patch == Patch(None, None, None, None, None) ==> after == fleet)
            && (forall i | 0 <= i < |fleet| && after[i] != fleet[i] ::
                  && fleet[i].vehicleId == Normalize(id) && after[i].updatedAt == now
                  && after[i].vehicleId == fleet[i].vehicleId && after[i].createdBy == fleet[i].createdBy
                  && after[i].createdAt == fleet[i].createdAt)
            && (IsTaken(fleet, Normalize(id)) && patch != Patch(None, None, None, None, None) ==>
                  exists i | 0 <= i < |fleet| && fleet[i].vehicleId == Normalize(id) ::
                    && after[i].updatedAt == now && Patched(fleet[i].number, after[i].number, patch.number)
                    && Patched(fleet[i].kind, after[i].kind, patch.kind)
                    && Patched(fleet[i].chassis, after[i].chassis, patch.chassis)
                    && Patched(fleet[i].rfid, after[i].rfid, patch.rfid)
                    && Patched(fleet[i].status, after[i].status, patch.status))
  {
    HasIdExactly(fleet, Normalize(id));
    var i := Position(VehicleKey(), fleet, Normalize(id));
    hide Normalize;
    assert i < |fleet| ==> VehicleKey()(fleet[i]) == fleet[i].vehicleId;
  }

  /** The id a device goes by. */
  predicate GoesBy(dev: Device, id: string) {
    if dev.deviceId.Some? && dev.deviceId.value != "" then id == Normalize(dev.deviceId.value)
    else if dev.vehicleId.Some? then id == Normalize(dev.vehicleId.value)
    else id == ""
  }

  lemma DeviceGoesBy(dev: Device)
    ensures GoesBy(dev, DeviceVid(dev))
  {
    assert Normalize("") == "";
  }

  /** A device with an id not yet taken is imported as an active container truck under its plate; any other is not. */
  lemma ImportWrites(fleet: Fleet, dev: Device, id: string, now: int)
    requires GoesBy(dev, id)
    ensures var after := Import(fleet, dev, now);
            if id == "" || IsTaken(fleet, id) then after == fleet
            else Appends(fleet, after, id, if dev.plate.Some? then dev.plate.value else "", "Container Truck", "", "",
                         "ACTIVE", Some("system:truck-sim"), now)
  {
    DeviceGoesBy(dev);
    HasIdExactly(fleet, id);
    hide Normalize, HasId, DeviceVid;
  }

  /** The number of a backfilled row. */
  ghost predicate NumbersRow(number: string, id: string, vehicleNo: Option<string>) {
    var raw := if vehicleNo.Some? then Strip(vehicleNo.value) else "";
    if !LooksLikeTrkId(id) then number == id
    else if LooksLikeTrkId(Upper(raw)) then number == "" else number == raw
  }

  /**
   * An assignment whose vehicle has no row gets one, active, numbered by the plate: the id itself, or the driver's own
   * entry when the id is a vehicle id and the entry is not.
   */
  lemma BackfillWrites(fleet: Fleet, d: Driver, now: int)
    ensures var after, id := Backfill(fleet, d, now),
                             if d.vehicleNoNorm.Some? then Normalize(d.vehicleNoNorm.value) else "";
            if id == "" || IsTaken(fleet, id) then after == fleet
            else exists number | NumbersRow(number, id, d.vehicleNo) ::
                   Appends(fleet, after, id, number, "Container Truck", "", "", "ACTIVE",
                           Some("system:assignment-backfill"), now)
  {
    var id := if d.vehicleNoNorm.Some? then Normalize(d.vehicleNoNorm.value) else "";
    assert Normalize("") == "" && Strip("") == "";
    NormalizeTwice(OrEmpty(d.vehicleNoNorm));
    HasIdExactly(fleet, id);
    var number := BackfillNumber(id, d.vehicleNo);
    assert NumbersRow(number, id, d.vehicleNo);
    hide Normalize, HasId, BackfillNumber, NumbersRow, Strip;
    AddWrites(fleet, id, number, DEFAULT_TYPE, "", "", ACTIVE, Some("system:assignment-backfill"), now);
  }

  // --- Operator ids ----------------------------------------------------------

  lemma IdsOfLonger(a: Fleet, b: Fleet)
    requires a <= b
    ensures Ids(a) <= Ids(b)
  {
  }

  lemma StepKeepsFleet(fleet: Fleet, op: VM.Op)
    requires FleetOk(fleet)
    ensures FleetOk(VM.Step(fleet, op)) && Ids(fleet) <= Ids(VM.Step(fleet, op))
  {
    hide FleetOk, Add, Normalize, NextId, Ids;
    match op
    case OpMint(number, kind, creator, now) =>
      AddKeepsFleet(fleet, NextId(Ids(fleet)), number, kind, "", "", ACTIVE, creator, now);
      IdsOfLonger(fleet, VM.Step(fleet, op));
    case OpAdd(id, number, kind, status, creator, now) =>
      AddKeepsFleet(fleet, id, number, kind, "", "", status, creator, now);
      IdsOfLonger(fleet, VM.Step(fleet, op));
    case OpUpdate(id, patch, now) => UpdateKeepsIds(fleet, id, patch, now);
    case OpImport(devices, now) =>
      ImportAllKeepsFleet(fleet, devices, now);
      IdsOfLonger(fleet, VM.Step(fleet, op));
    case OpBackfill(drivers, now) =>
      BackfillAllKeepsFleet(fleet, AllAssignments(drivers), now);
      IdsOfLonger(fleet, VM.Step(fleet, op));
  }

  lemma EmptyFleetIsOk()
    ensures FleetOk([])
  {
  }

  /** Ids stay distinct and normal in every run, and are only ever appended. */
  lemma {:induction false} EveryRunKeepsFleet(ops: seq<VM.Op>, k: nat)
    requires k <= |ops|
    ensures FleetOk(VM.Run(ops)) && Ids(VM.Run(ops[..k])) <= Ids(VM.Run(ops))
  {
    hide FleetOk, VM.Step, Ids;
    if |ops| == 0 {
      assert ops[..k] == ops;
      EmptyFleetIsOk();
    } else {
      var n := |ops| - 1;
      if k <= n {
        assert ops[..n][..k] == ops[..k];
        EveryRunKeepsFleet(ops[..n], k);
      } else {
        assert ops[..k] == ops;
        EveryRunKeepsFleet(ops[..n], n);
      }
      StepKeepsFleet(VM.Run(ops[..n]), ops[n]);
    }
  }

  /** A minted vehicle is added under its id, below the last suffix. */
  lemma {:induction false} MintAdds(fleet: Fleet, number: string, kind: string, creator: Option<string>, now: int)
    requires Highest(Ids(fleet)) < LAST_SUFFIX
    ensures Ids(Mint(fleet, number, kind, creator, now)) == Ids(fleet) + [NextId(Ids(fleet))]
  {
    var id := NextId(Ids(fleet));
    NextIdAdvances(Ids(fleet));
    TrkIdIsNormal(id);
    hide NextId, Normalize, Highest, LooksLikeTrkId;
    HasExactly(VehicleKey(), fleet, id);
    assert forall i | 0 <= i < |fleet| :: VehicleKey()(fleet[i]) == Ids(fleet)[i];
  }

  /** The id that the `k`th operation would mint. */
  function IdAt(ops: seq<VM.Op>, k: nat): string
    requires k <= |ops|
  {
    NextId(Ids(VM.Run(ops[..k])))
  }

  /**
   * In every run of adds, updates, imports and backfills, every operator vehicle gets an id no earlier
   * row has, in the operator range, and above every id minted before it, which all stay on file, while suffixes
   * last.
   */
  lemma {:induction false} MintedIdsIncrease(ops: seq<VM.Op>, j: nat, k: nat)
    requires j < k < |ops| && ops[j].OpMint? && ops[k].OpMint?
    requires Highest(Ids(VM.Run(ops[..k]))) < LAST_SUFFIX
    ensures SeqOf(IdAt(ops, k)) > SeqOf(IdAt(ops, j)) >= OPERATOR_ID_FLOOR
    ensures IdAt(ops, k) !in Ids(VM.Run(ops[..k])) && IdAt(ops, j) in Ids(VM.Run(ops[..k]))
  {
    hide NextId, Highest, SeqOf, Ids;
    var before, after, later := VM.Run(ops[..j]), VM.Run(ops[..j + 1]), VM.Run(ops[..k]);
    assert ops[..k][..j + 1] == ops[..j + 1] && ops[..k][..j] == ops[..j] && ops[..j + 1][..j] == ops[..j];
    EveryRunKeepsFleet(ops[..k], j);
    EveryRunKeepsFleet(ops[..k], j + 1);
    HighestOfLonger(Ids(before), Ids(later));
    NextIdAdvances(Ids(before));
    NextIdAdvances(Ids(later));
    var op := ops[j];
    MintAdds(before, op.number, op.kind, op.creator, op.now);
    HighestOfLonger(Ids(before), Ids(after));
    HighestOfLonger(Ids(after), Ids(later));
    assert Ids(after)[|Ids(before)|] == IdAt(ops, j);
  }

  lemma AppendedIsFound(fleet: Fleet, v: Vehicle, id: string)
    ensures HasId(fleet + [v], id) <==> HasId(fleet, id) || v.vehicleId == id
  {
    HasExactly(VehicleKey(), fleet, id);
    HasExactly(VehicleKey(), fleet + [v], id);
    var all := fleet + [v];
    if HasId(fleet, id) {
      var i :| 0 <= i < |fleet| && VehicleKey()(fleet[i]) == id;
      assert VehicleKey()(all[i]) == id;
    }
    if v.vehicleId == id {
      assert VehicleKey()(all[|fleet|]) == id;
    }
    if HasId(all, id) && v.vehicleId != id {
      var i :| 0 <= i < |all| && VehicleKey()(all[i]) == id;
      assert VehicleKey()(fleet[i]) == id;
    }
  }

  /** After an import exactly the earlier ids and those of the devices that have one are taken. */
  lemma {:induction false} ImportRows(fleet: Fleet, devices: seq<Device>, now: int, id: string)
    ensures fleet <= ImportAll(fleet, devices, now)
    ensures HasId(ImportAll(fleet, devices, now), id)
            <==> HasId(fleet, id) || (id != "" && exists d :: d in devices && GoesBy(d, id))
  {
    if |devices| != 0 {
      var front, last := devices[..|devices| - 1], devices[|devices| - 1];
      ImportRows(fleet, front, now, id);
      DeviceGoesBy(last);
      assert devices == front + [last];
      var mid, all := ImportAll(fleet, front, now), ImportAll(fleet, devices, now);
      assert GoesBy(last, id) <==> id == DeviceVid(last);
      hide HasId, DeviceVid, GoesBy;
      if all != mid {
        AppendedIsFound(mid, all[|mid|], id);
      }
    }
  }

  lemma {:induction false} ImportedIds(fleet: Fleet, devices: seq<Device>, now: int)
    ensures fleet <= ImportAll(fleet, devices, now)
    ensures forall i | |fleet| <= i < |ImportAll(fleet, devices, now)| ::
              exists d :: d in devices && ImportAll(fleet, devices, now)[i].vehicleId == DeviceVid(d)
  {
    hide DeviceVid;
    if |devices| != 0 {
      var front, last := devices[..|devices| - 1], devices[|devices| - 1];
      ImportedIds(fleet, front, now);
      assert devices == front + [last];
      var mid, all := ImportAll(fleet, front, now), ImportAll(fleet, devices, now);
      forall i | |fleet| <= i < |all| ensures exists d :: d in devices && all[i].vehicleId == DeviceVid(d) {
        if i < |mid| {
          var d :| d in front && mid[i].vehicleId == DeviceVid(d);
          assert d in devices && all[i].vehicleId == DeviceVid(d);
        } else {
          assert last in devices && all[i].vehicleId == DeviceVid(last);
        }
      }
    }
  }

  /** Importing simulator devices never moves the operator sequence, however many there are. */
  lemma {:induction false} SimulatorNeverMovesTheSequence(fleet: Fleet, devices: seq<Device>, now: int)
    requires forall d | d in devices :: SeqOf(DeviceVid(d)) < OPERATOR_ID_FLOOR
    ensures NextId(Ids(ImportAll(fleet, devices, now))) == NextId(Ids(fleet))
  {
    hide SeqOf, DeviceVid, Highest;
    var after := ImportAll(fleet, devices, now);
    ImportedIds(fleet, devices, now);
    IdsOfLonger(fleet, after);
    HighestOfLonger(Ids(fleet), Ids(after));
  }

  // --- Backfill --------------------------------------------------------------

  /** The vehicle id an assignment points at. */
  function Target(d: Driver): string {
    Normalize(OrEmpty(d.vehicleNoNorm))
  }

  /** One assignment adds the row it points at, or finds it there. */
  lemma BackfillOne(fleet: Fleet, d: Driver, now: int)
    ensures fleet <= Backfill(fleet, d, now)
    ensures forall id :: HasId(Backfill(fleet, d, now), id)
                         <==> HasId(fleet, id) || (Target(d) != "" && id == Target(d))
    ensures (Target(d) == "" || HasId(fleet, Target(d))) ==> Backfill(fleet, d, now) == fleet
  {
    NormalizeTwice(OrEmpty(d.vehicleNoNorm));
    hide Normalize, HasId;
    var after := Backfill(fleet, d, now);
    if after != fleet {
      forall id ensures HasId(after, id) <==> HasId(fleet, id) || id == Target(d) {
        AppendedIsFound(fleet, after[|fleet|], id);
      }
    }
  }

  /** The backfill holds exactly the rows there were and one for each assignment. */
  lemma {:induction false} BackfillRows(fleet: Fleet, assignments: seq<Driver>, now: int)
    ensures fleet <= BackfillAll(fleet, assignments, now)
    ensures forall id :: HasId(BackfillAll(fleet, assignments, now), id)
                         <==> HasId(fleet, id) || (id != "" && exists d :: d in assignments && Target(d) == id)
  {
    hide Backfill, HasId, Target;
    if |assignments| != 0 {
      var front, last := assignments[..|assignments| - 1], assignments[|assignments| - 1];
      BackfillRows(fleet, front, now);
      BackfillOne(BackfillAll(fleet, front, now), last, now);
      assert assignments == front + [last];
    }
  }

  lemma {:induction false} NothingToBackfill(fleet: Fleet, assignments: seq<Driver>, now: int)
    requires forall d | d in assignments :: Target(d) == "" || HasId(fleet, Target(d))
    ensures BackfillAll(fleet, assignments, now) == fleet
  {
    hide Backfill, HasId, Target;
    if |assignments| != 0 {
      var front, last := assignments[..|assignments| - 1], assignments[|assignments| - 1];
      assert assignments == front + [last];
      NothingToBackfill(fleet, front, now);
      BackfillOne(fleet, last, now);
    }
  }

  /** The driver holds a vehicle the master has no row for, and is active if only those are asked for. */
  ghost predicate Orphaned(fleet: Fleet, d: Driver, activeOnly: bool) {
    && (activeOnly ==> d.status == "ACTIVE")
    && d.vehicleNoNorm.Some? && Strip(d.vehicleNoNorm.value) != "" && !IsTaken(fleet, Strip(d.vehicleNoNorm.value))
  }

  lemma OrphanedIsOrphan(fleet: Fleet, d: Driver, activeOnly: bool)
    ensures IsOrphan(fleet, d, activeOnly) <==> Orphaned(fleet, d, activeOnly)
  {
    HasIdExactly(fleet, Strip(OrEmpty(d.vehicleNoNorm)));
    assert Strip("") == "";
    hide HasId, Strip;
  }

  /** The audit lists exactly the orphaned drivers, by id, name and vehicle. */
  lemma {:induction false} OrphansAreListed(fleet: Fleet, drivers: seq<Driver>, activeOnly: bool, o: Orphan)
    ensures o in Orphans(fleet, drivers, activeOnly)
            <==> exists d :: d in drivers && Orphaned(fleet, d, activeOnly)
                             && o == Orphan(d.driverId, d.name, Strip(OrEmpty(d.vehicleNoNorm)))
  {
    if |drivers| != 0 {
      var front, last := drivers[..|drivers| - 1], drivers[|drivers| - 1];
      OrphansAreListed(fleet, front, activeOnly, o);
      OrphanedIsOrphan(fleet, last, activeOnly);
      assert drivers == front + [last];
      hide Strip, Orphaned, IsOrphan;
    }
  }

  lemma {:induction false} NoOrphans(fleet: Fleet, drivers: seq<Driver>, activeOnly: bool)
    requires forall d | d in drivers :: !IsOrphan(fleet, d, activeOnly)
    ensures Orphans(fleet, drivers, activeOnly) == []
  {
    hide IsOrphan;
    if |drivers| != 0 {
      NoOrphans(fleet, drivers[..|drivers| - 1], activeOnly);
    }
  }

  /** A driver whose stored key is normal points, for the audit, where the backfill points. */
  lemma {:induction false} AuditAndBackfillAgree(d: Driver)
    requires d.vehicleNoNorm == Norm(d.vehicleNo)
    ensures Strip(OrEmpty(d.vehicleNoNorm)) == Target(d)
  {
    NormalizeTwice(OrEmpty(d.vehicleNo));
    assert Strip("") == "" && Upper("") == "";
    hide Strip, Upper;
  }

  /**
   * After the backfill no driver record written by approvals is orphaned, active or not; the rows there
   * were are unchanged and in place; and a second backfill inserts nothing.
   */
  lemma BackfillClosesOrphans(fleet: Fleet, drivers: seq<Driver>, now: int, later: int, activeOnly: bool)
    requires NormsOk(drivers)
    ensures var after := BackfillAll(fleet, AllAssignments(drivers), now);
            && Orphans(after, drivers, activeOnly) == []
            && fleet <= after
            && BackfillAll(after, AllAssignments(drivers), later) == after
  {
    hide HasId, Norm, BackfillAll, Strip, Target;
    var assignments := AllAssignments(drivers);
    var after := BackfillAll(fleet, assignments, now);
    BackfillRows(fleet, assignments, now);
    forall d | d in drivers ensures !IsOrphan(after, d, activeOnly) {
      AuditAndBackfillAgree(d);
      AssignmentsAreTheHolders(drivers, d);
    }
    NoOrphans(after, drivers, activeOnly);
    NothingToBackfill(after, assignments, later);
  }

  datatype Approval = Approval(request: Request, actor: string, photoUrl: Option<string>, now: int)

  /** The driver records after a run of approvals. */
  function Approved(approvals: seq<Approval>): seq<Driver> {
    if |approvals| == 0 then []
    else
      var last := approvals[|approvals| - 1];
      Promote(Approved(approvals[..|approvals| - 1]), last.request, last.actor, last.photoUrl, last.now)
  }

  lemma NoDriversAreOk()
    ensures NormsOk([]) && DistinctKeys(DriverKey(), [])
  {
  }

  lemma {:induction false} ApprovalsKeepNorms(approvals: seq<Approval>)
    ensures NormsOk(Approved(approvals)) && DistinctKeys(DriverKey(), Approved(approvals))
  {
    hide Promote, NormsOk, DistinctKeys;
    if |approvals| == 0 {
      NoDriversAreOk();
    } else {
      var last := approvals[|approvals| - 1];
      ApprovalsKeepNorms(approvals[..|approvals| - 1]);
      PromoteKeepsDrivers(Approved(approvals[..|approvals| - 1]), last.request, last.actor, last.photoUrl, last.now);
    }
  }

  /** Whatever was approved and whatever the fleet went through, one backfill leaves no approved driver orphaned. */
  lemma {:induction false} NoApprovedDriverIsOrphaned(ops: seq<VM.Op>, approvals: seq<Approval>, now: int,
                                                      later: int, activeOnly: bool)
    ensures var fleet, drivers := VM.Run(ops), Approved(approvals);
            var after := BackfillAll(fleet, AllAssignments(drivers), now);
            && Orphans(after, drivers, activeOnly) == [] && fleet <= after && FleetOk(after)
            && BackfillAll(after, AllAssignments(drivers), later) == after
  {
    hide FleetOk, NormsOk;
    ApprovalsKeepNorms(approvals);
    BackfillClosesOrphans(VM.Run(ops), Approved(approvals), now, later, activeOnly);
    EveryRunKeepsFleet(ops, 0);
    BackfillAllKeepsFleet(VM.Run(ops), AllAssignments(Approved(approvals)), now);
  }
}
