/** Which vehicles and drivers are free for a new job: one option per physical truck or person. */
module Availability {
  import opened Wrappers
  import opened Text
  import opened StableSort
  import opened VehicleIds
  import opened Enrollment
  import VM = VehicleMaster

  // --- Choosing one record per identity --------------------------------------

  ghost predicate HasIdentity<R>(identity: R -> string, out: seq<R>, id: string) {
    exists i :: 0 <= i < |out| && identity(out[i]) == id
  }

  predicate Taken<R>(out: seq<R>, identity: R -> string, id: string)
    ensures Taken(out, identity, id) <==> HasIdentity(identity, out, id)
  {
    exists i | 0 <= i < |out| :: identity(out[i]) == id
  }

  /** The eligible records in order, keeping the first of each identity. */
  function Pick<R>(records: seq<R>, eligible: R -> bool, identity: R -> string): seq<R> {
    if |records| == 0 then []
    else
      var before, last := Pick(records[..|records| - 1], eligible, identity), records[|records| - 1];
      if eligible(last) && !Taken(before, identity, identity(last)) then before + [last] else before
  }

  lemma IdentitiesOfAppended<R>(identity: R -> string, out: seq<R>, r: R)
    ensures forall id :: HasIdentity(identity, out + [r], id) <==> HasIdentity(identity, out, id) || id == identity(r)
  {
    forall id ensures HasIdentity(identity, out + [r], id) <==> HasIdentity(identity, out, id) || id == identity(r) {
      if HasIdentity(identity, out, id) {
        var i :| 0 <= i < |out| && identity(out[i]) == id;
        assert identity((out + [r])[i]) == id;
      }
      assert identity((out + [r])[|out|]) == identity(r);
      if HasIdentity(identity, out + [r], id) && id != identity(r) {
        var i :| 0 <= i < |out + [r]| && identity((out + [r])[i]) == id;
        assert identity(out[i]) == id;
      }
    }
  }

  /** The loop of both selections: a set of identities already offered. */
  method PickFree<R>(records: seq<R>, eligible: R -> bool, identity: R -> string) returns (out: seq<R>)
    ensures out == Pick(records, eligible, identity)
  {
    out := [];
    var seen: set<string> := {};
    for i := 0 to |records|
      invariant out == Pick(records[..i], eligible, identity)
      invariant forall id :: id in seen <==> HasIdentity(identity, out, id)
    {
      assert records[..i + 1][..i] == records[..i];
      var r := records[i];
      if !eligible(r) || identity(r) in seen {
        continue;
      }
      IdentitiesOfAppended(identity, out, r);
      seen := seen + {identity(r)};
      out := out + [r];
    }
    assert records[..|records|] == records;
  }

  /** Picked records are eligible, of pairwise distinct identities, and stand for every eligible record. */
  lemma {:induction false} PickIsOnePerIdentity<R>(records: seq<R>, eligible: R -> bool, identity: R -> string)
    ensures var out := Pick(records, eligible, identity);
            && (forall r | r in out :: r in records && eligible(r))
            && (forall i, j | 0 <= i < j < |out| :: identity(out[i]) != identity(out[j]))
            && (forall r | r in records && eligible(r) :: HasIdentity(identity, out, identity(r)))
  {
    if |records| != 0 {
      var front, last := records[..|records| - 1], records[|records| - 1];
      PickIsOnePerIdentity(front, eligible, identity);
      assert records == front + [last];
      var before := Pick(front, eligible, identity);
      IdentitiesOfAppended(identity, before, last);
      assert forall i | 0 <= i < |before| :: HasIdentity(identity, before, identity(before[i]));
    }
  }

  /** Record `k` is eligible, and no eligible one before it has its identity. */
  ghost predicate IsFirst<R>(records: seq<R>, eligible: R -> bool, identity: R -> string, k: int) {
    && 0 <= k < |records| && eligible(records[k])
    && forall j | 0 <= j < k && eligible(records[j]) :: identity(records[j]) != identity(records[k])
  }

  /** The pick of an identity is its first eligible record. */
  lemma {:induction false} PickKeepsTheFirst<R>(records: seq<R>, eligible: R -> bool, identity: R -> string, r: R)
    requires r in Pick(records, eligible, identity)
    ensures exists k :: IsFirst(records, eligible, identity, k) && records[k] == r
  {
    var n := |records| - 1;
    var front := records[..n];
    if r in Pick(front, eligible, identity) {
      PickKeepsTheFirst(front, eligible, identity, r);
      var k :| IsFirst(front, eligible, identity, k) && front[k] == r;
      assert IsFirst(records, eligible, identity, k);
    } else {
      PickIsOnePerIdentity(front, eligible, identity);
      forall j | 0 <= j < n && eligible(records[j]) ensures identity(records[j]) != identity(r) {
        assert front[j] in front;
      }
      assert IsFirst(records, eligible, identity, n);
    }
  }

  lemma {:induction false} OneOccurrence<R>(identity: R -> string, out: seq<R>, r: R)
    requires forall i, j | 0 <= i < j < |out| :: identity(out[i]) != identity(out[j])
    ensures multiset(out)[r] <= 1
  {
    if |out| != 0 {
      var n := |out| - 1;
      OneOccurrence(identity, out[..n], r);
      assert out == out[..n] + [out[n]];
      if out[n] == r {
        assert r !in out[..n];
        assert multiset(out[..n])[r] == 0;
      }
    }
  }

  lemma TwoOccurrences<R>(s: seq<R>, i: nat, j: nat)
    requires i < j < |s| && s[i] == s[j]
    ensures multiset(s)[s[i]] >= 2
  {
    assert s == s[..i] + [s[i]] + s[i + 1..j] + [s[j]] + s[j + 1..];
  }

  /** Sorting neither adds nor drops an identity. */
  lemma SortKeepsIdentities<R>(leq: (R, R) -> bool, identity: R -> string, out: seq<R>)
    requires forall i, j | 0 <= i < j < |out| :: identity(out[i]) != identity(out[j])
    ensures var sorted := SortBy(leq, out);
            && (forall i, j | 0 <= i < j < |sorted| :: identity(sorted[i]) != identity(sorted[j]))
            && (forall id :: HasIdentity(identity, sorted, id) <==> HasIdentity(identity, out, id))
  {
    var sorted := SortBy(leq, out);
    SortByPermutes(leq, out);
    forall r ensures r in sorted <==> r in out {
      SortKeepsMembers(leq, out, r);
    }
    forall i, j | 0 <= i < j < |sorted| ensures identity(sorted[i]) != identity(sorted[j]) {
      if identity(sorted[i]) == identity(sorted[j]) {
        SortKeepsMembers(leq, out, sorted[i]);
        SortKeepsMembers(leq, out, sorted[j]);
        OneOccurrence(identity, out, sorted[i]);
        TwoOccurrences(sorted, i, j);
      }
    }
    forall id ensures HasIdentity(identity, sorted, id) <==> HasIdentity(identity, out, id) {
      if HasIdentity(identity, sorted, id) {
        var i :| 0 <= i < |sorted| && identity(sorted[i]) == id;
        assert sorted[i] in out;
      }
      if HasIdentity(identity, out, id) {
        var i :| 0 <= i < |out| && identity(out[i]) == id;
        assert out[i] in sorted;
      }
    }
  }

  // --- Vehicles --------------------------------------------------------------

  function PlateIdentity(v: VM.Vehicle): string {
    AlnumUpper(OrEmpty(v.number))
  }

  /** The physical truck of a row: its registration, or its id when no plate is on file. */
  function VehicleIdentity(): VM.Vehicle -> string {
    (v: VM.Vehicle) => if PlateIdentity(v) != "" then PlateIdentity(v) else v.vehicleId
  }

  /** The truck is the letters and digits of the registration, or the id when there are none. */
  lemma TruckIs(v: VM.Vehicle)
    ensures VehicleIdentity()(v)
            == if v.number.Some? && AlnumUpper(v.number.value) != "" then AlnumUpper(v.number.value) else v.vehicleId
  {
    assert AlnumUpper("") == "";
  }

  /** The occupied names, and their normal registrations. */
  function Named(occupied: set<string>): set<string> {
    occupied + set o | o in occupied && AlnumUpper(o) != "" :: AlnumUpper(o)
  }

  function BusyVehicles(occupied: set<string>, fleet: VM.Fleet): set<string> {
    var named := Named(occupied);
    named + set v | v in fleet && v.vehicleId in named && VehicleIdentity()(v) != "" :: VehicleIdentity()(v)
  }

  predicate VehicleMatches(v: VM.Vehicle, needle: string) {
    needle == "" || Contains(Upper(v.vehicleId), needle) || Contains(Upper(OrEmpty(v.number)), needle)
  }

  function FreeVehicle(busy: set<string>, needle: string): VM.Vehicle -> bool {
    (v: VM.Vehicle) =>
      v.vehicleId != "" && v.status == ACTIVE
      && v.vehicleId !in busy && !(VehicleIdentity()(v) != "" && VehicleIdentity()(v) in busy)
      && VehicleMatches(v, needle)
  }

  /** Newest first, ties in table order. */
  predicate NewerFirst(a: VM.Vehicle, b: VM.Vehicle) {
    a.createdAt >= b.createdAt
  }

  function Needle(q: Option<string>): string {
    Upper(Strip(OrEmpty(q)))
  }

  function AssignableVehicles(fleet: VM.Fleet, occupied: set<string>, q: Option<string>): seq<VM.Vehicle> {
    SortBy(NewerFirst, Pick(fleet, FreeVehicle(BusyVehicles(occupied, fleet), Needle(q)), VehicleIdentity()))
  }

  method ListAssignableVehicles(fleet: VM.Fleet, occupied: set<string>, q: Option<string>)
    returns (out: seq<VM.Vehicle>)
    ensures out == AssignableVehicles(fleet, occupied, q)
  {
    var busy := BusyVehicles(occupied, fleet);
    out := PickFree(fleet, FreeVehicle(busy, Needle(q)), VehicleIdentity());
    out := SortBy(NewerFirst, out);
  }

  /** A text is named as it stands, or as the letters and digits of an occupied name. */
  ghost predicate IsNamed(x: string, occupied: set<string>) {
    x in occupied || (x != "" && exists o :: o in occupied && AlnumUpper(o) == x)
  }

  /** A text is named, or it is the truck of a row whose id is named. */
  ghost predicate TruckIsBusy(x: string, fleet: VM.Fleet, occupied: set<string>) {
    || IsNamed(x, occupied)
    || (x != "" && exists r :: r in fleet && IsNamed(r.vehicleId, occupied) && VehicleIdentity()(r) == x)
  }

  /** No search text, or one that the upper-cased text holds somewhere. */
  ghost predicate Fits(text: string, q: Option<string>) {
    q == None || Strip(q.value) == "" || exists i :: IsAt(Upper(text), Upper(Strip(q.value)), i)
  }

  /** An active row with an id, its id and its truck not busy, that the search text fits. */
  ghost predicate IsFreeVehicle(v: VM.Vehicle, fleet: VM.Fleet, occupied: set<string>, q: Option<string>) {
    && v.vehicleId != "" && v.status == "ACTIVE"
    && !TruckIsBusy(v.vehicleId, fleet, occupied)
    && (VehicleIdentity()(v) == "" || !TruckIsBusy(VehicleIdentity()(v), fleet, occupied))
    && (Fits(v.vehicleId, q) || Fits(OrEmpty(v.number), q))
  }

  lemma NamedIsNamed(x: string, occupied: set<string>)
    ensures x in Named(occupied) <==> IsNamed(x, occupied)
  {
  }

  lemma BusyIsBusy(x: string, fleet: VM.Fleet, occupied: set<string>)
    ensures x in BusyVehicles(occupied, fleet) <==> TruckIsBusy(x, fleet, occupied)
  {
    forall n ensures n in Named(occupied) <==> IsNamed(n, occupied) {
      NamedIsNamed(n, occupied);
    }
    hide Named, IsNamed, AlnumUpper, PlateIdentity;
  }

  lemma FitsSomewhere(text: string, q: Option<string>)
    ensures Fits(text, q) <==> Needle(q) == "" || Contains(Upper(text), Needle(q))
  {
    var needle := Needle(q);
    assert Contains(Upper(text), needle) <==> exists i :: IsAt(Upper(text), needle, i);
  }

  lemma SearchedMatches(v: VM.Vehicle, q: Option<string>)
    ensures VehicleMatches(v, Needle(q)) <==> Fits(v.vehicleId, q) || Fits(OrEmpty(v.number), q)
  {
    FitsSomewhere(v.vehicleId, q);
    FitsSomewhere(OrEmpty(v.number), q);
    hide Fits, Contains, Upper, Needle;
  }

  lemma FreeIsFree(v: VM.Vehicle, fleet: VM.Fleet, occupied: set<string>, q: Option<string>)
    ensures FreeVehicle(BusyVehicles(occupied, fleet), Needle(q))(v) <==> IsFreeVehicle(v, fleet, occupied, q)
  {
    BusyIsBusy(v.vehicleId, fleet, occupied);
    BusyIsBusy(VehicleIdentity()(v), fleet, occupied);
    SearchedMatches(v, q);
    hide BusyVehicles, TruckIsBusy, VehicleMatches, Fits, Needle, PlateIdentity;
  }

  /** The row's id, or its registration however it is spaced, is among the occupied names. */
  ghost predicate VehicleIsOccupied(v: VM.Vehicle, occupied: set<string>) {
    || v.vehicleId in occupied
    || (PlateIdentity(v) != "" && exists o :: o in occupied && AlnumUpper(o) == PlateIdentity(v))
  }

  lemma OccupiedIdentityIsBusy(v: VM.Vehicle, occupied: set<string>, fleet: VM.Fleet)
    requires v in fleet && VehicleIsOccupied(v, occupied)
    ensures VehicleIdentity()(v) != "" ==> TruckIsBusy(VehicleIdentity()(v), fleet, occupied)
  {
    if v.vehicleId in occupied {
      assert IsNamed(v.vehicleId, occupied);
    }
  }

  /**
   * The options are free rows of pairwise distinct trucks, and every free row's truck is offered; no option is the
   * same truck as a row whose id or registration is occupied.
   */
  lemma {:induction false} OneOptionPerTruck(fleet: VM.Fleet, occupied: set<string>, q: Option<string>)
    ensures var out, identity := AssignableVehicles(fleet, occupied, q), VehicleIdentity();
            && (forall i, j | 0 <= i < j < |out| :: identity(out[i]) != identity(out[j]))
            && (forall v | v in out :: v in fleet && IsFreeVehicle(v, fleet, occupied, q))
            && (forall v | v in fleet && IsFreeVehicle(v, fleet, occupied, q) ::
                  HasIdentity(identity, out, identity(v)))
            && (forall v, r | v in out && r in fleet && VehicleIsOccupied(r, occupied) :: identity(r) != identity(v))
  {
    var identity := VehicleIdentity();
    var eligible := FreeVehicle(BusyVehicles(occupied, fleet), Needle(q));
    var picked, out := Pick(fleet, eligible, identity), AssignableVehicles(fleet, occupied, q);
    PickIsOnePerIdentity(fleet, eligible, identity);
    SortKeepsIdentities(NewerFirst, identity, picked);
    forall v ensures eligible(v) <==> IsFreeVehicle(v, fleet, occupied, q) {
      FreeIsFree(v, fleet, occupied, q);
    }
    forall v | v in out ensures v in fleet && eligible(v) {
      SortKeepsMembers(NewerFirst, picked, v);
    }
    hide AssignableVehicles, BusyVehicles, Pick, VehicleIsOccupied, TruckIsBusy, Fits, FreeVehicle;
    forall v, r | v in out && r in fleet && VehicleIsOccupied(r, occupied) ensures identity(r) != identity(v) {
      assert IsFreeVehicle(v, fleet, occupied, q);
      OccupiedIdentityIsBusy(r, occupied, fleet);
    }
  }

  lemma NewerFirstIsTotal()
    ensures TotalPreorder(NewerFirst)
  {
  }

  /** The options come newest first. */
  lemma OptionsComeNewestFirst(fleet: VM.Fleet, occupied: set<string>, q: Option<string>)
    ensures var out := AssignableVehicles(fleet, occupied, q);
            forall i, j | 0 <= i < j < |out| :: out[i].createdAt >= out[j].createdAt
  {
    NewerFirstIsTotal();
    var picked := Pick(fleet, FreeVehicle(BusyVehicles(occupied, fleet), Needle(q)), VehicleIdentity());
    SortBySorts(NewerFirst, picked);
    hide Pick, BusyVehicles, FreeVehicle, SortBy;
    var out := AssignableVehicles(fleet, occupied, q);
    forall i, j | 0 <= i < j < |out| ensures out[i].createdAt >= out[j].createdAt {
      assert NewerFirst(out[i], out[j]);
    }
  }

  // --- Drivers ---------------------------------------------------------------

  function Licence(d: Driver): string {
    AlnumUpper(OrEmpty(d.licenseNo))
  }

  /** The person of a record: the licence, or the driver id when no licence is on file. */
  function DriverIdentity(): Driver -> string {
    (d: Driver) => if Licence(d) != "" then Licence(d) else d.driverId
  }

  /** The person is the letters and digits of the licence, or the id when there are none. */
  lemma PersonIs(d: Driver)
    ensures DriverIdentity()(d)
            == if d.licenseNo.Some? && AlnumUpper(d.licenseNo.value) != "" then AlnumUpper(d.licenseNo.value)
               else d.driverId
  {
    assert AlnumUpper("") == "";
  }

  function BusyDrivers(occupied: set<string>, drivers: seq<Driver>): set<string> {
    var named := Named(occupied);
    named + set d | d in drivers && d.driverId in named && Licence(d) != "" :: Licence(d)
  }

  predicate DriverMatches(d: Driver, needle: string) {
    needle == "" || Contains(Upper(d.driverId), needle) || Contains(Upper(OrEmpty(d.name)), needle)
    || Contains(Upper(OrEmpty(d.licenseNo)), needle)
  }

  function FreeDriver(busy: set<string>, needle: string): Driver -> bool {
    (d: Driver) =>
      d.driverId != "" && d.status == ACTIVE && d.driverId !in busy && DriverIdentity()(d) !in busy
      && DriverMatches(d, needle)
  }

  /** By upper-cased name, then driver id. */
  predicate NameOrder(a: Driver, b: Driver) {
    var x, y := Upper(OrEmpty(a.name)), Upper(OrEmpty(b.name));
    if x == y then StrLeq(a.driverId, b.driverId) else StrLeq(x, y)
  }

  function AssignableDrivers(drivers: seq<Driver>, occupied: set<string>, q: Option<string>): seq<Driver> {
    Pick(SortBy(NameOrder, drivers), FreeDriver(BusyDrivers(occupied, drivers), Needle(q)), DriverIdentity())
  }

  method ListAssignableDrivers(drivers: seq<Driver>, occupied: set<string>, q: Option<string>)
    returns (out: seq<Driver>)
    ensures out == AssignableDrivers(drivers, occupied, q)
  {
    out := PickFree(SortBy(NameOrder, drivers), FreeDriver(BusyDrivers(occupied, drivers), Needle(q)),
                    DriverIdentity());
  }

  /** A text is named, or it is the licence of a record whose id is named. */
  ghost predicate PersonIsBusy(x: string, drivers: seq<Driver>, occupied: set<string>) {
    || IsNamed(x, occupied)
    || (x != "" && exists r :: r in drivers && IsNamed(r.driverId, occupied) && Licence(r) == x)
  }

  /** An active record with an id, its id and its person not busy, that the search text fits. */
  ghost predicate IsFreeDriver(d: Driver, drivers: seq<Driver>, occupied: set<string>, q: Option<string>) {
    && d.driverId != "" && d.status == "ACTIVE"
    && !PersonIsBusy(d.driverId, drivers, occupied) && !PersonIsBusy(DriverIdentity()(d), drivers, occupied)
    && (Fits(d.driverId, q) || Fits(OrEmpty(d.name), q) || Fits(OrEmpty(d.licenseNo), q))
  }

  lemma BusyPersonIsBusy(x: string, drivers: seq<Driver>, occupied: set<string>)
    ensures x in BusyDrivers(occupied, drivers) <==> PersonIsBusy(x, drivers, occupied)
  {
    forall n ensures n in Named(occupied) <==> IsNamed(n, occupied) {
      NamedIsNamed(n, occupied);
    }
    hide Named, IsNamed, AlnumUpper, Licence;
  }

  lemma SearchedDriverMatches(d: Driver, q: Option<string>)
    ensures DriverMatches(d, Needle(q))
            <==> Fits(d.driverId, q) || Fits(OrEmpty(d.name), q) || Fits(OrEmpty(d.licenseNo), q)
  {
    FitsSomewhere(d.driverId, q);
    FitsSomewhere(OrEmpty(d.name), q);
    FitsSomewhere(OrEmpty(d.licenseNo), q);
    hide Fits, Contains, Upper, Needle;
  }

  lemma FreeDriverIsFree(d: Driver, drivers: seq<Driver>, occupied: set<string>, q: Option<string>)
    ensures FreeDriver(BusyDrivers(occupied, drivers), Needle(q))(d) <==> IsFreeDriver(d, drivers, occupied, q)
  {
    BusyPersonIsBusy(d.driverId, drivers, occupied);
    BusyPersonIsBusy(DriverIdentity()(d), drivers, occupied);
    SearchedDriverMatches(d, q);
    hide BusyDrivers, PersonIsBusy, DriverMatches, Fits, Needle, Licence;
  }

  /** The record's id, or its licence however it is spaced, is among the occupied names. */
  ghost predicate DriverIsOccupied(d: Driver, occupied: set<string>) {
    d.driverId in occupied || (Licence(d) != "" && exists o :: o in occupied && AlnumUpper(o) == Licence(d))
  }

  lemma OccupiedPersonIsBusy(d: Driver, occupied: set<string>, drivers: seq<Driver>)
    requires d in drivers && DriverIsOccupied(d, occupied)
    ensures PersonIsBusy(DriverIdentity()(d), drivers, occupied)
  {
    if d.driverId in occupied {
      assert IsNamed(d.driverId, occupied);
    }
  }

  /** The same for drivers: one option per person, the free persons, and none that an occupied record stands for. */
  lemma OneOptionPerPerson(drivers: seq<Driver>, occupied: set<string>, q: Option<string>)
    ensures var out, identity := AssignableDrivers(drivers, occupied, q), DriverIdentity();
            && (forall i, j | 0 <= i < j < |out| :: identity(out[i]) != identity(out[j]))
            && (forall d | d in out :: d in drivers && IsFreeDriver(d, drivers, occupied, q))
            && (forall d | d in drivers && IsFreeDriver(d, drivers, occupied, q) ::
                  HasIdentity(identity, out, identity(d)))
            && (forall d, r | d in out && r in drivers && DriverIsOccupied(r, occupied) :: identity(r) != identity(d))
  {
    var identity := DriverIdentity();
    var eligible := FreeDriver(BusyDrivers(occupied, drivers), Needle(q));
    var sorted, out := SortBy(NameOrder, drivers), AssignableDrivers(drivers, occupied, q);
    PickIsOnePerIdentity(sorted, eligible, identity);
    forall d ensures d in sorted <==> d in drivers {
      SortKeepsMembers(NameOrder, drivers, d);
    }
    forall d ensures eligible(d) <==> IsFreeDriver(d, drivers, occupied, q) {
      FreeDriverIsFree(d, drivers, occupied, q);
    }
    hide AssignableDrivers, BusyDrivers, Pick, DriverIsOccupied, PersonIsBusy, Fits, FreeDriver;
    forall d, r | d in out && r in drivers && DriverIsOccupied(r, occupied) ensures identity(r) != identity(d) {
      assert IsFreeDriver(d, drivers, occupied, q);
      OccupiedPersonIsBusy(r, occupied, drivers);
    }
  }

  lemma NameOrderIsTotal()
    ensures TotalPreorder(NameOrder)
  {
    forall a, b ensures NameOrder(a, b) || NameOrder(b, a) {
      StrLeqTotal(Upper(OrEmpty(a.name)), Upper(OrEmpty(b.name)));
      StrLeqTotal(a.driverId, b.driverId);
    }
    forall a, b, c | NameOrder(a, b) && NameOrder(b, c) ensures NameOrder(a, c) {
      var x, y, z := Upper(OrEmpty(a.name)), Upper(OrEmpty(b.name)), Upper(OrEmpty(c.name));
      if x == y == z {
        StrLeqTransitive(a.driverId, b.driverId, c.driverId);
      } else if x != y && y != z {
        StrLeqTransitive(x, y, z);
        if x == z {
          StrLeqAntisymmetric(x, y);
        }
      }
    }
  }

  lemma {:induction false} PickKeepsOrder<R>(leq: (R, R) -> bool, records: seq<R>, eligible: R -> bool,
                                             identity: R -> string)
    requires Sorted(leq, records)
    ensures Sorted(leq, Pick(records, eligible, identity))
  {
    if |records| != 0 {
      var n := |records| - 1;
      PickKeepsOrder(leq, records[..n], eligible, identity);
      var before := Pick(records[..n], eligible, identity);
      PickIsOnePerIdentity(records[..n], eligible, identity);
      forall i | 0 <= i < |before| ensures leq(before[i], records[n]) {
        assert before[i] in records[..n];
      }
    }
  }

  /** The drivers offered come by upper-cased name, and by id under one name. */
  lemma OptionsComeByName(drivers: seq<Driver>, occupied: set<string>, q: Option<string>)
    ensures var out := AssignableDrivers(drivers, occupied, q);
            forall i, j | 0 <= i < j < |out| ::
              var x, y := Upper(OrEmpty(out[i].name)), Upper(OrEmpty(out[j].name));
              (x != y && StrLeq(x, y)) || (x == y && StrLeq(out[i].driverId, out[j].driverId))
  {
    NameOrderIsTotal();
    SortBySorts(NameOrder, drivers);
    var eligible := FreeDriver(BusyDrivers(occupied, drivers), Needle(q));
    PickKeepsOrder(NameOrder, SortBy(NameOrder, drivers), eligible, DriverIdentity());
    hide Pick, BusyDrivers, FreeDriver, SortBy, StrLeq, Upper;
    var out := AssignableDrivers(drivers, occupied, q);
    forall i, j | 0 <= i < j < |out| ensures NameOrder(out[i], out[j]) {
    }
  }
}
