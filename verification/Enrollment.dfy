/** Driver enrolment: open requests per vehicle, and the driver records that approval writes. */
module Enrollment {
  import opened Wrappers
  import opened Text
  import opened Keyed
  import opened VehicleIds

  const PENDING := "PENDING"
  const ACTIVE := "ACTIVE"
  const REJECTED := "REJECTED"
  const REENROLL := "REENROLL"

  datatype Request = Request(driverId: string, name: string, licenseNo: string, vehicleNo: string, status: string,
                             createdBy: Option<string>, photoUrl: Option<string>, submittedAt: int,
                             reviewedAt: Option<int>, reviewedBy: Option<string>, rejectionReason: Option<string>,
                             updatedAt: int)

  datatype Driver = Driver(driverId: string, name: Option<string>, licenseNo: Option<string>,
                           vehicleNo: Option<string>, vehicleNoNorm: Option<string>, status: string,
                           photoUrl: Option<string>, enrolledAt: int, approvedBy: string,
                           createdBy: Option<string>, updatedAt: int)

  /** Requests by driver id. */
  type Requests = map<string, Request>

  datatype EnrollError = VehicleAlreadyEnrolled(vehicleNo: string)

  predicate IsOpen(r: Request) {
    r.status == PENDING || r.status == REENROLL
  }

  /** Another driver's open request holds this vehicle. */
  predicate HeldByAnother(rs: Requests, norm: string, driverId: string) {
    exists k | k in rs :: IsOpen(rs[k]) && Normalize(rs[k].vehicleNo) == norm && rs[k].driverId != driverId
  }

  function Submit(rs: Requests, driverId: string, name: string, licenseNo: string, vehicleNo: string,
                  createdBy: Option<string>, now: int): Result<Requests, EnrollError>
  {
    var norm := Normalize(vehicleNo);
    if norm != "" && HeldByAnother(rs, norm, driverId) then Err(VehicleAlreadyEnrolled(vehicleNo))
    else Ok(rs[driverId := Request(driverId, name, licenseNo, vehicleNo, PENDING, createdBy, None, now, None, None,
                                   None, now)])
  }

  function MarkActive(rs: Requests, driverId: string, actor: string, photoUrl: Option<string>, now: int): Requests {
    if driverId !in rs then rs
    else rs[driverId := rs[driverId].(status := ACTIVE, photoUrl := photoUrl, reviewedAt := Some(now),
                                      reviewedBy := Some(actor), rejectionReason := None, updatedAt := now)]
  }

  function SetStatus(rs: Requests, driverId: string, status: string, actor: string, reason: string, now: int)
    : Requests
  {
    if driverId !in rs then rs
    else rs[driverId := rs[driverId].(status := status, rejectionReason := Some(reason), reviewedAt := Some(now),
                                      reviewedBy := Some(actor), updatedAt := now)]
  }

  function DriverKey(): Driver -> string {
    (d: Driver) => d.driverId
  }

  function Norm(vehicleNo: Option<string>): Option<string> {
    var n := Normalize(OrEmpty(vehicleNo));
    if n == "" then None else Some(n)
  }

  /** Writes the approved driver's record over any earlier one. */
  function Promote(drivers: seq<Driver>, r: Request, actor: string, photoUrl: Option<string>, now: int): seq<Driver> {
    Put(DriverKey(), drivers,
        Driver(r.driverId, Some(r.name), Some(r.licenseNo), Some(r.vehicleNo), Norm(Some(r.vehicleNo)), ACTIVE,
               photoUrl, now, actor, r.createdBy, now))
  }

  predicate HoldsVehicle(d: Driver) {
    Strip(OrEmpty(d.vehicleNoNorm)) != ""
  }

  /** Every driver, of any status, that holds a vehicle. */
  function AllAssignments(drivers: seq<Driver>): seq<Driver> {
    if |drivers| == 0 then []
    else
      var last := drivers[|drivers| - 1];
      AllAssignments(drivers[..|drivers| - 1]) + if HoldsVehicle(last) then [last] else []
  }

  // --- Runs over the requests ------------------------------------------------

  datatype Op =
    | OpSubmit(driverId: string, name: string, licenseNo: string, vehicleNo: string, createdBy: Option<string>,
               now: int)
    | OpMarkActive(driverId: string, actor: string, photoUrl: Option<string>, now: int)
    | OpSetStatus(driverId: string, status: string, actor: string, reason: string, now: int)

  function Step(rs: Requests, op: Op): Requests {
    match op
    case OpSubmit(driverId, name, licenseNo, vehicleNo, createdBy, now) =>
      var r := Submit(rs, driverId, name, licenseNo, vehicleNo, createdBy, now);
      if r.Ok? then r.value else rs
    case OpMarkActive(driverId, actor, photoUrl, now) => MarkActive(rs, driverId, actor, photoUrl, now)
    case OpSetStatus(driverId, status, actor, reason, now) => SetStatus(rs, driverId, status, actor, reason, now)
  }

  function Run(ops: seq<Op>): Requests {
    if |ops| == 0 then map[] else Step(Run(ops[..|ops| - 1]), ops[|ops| - 1])
  }

  class EnrollmentStore {
    var requests: Requests
    var drivers: seq<Driver>

    constructor ()
      ensures requests == map[] && drivers == []
    {
      requests, drivers := map[], [];
    }

    method SubmitRequest(driverId: string, name: string, licenseNo: string, vehicleNo: string,
                         createdBy: Option<string>, now: int)
      returns (error: Option<EnrollError>)
      modifies this`requests
      ensures var r := Submit(old(requests), driverId, name, licenseNo, vehicleNo, createdBy, now);
              if r.Ok? then error == None && requests == r.value
              else error == Some(r.error) && requests == old(requests)
    {
      var norm := Normalize(vehicleNo);
      if norm != "" && HeldByAnother(requests, norm, driverId) {
        return Some(VehicleAlreadyEnrolled(vehicleNo));
      }
      requests := requests[driverId := Request(driverId, name, licenseNo, vehicleNo, PENDING, createdBy, None, now,
                                               None, None, None, now)];
      return None;
    }

    /** Approval: closes the request and writes the driver. */
    method Approve(driverId: string, actor: string, photoUrl: Option<string>, now: int)
      modifies this
      ensures requests == MarkActive(old(requests), driverId, actor, photoUrl, now)
      ensures drivers == if driverId in old(requests)
                         then Promote(old(drivers), old(requests)[driverId], actor, photoUrl, now)
                         else old(drivers)
    {
      if driverId in requests {
        var rec := requests[driverId];
        drivers := Promote(drivers, rec, actor, photoUrl, now);
        requests := requests[driverId := rec.(status := ACTIVE, photoUrl := photoUrl, reviewedAt := Some(now),
                                              reviewedBy := Some(actor), rejectionReason := None, updatedAt := now)];
      }
    }

    method SetRequestStatus(driverId: string, status: string, actor: string, reason: string, now: int)
      modifies this`requests
      ensures requests == SetStatus(old(requests), driverId, status, actor, reason, now)
    {
      if driverId in requests {
        requests := requests[driverId := requests[driverId].(status := status, rejectionReason := Some(reason),
                                                             reviewedAt := Some(now), reviewedBy := Some(actor),
                                                             updatedAt := now)];
      }
    }
  }

  // --- What each operation writes --------------------------------------------

  /** Another driver's request, pending or asked again, names the vehicle in whatever spelling. */
  ghost predicate IsContested(rs: Requests, driverId: string, vehicleNo: string) {
    exists k :: k in rs && (rs[k].status == "PENDING" || rs[k].status == "REENROLL") && rs[k].driverId != driverId
      && Normalize(rs[k].vehicleNo) == Normalize(vehicleNo)
  }

  /** A request is refused exactly when its vehicle is contested, and otherwise stands pending and unreviewed. */
  lemma SubmitWrites(rs: Requests, driverId: string, name: string, licenseNo: string, vehicleNo: string,
                     createdBy: Option<string>, now: int)
    ensures var after := Submit(rs, driverId, name, licenseNo, vehicleNo, createdBy, now);
            && (after.Err? <==> Normalize(vehicleNo) != "" && IsContested(rs, driverId, vehicleNo))
            && (after.Err? ==> after.error == VehicleAlreadyEnrolled(vehicleNo))
            && (after.Ok? ==>
                  && after.value.Keys == rs.Keys + {driverId}
                  && (forall k | k in rs && k != driverId :: after.value[k] == rs[k])
                  && (var r := after.value[driverId];
                      && r.driverId == driverId && r.name == name && r.licenseNo == licenseNo
                      && r.vehicleNo == vehicleNo && r.status == "PENDING" && r.createdBy == createdBy
                      && r.submittedAt == r.updatedAt == now
                      && r.photoUrl == None && r.reviewedAt == None && r.reviewedBy == None
                      && r.rejectionReason == None))
  {
    hide Normalize;
    assert HeldByAnother(rs, Normalize(vehicleNo), driverId) <==> IsContested(rs, driverId, vehicleNo);
  }

  /** What a review leaves of the request as it was filed. */
  predicate SameFiling(a: Request, b: Request) {
    && a.driverId == b.driverId && a.name == b.name && a.licenseNo == b.licenseNo && a.vehicleNo == b.vehicleNo
    && a.createdBy == b.createdBy && a.submittedAt == b.submittedAt
  }

  /** A review writes its outcome on that request only, if there is one; approval drops the reason, sets the photo. */
  lemma ReviewWrites(rs: Requests, driverId: string, actor: string, photoUrl: Option<string>, status: string,
                     reason: string, now: int)
    ensures var approved, marked := MarkActive(rs, driverId, actor, photoUrl, now),
                                    SetStatus(rs, driverId, status, actor, reason, now);
            if driverId !in rs then approved == marked == rs
            else
              && approved.Keys == marked.Keys == rs.Keys
              && (forall k | k in rs && k != driverId :: approved[k] == marked[k] == rs[k])
              && (var (a, m, r) := (approved[driverId], marked[driverId], rs[driverId]);
                  && SameFiling(a, r) && SameFiling(m, r)
                  && a.status == "ACTIVE" && m.status == status
                  && a.photoUrl == photoUrl && m.photoUrl == r.photoUrl
                  && a.rejectionReason == None && m.rejectionReason == Some(reason)
                  && a.reviewedBy == m.reviewedBy == Some(actor) && a.reviewedAt == m.reviewedAt == Some(now)
                  && a.updatedAt == m.updatedAt == now)
  {
  }

  /** The driver record an approval writes. */
  ghost predicate IsRecordOf(d: Driver, r: Request, actor: string, photoUrl: Option<string>, now: int) {
    && d.driverId == r.driverId && d.name == Some(r.name) && d.licenseNo == Some(r.licenseNo)
    && d.vehicleNo == Some(r.vehicleNo) && d.status == "ACTIVE" && d.photoUrl == photoUrl
    && (Normalize(r.vehicleNo) == "" ==> d.vehicleNoNorm == None)
    && (Normalize(r.vehicleNo) != "" ==> d.vehicleNoNorm == Some(Normalize(r.vehicleNo)))
    && d.enrolledAt == now && d.approvedBy == actor && d.createdBy == r.createdBy && d.updatedAt == now
  }

  /** Approval writes one driver record: in place of an earlier one of that driver, or after all others. */
  lemma PromoteWrites(drivers: seq<Driver>, r: Request, actor: string, photoUrl: Option<string>, now: int)
    ensures var i, after := Position(DriverKey(), drivers, r.driverId), Promote(drivers, r, actor, photoUrl, now);
            && (i < |drivers| ==> drivers[i].driverId == r.driverId)
            && (i == |drivers| ==> forall j | 0 <= j < |drivers| :: drivers[j].driverId != r.driverId)
            && |after| == (if i < |drivers| then |drivers| else |drivers| + 1)
            && IsRecordOf(after[i], r, actor, photoUrl, now)
            && forall j | 0 <= j < |drivers| && j != i :: after[j] == drivers[j]
  {
    hide Normalize;
    assert forall j | 0 <= j < |drivers| :: DriverKey()(drivers[j]) == drivers[j].driverId;
  }

  /** A vehicle is held when the stored key is more than spaces. */
  lemma HoldsExactly(d: Driver)
    ensures HoldsVehicle(d) <==> d.vehicleNoNorm.Some? && exists i :: 0 <= i < |d.vehicleNoNorm.value|
                                                                      && !IsSpace(d.vehicleNoNorm.value[i])
  {
    StripIsEmptyExactly(OrEmpty(d.vehicleNoNorm));
    hide Strip, IsSpace;
  }

  // --- One open request per vehicle ------------------------------------------

  ghost predicate KeyedById(rs: Requests) {
    forall k | k in rs :: rs[k].driverId == k
  }

  /** No two open requests name the same vehicle. */
  ghost predicate OneOpenPerVehicle(rs: Requests) {
    forall j, k | j in rs && k in rs && j != k && IsOpen(rs[j]) && IsOpen(rs[k]) && Normalize(rs[j].vehicleNo) != "" ::
      Normalize(rs[j].vehicleNo) != Normalize(rs[k].vehicleNo)
  }

  /** The check that reopening a request would need: its vehicle is free of other open requests. */
  predicate Guarded(rs: Requests, op: Op) {
    match op
    case OpSetStatus(driverId, status, actor, reason, now) =>
      (status == PENDING || status == REENROLL) && driverId in rs && Normalize(rs[driverId].vehicleNo) != ""
      ==> !HeldByAnother(rs, Normalize(rs[driverId].vehicleNo), driverId)
    case _ => true
  }

  lemma ReplaceKeepsOneOpen(rs: Requests, r: Request)
    requires KeyedById(rs) && OneOpenPerVehicle(rs)
    ensures OneOpenPerVehicle(rs[r.driverId := r])
            <==> (IsOpen(r) && Normalize(r.vehicleNo) != "" ==> !HeldByAnother(rs, Normalize(r.vehicleNo), r.driverId))
  {
    var after := rs[r.driverId := r];
    if IsOpen(r) && Normalize(r.vehicleNo) != "" && HeldByAnother(rs, Normalize(r.vehicleNo), r.driverId) {
      var k :| k in rs && IsOpen(rs[k]) && Normalize(rs[k].vehicleNo) == Normalize(r.vehicleNo)
               && rs[k].driverId != r.driverId;
      assert after[k] == rs[k] && after[r.driverId] == r;
    }
  }

  /**
   * Submitting and approving always keep one open request per vehicle. Setting a status keeps it
   * exactly when it does not reopen a request whose vehicle another open request holds.
   */
  lemma StepKeepsOneOpenExactlyWhenGuarded(rs: Requests, op: Op)
    requires KeyedById(rs) && OneOpenPerVehicle(rs)
    ensures KeyedById(Step(rs, op))
    ensures OneOpenPerVehicle(Step(rs, op)) <==> Guarded(rs, op)
  {
    hide Normalize, HeldByAnother, OneOpenPerVehicle;
    match op
    case OpSubmit(driverId, name, licenseNo, vehicleNo, createdBy, now) =>
      ReplaceKeepsOneOpen(rs, Request(driverId, name, licenseNo, vehicleNo, PENDING, createdBy, None, now, None, None,
                                      None, now));
    case OpMarkActive(driverId, actor, photoUrl, now) =>
      if driverId in rs {
        ReplaceKeepsOneOpen(rs, MarkActive(rs, driverId, actor, photoUrl, now)[driverId]);
      }
    case OpSetStatus(driverId, status, actor, reason, now) =>
      if driverId in rs {
        ReplaceKeepsOneOpen(rs, SetStatus(rs, driverId, status, actor, reason, now)[driverId]);
      }
  }

  lemma {:induction false} RunKeepsOneOpen(ops: seq<Op>)
    requires forall k | 0 <= k < |ops| :: Guarded(Run(ops[..k]), ops[k])
    ensures KeyedById(Run(ops)) && OneOpenPerVehicle(Run(ops))
  {
    if |ops| != 0 {
      var n := |ops| - 1;
      assert forall k | 0 <= k < n :: ops[..n][..k] == ops[..k];
      RunKeepsOneOpen(ops[..n]);
      StepKeepsOneOpenExactlyWhenGuarded(Run(ops[..n]), ops[n]);
    }
  }

  /** Two drivers and one vehicle: the first is rejected, the second applies, and the first is asked again. */
  function ReenrolmentRun(first: string, second: string, vehicleNo: string): seq<Op> {
    [OpSubmit(first, "", "", vehicleNo, None, 0), OpSetStatus(first, REJECTED, "", "", 1),
     OpSubmit(second, "", "", vehicleNo, None, 2), OpSetStatus(first, REENROLL, "", "", 3)]
  }

  lemma RunAppends(ops: seq<Op>, op: Op)
    ensures Run(ops + [op]) == Step(Run(ops), op)
  {
    assert (ops + [op])[..|ops|] == ops;
  }

  /** The run leaves two open requests on the vehicle. */
  lemma ReenrolmentLeavesTwoOpen(first: string, second: string, vehicleNo: string)
    requires first != second && Normalize(vehicleNo) != ""
    ensures var rs := Run(ReenrolmentRun(first, second, vehicleNo));
            && first in rs && second in rs && IsOpen(rs[first]) && IsOpen(rs[second])
            && Normalize(rs[first].vehicleNo) == Normalize(rs[second].vehicleNo) == Normalize(vehicleNo)
            && !OneOpenPerVehicle(rs)
  {
    hide Normalize;
    var ops := ReenrolmentRun(first, second, vehicleNo);
    assert ops == [ops[0]] + [ops[1]] + [ops[2]] + [ops[3]];
    RunAppends([], ops[0]);
    RunAppends([ops[0]], ops[1]);
    RunAppends([ops[0]] + [ops[1]], ops[2]);
    RunAppends([ops[0]] + [ops[1]] + [ops[2]], ops[3]);
    assert [] + [ops[0]] == [ops[0]];
    var r2 := Run([ops[0]] + [ops[1]]);
    assert r2.Keys == {first} && r2[first].status == REJECTED;
    var r3 := Run([ops[0]] + [ops[1]] + [ops[2]]);
    assert r3.Keys == {first, second} && r3[second].status == PENDING;
    var r4 := Run(ops);
    assert r4[first].status == REENROLL && r4[second] == r3[second];
  }

  // --- Driver records --------------------------------------------------------

  /** The stored vehicle key is the normal form of the stored vehicle. */
  ghost predicate NormsOk(drivers: seq<Driver>) {
    forall d | d in drivers :: d.vehicleNoNorm == Norm(d.vehicleNo)
  }

  lemma {:induction false} PromoteKeepsDrivers(drivers: seq<Driver>, r: Request, actor: string,
                                               photoUrl: Option<string>, now: int)
    requires NormsOk(drivers) && DistinctKeys(DriverKey(), drivers)
    ensures NormsOk(Promote(drivers, r, actor, photoUrl, now))
    ensures DistinctKeys(DriverKey(), Promote(drivers, r, actor, photoUrl, now))
  {
    var row := Driver(r.driverId, Some(r.name), Some(r.licenseNo), Some(r.vehicleNo), Norm(Some(r.vehicleNo)), ACTIVE,
                      photoUrl, now, actor, r.createdBy, now);
    PutKeepsKeysDistinct(DriverKey(), drivers, row);
  }

  lemma {:induction false} AssignmentsAreTheHolders(drivers: seq<Driver>, d: Driver)
    ensures d in AllAssignments(drivers) <==> d in drivers && HoldsVehicle(d)
  {
    if |drivers| != 0 {
      AssignmentsAreTheHolders(drivers[..|drivers| - 1], d);
      assert drivers == drivers[..|drivers| - 1] + [drivers[|drivers| - 1]];
    }
  }
}
