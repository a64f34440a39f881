/** Enforcement cases: the lifecycle state machine, its audit log and the one challan of a case. */
module CaseLifecycle {
  import opened Wrappers
  import opened AuditChain

  const DETECTED := "DETECTED"
  const REVIEWED := "REVIEWED"
  const CONFIRMED := "CONFIRMED"
  const CHALLAN_ISSUED := "CHALLAN_ISSUED"
  const PAID := "PAID"
  const DISPUTED := "DISPUTED"
  const CLOSED := "CLOSED"

  /** The canonical forward order. */
  const CANON: seq<string> := [DETECTED, REVIEWED, CONFIRMED, CHALLAN_ISSUED, PAID, CLOSED]

  function Allowed(frm: string): set<string> {
    if frm == DETECTED then {REVIEWED, CLOSED}
    else if frm == REVIEWED then {CONFIRMED, DETECTED, CLOSED}
    else if frm == CONFIRMED then {CHALLAN_ISSUED, CLOSED}
    else if frm == CHALLAN_ISSUED then {PAID, DISPUTED, CLOSED}
    else if frm == PAID then {CLOSED}
    else if frm == DISPUTED then {CHALLAN_ISSUED, CLOSED}
    else {}
  }

  predicate CanTransition(frm: string, to: string) {
    to in Allowed(frm)
  }

  /** Position on the canonical order; only called on its members. */
  function Index(s: string): (i: nat)
    requires s in CANON
    ensures i < |CANON| && CANON[i] == s
  {
    if s == DETECTED then 0 else if s == REVIEWED then 1 else if s == CONFIRMED then 2
    else if s == CHALLAN_ISSUED then 3 else if s == PAID then 4 else 5
  }

  lemma IndexOfCanon(i: nat)
    requires i < |CANON|
    ensures Index(CANON[i]) == i
  {
  }

  lemma CanonStepsAreLegal(i: nat)
    requires i + 1 < |CANON|
    ensures CanTransition(CANON[i], CANON[i + 1])
  {
  }

  // --- Tables ----------------------------------------------------------------

  /** The aggregate facts of a case; once set they are never overwritten by an absent value. */
  datatype Facts = Facts(vehicleNumber: Option<string>, driverId: Option<string>, gateId: Option<string>,
                         evidenceUrl: Option<string>, evidenceSha256: Option<string>, confidence: Option<real>)

  datatype Case = Case(status: string, totalFine: int, facts: Facts)

  /** `number` is the year and the six digits of `ECH-<year>-<digits>`. */
  datatype Challan = Challan(number: (int, nat), caseId: string, vehicleNumber: Option<string>, totalFine: int,
                             mvaSection: Option<string>, pdfUrl: Option<string>, evidenceSha256: Option<string>,
                             createdBy: string, status: string, paymentRef: Option<string>)

  datatype Db = Db(cases: map<string, Case>, audit: map<string, seq<Row>>, challans: seq<Challan>,
                   nextNumber: nat, nextId: nat)

  /** The digest, the clock reading taken for each audit row id, and nothing else from outside. */
  datatype Env = Env(codec: Codec, clock: nat -> string)

  datatype CaseError = NotFound | InvalidTransition | CheckViolation | UniqueViolation

  const EMPTY := Db(map[], map[], [], 1001, 1)

  function Rows(db: Db, c: string): seq<Row> {
    if c in db.audit then db.audit[c] else []
  }

  function Audited(env: Env, db: Db, c: string, event: string, from: Option<string>, to: Option<string>,
                   actor: string, detail: Detail): Db
  {
    var r := NewRow(env.codec, Rows(db, c), db.nextId, event, from, to, Some(actor), detail, env.clock(db.nextId));
    db.(audit := db.audit[c := Rows(db, c) + [r]], nextId := db.nextId + 1)
  }

  function WithStatus(db: Db, c: string, status: string): Db
    requires c in db.cases
  {
    db.(cases := db.cases[c := db.cases[c].(status := status)])
  }

  // --- Operations ------------------------------------------------------------

  function Text(o: Option<string>): Json {
    if o.Some? then JStr(o.value) else JNull
  }

  predicate HasOpened(rows: seq<Row>) {
    exists i | 0 <= i < |rows| :: rows[i].event == "CASE_OPENED"
  }

  function OpenDetail(facts: Facts): (detail: Detail)
    ensures "at" !in detail
  {
    map["vehicle_number" := Text(facts.vehicleNumber), "driver_id" := Text(facts.driverId)]
  }

  /** The challan number stands in the log as its year and its six digits. */
  function IssueDetail(number: (int, nat), fine: int): (detail: Detail)
    ensures "at" !in detail
  {
    map["challan_no" := JArr([JInt(number.0), JInt(number.1)]), "total_fine" := JInt(fine)]
  }

  function PaymentDetail(pref: Option<string>): (detail: Detail)
    ensures "at" !in detail
  {
    if pref.Some? && pref.value != "" then map["payment_ref" := JStr(pref.value)] else map[]
  }

  /** Inserts the case at DETECTED if it is new, and audits its opening once. */
  function OpenOrGet(env: Env, db: Db, c: string, facts: Facts, actor: string): Db {
    var db1 := if c in db.cases then db else db.(cases := db.cases[c := Case(DETECTED, 0, facts)]);
    if HasOpened(Rows(db1, c)) then db1
    else Audited(env, db1, c, "CASE_OPENED", None, Some(DETECTED), actor, OpenDetail(facts))
  }

  function Hop(env: Env, db: Db, c: string, to: string, actor: string, detail: Detail): Db
    requires c in db.cases
  {
    Audited(env, WithStatus(db, c, to), c, "TRANSITION", Some(db.cases[c].status), Some(to), actor, detail)
  }

  /** Walks the case forward one canonical step at a time. */
  function Walk(env: Env, db: Db, c: string, target: string, actor: string): Db
    requires c in db.cases && db.cases[c].status in CANON && target in CANON
    decreases Index(target) - Index(db.cases[c].status)
  {
    var i := Index(db.cases[c].status);
    if i >= Index(target) then db
    else
      IndexOfCanon(i + 1);
      Walk(env, Hop(env, db, c, CANON[i + 1], actor, map[]), c, target, actor)
  }

  lemma {:induction false} WalkKeepsCase(env: Env, db: Db, c: string, target: string, actor: string)
    requires c in db.cases && db.cases[c].status in CANON && target in CANON
    ensures c in Walk(env, db, c, target, actor).cases
    decreases Index(target) - Index(db.cases[c].status)
  {
    var i := Index(db.cases[c].status);
    if i < Index(target) {
      IndexOfCanon(i + 1);
      WalkKeepsCase(env, Hop(env, db, c, CANON[i + 1], actor, map[]), c, target, actor);
    }
  }

  function Advance(env: Env, db: Db, c: string, target: string, actor: string): (Db, Result<string, CaseError>) {
    if c !in db.cases then (db, Err(NotFound))
    else if db.cases[c].status !in CANON || target !in CANON then (db, Err(InvalidTransition))
    else
      var walked := Walk(env, db, c, target, actor);
      WalkKeepsCase(env, db, c, target, actor);
      (walked, Ok(walked.cases[c].status))
  }

  function FindChallan(challans: seq<Challan>, c: string): Option<Challan> {
    if |challans| == 0 then None
    else if challans[0].caseId == c then Some(challans[0])
    else FindChallan(challans[1..], c)
  }

  /** `lpad(n, 6, '0')`: pads short numbers, and cuts longer ones to their first six digits. */
  function LpadSix(n: nat): nat {
    if n < 1_000_000 then n else LpadSix(n / 10)
  }

  predicate NumberTaken(challans: seq<Challan>, number: (int, nat)) {
    exists i | 0 <= i < |challans| :: challans[i].number == number
  }

  /** Creates the case's challan once; a repeat returns the existing one. */
  function Issue(env: Env, db: Db, c: string, vehicle: Option<string>, fine: int, section: Option<string>,
                 pdf: Option<string>, sha: Option<string>, actor: string, year: int): (Db, Result<Challan, CaseError>)
  {
    var existing := FindChallan(db.challans, c);
    if existing.Some? then (db, Ok(existing.value))
    else
      var number := (year, LpadSix(db.nextNumber));
      var drawn := db.(nextNumber := db.nextNumber + 1);
      if NumberTaken(db.challans, number) then (drawn, Err(UniqueViolation))
      else
        var row := Challan(number, c, vehicle, fine, section, pdf, sha, actor, "ISSUED", None);
        (Audited(env, drawn.(challans := db.challans + [row]), c, "CHALLAN_ISSUED", None, Some(CHALLAN_ISSUED), actor,
                 IssueDetail(number, fine)),
         Ok(row))
  }

  /** Reflects a case status onto its challan: status and payment reference only. */
  function Reflected(challans: seq<Challan>, c: string, status: string, pref: Option<string>): (r: seq<Challan>)
    ensures |r| == |challans|
    ensures forall i | 0 <= i < |challans| ::
              r[i] == if challans[i].caseId == c
                      then challans[i].(status := status,
                                        paymentRef := if pref.Some? then pref else challans[i].paymentRef)
                      else challans[i]
  {
    if |challans| == 0 then []
    else
      var h := challans[0];
      [if h.caseId == c then h.(status := status, paymentRef := if pref.Some? then pref else h.paymentRef) else h]
      + Reflected(challans[1..], c, status, pref)
  }

  /** One explicit transition; the table's CHECK admits the canonical states only. */
  function Transition(env: Env, db: Db, c: string, to: string, actor: string, pref: Option<string>)
    : (Db, Option<CaseError>)
  {
    if c !in db.cases then (db, Some(NotFound))
    else if !CanTransition(db.cases[c].status, to) then (db, Some(InvalidTransition))
    else if to !in CANON then (db, Some(CheckViolation))
    else
      var challans := if to == PAID || to == CLOSED || to == DISPUTED then Reflected(db.challans, c, to, pref)
                      else db.challans;
      (Hop(env, db.(challans := challans), c, to, actor, PaymentDetail(pref)), None)
  }

  function Coalesce<T>(old_: Option<T>, new_: Option<T>): Option<T> {
    if old_.Some? then old_ else new_
  }

  /** A fact on file stands; one that is absent takes the new value. */
  predicate Kept<T(==)>(before: Option<T>, after: Option<T>, offered: Option<T>) {
    (before.Some? ==> after == before) && (before.None? ==> after == offered)
  }

  predicate Filled(before: Facts, after: Facts, offered: Facts) {
    && Kept(before.vehicleNumber, after.vehicleNumber, offered.vehicleNumber)
    && Kept(before.driverId, after.driverId, offered.driverId)
    && Kept(before.gateId, after.gateId, offered.gateId)
    && Kept(before.evidenceUrl, after.evidenceUrl, offered.evidenceUrl)
    && Kept(before.evidenceSha256, after.evidenceSha256, offered.evidenceSha256)
    && Kept(before.confidence, after.confidence, offered.confidence)
  }

  function SetTotals(db: Db, c: string, fine: int, facts: Facts): Db {
    if c !in db.cases then db
    else
      var f := db.cases[c].facts;
      var merged := Facts(Coalesce(f.vehicleNumber, facts.vehicleNumber), Coalesce(f.driverId, facts.driverId),
                          Coalesce(f.gateId, facts.gateId), Coalesce(f.evidenceUrl, facts.evidenceUrl),
                          Coalesce(f.evidenceSha256, facts.evidenceSha256), Coalesce(f.confidence, facts.confidence));
      db.(cases := db.cases[c := db.cases[c].(totalFine := fine, facts := merged)])
  }

  datatype Op =
    | OpOpen(c: string, facts: Facts, actor: string)
    | OpAdvance(c: string, target: string, actor: string)
    | OpIssue(c: string, vehicle: Option<string>, fine: int, section: Option<string>, pdf: Option<string>,
              sha: Option<string>, actor: string, year: int)
    | OpTransition(c: string, to: string, actor: string, pref: Option<string>)
    | OpTotals(c: string, fine: int, facts: Facts)

  function Step(env: Env, db: Db, op: Op): Db {
    match op
    case OpOpen(c, facts, actor) => OpenOrGet(env, db, c, facts, actor)
    case OpAdvance(c, target, actor) => Advance(env, db, c, target, actor).0
    case OpIssue(c, vehicle, fine, section, pdf, sha, actor, year) =>
      Issue(env, db, c, vehicle, fine, section, pdf, sha, actor, year).0
    case OpTransition(c, to, actor, pref) => Transition(env, db, c, to, actor, pref).0
    case OpTotals(c, fine, facts) => SetTotals(db, c, fine, facts)
  }

  function Execute(env: Env, db: Db, ops: seq<Op>): Db {
    if |ops| == 0 then db else Step(env, Execute(env, db, ops[..|ops| - 1]), ops[|ops| - 1])
  }
}
