/** What every run of case operations keeps. */
module CaseTheorems {
  import opened Wrappers
  import opened AuditChain
  import opened CaseLifecycle

  // --- Reading the lifecycle off the audit log -------------------------------

  /** The TRANSITION rows of a log, in order. */
  function Transitions(rows: seq<Row>): seq<Row> {
    if |rows| == 0 then []
    else
      var last := rows[|rows| - 1];
      Transitions(rows[..|rows| - 1]) + if last.event == "TRANSITION" then [last] else []
  }

  function OpenedCount(rows: seq<Row>): nat {
    if |rows| == 0 then 0
    else OpenedCount(rows[..|rows| - 1]) + if rows[|rows| - 1].event == "CASE_OPENED" then 1 else 0
  }

  /** `hops` leads from DETECTED to `status`, each hop legal and starting where the previous one ended. */
  ghost predicate LegalPath(hops: seq<Row>, status: string) {
    && status in CANON
    && if |hops| == 0 then status == DETECTED
    else
      var last := hops[|hops| - 1];
      && last.toStatus == Some(status)
      && last.fromStatus.Some? && CanTransition(last.fromStatus.value, status)
      && LegalPath(hops[..|hops| - 1], last.fromStatus.value)
  }

  ghost predicate CaseOk(env: Env, db: Db, c: string) {
    && Accepted(env.codec, Rows(db, c))
    && (if c in db.cases
        then LegalPath(Transitions(Rows(db, c)), db.cases[c].status)
             && OpenedCount(Rows(db, c)) == 1
        else Transitions(Rows(db, c)) == [] && OpenedCount(Rows(db, c)) == 0)
  }

  ghost predicate OneChallanPerCase(challans: seq<Challan>) {
    forall i, j | 0 <= i < j < |challans| :: challans[i].caseId != challans[j].caseId
  }

  ghost predicate DistinctNumbers(challans: seq<Challan>) {
    forall i, j | 0 <= i < j < |challans| :: challans[i].number != challans[j].number
  }

  /** One challan per case, no number twice; while the sequence fits six digits all numbers lie below it. */
  ghost predicate ChallansOk(challans: seq<Challan>, nextNumber: nat) {
    && OneChallanPerCase(challans) && DistinctNumbers(challans)
    && (nextNumber <= 1_000_000 ==> forall i | 0 <= i < |challans| :: challans[i].number.1 < nextNumber)
  }

  ghost predicate Inv(env: Env, db: Db) {
    && (forall c: string :: CaseOk(env, db, c))
    && ChallansOk(db.challans, db.nextNumber)
  }

  // --- One audit row ---------------------------------------------------------

  /** An audit row is appended to its own case's log and touches nothing else. */
  lemma AuditAppends(env: Env, db: Db, c: string, event: string, from: Option<string>, to: Option<string>,
                     actor: string, detail: Detail)
    ensures var after := Audited(env, db, c, event, from, to, actor, detail);
            && after.cases == db.cases && after.challans == db.challans && after.nextNumber == db.nextNumber
            && (forall d | d != c :: Rows(after, d) == Rows(db, d))
            && |Rows(after, c)| == |Rows(db, c)| + 1 && Rows(after, c)[..|Rows(db, c)|] == Rows(db, c)
            && Rows(after, c)[|Rows(db, c)|].event == event
            && Rows(after, c)[|Rows(db, c)|].fromStatus == from && Rows(after, c)[|Rows(db, c)|].toStatus == to
  {
  }

  /** Appending a row whose detail has no stamp of its own keeps the chain verifiable. */
  lemma AuditKeepsChain(env: Env, db: Db, c: string, event: string, from: Option<string>, to: Option<string>,
                        actor: string, detail: Detail)
    requires WellBehaved(env.codec) && "at" !in detail && Accepted(env.codec, Rows(db, c))
    ensures Accepted(env.codec, Rows(Audited(env, db, c, event, from, to, actor, detail), c))
  {
    AppendVerifiesUnlessDetailHasAt(env.codec, Rows(db, c), db.nextId, event, from, to, Some(actor), detail,
                                    env.clock(db.nextId));
  }

  lemma HopKeepsCase(env: Env, db: Db, c: string, to: string, actor: string, detail: Detail, d: string)
    requires WellBehaved(env.codec) && "at" !in detail
    requires c in db.cases && to in CANON && CanTransition(db.cases[c].status, to)
    requires CaseOk(env, db, d)
    ensures CaseOk(env, Hop(env, db, c, to, actor, detail), d)
  {
    var mid := WithStatus(db, c, to);
    assert Rows(mid, d) == Rows(db, d);
    AuditAppends(env, mid, c, "TRANSITION", Some(db.cases[c].status), Some(to), actor, detail);
    if c == d {
      AuditKeepsChain(env, mid, c, "TRANSITION", Some(db.cases[c].status), Some(to), actor, detail);
    }
    hide Audited, Rows, Accepted, CanTransition;
  }

  // --- Operations keep the invariant -----------------------------------------

  lemma {:induction false} OpenedCountMatches(rows: seq<Row>)
    ensures HasOpened(rows) <==> OpenedCount(rows) > 0
  {
    if |rows| != 0 {
      OpenedCountMatches(rows[..|rows| - 1]);
    }
  }

  lemma {:induction false} OpenKeepsCase(env: Env, db: Db, c: string, facts: Facts, actor: string, d: string)
    requires WellBehaved(env.codec) && CaseOk(env, db, c) && CaseOk(env, db, d)
    ensures CaseOk(env, OpenOrGet(env, db, c, facts, actor), d)
  {
    OpenedCountMatches(Rows(db, c));
    var db1 := if c in db.cases then db else db.(cases := db.cases[c := Case(DETECTED, 0, facts)]);
    assert Rows(db1, c) == Rows(db, c) && Rows(db1, d) == Rows(db, d);
    hide Audited, Rows, Accepted, HasOpened, WellBehaved, OpenDetail;
    AuditAppends(env, db1, c, "CASE_OPENED", None, Some(DETECTED), actor, OpenDetail(facts));
    AuditKeepsChain(env, db1, c, "CASE_OPENED", None, Some(DETECTED), actor, OpenDetail(facts));
  }

  lemma {:induction false} WalkKeepsCases(env: Env, db: Db, c: string, target: string, actor: string, d: string)
    requires WellBehaved(env.codec) && CaseOk(env, db, d)
    requires c in db.cases && db.cases[c].status in CANON && target in CANON
    ensures CaseOk(env, Walk(env, db, c, target, actor), d)
    ensures Walk(env, db, c, target, actor).challans == db.challans
    ensures Walk(env, db, c, target, actor).nextNumber == db.nextNumber
    decreases Index(target) - Index(db.cases[c].status)
  {
    var i := Index(db.cases[c].status);
    if i < Index(target) {
      CanonStepsAreLegal(i);
      IndexOfCanon(i + 1);
      HopKeepsCase(env, db, c, CANON[i + 1], actor, map[], d);
      WalkKeepsCases(env, Hop(env, db, c, CANON[i + 1], actor, map[]), c, target, actor, d);
    }
  }

  lemma {:induction false} FindChallanFinds(challans: seq<Challan>, c: string)
    ensures FindChallan(challans, c).Some? <==> exists i :: 0 <= i < |challans| && challans[i].caseId == c
    ensures FindChallan(challans, c).Some? ==> FindChallan(challans, c).value in challans
                                               && FindChallan(challans, c).value.caseId == c
  {
    if |challans| != 0 && challans[0].caseId != c {
      FindChallanFinds(challans[1..], c);
      if exists i :: 0 <= i < |challans| && challans[i].caseId == c {
        var i :| 0 <= i < |challans| && challans[i].caseId == c;
        assert challans[1..][i - 1].caseId == c;
      }
    }
  }

  lemma NoteKeepsTransitions(env: Env, db: Db, c: string, event: string, from: Option<string>, to: Option<string>,
                             actor: string, detail: Detail, d: string)
    requires event != "TRANSITION" || c != d
    ensures Transitions(Rows(Audited(env, db, c, event, from, to, actor, detail), d)) == Transitions(Rows(db, d))
  {
    var after := Audited(env, db, c, event, from, to, actor, detail);
    if c == d {
      assert Rows(after, c)[..|Rows(db, c)|] == Rows(db, c);
    }
  }

  /** A row that is neither an opening nor a transition. */
  lemma NoteKeepsCase(env: Env, db: Db, c: string, event: string, to: Option<string>, actor: string, detail: Detail,
                      d: string)
    requires WellBehaved(env.codec) && "at" !in detail && event != "TRANSITION" && event != "CASE_OPENED"
    requires CaseOk(env, db, d)
    ensures CaseOk(env, Audited(env, db, c, event, None, to, actor, detail), d)
  {
    AuditAppends(env, db, c, event, None, to, actor, detail);
    if c == d {
      AuditKeepsChain(env, db, c, event, None, to, actor, detail);
    }
    NoteKeepsTransitions(env, db, c, event, None, to, actor, detail, d);
    hide Audited, Rows, Accepted, LegalPath;
  }

  lemma IssueKeepsCases(env: Env, db: Db, c: string, vehicle: Option<string>, fine: int, section: Option<string>,
                        pdf: Option<string>, sha: Option<string>, actor: string, year: int, d: string)
    requires WellBehaved(env.codec) && CaseOk(env, db, d)
    ensures CaseOk(env, Issue(env, db, c, vehicle, fine, section, pdf, sha, actor, year).0, d)
  {
    hide NewRow, IssueDetail, LpadSix, Accepted, LegalPath, Transitions, OpenedCount;
    var number := (year, LpadSix(db.nextNumber));
    var drawn := db.(nextNumber := db.nextNumber + 1);
    assert Rows(drawn, d) == Rows(db, d);
    if FindChallan(db.challans, c).None? && !NumberTaken(db.challans, number) {
      var row := Challan(number, c, vehicle, fine, section, pdf, sha, actor, "ISSUED", None);
      var mid := drawn.(challans := db.challans + [row]);
      assert Rows(mid, d) == Rows(db, d);
      assert CaseOk(env, mid, d);
      hide CaseOk, Audited, Rows, FindChallan, NumberTaken;
      NoteKeepsCase(env, mid, c, "CHALLAN_ISSUED", Some(CHALLAN_ISSUED), actor, IssueDetail(number, fine), d);
    }
  }

  lemma IssueKeepsChallans(challans: seq<Challan>, nextNumber: nat, row: Challan)
    requires ChallansOk(challans, nextNumber)
    requires FindChallan(challans, row.caseId).None? && !NumberTaken(challans, row.number)
    requires row.number.1 == LpadSix(nextNumber)
    ensures ChallansOk(challans + [row], nextNumber + 1)
  {
    FindChallanFinds(challans, row.caseId);
    forall i | 0 <= i < |challans| ensures challans[i].number != row.number && challans[i].caseId != row.caseId {
    }
  }

  lemma IssueKeepsInv(env: Env, db: Db, c: string, vehicle: Option<string>, fine: int, section: Option<string>,
                      pdf: Option<string>, sha: Option<string>, actor: string, year: int)
    requires WellBehaved(env.codec) && Inv(env, db)
    ensures Inv(env, Issue(env, db, c, vehicle, fine, section, pdf, sha, actor, year).0)
  {
    var after := Issue(env, db, c, vehicle, fine, section, pdf, sha, actor, year).0;
    var number := (year, LpadSix(db.nextNumber));
    if FindChallan(db.challans, c).None? && !NumberTaken(db.challans, number) {
      IssueKeepsChallans(db.challans, db.nextNumber,
                         Challan(number, c, vehicle, fine, section, pdf, sha, actor, "ISSUED", None));
    }
    forall d ensures CaseOk(env, after, d) {
      assert CaseOk(env, db, d);
      IssueKeepsCases(env, db, c, vehicle, fine, section, pdf, sha, actor, year, d);
    }
  }

  lemma {:induction false} TransitionKeepsCase(env: Env, db: Db, c: string, to: string, actor: string,
                                               pref: Option<string>, d: string)
    requires WellBehaved(env.codec) && CaseOk(env, db, d)
    ensures CaseOk(env, Transition(env, db, c, to, actor, pref).0, d)
  {
    if Transition(env, db, c, to, actor, pref).1.None? {
      var mid := Transition(env, db, c, to, actor, pref).0.(cases := db.cases, audit := db.audit, nextId := db.nextId);
      assert Rows(mid, d) == Rows(db, d);
      assert CaseOk(env, mid, d);
      assert Transition(env, db, c, to, actor, pref).0 == Hop(env, mid, c, to, actor, PaymentDetail(pref));
      hide CaseOk, Hop, Transition, PaymentDetail;
      HopKeepsCase(env, mid, c, to, actor, PaymentDetail(pref), d);
    }
  }

  lemma TransitionKeepsChallans(env: Env, db: Db, c: string, to: string, actor: string, pref: Option<string>)
    requires ChallansOk(db.challans, db.nextNumber)
    ensures var after := Transition(env, db, c, to, actor, pref).0;
            ChallansOk(after.challans, after.nextNumber)
  {
    hide NewRow, PaymentDetail, CanTransition, Rows;
    var challans := Reflected(db.challans, c, to, pref);
    assert forall i | 0 <= i < |challans| ::
             challans[i].caseId == db.challans[i].caseId && challans[i].number == db.challans[i].number;
    assert ChallansOk(challans, db.nextNumber);
    hide ChallansOk;
  }

  lemma {:induction false} TransitionKeepsInv(env: Env, db: Db, c: string, to: string, actor: string,
                                              pref: Option<string>)
    requires WellBehaved(env.codec) && Inv(env, db)
    ensures Inv(env, Transition(env, db, c, to, actor, pref).0)
  {
    hide CaseOk, ChallansOk, Transition, WellBehaved;
    TransitionKeepsChallans(env, db, c, to, actor, pref);
    forall d ensures CaseOk(env, Transition(env, db, c, to, actor, pref).0, d) {
      assert CaseOk(env, db, d);
      TransitionKeepsCase(env, db, c, to, actor, pref, d);
    }
  }

  lemma StepKeepsInv(env: Env, db: Db, op: Op)
    requires WellBehaved(env.codec) && Inv(env, db)
    ensures Inv(env, Step(env, db, op))
  {
    match op
    case OpOpen(c, facts, actor) =>
      forall d ensures CaseOk(env, OpenOrGet(env, db, c, facts, actor), d) {
        assert CaseOk(env, db, c) && CaseOk(env, db, d);
        OpenKeepsCase(env, db, c, facts, actor, d);
      }
    case OpAdvance(c, target, actor) =>
      if c in db.cases && db.cases[c].status in CANON && target in CANON {
        forall d ensures CaseOk(env, Walk(env, db, c, target, actor), d) {
          assert CaseOk(env, db, d);
          WalkKeepsCases(env, db, c, target, actor, d);
        }
        WalkKeepsCases(env, db, c, target, actor, c);
      }
    case OpIssue(c, vehicle, fine, section, pdf, sha, actor, year) =>
      IssueKeepsInv(env, db, c, vehicle, fine, section, pdf, sha, actor, year);
    case OpTransition(c, to, actor, pref) =>
      TransitionKeepsInv(env, db, c, to, actor, pref);
    case OpTotals(c, fine, facts) =>
      var after := SetTotals(db, c, fine, facts);
      forall d ensures CaseOk(env, after, d) {
        assert CaseOk(env, db, d) && Rows(after, d) == Rows(db, d);
      }
  }

  /**
   * In every run: each case's TRANSITION rows form one legal path from DETECTED to its stored status,
   * each case was opened once in its log, `VerifyChain` accepts every log, and a case has one challan at most.
   */
  lemma {:induction false} EveryRunKeepsInv(env: Env, ops: seq<Op>)
    requires WellBehaved(env.codec)
    ensures Inv(env, Execute(env, EMPTY, ops))
  {
    if |ops| == 0 {
      assert forall c :: Rows(EMPTY, c) == [];
    } else {
      EveryRunKeepsInv(env, ops[..|ops| - 1]);
      StepKeepsInv(env, Execute(env, EMPTY, ops[..|ops| - 1]), ops[|ops| - 1]);
    }
  }

  // --- What each operation writes --------------------------------------------

  /** The hops there are. */
  predicate IsHop(a: string, b: string) {
    || (a == "DETECTED" && (b == "REVIEWED" || b == "CLOSED"))
    || (a == "REVIEWED" && (b == "CONFIRMED" || b == "DETECTED" || b == "CLOSED"))
    || (a == "CONFIRMED" && (b == "CHALLAN_ISSUED" || b == "CLOSED"))
    || (a == "CHALLAN_ISSUED" && (b == "PAID" || b == "DISPUTED" || b == "CLOSED"))
    || (a == "PAID" && b == "CLOSED")
    || (a == "DISPUTED" && (b == "CHALLAN_ISSUED" || b == "CLOSED"))
  }

  lemma HopsAreTheTable(a: string, b: string)
    ensures CanTransition(a, b) <==> IsHop(a, b)
  {
  }

  /** One row goes to the end of the log of `c`, stamped with the clock reading of its id; the other logs stand. */
  ghost predicate AddsRow(env: Env, before: Db, after: Db, c: string, event: string, from: Option<string>,
                          to: Option<string>, actor: string, detail: Detail)
  {
    && (forall d | d != c :: Rows(after, d) == Rows(before, d))
    && |Rows(after, c)| == |Rows(before, c)| + 1 && Rows(before, c) <= Rows(after, c)
    && (var r := Rows(after, c)[|Rows(before, c)|];
        && r.event == event && r.fromStatus == from && r.toStatus == to && r.actor == Some(actor)
        && r.id == before.nextId && r.detail == detail["at" := JStr(env.clock(before.nextId))])
  }

  lemma AuditedAddsRow(env: Env, db: Db, c: string, event: string, from: Option<string>, to: Option<string>,
                       actor: string, detail: Detail)
    ensures AddsRow(env, db, Audited(env, db, c, event, from, to, actor, detail), c, event, from, to, actor, detail)
  {
    hide ChainHash;
  }

  function JsonOf(o: Option<string>): Json {
    match o
    case None => JNull
    case Some(s) => JStr(s)
  }

  /** Opening enters a new case as detected and unfined, leaves a known one, and is audited once in its log. */
  lemma OpeningIsAuditedOnce(env: Env, db: Db, c: string, facts: Facts, actor: string)
    ensures var after := Step(env, db, OpOpen(c, facts, actor));
            && after.cases == (if c in db.cases then db.cases else db.cases[c := Case("DETECTED", 0, facts)])
            && if exists i | 0 <= i < |Rows(db, c)| :: Rows(db, c)[i].event == "CASE_OPENED"
               then after.audit == db.audit
               else AddsRow(env, db, after, c, "CASE_OPENED", None, Some("DETECTED"), actor,
                            map["vehicle_number" := JsonOf(facts.vehicleNumber), "driver_id" := JsonOf(facts.driverId)])
  {
    var db1 := if c in db.cases then db else db.(cases := db.cases[c := Case(DETECTED, 0, facts)]);
    assert forall d :: Rows(db1, d) == Rows(db, d);
    AuditedAddsRow(env, db1, c, "CASE_OPENED", None, Some(DETECTED), actor, OpenDetail(facts));
    hide NewRow, Rows;
  }

  /** A hop that succeeds moves its case only, and is audited with where it came from and the payment it names. */
  lemma HopIsAudited(env: Env, db: Db, c: string, to: string, actor: string, pref: Option<string>)
    requires Transition(env, db, c, to, actor, pref).1.None?
    ensures var after := Step(env, db, OpTransition(c, to, actor, pref));
            && c in db.cases && after.cases == db.cases[c := db.cases[c].(status := to)]
            && AddsRow(env, db, after, c, "TRANSITION", Some(db.cases[c].status), Some(to), actor,
                       if pref == None || pref == Some("") then map[] else map["payment_ref" := JStr(pref.value)])
  {
    var after := Step(env, db, OpTransition(c, to, actor, pref));
    var mid := WithStatus(db.(challans := after.challans), c, to);
    assert forall d :: Rows(mid, d) == Rows(db, d);
    AuditedAddsRow(env, mid, c, "TRANSITION", Some(db.cases[c].status), Some(to), actor, PaymentDetail(pref));
    assert after == Audited(env, mid, c, "TRANSITION", Some(db.cases[c].status), Some(to), actor, PaymentDetail(pref));
    hide Transition, Audited, Rows, CanTransition;
  }

  /** A first challan is audited with its number and fine, and moves no case; any other issue writes no row. */
  lemma IssueIsAudited(env: Env, db: Db, c: string, vehicle: Option<string>, fine: int, section: Option<string>,
                       pdf: Option<string>, sha: Option<string>, actor: string, year: int)
    ensures var (after, issued) := Issue(env, db, c, vehicle, fine, section, pdf, sha, actor, year);
            && after.cases == db.cases
            && if FindChallan(db.challans, c).None? && issued.Ok?
               then AddsRow(env, db, after, c, "CHALLAN_ISSUED", None, Some("CHALLAN_ISSUED"), actor,
                            map["challan_no" := JArr([JInt(year), JInt(LpadSix(db.nextNumber))]),
                                "total_fine" := JInt(fine)])
               else after.audit == db.audit
  {
    var number := (year, LpadSix(db.nextNumber));
    var row := Challan(number, c, vehicle, fine, section, pdf, sha, actor, "ISSUED", None);
    var mid := db.(nextNumber := db.nextNumber + 1, challans := db.challans + [row]);
    assert forall d :: Rows(mid, d) == Rows(db, d);
    AuditedAddsRow(env, mid, c, "CHALLAN_ISSUED", None, Some(CHALLAN_ISSUED), actor, IssueDetail(number, fine));
    hide NewRow, Rows, LpadSix, FindChallan, NumberTaken;
  }

  /** Setting the totals of a case sets its fine and fills in absent facts, and touches nothing else. */
  lemma TotalsWriteFineAndFacts(env: Env, db: Db, c: string, fine: int, facts: Facts)
    ensures var after := Step(env, db, OpTotals(c, fine, facts));
            && after == db.(cases := after.cases) && after.cases.Keys == db.cases.Keys
            && (forall d | d in db.cases && d != c :: after.cases[d] == db.cases[d])
            && (c in db.cases ==>
                  && after.cases[c].status == db.cases[c].status && after.cases[c].totalFine == fine
                  && Filled(db.cases[c].facts, after.cases[c].facts, facts))
  {
  }

  // --- What the last hash of a log pins --------------------------------------

  /** A clock reading is never the empty text. */
  ghost predicate Clocked(env: Env) {
    forall k :: env.clock(k) != ""
  }

  ghost predicate AllStamped(rows: seq<Row>) {
    forall i | 0 <= i < |rows| :: Stamped(rows[i])
  }

  ghost predicate StampedLogs(logs: map<string, seq<Row>>) {
    forall c | c in logs :: AllStamped(logs[c])
  }

  lemma AuditStamps(env: Env, db: Db, c: string, event: string, from: Option<string>, to: Option<string>,
                    actor: string, detail: Detail)
    requires Clocked(env) && StampedLogs(db.audit)
    ensures StampedLogs(Audited(env, db, c, event, from, to, actor, detail).audit)
  {
    hide ChainHash;
    assert AllStamped(Rows(db, c));
  }

  lemma {:induction false} WalkStamps(env: Env, db: Db, c: string, target: string, actor: string)
    requires Clocked(env) && StampedLogs(db.audit)
    requires c in db.cases && db.cases[c].status in CANON && target in CANON
    ensures StampedLogs(Walk(env, db, c, target, actor).audit)
    decreases Index(target) - Index(db.cases[c].status)
  {
    hide NewRow, StampedLogs, Clocked;
    var i := Index(db.cases[c].status);
    if i < Index(target) {
      IndexOfCanon(i + 1);
      AuditStamps(env, WithStatus(db, c, CANON[i + 1]), c, "TRANSITION", Some(db.cases[c].status), Some(CANON[i + 1]),
                  actor, map[]);
      WalkStamps(env, Hop(env, db, c, CANON[i + 1], actor, map[]), c, target, actor);
    }
  }

  lemma StepStamps(env: Env, db: Db, op: Op)
    requires Clocked(env) && StampedLogs(db.audit)
    ensures StampedLogs(Step(env, db, op).audit)
  {
    hide NewRow, StampedLogs, Clocked, FindChallan, NumberTaken, OpenDetail, IssueDetail, PaymentDetail, CanTransition;
    match op
    case OpOpen(c, facts, actor) =>
      var db1 := if c in db.cases then db else db.(cases := db.cases[c := Case(DETECTED, 0, facts)]);
      AuditStamps(env, db1, c, "CASE_OPENED", None, Some(DETECTED), actor, OpenDetail(facts));
    case OpAdvance(c, target, actor) =>
      if c in db.cases && db.cases[c].status in CANON && target in CANON {
        WalkStamps(env, db, c, target, actor);
      }
    case OpIssue(c, vehicle, fine, section, pdf, sha, actor, year) =>
      var number := (year, LpadSix(db.nextNumber));
      var row := Challan(number, c, vehicle, fine, section, pdf, sha, actor, "ISSUED", None);
      AuditStamps(env, db.(nextNumber := db.nextNumber + 1, challans := db.challans + [row]), c, "CHALLAN_ISSUED", None,
                  Some(CHALLAN_ISSUED), actor, IssueDetail(number, fine));
    case OpTransition(c, to, actor, pref) =>
      if c in db.cases {
        AuditStamps(env, WithStatus(db, c, to), c, "TRANSITION", Some(db.cases[c].status), Some(to), actor,
                    PaymentDetail(pref));
      }
    case OpTotals(c, fine, facts) =>
  }

  lemma {:induction false} EveryRunIsStamped(env: Env, ops: seq<Op>)
    requires Clocked(env)
    ensures StampedLogs(Execute(env, EMPTY, ops).audit)
  {
    if |ops| != 0 {
      EveryRunIsStamped(env, ops[..|ops| - 1]);
      hide StampedLogs;
      StepStamps(env, Execute(env, EMPTY, ops[..|ops| - 1]), ops[|ops| - 1]);
    }
  }

  /**
   * In every run, whatever chain of stamped rows the verifier accepts with the last hash of a case's log stores
   * what the run wrote, row ids apart, or exhibits a digest collision.
   */
  lemma LastHashPinsTheLog(env: Env, ops: seq<Op>, c: string, rows: seq<Row>)
    requires WellBehaved(env.codec) && Clocked(env)
    requires Accepted(env.codec, rows) && AllStamped(rows)
    requires LastHash(rows) == LastHash(Rows(Execute(env, EMPTY, ops), c))
    ensures var log := Rows(Execute(env, EMPTY, ops), c);
            || ChainsCollide(env.codec, log, rows)
            || (|rows| == |log| && forall i | 0 <= i < |log| :: rows[i] == log[i].(id := rows[i].id))
  {
    hide Execute, Accepted, Stamped, WellBehaved, ChainsCollide;
    EveryRunKeepsInv(env, ops);
    assert CaseOk(env, Execute(env, EMPTY, ops), c);
    EveryRunIsStamped(env, ops);
    FinalHashPinsStampedRows(env.codec, Rows(Execute(env, EMPTY, ops), c), rows);
  }

  // --- What the path says ----------------------------------------------------

  /** Some hop of the path arrives at `s`. */
  ghost predicate Visits(hops: seq<Row>, s: string) {
    exists k :: 0 <= k < |hops| && hops[k].toStatus == Some(s)
  }

  lemma VisitsLast(hops: seq<Row>, status: string)
    requires LegalPath(hops, status) && status != DETECTED
    ensures |hops| > 0 && Visits(hops, status)
  {
    assert hops[|hops| - 1].toStatus == Some(status);
  }

  lemma VisitsFront(hops: seq<Row>, n: nat, s: string)
    requires n <= |hops| && Visits(hops[..n], s)
    ensures Visits(hops, s)
  {
    var k :| 0 <= k < n && hops[..n][k].toStatus == Some(s);
    assert hops[k].toStatus == Some(s);
  }

  /** A legal path to an open canonical status goes through every canonical status before it. */
  lemma {:induction false} PathFollowsTheCanon(hops: seq<Row>, status: string, k: nat)
    requires LegalPath(hops, status) && status != CLOSED && 1 <= k <= Index(status)
    ensures Visits(hops, CANON[k])
  {
    VisitsLast(hops, status);
    var front, before := hops[..|hops| - 1], hops[|hops| - 1].fromStatus.value;
    if k < Index(status) {
      assert Index(before) == Index(status) - 1;
      PathFollowsTheCanon(front, before, k);
      VisitsFront(hops, |hops| - 1, CANON[k]);
    }
  }

  /** In every run a paid case went through REVIEWED, CONFIRMED and CHALLAN_ISSUED, on its own audit log. */
  lemma {:induction false} PaidPassesThroughChallan(env: Env, ops: seq<Op>, c: string)
    requires WellBehaved(env.codec)
    requires c in Execute(env, EMPTY, ops).cases && Execute(env, EMPTY, ops).cases[c].status == PAID
    ensures var hops := Transitions(Rows(Execute(env, EMPTY, ops), c));
            Visits(hops, REVIEWED) && Visits(hops, CONFIRMED) && Visits(hops, CHALLAN_ISSUED)
  {
    EveryRunKeepsInv(env, ops);
    var db := Execute(env, EMPTY, ops);
    assert CaseOk(env, db, c);
    var hops := Transitions(Rows(db, c));
    PathFollowsTheCanon(hops, PAID, 1);
    PathFollowsTheCanon(hops, PAID, 2);
    PathFollowsTheCanon(hops, PAID, 3);
  }

  lemma HopTouchesOneCase(env: Env, db: Db, c: string, to: string, actor: string, pref: Option<string>, d: string)
    requires c != d && d in db.cases
    ensures d in Transition(env, db, c, to, actor, pref).0.cases
            && Transition(env, db, c, to, actor, pref).0.cases[d] == db.cases[d]
    ensures Rows(Transition(env, db, c, to, actor, pref).0, d) == Rows(db, d)
  {
  }

  lemma {:induction false} WalkTouchesOneCase(env: Env, db: Db, c: string, target: string, actor: string, d: string)
    requires c in db.cases && db.cases[c].status in CANON && target in CANON && c != d
    ensures Rows(Walk(env, db, c, target, actor), d) == Rows(db, d)
    ensures d in db.cases ==> d in Walk(env, db, c, target, actor).cases
                              && Walk(env, db, c, target, actor).cases[d] == db.cases[d]
    decreases Index(target) - Index(db.cases[c].status)
  {
    var i := Index(db.cases[c].status);
    if i < Index(target) {
      IndexOfCanon(i + 1);
      var next := Hop(env, db, c, CANON[i + 1], actor, map[]);
      WalkTouchesOneCase(env, next, c, target, actor, d);
    }
  }

  /** A closed case stays closed and its log gains no TRANSITION row, whatever is asked. */
  lemma ClosedIsFinal(env: Env, db: Db, op: Op, c: string)
    requires c in db.cases && db.cases[c].status == CLOSED
    ensures c in Step(env, db, op).cases && Step(env, db, op).cases[c].status == CLOSED
    ensures Transitions(Rows(Step(env, db, op), c)) == Transitions(Rows(db, c))
  {
    hide NewRow, IssueDetail, OpenDetail, LpadSix, FindChallan, NumberTaken, HasOpened, Reflected, PaymentDetail,
         Transitions, Coalesce;
    match op
    case OpOpen(d, facts, actor) =>
      var db1 := if d in db.cases then db else db.(cases := db.cases[d := Case(DETECTED, 0, facts)]);
      NoteKeepsTransitions(env, db1, d, "CASE_OPENED", None, Some(DETECTED), actor, OpenDetail(facts), c);
    case OpAdvance(d, target, actor) =>
      if c != d && d in db.cases && db.cases[d].status in CANON && target in CANON {
        WalkTouchesOneCase(env, db, d, target, actor, c);
      }
    case OpIssue(d, vehicle, fine, section, pdf, sha, actor, year) =>
      var number := (year, LpadSix(db.nextNumber));
      var row := Challan(number, d, vehicle, fine, section, pdf, sha, actor, "ISSUED", None);
      var mid := db.(nextNumber := db.nextNumber + 1).(challans := db.challans + [row]);
      NoteKeepsTransitions(env, mid, d, "CHALLAN_ISSUED", None, Some(CHALLAN_ISSUED), actor, IssueDetail(number, fine),
                           c);
    case OpTransition(d, to, actor, pref) =>
      if c != d && Transition(env, db, d, to, actor, pref).1.None? {
        HopTouchesOneCase(env, db, d, to, actor, pref, c);
      }
    case OpTotals(d, fine, facts) =>
  }

  /** Row `r` records the canonical hop out of `CANON[i]`. */
  ghost predicate IsCanonHop(r: Row, i: int) {
    && 0 <= i && i + 1 < |CANON|
    && r.event == "TRANSITION" && r.fromStatus == Some(CANON[i]) && r.toStatus == Some(CANON[i + 1])
  }

  /** At or past the target, `advance_to` changes nothing at all. */
  lemma AdvanceIsIdempotent(env: Env, db: Db, c: string, target: string, actor: string)
    requires c in db.cases && db.cases[c].status in CANON && target in CANON
    requires Index(db.cases[c].status) >= Index(target)
    ensures Advance(env, db, c, target, actor) == (db, Ok(db.cases[c].status))
  {
  }

  /** `after` is `before` with case `c` moved from `CANON[i]` to `CANON[j]` and exactly those hops logged. */
  ghost predicate Walked(before: Db, after: Db, c: string, i: nat, j: nat) {
    && c in before.cases && i <= j < |CANON|
    && before.cases[c].status == CANON[i]
    && after.cases == before.cases[c := before.cases[c].(status := CANON[j])]
    && |Rows(after, c)| == |Rows(before, c)| + (j - i)
    && Rows(after, c)[..|Rows(before, c)|] == Rows(before, c)
    && forall p | |Rows(before, c)| <= p < |Rows(after, c)| :: IsCanonHop(Rows(after, c)[p], i + p - |Rows(before, c)|)
  }

  lemma HopWalks(env: Env, db: Db, c: string, i: nat, actor: string)
    requires c in db.cases && i + 1 < |CANON| && db.cases[c].status == CANON[i]
    ensures Walked(db, Hop(env, db, c, CANON[i + 1], actor, map[]), c, i, i + 1)
  {
    var mid := WithStatus(db, c, CANON[i + 1]);
    assert Rows(mid, c) == Rows(db, c);
    AuditAppends(env, mid, c, "TRANSITION", Some(CANON[i]), Some(CANON[i + 1]), actor, map[]);
    hide Audited, Rows;
  }

  lemma WalkedCompose(x: Db, y: Db, z: Db, c: string, i: nat, j: nat)
    requires Walked(x, y, c, i, i + 1) && Walked(y, z, c, i + 1, j)
    ensures Walked(x, z, c, i, j)
  {
    var rx, ry, rz := Rows(x, c), Rows(y, c), Rows(z, c);
    assert rz[..|rx|] == rz[..|ry|][..|rx|];
    assert rz[|rx|] == rz[..|ry|][|rx|] == ry[|rx|];
  }

  lemma StandingStillWalks(db: Db, c: string, i: nat)
    requires c in db.cases && i < |CANON| && db.cases[c].status == CANON[i]
    ensures Walked(db, db, c, i, i)
  {
    assert db.cases[c].(status := CANON[i]) == db.cases[c];
  }

  lemma {:induction false} WalkUnfolds(env: Env, db: Db, c: string, i: nat, j: nat, actor: string)
    requires c in db.cases && i <= j < |CANON| && db.cases[c].status == CANON[i]
    ensures Walk(env, db, c, CANON[j], actor)
              == if i == j then db
                 else Walk(env, Hop(env, db, c, CANON[i + 1], actor, map[]), c, CANON[j], actor)
  {
    IndexOfCanon(i);
    IndexOfCanon(j);
    hide Index, Hop, CANON;
  }

  lemma {:induction false} WalkOneMore(env: Env, db: Db, next: Db, c: string, i: nat, j: nat, actor: string)
    requires c in db.cases && i < j < |CANON| && db.cases[c].status == CANON[i]
    requires next == Hop(env, db, c, CANON[i + 1], actor, map[])
    requires c in next.cases && next.cases[c].status == CANON[i + 1]
    requires Walked(next, Walk(env, next, c, CANON[j], actor), c, i + 1, j)
    ensures Walked(db, Walk(env, db, c, CANON[j], actor), c, i, j)
  {
    WalkUnfolds(env, db, c, i, j, actor);
    HopWalks(env, db, c, i, actor);
    WalkedCompose(db, next, Walk(env, next, c, CANON[j], actor), c, i, j);
  }

  /** Before the target, `advance_to` stores the target and logs exactly the canonical hops in between. */
  lemma {:induction false} AdvanceWalksTheCanon(env: Env, db: Db, c: string, i: nat, j: nat, actor: string)
    requires c in db.cases && i <= j < |CANON| && db.cases[c].status == CANON[i]
    ensures Walked(db, Walk(env, db, c, CANON[j], actor), c, i, j)
    decreases j - i
  {
    if i < j {
      var next := Hop(env, db, c, CANON[i + 1], actor, map[]);
      AdvanceWalksTheCanon(env, next, c, i + 1, j, actor);
      WalkOneMore(env, db, next, c, i, j, actor);
    } else {
      WalkUnfolds(env, db, c, i, j, actor);
      StandingStillWalks(db, c, i);
    }
  }
}
