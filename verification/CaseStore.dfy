/** The enforcement tables as the service changes them, each operation proved against its specification. */
module CaseStore {
  import opened Wrappers
  import opened AuditChain
  import opened CaseLifecycle

  class Store {
    const env: Env
    var cases: map<string, Case>
    var audit: map<string, seq<Row>>
    var challans: seq<Challan>
    var nextNumber: nat
    var nextId: nat

    ghost function Snapshot(): Db
      reads this
    {
      Db(cases, audit, challans, nextNumber, nextId)
    }

    constructor (env: Env)
      ensures this.env == env && Snapshot() == EMPTY
    {
      this.env := env;
      cases, audit, challans, nextNumber, nextId := map[], map[], [], 1001, 1;
    }

    /** Appends one audit row; the previous hash is read and the row written as one step. */
    method Audit(c: string, event: string, from: Option<string>, to: Option<string>, actor: string, detail: Detail)
      modifies this`audit, this`nextId
      ensures Snapshot() == Audited(env, old(Snapshot()), c, event, from, to, actor, detail)
    {
      var rows := if c in audit then audit[c] else [];
      var r := NewRow(env.codec, rows, nextId, event, from, to, Some(actor), detail, env.clock(nextId));
      audit := audit[c := rows + [r]];
      nextId := nextId + 1;
    }

    method OpenOrGetCase(c: string, facts: Facts, actor: string) returns (row: Case)
      modifies this
      ensures Snapshot() == OpenOrGet(env, old(Snapshot()), c, facts, actor)
      ensures c in cases && row == cases[c]
      ensures c in old(cases) ==> cases == old(cases)
      ensures c !in old(cases) ==> row.status == DETECTED
    {
      if c !in cases {
        cases := cases[c := Case(DETECTED, 0, facts)];
      }
      row := cases[c];
      var rows := if c in audit then audit[c] else [];
      if !HasOpened(rows) {
        Audit(c, "CASE_OPENED", None, Some(DETECTED), actor, OpenDetail(facts));
      }
    }

    /** Walks the case to `target`, one audited hop at a time. */
    method AdvanceTo(c: string, target: string, actor: string) returns (result: Result<string, CaseError>)
      modifies this
      ensures (Snapshot(), result) == Advance(env, old(Snapshot()), c, target, actor)
    {
      if c !in cases {
        return Err(NotFound);
      }
      var cur := cases[c].status;
      if cur !in CANON || target !in CANON {
        return Err(InvalidTransition);
      }
      while Index(cur) < Index(target)
        invariant c in cases && cases[c].status == cur && cur in CANON
        invariant Walk(env, Snapshot(), c, target, actor) == Walk(env, old(Snapshot()), c, target, actor)
        decreases Index(target) - Index(cur)
      {
        var nxt := CANON[Index(cur) + 1];
        CanonStepsAreLegal(Index(cur));
        IndexOfCanon(Index(cur) + 1);
        if !CanTransition(cur, nxt) {
          assert false;
        }
        cases := cases[c := cases[c].(status := nxt)];
        Audit(c, "TRANSITION", Some(cur), Some(nxt), actor, map[]);
        cur := nxt;
      }
      return Ok(cur);
    }

    method IssueChallan(c: string, vehicle: Option<string>, fine: int, section: Option<string>, pdf: Option<string>,
                        sha: Option<string>, actor: string, year: int) returns (result: Result<Challan, CaseError>)
      modifies this
      ensures (Snapshot(), result) == Issue(env, old(Snapshot()), c, vehicle, fine, section, pdf, sha, actor, year)
    {
      var existing := FindChallan(challans, c);
      if existing.Some? {
        return Ok(existing.value);
      }
      var number := (year, LpadSix(nextNumber));
      nextNumber := nextNumber + 1;
      if NumberTaken(challans, number) {
        return Err(UniqueViolation);
      }
      var row := Challan(number, c, vehicle, fine, section, pdf, sha, actor, "ISSUED", None);
      challans := challans + [row];
      Audit(c, "CHALLAN_ISSUED", None, Some(CHALLAN_ISSUED), actor, IssueDetail(number, fine));
      return Ok(row);
    }

    method TransitionCase(c: string, to: string, actor: string, pref: Option<string>) returns (error: Option<CaseError>)
      modifies this
      ensures (Snapshot(), error) == Transition(env, old(Snapshot()), c, to, actor, pref)
    {
      if c !in cases {
        return Some(NotFound);
      }
      var cur := cases[c].status;
      if !CanTransition(cur, to) {
        return Some(InvalidTransition);
      }
      if to !in CANON {
        return Some(CheckViolation);
      }
      cases := cases[c := cases[c].(status := to)];
      if to == PAID || to == CLOSED || to == DISPUTED {
        challans := Reflected(challans, c, to, pref);
      }
      Audit(c, "TRANSITION", Some(cur), Some(to), actor, PaymentDetail(pref));
      return None;
    }

    method SetCaseTotals(c: string, fine: int, facts: Facts)
      modifies this`cases
      ensures cases.Keys == old(cases.Keys) && forall d | d in cases && d != c :: cases[d] == old(cases[d])
      ensures c in cases ==> cases[c].status == old(cases[c].status) && cases[c].totalFine == fine
      ensures c in cases ==> Filled(old(cases[c].facts), cases[c].facts, facts)
      ensures Snapshot() == SetTotals(old(Snapshot()), c, fine, facts)
    {
      if c in cases {
        var f := cases[c].facts;
        var merged := Facts(Coalesce(f.vehicleNumber, facts.vehicleNumber), Coalesce(f.driverId, facts.driverId),
                            Coalesce(f.gateId, facts.gateId), Coalesce(f.evidenceUrl, facts.evidenceUrl),
                            Coalesce(f.evidenceSha256, facts.evidenceSha256), Coalesce(f.confidence, facts.confidence));
        cases := cases[c := cases[c].(totalFine := fine, facts := merged)];
      }
    }
  }
}
