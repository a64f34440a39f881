/** Challans: issued once, never changed, and numbered from a sequence whose text is cut to six digits. */
module ChallanTheorems {
  import opened Wrappers
  import opened AuditChain
  import opened CaseLifecycle
  import opened CaseTheorems

  /** `b` is the challan `a`, but for its status and payment reference. */
  predicate SameIssue(a: Challan, b: Challan) {
    b == a.(status := b.status, paymentRef := b.paymentRef)
  }

  ghost predicate Extends(before: seq<Challan>, after: seq<Challan>) {
    && |before| <= |after|
    && forall i | 0 <= i < |before| :: SameIssue(before[i], after[i])
  }

  // --- Issued challans never change ------------------------------------------

  lemma {:induction false} WalkKeepsChallans(env: Env, db: Db, c: string, target: string, actor: string)
    requires c in db.cases && db.cases[c].status in CANON && target in CANON
    ensures Walk(env, db, c, target, actor).challans == db.challans
    ensures Walk(env, db, c, target, actor).nextNumber == db.nextNumber
    decreases Index(target) - Index(db.cases[c].status)
  {
    var i := Index(db.cases[c].status);
    if i < Index(target) {
      IndexOfCanon(i + 1);
      WalkKeepsChallans(env, Hop(env, db, c, CANON[i + 1], actor, map[]), c, target, actor);
    }
  }

  /** A challan once issued keeps everything but its status and payment reference, under every operation. */
  lemma ChallansAreImmutable(env: Env, db: Db, op: Op)
    ensures Extends(db.challans, Step(env, db, op).challans)
  {
    hide NewRow, Index;
    match op
    case OpAdvance(c, target, actor) =>
      if c in db.cases && db.cases[c].status in CANON && target in CANON {
        WalkKeepsChallans(env, db, c, target, actor);
      }
    case _ =>
  }

  lemma {:induction false} RunKeepsChallans(env: Env, db: Db, ops: seq<Op>)
    ensures Extends(db.challans, Execute(env, db, ops).challans)
  {
    hide Step;
    if |ops| != 0 {
      RunKeepsChallans(env, db, ops[..|ops| - 1]);
      ChallansAreImmutable(env, Execute(env, db, ops[..|ops| - 1]), ops[|ops| - 1]);
    }
  }

  // --- One challan per case --------------------------------------------------

  lemma {:induction false} FoundStaysFound(before: seq<Challan>, after: seq<Challan>, c: string)
    requires Extends(before, after) && FindChallan(before, c).Some?
    ensures FindChallan(after, c).Some?
    ensures SameIssue(FindChallan(before, c).value, FindChallan(after, c).value)
  {
    assert SameIssue(before[0], after[0]);
    if before[0].caseId != c {
      assert forall i | 0 <= i < |before| - 1 :: before[1..][i] == before[i + 1] && after[1..][i] == after[i + 1];
      FoundStaysFound(before[1..], after[1..], c);
    }
  }

  /** What issuing one challan asks for. */
  function IssueOn(env: Env, db: Db, op: Op): (Db, Result<Challan, CaseError>)
    requires op.OpIssue?
  {
    Issue(env, db, op.c, op.vehicle, op.fine, op.section, op.pdf, op.sha, op.actor, op.year)
  }

  lemma {:induction false} FindChallanAppended(challans: seq<Challan>, ch: Challan, c: string)
    ensures FindChallan(challans + [ch], c)
            == if FindChallan(challans, c).Some? then FindChallan(challans, c)
               else if ch.caseId == c then Some(ch) else None
  {
    if |challans| == 0 {
      assert [ch][1..] == [];
    } else {
      assert (challans + [ch])[1..] == challans[1..] + [ch];
      FindChallanAppended(challans[1..], ch, c);
    }
  }

  lemma IssuedIsOnFile(env: Env, db: Db, op: Op)
    requires op.OpIssue?
    ensures var (after, issued) := IssueOn(env, db, op);
            issued.Ok? ==> FindChallan(after.challans, op.c) == Some(issued.value)
  {
    hide NewRow, IssueDetail, LpadSix;
    var (after, issued) := IssueOn(env, db, op);
    if FindChallan(db.challans, op.c).None? && issued.Ok? {
      FindChallanAppended(db.challans, issued.value, op.c);
    }
  }

  /**
   * Whatever happened in between and whatever it asks for, a repeated issue changes nothing and returns
   * the first challan, of which only status and payment reference may have moved on.
   */
  lemma SecondIssueReturnsTheFirst(env: Env, db: Db, first: Op, between: seq<Op>, second: Op)
    requires first.OpIssue? && second.OpIssue? && first.c == second.c
    ensures var (after, issued) := IssueOn(env, db, first);
            var later := Execute(env, after, between);
            var (end, again) := IssueOn(env, later, second);
            issued.Ok? ==> && end == later && again.Ok? && SameIssue(issued.value, again.value)
                           && (between == [] ==> again == issued)
  {
    hide SameIssue, Step;
    var (after, issued) := IssueOn(env, db, first);
    if issued.Ok? {
      IssuedIsOnFile(env, db, first);
      RunKeepsChallans(env, after, between);
      FoundStaysFound(after.challans, Execute(env, after, between).challans, first.c);
    }
  }

  /** Operation `k` of the run issued a challan to case `c`. */
  ghost predicate IssuedAt(env: Env, ops: seq<Op>, k: int, c: string) {
    && 0 <= k < |ops| && ops[k].OpIssue? && ops[k].c == c
    && IssueOn(env, Execute(env, EMPTY, ops[..k]), ops[k]).1.Ok?
  }

  lemma {:induction false} ReflectedFinds(challans: seq<Challan>, d: string, status: string, pref: Option<string>,
                                          c: string)
    ensures FindChallan(Reflected(challans, d, status, pref), c).Some? <==> FindChallan(challans, c).Some?
  {
    if |challans| != 0 {
      var r := Reflected(challans, d, status, pref);
      assert r[0].caseId == challans[0].caseId && r[1..] == Reflected(challans[1..], d, status, pref);
      ReflectedFinds(challans[1..], d, status, pref, c);
    }
  }

  /** Only issuing gives a case a challan; no hop does, and no operation takes it away. */
  lemma StepGivesAChallan(env: Env, db: Db, op: Op, c: string)
    ensures FindChallan(Step(env, db, op).challans, c).Some?
            <==> FindChallan(db.challans, c).Some? || (op.OpIssue? && op.c == c && IssueOn(env, db, op).1.Ok?)
  {
    hide NewRow, Index, FindChallan, IssueDetail, PaymentDetail, Reflected, Rows;
    match op
    case OpAdvance(d, target, actor) =>
      if d in db.cases && db.cases[d].status in CANON && target in CANON {
        WalkKeepsChallans(env, db, d, target, actor);
      }
    case OpTransition(d, to, actor, pref) => ReflectedFinds(db.challans, d, to, pref, c);
    case OpIssue(d, vehicle, fine, section, pdf, sha, actor, year) =>
      var (after, issued) := IssueOn(env, db, op);
      if issued.Ok? {
        FindChallanAppended(db.challans, issued.value, c);
        IssuedIsOnFile(env, db, op);
      }
    case _ =>
  }

  /** A hop to PAID leaves the case with a challan if and only if it had one before. */
  lemma PaidWithAChallanExactlyWhenItHadOne(env: Env, db: Db, c: string, actor: string, pref: Option<string>)
    requires Transition(env, db, c, PAID, actor, pref).1.None?
    ensures FindChallan(Transition(env, db, c, PAID, actor, pref).0.challans, c).Some?
            <==> FindChallan(db.challans, c).Some?
  {
    hide Transition, FindChallan;
    StepGivesAChallan(env, db, OpTransition(c, PAID, actor, pref), c);
  }

  /** In every run a case has a challan if and only if some earlier operation issued it one, whatever its status. */
  lemma {:induction false} ChallanExactlyWhenIssued(env: Env, ops: seq<Op>, c: string)
    ensures FindChallan(Execute(env, EMPTY, ops).challans, c).Some? <==> exists k :: IssuedAt(env, ops, k, c)
  {
    hide Step, IssueOn;
    if |ops| != 0 {
      var n := |ops| - 1;
      ChallanExactlyWhenIssued(env, ops[..n], c);
      StepGivesAChallan(env, Execute(env, EMPTY, ops[..n]), ops[n], c);
      if exists k :: IssuedAt(env, ops[..n], k, c) {
        var k :| IssuedAt(env, ops[..n], k, c);
        assert ops[..n][..k] == ops[..k];
        assert IssuedAt(env, ops, k, c);
      }
      assert ops[n].OpIssue? && ops[n].c == c && IssueOn(env, Execute(env, EMPTY, ops[..n]), ops[n]).1.Ok?
             <==> IssuedAt(env, ops, n, c);
      forall k | IssuedAt(env, ops, k, c) && k < n ensures IssuedAt(env, ops[..n], k, c) {
        assert ops[..n][..k] == ops[..k];
      }
    }
  }

  // --- Explicit hops ---------------------------------------------------------

  /**
   * A hop succeeds if and only if the case exists, the table of hops allows it and its target is not DISPUTED,
   * which the table allows and the status CHECK refuses; a hop that fails changes nothing.
   */
  lemma TransitionSucceedsExactly(env: Env, db: Db, c: string, to: string, actor: string, pref: Option<string>)
    ensures var (after, error) := Transition(env, db, c, to, actor, pref);
            && (error.None? <==> c in db.cases && IsHop(db.cases[c].status, to) && to != "DISPUTED")
            && (error == Some(NotFound) <==> c !in db.cases)
            && (error == Some(CheckViolation) <==>
                c in db.cases && db.cases[c].status == "CHALLAN_ISSUED" && to == "DISPUTED")
            && (error.Some? ==> after == db)
  {
    if c in db.cases {
      HopsAreTheTable(db.cases[c].status, to);
    }
    hide Hop, Allowed;
  }

  /** A concrete run: explicit hops alone bring a case to PAID, and nothing has issued it a challan. */
  function UnissuedRun(c: string, facts: Facts, actor: string): seq<Op> {
    [OpOpen(c, facts, actor), OpTransition(c, REVIEWED, actor, None), OpTransition(c, CONFIRMED, actor, None),
     OpTransition(c, CHALLAN_ISSUED, actor, None), OpTransition(c, PAID, actor, None)]
  }

  lemma HopSucceeds(env: Env, db: Db, c: string, to: string, actor: string)
    requires c in db.cases && CanTransition(db.cases[c].status, to) && to != DISPUTED
    ensures var after := Step(env, db, OpTransition(c, to, actor, None));
            && c in after.cases && after.cases[c].status == to && (db.challans == [] ==> after.challans == [])
  {
    TransitionSucceedsExactly(env, db, c, to, actor, None);
    hide NewRow, CanTransition;
  }

  lemma ExecuteAppends(env: Env, ops: seq<Op>, op: Op)
    ensures Execute(env, EMPTY, ops + [op]) == Step(env, Execute(env, EMPTY, ops), op)
  {
    assert (ops + [op])[..|ops|] == ops;
  }

  lemma OpeningIssuesNothing(env: Env, c: string, facts: Facts, actor: string)
    ensures var db := Step(env, Execute(env, EMPTY, []), OpOpen(c, facts, actor));
            c in db.cases && db.cases[c].status == DETECTED && db.challans == []
  {
    hide NewRow;
  }

  lemma PaidWithoutAChallan(env: Env, c: string, facts: Facts, actor: string)
    ensures var db := Execute(env, EMPTY, UnissuedRun(c, facts, actor));
            c in db.cases && db.cases[c].status == PAID && db.challans == []
  {
    var ops := UnissuedRun(c, facts, actor);
    assert ops[..1] == [] + [ops[0]] && ops[..2] == ops[..1] + [ops[1]] && ops[..3] == ops[..2] + [ops[2]];
    assert ops[..4] == ops[..3] + [ops[3]] && ops == ops[..4] + [ops[4]];
    ExecuteAppends(env, [], ops[0]);
    ExecuteAppends(env, ops[..1], ops[1]);
    ExecuteAppends(env, ops[..2], ops[2]);
    ExecuteAppends(env, ops[..3], ops[3]);
    ExecuteAppends(env, ops[..4], ops[4]);
    var db1 := Execute(env, EMPTY, ops[..1]);
    OpeningIssuesNothing(env, c, facts, actor);
    hide Execute, Step;
    HopSucceeds(env, db1, c, REVIEWED, actor);
    HopSucceeds(env, Execute(env, EMPTY, ops[..2]), c, CONFIRMED, actor);
    HopSucceeds(env, Execute(env, EMPTY, ops[..3]), c, CHALLAN_ISSUED, actor);
    HopSucceeds(env, Execute(env, EMPTY, ops[..4]), c, PAID, actor);
  }

  // --- What a hop writes on the challan --------------------------------------

  lemma {:induction false} ReflectedIs(challans: seq<Challan>, d: string, status: string, pref: Option<string>,
                                       c: string)
    ensures FindChallan(Reflected(challans, d, status, pref), c)
            == match FindChallan(challans, c)
               case None => None
               case Some(ch) =>
                 Some(if c != d then ch
                      else ch.(status := status, paymentRef := if pref.Some? then pref else ch.paymentRef))
  {
    if |challans| != 0 {
      var r := Reflected(challans, d, status, pref);
      assert r[1..] == Reflected(challans[1..], d, status, pref);
      ReflectedIs(challans[1..], d, status, pref, c);
    }
  }

  /** A hop that moves the challan of case `c` on: it succeeds, and it leads to PAID or CLOSED. */
  predicate Settles(db: Db, op: Op, c: string) {
    && op.OpTransition? && op.c == c && (op.to == "PAID" || op.to == "CLOSED")
    && c in db.cases && IsHop(db.cases[c].status, op.to)
  }

  /** The challan after such a hop: the new status, and the new payment reference if one is given. */
  function Settled(ch: Challan, op: Op): Challan
    requires op.OpTransition?
  {
    ch.(status := op.to, paymentRef := if op.pref.Some? then op.pref else ch.paymentRef)
  }

  /** A hop to PAID or CLOSED writes its status and reference on the challan of its case; nothing else moves one. */
  lemma OnlySettlingMovesAChallan(env: Env, db: Db, op: Op, c: string)
    requires FindChallan(db.challans, c).Some?
    ensures var ch := FindChallan(db.challans, c).value;
            FindChallan(Step(env, db, op).challans, c) == Some(if Settles(db, op, c) then Settled(ch, op) else ch)
  {
    hide NewRow, Index, FindChallan, IssueDetail, PaymentDetail, Reflected, Rows, LpadSix;
    match op
    case OpAdvance(d, target, actor) =>
      if d in db.cases && db.cases[d].status in CANON && target in CANON {
        WalkKeepsChallans(env, db, d, target, actor);
      }
    case OpTransition(d, to, actor, pref) =>
      ReflectedIs(db.challans, d, to, pref, c);
      if d in db.cases {
        HopsAreTheTable(db.cases[d].status, to);
      }
      hide IsHop, CanTransition;
    case OpIssue(d, vehicle, fine, section, pdf, sha, actor, year) =>
      var (after, issued) := IssueOn(env, db, op);
      if issued.Ok? {
        FindChallanAppended(db.challans, issued.value, c);
      }
    case _ =>
  }

  /** A hop that does not settle leaves the whole table of challans as it is. */
  lemma OtherHopsLeaveChallans(env: Env, db: Db, op: Op)
    requires op.OpTransition? && !Settles(db, op, op.c)
    ensures Step(env, db, op).challans == db.challans
  {
    if op.c in db.cases {
      HopsAreTheTable(db.cases[op.c].status, op.to);
    }
    hide IsHop, CanTransition;
    hide NewRow, PaymentDetail;
  }

  /** While no hop settles it, a challan stands as it is. */
  lemma {:induction false} UnsettledChallanStands(env: Env, db: Db, ops: seq<Op>, c: string)
    requires FindChallan(db.challans, c).Some?
    requires forall k | 0 <= k < |ops| :: !Settles(Execute(env, db, ops[..k]), ops[k], c)
    ensures FindChallan(Execute(env, db, ops).challans, c) == FindChallan(db.challans, c)
  {
    if |ops| != 0 {
      var n := |ops| - 1;
      assert forall k | 0 <= k < n :: ops[..n][..k] == ops[..k];
      UnsettledChallanStands(env, db, ops[..n], c);
      OnlySettlingMovesAChallan(env, Execute(env, db, ops[..n]), ops[n], c);
    }
  }

  lemma {:induction false} ExecuteSplits(env: Env, db: Db, ops: seq<Op>, k: nat)
    requires k <= |ops|
    ensures Execute(env, db, ops) == Execute(env, Execute(env, db, ops[..k]), ops[k..])
  {
    hide Step;
    if k == |ops| {
      assert ops[..k] == ops && ops[k..] == [];
    } else {
      var n := |ops| - 1;
      ExecuteSplits(env, db, ops[..n], k);
      assert ops[..n][..k] == ops[..k] && ops[..n][k..] == ops[k..][..n - k];
    }
  }

  /** In every run the challan of a case shows what the last hop to PAID or CLOSED of that case wrote. */
  lemma {:induction false} ChallanShowsTheLastSettlement(env: Env, ops: seq<Op>, k: nat, c: string)
    requires k < |ops| && Settles(Execute(env, EMPTY, ops[..k]), ops[k], c)
    requires FindChallan(Execute(env, EMPTY, ops[..k]).challans, c).Some?
    requires forall m | k < m < |ops| :: !Settles(Execute(env, EMPTY, ops[..m]), ops[m], c)
    ensures FindChallan(Execute(env, EMPTY, ops).challans, c)
            == Some(Settled(FindChallan(Execute(env, EMPTY, ops[..k]).challans, c).value, ops[k]))
  {
    hide Step, FindChallan, Settled;
    var before, after := Execute(env, EMPTY, ops[..k]), Execute(env, EMPTY, ops[..k + 1]);
    assert ops[..k + 1] == ops[..k] + [ops[k]];
    ExecuteAppends(env, ops[..k], ops[k]);
    OnlySettlingMovesAChallan(env, before, ops[k], c);
    ExecuteSplits(env, EMPTY, ops, k + 1);
    var rest := ops[k + 1..];
    forall m | 0 <= m < |rest| ensures !Settles(Execute(env, after, rest[..m]), rest[m], c) {
      assert ops[..k + 1 + m][..k + 1] == ops[..k + 1] && ops[..k + 1 + m][k + 1..] == rest[..m];
      ExecuteSplits(env, EMPTY, ops[..k + 1 + m], k + 1);
    }
    hide Settles;
    UnsettledChallanStands(env, after, rest, c);
  }

  /** A challan is issued with what was asked for, unpaid, under the number drawn, and stands so until it is settled. */
  lemma IssuedAsAsked(env: Env, db: Db, op: Op, later: seq<Op>)
    requires op.OpIssue? && FindChallan(db.challans, op.c).None? && IssueOn(env, db, op).1.Ok?
    requires forall k | 0 <= k < |later| :: !Settles(Execute(env, Step(env, db, op), later[..k]), later[k], op.c)
    ensures FindChallan(Execute(env, Step(env, db, op), later).challans, op.c)
            == Some(Challan((op.year, LpadSix(db.nextNumber)), op.c, op.vehicle, op.fine, op.section, op.pdf, op.sha,
                            op.actor, "ISSUED", None))
  {
    hide Execute, NewRow, FindChallan, LpadSix, Settles, IssueDetail;
    IssuedIsOnFile(env, db, op);
    UnsettledChallanStands(env, Step(env, db, op), later, op.c);
  }

  // --- Challan numbers -------------------------------------------------------

  /** Issuing fails if and only if the case has no challan yet and the padded number is on file for the year. */
  lemma IssueFailsExactlyOnATakenNumber(env: Env, db: Db, op: Op)
    requires op.OpIssue?
    ensures IssueOn(env, db, op).1.Err?
            <==> FindChallan(db.challans, op.c).None? && NumberTaken(db.challans, (op.year, LpadSix(db.nextNumber)))
  {
  }

  /** The years of the numbers drawn in a run, in order: the `m`th draw takes number `1001 + m` of the sequence. */
  function Draws(env: Env, ops: seq<Op>): seq<int> {
    if |ops| == 0 then []
    else
      var front, op := ops[..|ops| - 1], ops[|ops| - 1];
      Draws(env, front)
      + if op.OpIssue? && FindChallan(Execute(env, EMPTY, front).challans, op.c).None? then [op.year] else []
  }

  /** Draw `m` fell in year `y` and shows the digits `x`. */
  predicate DrewAs(draws: seq<int>, m: int, y: int, x: nat) {
    0 <= m < |draws| && draws[m] == y && LpadSix(1001 + m) == x
  }

  /** Some draw of year `y` shows the digits `x`. */
  ghost predicate Drawn(draws: seq<int>, y: int, x: nat) {
    exists m :: DrewAs(draws, m, y, x)
  }

  lemma OtherOpsDrawNothing(env: Env, db: Db, op: Op)
    requires !(op.OpIssue? && FindChallan(db.challans, op.c).None?)
    ensures Step(env, db, op).nextNumber == db.nextNumber
    ensures |Step(env, db, op).challans| == |db.challans|
    ensures forall i | 0 <= i < |db.challans| :: Step(env, db, op).challans[i].number == db.challans[i].number
  {
    hide NewRow, Index, FindChallan, Rows, PaymentDetail;
    match op
    case OpAdvance(c, target, actor) =>
      if c in db.cases && db.cases[c].status in CANON && target in CANON {
        WalkKeepsChallans(env, db, c, target, actor);
      }
    case _ =>
  }

  lemma SameNumbers(a: seq<Challan>, b: seq<Challan>, number: (int, nat))
    requires |a| == |b| && forall i | 0 <= i < |a| :: a[i].number == b[i].number
    ensures NumberTaken(a, number) <==> NumberTaken(b, number)
  {
  }

  lemma TakenAppended(challans: seq<Challan>, ch: Challan, number: (int, nat))
    ensures NumberTaken(challans + [ch], number) <==> NumberTaken(challans, number) || ch.number == number
  {
    var all := challans + [ch];
    assert all[|challans|] == ch;
    assert forall i | 0 <= i < |challans| :: all[i] == challans[i];
  }

  /** Drawing a number puts it on file, if it was not. */
  lemma DrawTakes(env: Env, db: Db, op: Op, number: (int, nat))
    requires op.OpIssue? && FindChallan(db.challans, op.c).None?
    ensures var after := Step(env, db, op);
            && after.nextNumber == db.nextNumber + 1
            && (NumberTaken(after.challans, number)
                <==> NumberTaken(db.challans, number) || number == (op.year, LpadSix(db.nextNumber)))
  {
    hide NewRow, IssueDetail, LpadSix, NumberTaken;
    var (after, issued) := IssueOn(env, db, op);
    if issued.Ok? {
      TakenAppended(db.challans, issued.value, number);
    }
  }

  lemma NothingTaken(number: (int, nat))
    ensures !NumberTaken([], number)
  {
  }

  lemma DrawsAppended(draws: seq<int>, year: int, y: int, x: nat)
    ensures Drawn(draws + [year], y, x) <==> Drawn(draws, y, x) || (year == y && LpadSix(1001 + |draws|) == x)
  {
    hide LpadSix;
    if Drawn(draws, y, x) {
      var m :| DrewAs(draws, m, y, x);
      assert DrewAs(draws + [year], m, y, x);
    }
    assert DrewAs(draws + [year], |draws|, y, x) <==> year == y && LpadSix(1001 + |draws|) == x;
    forall m | DrewAs(draws + [year], m, y, x) && m < |draws| ensures DrewAs(draws, m, y, x) {
    }
  }

  lemma {:induction false} NumbersOnFileAreTheDraws(env: Env, ops: seq<Op>, y: int, x: nat)
    ensures Execute(env, EMPTY, ops).nextNumber == 1001 + |Draws(env, ops)|
    ensures NumberTaken(Execute(env, EMPTY, ops).challans, (y, x)) <==> Drawn(Draws(env, ops), y, x)
  {
    hide Step, NumberTaken, FindChallan, LpadSix;
    if |ops| == 0 {
      NothingTaken((y, x));
    } else {
      var front, op := ops[..|ops| - 1], ops[|ops| - 1];
      NumbersOnFileAreTheDraws(env, front, y, x);
      var before := Execute(env, EMPTY, front);
      if op.OpIssue? && FindChallan(before.challans, op.c).None? {
        DrawTakes(env, before, op, (y, x));
        DrawsAppended(Draws(env, front), op.year, y, x);
      } else {
        OtherOpsDrawNothing(env, before, op);
        assert Draws(env, ops) == Draws(env, front) + [] == Draws(env, front);
        SameNumbers(before.challans, Execute(env, EMPTY, ops).challans, (y, x));
      }
    }
  }

  /**
   * In every run, issuing to a case without a challan fails if and only if an earlier draw of the same year
   * shows the same digits: the number is cut to its first six.
   */
  lemma IssueFailsExactlyWhenDigitsRepeat(env: Env, ops: seq<Op>, op: Op)
    requires op.OpIssue?
    ensures var db, draws := Execute(env, EMPTY, ops), Draws(env, ops);
            IssueOn(env, db, op).1.Err?
            <==> && FindChallan(db.challans, op.c).None?
                 && Drawn(draws, op.year, LpadSix(1001 + |draws|))
  {
    hide Execute, Draws, LpadSix, NumberTaken, FindChallan;
    NumbersOnFileAreTheDraws(env, ops, op.year, LpadSix(1001 + |Draws(env, ops)|));
    IssueFailsExactlyOnATakenNumber(env, Execute(env, EMPTY, ops), op);
    hide IssueOn;
  }

  /** In every run, issuing never fails while the sequence fits six digits. */
  lemma IssueSucceedsBelowAMillion(env: Env, ops: seq<Op>, op: Op)
    requires op.OpIssue? && Execute(env, EMPTY, ops).nextNumber < 1_000_000
    ensures IssueOn(env, Execute(env, EMPTY, ops), op).1.Ok?
  {
    hide Execute, Draws, FindChallan, IssueOn;
    IssueFailsExactlyWhenDigitsRepeat(env, ops, op);
    NumbersOnFileAreTheDraws(env, ops, 0, 0);
  }

  lemma {:induction false} BlocksOfTenAreCutAlike(x: nat, y: nat)
    requires x >= 1_000_000 && y >= 1_000_000 && x / 10 == y / 10
    ensures LpadSix(x) == LpadSix(y)
  {
  }

  /** Past a million, issuing to a case without a challan fails once its block of ten has a draw of the same year. */
  lemma BlockOfTenIssuesOnce(env: Env, ops: seq<Op>, op: Op, m: nat)
    requires op.OpIssue? && FindChallan(Execute(env, EMPTY, ops).challans, op.c).None?
    requires m < |Draws(env, ops)| && Draws(env, ops)[m] == op.year
    requires 1001 + m >= 1_000_000 && (1001 + m) / 10 == (1001 + |Draws(env, ops)|) / 10
    ensures IssueOn(env, Execute(env, EMPTY, ops), op).1 == Err(UniqueViolation)
  {
    hide Execute, Draws, LpadSix, NumberTaken, FindChallan;
    BlocksOfTenAreCutAlike(1001 + m, 1001 + |Draws(env, ops)|);
    assert DrewAs(Draws(env, ops), m, op.year, LpadSix(1001 + |Draws(env, ops)|));
    IssueFailsExactlyWhenDigitsRepeat(env, ops, op);
    hide Drawn;
  }

  // --- A busy year -----------------------------------------------------------

  /** A case, and what its challan is to say. */
  datatype Booking = Booking(c: string, facts: Facts, vehicle: Option<string>, fine: int, section: Option<string>,
                             pdf: Option<string>, sha: Option<string>, actor: string)

  function Opening(b: Booking): Op {
    OpOpen(b.c, b.facts, b.actor)
  }

  function Issuing(b: Booking, year: int): Op {
    OpIssue(b.c, b.vehicle, b.fine, b.section, b.pdf, b.sha, b.actor, year)
  }

  /** Opens every case in turn and issues its challan. */
  function BusyYear(year: int, bs: seq<Booking>): seq<Op> {
    if |bs| == 0 then []
    else BusyYear(year, bs[..|bs| - 1]) + [Opening(bs[|bs| - 1])] + [Issuing(bs[|bs| - 1], year)]
  }

  ghost predicate DistinctCases(bs: seq<Booking>) {
    forall i, j | 0 <= i < j < |bs| :: bs[i].c != bs[j].c
  }

  predicate FiledAs(ch: Challan, c: string, year: int, i: nat) {
    ch.caseId == c && ch.number == (year, 1001 + i)
  }

  /** Each case of `bs` holds a challan, under consecutive numbers. */
  ghost predicate Filed(db: Db, year: int, bs: seq<Booking>) {
    && db.nextNumber == 1001 + |bs| && |db.challans| == |bs|
    && forall i | 0 <= i < |bs| :: FiledAs(db.challans[i], bs[i].c, year, i)
  }

  lemma OpeningFilesNothing(env: Env, db: Db, year: int, bs: seq<Booking>, b: Booking)
    requires Filed(db, year, bs)
    ensures Filed(Step(env, db, Opening(b)), year, bs)
  {
    hide NewRow;
  }

  lemma OneMoreFiled(env: Env, db: Db, year: int, bs: seq<Booking>, b: Booking)
    requires Filed(db, year, bs) && DistinctCases(bs + [b]) && 1001 + |bs| < 1_000_000
    ensures Filed(Step(env, db, Issuing(b, year)), year, bs + [b])
  {
    hide NewRow, IssueDetail;
    FindChallanFinds(db.challans, b.c);
    forall i | 0 <= i < |bs| ensures bs[i].c != b.c {
      assert (bs + [b])[i].c != (bs + [b])[|bs|].c;
    }
    hide FindChallan, DistinctCases;
  }

  lemma OneMoreBooked(env: Env, ops: seq<Op>, year: int, bs: seq<Booking>, b: Booking)
    requires Filed(Execute(env, EMPTY, ops), year, bs) && DistinctCases(bs + [b]) && 1001 + |bs| < 1_000_000
    ensures Filed(Execute(env, EMPTY, ops + [Opening(b)] + [Issuing(b, year)]), year, bs + [b])
  {
    hide *;
    ExecuteAppends(env, ops, Opening(b));
    ExecuteAppends(env, ops + [Opening(b)], Issuing(b, year));
    OpeningFilesNothing(env, Execute(env, EMPTY, ops), year, bs, b);
    OneMoreFiled(env, Execute(env, EMPTY, ops + [Opening(b)]), year, bs, b);
  }

  lemma FrontIsDistinct(bs: seq<Booking>)
    requires DistinctCases(bs) && |bs| > 0
    ensures DistinctCases(bs[..|bs| - 1])
  {
  }

  /** Distinct cases opened and issued to one after another in one year are filed under consecutive numbers. */
  lemma {:induction false} BusyYearIsFiled(env: Env, year: int, bs: seq<Booking>)
    requires DistinctCases(bs) && 1001 + |bs| <= 1_000_000
    ensures Filed(Execute(env, EMPTY, BusyYear(year, bs)), year, bs)
  {
    if |bs| != 0 {
      hide Step, Execute, Filed, DistinctCases, Issuing, Opening;
      var front, b := bs[..|bs| - 1], bs[|bs| - 1];
      FrontIsDistinct(bs);
      BusyYearIsFiled(env, year, front);
      assert front + [b] == bs;
      OneMoreBooked(env, BusyYear(year, front), year, front, b);
    }
  }

  /** Any 998,999 cases use up a year: the sequence reads a million, and the next case gets no challan. */
  lemma MillionthNumberIsRefused(env: Env, year: int, bs: seq<Booking>, next: Booking)
    requires |bs| == 998_999 && DistinctCases(bs + [next])
    ensures IssueOn(env, Execute(env, EMPTY, BusyYear(year, bs)), Issuing(next, year)).1 == Err(UniqueViolation)
  {
    hide Execute, BusyYear;
    FrontIsDistinct(bs + [next]);
    assert (bs + [next])[..|bs|] == bs;
    BusyYearIsFiled(env, year, bs);
    var db := Execute(env, EMPTY, BusyYear(year, bs));
    FindChallanFinds(db.challans, next.c);
    forall i | 0 <= i < |bs| ensures db.challans[i].caseId != next.c {
      assert (bs + [next])[i].c != (bs + [next])[|bs|].c;
      assert FiledAs(db.challans[i], bs[i].c, year, i);
    }
    hide FindChallan;
    assert LpadSix(1_000_000) == LpadSix(100_000) == 100_000;
    assert FiledAs(db.challans[98_999], bs[98_999].c, year, 98_999);
    assert db.challans[98_999].number == (year, LpadSix(db.nextNumber));
  }
}
