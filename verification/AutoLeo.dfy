/** Auto-LEO: joins the four captured records of a container and decides its Let Export Order. */
module AutoLeo {
  import opened Wrappers
  import opened Rounding
  import opened GateSeed

  datatype Flag = EsealTamper | WeightMismatch | LeoMissingFlag | IdMismatch | RecordsMissing | WeightMissing

  /** Join state of one stream; an absent stream never counts as agreeing. */
  datatype Join = Match | Mismatch | Missing

  datatype Sources = Sources(eseal: Join, form13: Join, weighbridge: Join, icegate: Join)

  datatype Checks = Checks(recordsPresent: bool, idMatch: bool, idMismatched: seq<string>, esealOk: bool,
                           discrepancyPct: Option<real>, weightOk: bool, leoPresent: bool)

  datatype LeoResult = LeoResult(containerNo: string, vehiclePlate: Option<string>, leoReady: bool, checks: Checks,
                                 customsFlags: seq<Flag>, sources: Sources)

  function Abs(x: int): nat {
    if x < 0 then -x else x
  }

  /** Relative discrepancy in percent; zero for a declared weight of zero, and not positive for a negative one. */
  function DiscrepancyPct(measured: int, gross: int): real {
    if gross == 0 then 0.0 else Abs(measured - gross) as real / gross as real * 100.0
  }

  // --- Checks ----------------------------------------------------------------

  /** The names of the present streams that carry another container number, in alphabetical order. */
  function MismatchedIds(rec: GateRecord, containerNo: string): seq<string> {
    (if rec.eseal.Some? && rec.eseal.value.containerNo != containerNo then ["eseal"] else [])
    + (if rec.form13.Some? && rec.form13.value.containerNo != containerNo then ["form13"] else [])
    + (if rec.icegate.Some? && rec.icegate.value.containerNo != containerNo then ["icegate"] else [])
    + (if rec.weighbridge.Some? && rec.weighbridge.value.containerNo != containerNo then ["weighbridge"] else [])
  }

  function Discrepancy(rec: GateRecord): Option<real> {
    if rec.weighbridge.Some? && rec.form13.Some?
    then Some(DiscrepancyPct(rec.weighbridge.value.measuredWtKg, rec.form13.value.grossWtKg))
    else None
  }

  function RunChecks(rec: GateRecord, containerNo: string, tol: real): Checks {
    var d := Discrepancy(rec);
    Checks(true, MismatchedIds(rec, containerNo) == [], MismatchedIds(rec, containerNo),
           rec.eseal.Some? && !rec.eseal.value.tamperFlag,
           if d.Some? then Some(RoundTo(d.value, 100)) else None,
           d.Some? && d.value <= tol,
           rec.icegate.Some? && rec.icegate.value.leoStatus == "GRANTED")
  }

  function State(present: bool, mismatched: bool, ok: bool): Join {
    if !present then Missing else if mismatched then Mismatch else if ok then Match else Mismatch
  }

  function JoinStates(rec: GateRecord, c: Checks): Sources {
    Sources(State(rec.eseal.Some?, "eseal" in c.idMismatched, c.esealOk),
            State(rec.form13.Some?, "form13" in c.idMismatched, true),
            State(rec.weighbridge.Some?, "weighbridge" in c.idMismatched, c.weightOk),
            State(rec.icegate.Some?, "icegate" in c.idMismatched, c.leoPresent))
  }

  // --- Customs flags ---------------------------------------------------------

  const FLAG_ORDER: seq<Flag> :=
    [IdMismatch, RecordsMissing, EsealTamper, WeightMissing, WeightMismatch, LeoMissingFlag]

  /** When each flag is due; a weight that disagrees is not a weight that is missing. */
  predicate Raised(rec: GateRecord, c: Checks, flag: Flag) {
    match flag
    case IdMismatch => !c.idMatch
    case RecordsMissing => rec.eseal.None?
    case EsealTamper => rec.eseal.Some? && !c.esealOk
    case WeightMissing => rec.weighbridge.None? || rec.form13.None?
    case WeightMismatch => rec.weighbridge.Some? && rec.form13.Some? && !c.weightOk
    case LeoMissingFlag => !c.leoPresent
  }

  function Rank(flag: Flag): (i: nat)
    ensures i < |FLAG_ORDER| && FLAG_ORDER[i] == flag
  {
    match flag
    case IdMismatch => 0
    case RecordsMissing => 1
    case EsealTamper => 2
    case WeightMissing => 3
    case WeightMismatch => 4
    case LeoMissingFlag => 5
  }

  ghost predicate InFlagOrder(flags: seq<Flag>) {
    forall i, j | 0 <= i < j < |flags| :: Rank(flags[i]) < Rank(flags[j])
  }

  function FlagsOf(rec: GateRecord, c: Checks): seq<Flag> {
    (if c.idMatch then [] else [IdMismatch])
    + (if rec.eseal.None? then [RecordsMissing] else if c.esealOk then [] else [EsealTamper])
    + (if rec.weighbridge.None? || rec.form13.None? then [WeightMissing]
       else if c.weightOk then [] else [WeightMismatch])
    + if c.leoPresent then [] else [LeoMissingFlag]
  }

  lemma FlagsAreTheRaised(rec: GateRecord, c: Checks)
    ensures forall f :: f in FlagsOf(rec, c) <==> Raised(rec, c, f)
    ensures InFlagOrder(FlagsOf(rec, c))
  {
    forall f ensures f in FlagsOf(rec, c) <==> Raised(rec, c, f) {
      match f
      case IdMismatch =>
      case RecordsMissing =>
      case EsealTamper =>
      case WeightMissing =>
      case WeightMismatch =>
      case LeoMissingFlag =>
    }
  }

  /** Exactly the due flags, each once, in a fixed order. */
  method CustomsFlags(rec: GateRecord, c: Checks) returns (flags: seq<Flag>)
    ensures forall f :: f in flags <==> Raised(rec, c, f)
    ensures InFlagOrder(flags)
    ensures flags == FlagsOf(rec, c)
  {
    FlagsAreTheRaised(rec, c);
    hide Raised, InFlagOrder;
    flags := [];
    if !c.idMatch {
      flags := flags + [IdMismatch];
    }
    if rec.eseal.None? {
      flags := flags + [RecordsMissing];
    } else if !c.esealOk {
      flags := flags + [EsealTamper];
    }
    if rec.weighbridge.None? || rec.form13.None? {
      flags := flags + [WeightMissing];
    } else if !c.weightOk {
      flags := flags + [WeightMismatch];
    }
    if !c.leoPresent {
      flags := flags + [LeoMissingFlag];
    }
    assert flags == FlagsOf(rec, c);
  }

  function Reconciled(dataset: Dataset, containerNo: string, tol: real): LeoResult {
    if containerNo !in dataset
    then LeoResult(containerNo, None, false, Checks(false, false, [], false, None, false, false), [RecordsMissing],
                   Sources(Missing, Missing, Missing, Missing))
    else
      var rec := dataset[containerNo];
      var checks := RunChecks(rec, containerNo, tol);
      var flags := FlagsOf(rec, checks);
      LeoResult(containerNo, if rec.weighbridge.Some? then Some(rec.weighbridge.value.vehiclePlate) else None,
                flags == [], checks, flags, JoinStates(rec, checks))
  }

  // --- What a ready container means ------------------------------------------

  /** Weights within tolerance, free of division. */
  ghost predicate WeighsWithin(measured: int, gross: int, tol: real) {
    || (gross == 0 && tol >= 0.0)
    || (gross > 0 && Abs(measured - gross) as real * 100.0 <= tol * gross as real)
    || (gross < 0 && Abs(measured - gross) as real * 100.0 >= tol * gross as real)
  }

  lemma ScaleOrdered(a: real, x: real, y: real)
    requires a >= 0.0 && x <= y
    ensures a * x <= a * y
    ensures x >= 0.0 ==> 0.0 <= a * x
  {
  }

  lemma DivideByGross(a: real, g: real, t: real)
    requires g != 0.0
    ensures g > 0.0 ==> (a / g * 100.0 <= t <==> a * 100.0 <= t * g)
    ensures g < 0.0 ==> (a / g * 100.0 <= t <==> a * 100.0 >= t * g)
  {
    var q := a / g;
    assert a == q * g;
    assert a * 100.0 - t * g == (q * 100.0 - t) * g;
  }

  lemma WithinTolerance(measured: int, gross: int, tol: real)
    ensures DiscrepancyPct(measured, gross) <= tol <==> WeighsWithin(measured, gross, tol)
  {
    if gross != 0 {
      DivideByGross(Abs(measured - gross) as real, gross as real, tol);
    }
  }

  /** A declared weight of zero or less disagrees with no reading. */
  lemma NonPositiveDeclarationAlwaysPasses(measured: int, gross: int, tol: real)
    requires gross <= 0 && tol >= 0.0
    ensures DiscrepancyPct(measured, gross) <= tol
  {
    WithinTolerance(measured, gross, tol);
    ScaleOrdered(tol, gross as real, 0.0);
  }

  /** All four streams captured, on this container, untampered, within tolerance and granted. */
  ghost predicate InOrder(rec: GateRecord, containerNo: string, tol: real) {
    && rec.eseal.Some? && rec.form13.Some? && rec.weighbridge.Some? && rec.icegate.Some?
    && rec.eseal.value.containerNo == containerNo && rec.form13.value.containerNo == containerNo
    && rec.weighbridge.value.containerNo == containerNo && rec.icegate.value.containerNo == containerNo
    && !rec.eseal.value.tamperFlag
    && WeighsWithin(rec.weighbridge.value.measuredWtKg, rec.form13.value.grossWtKg, tol)
    && rec.icegate.value.leoStatus == "GRANTED"
  }

  /** Which streams carry another container number. */
  lemma MismatchedNames(rec: GateRecord, containerNo: string)
    ensures var m := MismatchedIds(rec, containerNo);
            && ("eseal" in m <==> rec.eseal.Some? && rec.eseal.value.containerNo != containerNo)
            && ("form13" in m <==> rec.form13.Some? && rec.form13.value.containerNo != containerNo)
            && ("weighbridge" in m <==> rec.weighbridge.Some? && rec.weighbridge.value.containerNo != containerNo)
            && ("icegate" in m <==> rec.icegate.Some? && rec.icegate.value.containerNo != containerNo)
            && (m == [] <==> "eseal" !in m && "form13" !in m && "weighbridge" !in m && "icegate" !in m)
  {
    assert "eseal"[0] == 'e' && "form13"[0] == 'f' && "icegate"[0] == 'i' && "weighbridge"[0] == 'w';
  }

  /**
   * A container is cleared exactly when its four records exist and are in order, and exactly
   * when all four streams join as matching: an absent record never passes.
   */
  lemma {:induction false} ReadyMeansInOrder(dataset: Dataset, containerNo: string, tol: real)
    ensures var r := Reconciled(dataset, containerNo, tol);
            && (r.leoReady <==> containerNo in dataset && InOrder(dataset[containerNo], containerNo, tol))
            && (r.leoReady <==> r.sources == Sources(Match, Match, Match, Match))
  {
    if containerNo in dataset {
      var rec := dataset[containerNo];
      MismatchedNames(rec, containerNo);
      if rec.weighbridge.Some? && rec.form13.Some? {
        WithinTolerance(rec.weighbridge.value.measuredWtKg, rec.form13.value.grossWtKg, tol);
      }
      hide MismatchedIds, RoundTo, WeighsWithin, DiscrepancyPct;
      var r := Reconciled(dataset, containerNo, tol);
      assert r.leoReady <==> |r.customsFlags| == 0;
    }
  }

  lemma PercentIs(a: real, g: real)
    requires g > 0.0
    ensures a / g * 100.0 == a * 100.0 / g
  {
    assert a / g * g == a && a * 100.0 / g * g == a * 100.0;
    assert (a / g * 100.0 - a * 100.0 / g) * g == 0.0;
  }

  /** Some captured stream carries another container number. */
  predicate Disagrees(rec: GateRecord, containerNo: string) {
    || (rec.eseal.Some? && rec.eseal.value.containerNo != containerNo)
    || (rec.form13.Some? && rec.form13.value.containerNo != containerNo)
    || (rec.weighbridge.Some? && rec.weighbridge.value.containerNo != containerNo)
    || (rec.icegate.Some? && rec.icegate.value.containerNo != containerNo)
  }

  /** When a flag is due, read on the record: an absent stream is told from one that disagrees. */
  ghost predicate Due(rec: GateRecord, containerNo: string, tol: real, flag: Flag) {
    match flag
    case IdMismatch => Disagrees(rec, containerNo)
    case RecordsMissing => rec.eseal == None
    case EsealTamper => rec.eseal.Some? && rec.eseal.value.tamperFlag
    case WeightMissing => rec.weighbridge == None || rec.form13 == None
    case WeightMismatch =>
      rec.weighbridge.Some? && rec.form13.Some?
      && !WeighsWithin(rec.weighbridge.value.measuredWtKg, rec.form13.value.grossWtKg, tol)
    case LeoMissingFlag => rec.icegate == None || rec.icegate.value.leoStatus != "GRANTED"
  }

  lemma RaisedIsDue(rec: GateRecord, containerNo: string, tol: real, flag: Flag)
    ensures Raised(rec, RunChecks(rec, containerNo, tol), flag) <==> Due(rec, containerNo, tol, flag)
  {
    MismatchedNames(rec, containerNo);
    if rec.weighbridge.Some? && rec.form13.Some? {
      WithinTolerance(rec.weighbridge.value.measuredWtKg, rec.form13.value.grossWtKg, tol);
    }
    hide MismatchedIds, WeighsWithin, DiscrepancyPct, RoundTo;
  }

  /** The flags of a captured container are exactly those due on its record. */
  lemma FlagsAreTheDue(dataset: Dataset, containerNo: string, tol: real)
    requires containerNo in dataset
    ensures forall f :: f in Reconciled(dataset, containerNo, tol).customsFlags
                        <==> Due(dataset[containerNo], containerNo, tol, f)
  {
    var rec := dataset[containerNo];
    FlagsAreTheRaised(rec, RunChecks(rec, containerNo, tol));
    forall f ensures f in Reconciled(dataset, containerNo, tol).customsFlags <==> Due(rec, containerNo, tol, f) {
      RaisedIsDue(rec, containerNo, tol, f);
    }
  }

  /** Absent is missing; present is a match on this container if it passes its own test, and a mismatch otherwise. */
  predicate Joins(j: Join, captured: bool, onThis: bool, passes: bool) {
    && (j == Missing <==> !captured)
    && (j == Match <==> captured && onThis && passes)
  }

  lemma StateJoins(captured: bool, onThis: bool, passes: bool)
    requires onThis ==> captured
    ensures Joins(State(captured, captured && !onThis, passes), captured, onThis, passes)
  {
  }

  /** Each stream is judged on its own record, the weight against the declared one. */
  ghost predicate Judges(s: Sources, rec: GateRecord, containerNo: string, tol: real) {
    && Joins(s.eseal, rec.eseal.Some?, rec.eseal.Some? && rec.eseal.value.containerNo == containerNo,
             rec.eseal.Some? && !rec.eseal.value.tamperFlag)
    && Joins(s.form13, rec.form13.Some?, rec.form13.Some? && rec.form13.value.containerNo == containerNo, true)
    && Joins(s.weighbridge, rec.weighbridge.Some?,
             rec.weighbridge.Some? && rec.weighbridge.value.containerNo == containerNo,
             rec.weighbridge.Some? && rec.form13.Some?
             && WeighsWithin(rec.weighbridge.value.measuredWtKg, rec.form13.value.grossWtKg, tol))
    && Joins(s.icegate, rec.icegate.Some?, rec.icegate.Some? && rec.icegate.value.containerNo == containerNo,
             rec.icegate.Some? && rec.icegate.value.leoStatus == "GRANTED")
  }

  lemma StatesJudge(rec: GateRecord, containerNo: string, tol: real, c: Checks)
    requires c == RunChecks(rec, containerNo, tol)
    ensures Judges(JoinStates(rec, c), rec, containerNo, tol)
  {
    MismatchedNames(rec, containerNo);
    if rec.weighbridge.Some? && rec.form13.Some? {
      WithinTolerance(rec.weighbridge.value.measuredWtKg, rec.form13.value.grossWtKg, tol);
    }
    hide MismatchedIds, RoundTo, WeighsWithin, DiscrepancyPct, State, Joins;
    StateJoins(rec.eseal.Some?, rec.eseal.Some? && rec.eseal.value.containerNo == containerNo, c.esealOk);
    StateJoins(rec.form13.Some?, rec.form13.Some? && rec.form13.value.containerNo == containerNo, true);
    StateJoins(rec.weighbridge.Some?, rec.weighbridge.Some? && rec.weighbridge.value.containerNo == containerNo,
               c.weightOk);
    StateJoins(rec.icegate.Some?, rec.icegate.Some? && rec.icegate.value.containerNo == containerNo, c.leoPresent);
  }

  /** Every stream of a container is missing, matching or mismatched on its own record. */
  lemma EachStreamIsJudged(dataset: Dataset, containerNo: string, tol: real)
    ensures var s := Reconciled(dataset, containerNo, tol).sources;
            if containerNo in dataset then Judges(s, dataset[containerNo], containerNo, tol)
            else s == Sources(Missing, Missing, Missing, Missing)
  {
    hide RunChecks, Judges, FlagsOf;
    if containerNo in dataset {
      var rec := dataset[containerNo];
      StatesJudge(rec, containerNo, tol, RunChecks(rec, containerNo, tol));
    }
  }

  /** The discrepancy shown is that of the two weights to a hundredth of a percent, and absent when one of them is. */
  lemma DiscrepancyShown(dataset: Dataset, containerNo: string, tol: real)
    requires containerNo in dataset
    ensures var rec, checks := dataset[containerNo], Reconciled(dataset, containerNo, tol).checks;
            && checks.recordsPresent
            && (checks.discrepancyPct.None? <==> rec.weighbridge == None || rec.form13 == None)
            && (checks.discrepancyPct.Some? && rec.form13.value.grossWtKg > 0 ==>
                  var m, g := rec.weighbridge.value.measuredWtKg, rec.form13.value.grossWtKg;
                  var off := if m < g then g - m else m - g;
                  checks.discrepancyPct.value == RoundTo(off as real * 100.0 / g as real, 100))
  {
    hide MismatchedIds, FlagsOf, JoinStates, RoundTo;
    var rec := dataset[containerNo];
    if rec.weighbridge.Some? && rec.form13.Some? && rec.form13.value.grossWtKg > 0 {
      var m, g := rec.weighbridge.value.measuredWtKg, rec.form13.value.grossWtKg;
      PercentIs(Abs(m - g) as real, g as real);
    }
  }

  /** A container nothing was captured for is held for its records, and passes no check. */
  lemma UncapturedIsHeld(dataset: Dataset, containerNo: string, tol: real)
    requires containerNo !in dataset
    ensures var r := Reconciled(dataset, containerNo, tol);
            && r.containerNo == containerNo && r.vehiclePlate == None && !r.leoReady
            && r.customsFlags == [RecordsMissing] && r.sources == Sources(Missing, Missing, Missing, Missing)
            && !r.checks.recordsPresent && !r.checks.idMatch && !r.checks.esealOk && !r.checks.weightOk
            && !r.checks.leoPresent && r.checks.discrepancyPct == None && r.checks.idMismatched == []
  {
  }

  /** The outcome of one container: cleared exactly when its records are in order, with the due flags otherwise. */
  method Reconcile(dataset: Dataset, containerNo: string, tol: real) returns (r: LeoResult)
    ensures r.leoReady <==> containerNo in dataset && InOrder(dataset[containerNo], containerNo, tol)
    ensures r.leoReady <==> r.customsFlags == []
    ensures r.leoReady <==> r.sources == Sources(Match, Match, Match, Match)
    ensures containerNo !in dataset ==> r.customsFlags == [RecordsMissing] && r.vehiclePlate == None
    ensures containerNo in dataset ==>
              forall f :: f in r.customsFlags <==> Due(dataset[containerNo], containerNo, tol, f)
    ensures r == Reconciled(dataset, containerNo, tol)
  {
    ReadyMeansInOrder(dataset, containerNo, tol);
    if containerNo in dataset {
      FlagsAreTheDue(dataset, containerNo, tol);
    }
    hide InOrder, RunChecks, JoinStates, Raised, Due, InFlagOrder, FlagsOf;
    if containerNo !in dataset {
      return LeoResult(containerNo, None, false, Checks(false, false, [], false, None, false, false),
                       [RecordsMissing], Sources(Missing, Missing, Missing, Missing));
    }
    var rec := dataset[containerNo];
    var checks := RunChecks(rec, containerNo, tol);
    var flags := CustomsFlags(rec, checks);
    var plate := if rec.weighbridge.Some? then Some(rec.weighbridge.value.vehiclePlate) else None;
    return LeoResult(containerNo, plate, |flags| == 0, checks, flags, JoinStates(rec, checks));
  }

  // --- The generator and the checker agree -----------------------------------

  /** The flags an index was drawn to raise. */
  function Draws(src: Source, i: nat): seq<Flag> {
    (if Tampered(src, i) then [EsealTamper] else [])
    + (if Misweighed(src, i) then [WeightMismatch] else [])
    + if LeoMissing(src, i) then [LeoMissingFlag] else []
  }

  lemma Product(g: real, rate: real) returns (p: real)
    requires g >= 0.0
    ensures g * (1.0 + rate) == g + p && g * (1.0 - rate) == g - p
    ensures 0.0 <= rate <= 0.0099 ==> 0.0 <= p <= 0.0099 * g
    ensures rate >= 0.04 ==> p >= 0.04 * g
  {
    p := g * rate;
    if 0.0 <= rate <= 0.0099 {
      ScaleOrdered(g, rate, 0.0099);
    } else if rate >= 0.04 {
      ScaleOrdered(g, 0.04, rate);
    }
  }

  lemma ShiftIs(gross: nat, up: bool, delta: nat) returns (p: real)
    ensures Shifted(gross, up, delta) == if up then gross as real + p else gross as real - p
    ensures delta <= 99 ==> 0.0 <= p <= 0.0099 * gross as real
    ensures delta >= 400 ==> p >= 0.04 * gross as real
  {
    var rate := delta as real / 10_000.0;
    p := Product(gross as real, rate);
    assert up ==> Shifted(gross, up, delta) == gross as real * (1.0 + rate);
    assert !up ==> Shifted(gross, up, delta) == gross as real * (1.0 - rate);
  }

  /** A shift below one percent stays below it, one of four percent or more goes beyond. */
  lemma ShiftBounds(gross: nat, up: bool, delta: nat)
    ensures var off := Shifted(gross, up, delta) - gross as real;
            && (delta <= 99 ==> -0.0099 * gross as real <= off <= 0.0099 * gross as real)
            && (delta >= 400 ==> off >= 0.04 * gross as real || off <= -0.04 * gross as real)
  {
    hide Shifted;
    var p := ShiftIs(gross, up, delta);
  }

  /** The reading is out of the 2 % tolerance exactly when it was drawn to be, rounding included. */
  lemma WeightIsOffExactlyWhenDrawn(src: Source, i: nat)
    ensures WeighsWithin(MeasuredWt(src, i), GrossWt(src, i), 2.0) <==> !Misweighed(src, i)
  {
    hide Shifted, HashAt, Misweighed, RoundHalfEven;
    ShiftBounds(GrossWt(src, i), HashAt(src, "wsign", i) % 2 == 0, DeltaCentiPct(src, i));
  }

  lemma DrawsAreRaised(src: Source, i: nat, rec: GateRecord, c: Checks)
    requires rec.eseal.Some? && rec.form13.Some? && rec.weighbridge.Some? && c.idMatch
    requires c.esealOk == !Tampered(src, i) && c.weightOk == !Misweighed(src, i) && c.leoPresent == !LeoMissing(src, i)
    ensures FlagsOf(rec, c) == Draws(src, i)
  {
    hide Tampered, Misweighed, LeoMissing;
  }

  lemma ChecksOfTheDraws(src: Source, i: nat, containerNo: string)
    ensures var c := RunChecks(BuildFor(src, containerNo, i), containerNo, 2.0);
            && c.idMatch && c.esealOk == !Tampered(src, i) && c.weightOk == !Misweighed(src, i)
            && c.leoPresent == !LeoMissing(src, i)
  {
    hide MeasuredWt, GrossWt, Tampered, Misweighed, LeoMissing, VehiclePlate, RoundTo, Seconds,
         ShippingBillNo, WeighsWithin, DiscrepancyPct;
    WeightIsOffExactlyWhenDrawn(src, i);
    WithinTolerance(MeasuredWt(src, i), GrossWt(src, i), 2.0);
    MismatchedNames(BuildFor(src, containerNo, i), containerNo);
  }

  /** For every hash and every index: the checker raises exactly the drawn anomalies, and no other flag. */
  lemma {:induction false} CheckerRaisesTheDraws(src: Source, i: nat, dataset: Dataset, containerNo: string)
    requires containerNo in dataset && dataset[containerNo] == BuildFor(src, containerNo, i)
    ensures var r := Reconciled(dataset, containerNo, 2.0);
            && r.customsFlags == Draws(src, i) && r.checks.idMatch
            && (r.leoReady <==> AllClean(src, i)) && r.vehiclePlate == Some(VehiclePlate(src, i))
  {
    hide MeasuredWt, GrossWt, Tampered, Misweighed, LeoMissing, VehiclePlate, RoundTo;
    ChecksOfTheDraws(src, i, containerNo);
    DrawsAreRaised(src, i, BuildFor(src, containerNo, i), RunChecks(BuildFor(src, containerNo, i), containerNo, 2.0));
    hide MismatchedIds, RunChecks, FlagsOf;
  }

  // --- The whole data set ----------------------------------------------------

  /** Container numbers of the first `n` indices. */
  function Numbers(src: Source, n: nat): set<string> {
    if n == 0 then {} else Numbers(src, n - 1) + {ContainerNo(src, n - 1)}
  }

  /** `i` is the last of the first `n` indices that drew `containerNo`. */
  ghost predicate LastDraw(src: Source, n: nat, containerNo: string, i: nat) {
    && i < n && ContainerNo(src, i) == containerNo
    && forall j: nat | i < j < n :: ContainerNo(src, j) != containerNo
  }

  /** Each number holds the record of the last index that drew it. */
  lemma {:induction false} LaterIndexWins(src: Source, n: nat)
    ensures Drawn(src, n).Keys == Numbers(src, n)
    ensures forall k | k in Drawn(src, n) ::
              exists i: nat :: LastDraw(src, n, k, i) && Drawn(src, n)[k] == BuildFor(src, k, i)
  {
    hide ContainerNo, BuildFor;
    if n != 0 {
      LaterIndexWins(src, n - 1);
      forall k | k in Drawn(src, n)
        ensures exists i: nat :: LastDraw(src, n, k, i) && Drawn(src, n)[k] == BuildFor(src, k, i)
      {
        if k == ContainerNo(src, n - 1) {
          assert LastDraw(src, n, k, n - 1);
        } else {
          var i: nat :| LastDraw(src, n - 1, k, i) && Drawn(src, n - 1)[k] == BuildFor(src, k, i);
          assert LastDraw(src, n, k, i);
        }
      }
    }
  }

  /** Every entry of the generated set is reconciled to the draws of the index it was built from. */
  lemma {:induction false} EveryEntryRaisesItsDraws(src: Source, total: int, clean: nat, tamper: nat, k: string)
    requires k in Generated(src, total, clean, tamper)
    ensures exists i: nat ::
              && Generated(src, total, clean, tamper)[k] == BuildFor(src, k, i)
              && Reconciled(Generated(src, total, clean, tamper), k, 2.0).customsFlags == Draws(src, i)
  {
    hide BuildFor, Reconciled, Draws, ContainerNo, Drawn, FillEnd, LastDraw;
    var d := Generated(src, total, clean, tamper);
    LaterIndexWins(src, FillEnd(src, total, 0));
    var i: nat :| d[k] == BuildFor(src, k, i);
    CheckerRaisesTheDraws(src, i, d, k);
  }

  /** The pinned clean container is cleared; the pinned tampered one is held for its e-seal alone. */
  lemma {:induction false} PinnedContainers(src: Source, total: int, cleanBound: nat, tamperBound: nat)
    requires AllClean(src, cleanBound) && OnlyTampered(src, tamperBound)
    ensures var d := Generated(src, total, First(CleanPick(src), 0, cleanBound),
                               First(TamperPick(src), 0, tamperBound));
            && Reconciled(d, PINNED_CLEAN, 2.0).leoReady
            && Reconciled(d, PINNED_TAMPER, 2.0).customsFlags == [EsealTamper]
            && !Reconciled(d, PINNED_TAMPER, 2.0).leoReady
  {
    hide BuildFor, Reconciled, Tampered, Misweighed, LeoMissing, FillEnd, Drawn;
    var clean, tamper := First(CleanPick(src), 0, cleanBound), First(TamperPick(src), 0, tamperBound);
    var d := Generated(src, total, clean, tamper);
    assert PINNED_CLEAN[1] != PINNED_TAMPER[1];
    CheckerRaisesTheDraws(src, clean, d, PINNED_CLEAN);
    CheckerRaisesTheDraws(src, tamper, d, PINNED_TAMPER);
  }

  lemma {:induction false} NumbersGrow(src: Source, m: nat, n: nat)
    requires m <= n
    ensures Numbers(src, m) <= Numbers(src, n) && |Numbers(src, m)| <= |Numbers(src, n)|
    ensures |Numbers(src, n)| <= |Numbers(src, m)| + (n - m)
    decreases n - m
  {
    hide ContainerNo;
    if m < n {
      NumbersGrow(src, m, n - 1);
      var before, x := Numbers(src, n - 1), ContainerNo(src, n - 1);
      assert before + {x} == if x in before then before else before + {x};
    }
  }

  /** Where filling from `i` stops, it has drawn enough containers or past four times the total. */
  lemma {:induction false} FillStops(src: Source, total: int, i: nat)
    requires i <= 4 * total
    ensures var n := FillEnd(src, total, i);
            n <= 4 * total + 1 && (n == 4 * total + 1 || |Drawn(src, n)| >= total)
    decreases 4 * total + 1 - i
  {
    hide ContainerNo, Build, Drawn;
    if |Drawn(src, i)| < total && i + 1 <= total * 4 {
      FillStops(src, total, i + 1);
    }
  }

  /** The two well-known containers join whatever was drawn. */
  lemma GeneratedKeys(src: Source, total: int, clean: nat, tamper: nat)
    ensures Generated(src, total, clean, tamper).Keys
            == Numbers(src, FillEnd(src, total, 0)) + {PINNED_CLEAN, PINNED_TAMPER}
  {
    hide BuildFor, FillEnd, Numbers, LastDraw;
    LaterIndexWins(src, FillEnd(src, total, 0));
    hide Drawn;
  }

  lemma KeysCount(d: Dataset)
    ensures |d| == |d.Keys|
  {
  }

  lemma EnoughDrawn(src: Source, n: nat, total: nat)
    requires |Drawn(src, n)| >= total
    ensures |Numbers(src, n)| >= total
  {
    hide Drawn, LastDraw, BuildFor;
    LaterIndexWins(src, n);
    KeysCount(Drawn(src, n));
  }

  lemma UnionGrows(a: set<string>, b: set<string>)
    ensures |a| <= |a + b|
  {
    assert a + b == a + (b - a);
  }

  /**
   * The returned set holds the promised number of containers exactly when the first `4 * total + 1`
   * indices, with the two well-known containers, make that many: past them the safety valve gives up.
   */
  lemma {:induction false} FillReachesTotal(src: Source, total: nat, clean: nat, tamper: nat)
    ensures |Generated(src, total, clean, tamper)| >= total
            <==> |Numbers(src, 4 * total + 1) + {PINNED_CLEAN, PINNED_TAMPER}| >= total
  {
    hide ContainerNo, Drawn, FillEnd, Numbers, Generated;
    var n := FillEnd(src, total, 0);
    FillStops(src, total, 0);
    GeneratedKeys(src, total, clean, tamper);
    KeysCount(Generated(src, total, clean, tamper));
    if n <= 4 * total {
      EnoughDrawn(src, n, total);
      NumbersGrow(src, n, 4 * total + 1);
      UnionGrows(Numbers(src, n), {PINNED_CLEAN, PINNED_TAMPER});
      UnionGrows(Numbers(src, 4 * total + 1), {PINNED_CLEAN, PINNED_TAMPER});
    }
  }

  /** The first `m` numbers there are, line by line and serial by serial. */
  function AllNumbers(src: Source, m: nat): set<string>
    requires m <= |LINE_CODES| * SERIALS
  {
    if m == 0 then {} else AllNumbers(src, m - 1) + {NumberOf(src, (m - 1) / SERIALS, (m - 1) % SERIALS)}
  }

  lemma {:induction false} AllNumbersAreFew(src: Source, m: nat)
    requires m <= |LINE_CODES| * SERIALS
    ensures |AllNumbers(src, m)| <= m
  {
    hide NumberOf;
    if m != 0 {
      AllNumbersAreFew(src, m - 1);
    }
  }

  lemma {:induction false} NumberIsAmongThem(src: Source, line: nat, serial: nat, m: nat)
    requires line < |LINE_CODES| && serial < SERIALS && m <= |LINE_CODES| * SERIALS
    requires line * SERIALS + serial < m
    ensures NumberOf(src, line, serial) in AllNumbers(src, m)
  {
    hide NumberOf;
    if line * SERIALS + serial == m - 1 {
      assert (m - 1) / SERIALS == line && (m - 1) % SERIALS == serial;
    } else {
      NumberIsAmongThem(src, line, serial, m - 1);
    }
  }

  lemma {:induction false} DrawnNumbersAreAmongThem(src: Source, n: nat, m: nat)
    requires m == |LINE_CODES| * SERIALS
    ensures Numbers(src, n) <= AllNumbers(src, m)
  {
    hide AllNumbers, HashAt, NumberOf;
    if n != 0 {
      DrawnNumbersAreAmongThem(src, n - 1, m);
      var line, serial := HashAt(src, "line", n - 1) % |LINE_CODES|, HashAt(src, "cserial", n - 1) % SERIALS;
      NumberIsAmongThem(src, line, serial, m);
    }
  }

  lemma SubsetIsSmaller(a: set<string>, b: set<string>)
    requires a <= b
    ensures |a| <= |b|
  {
    assert b == a + (b - a);
  }

  lemma TwoMore(a: set<string>, x: string, y: string)
    ensures |a + {x, y}| <= |a| + 2
  {
    assert a + {x, y} == a + {x} + {y};
    assert |a + {x}| <= |a| + 1;
  }

  /**
   * Ten line codes with a million serials each are all there is: for every hash, a set of more than
   * 10,000,002 containers is promised and not returned.
   */
  lemma TenMillionIsTheMost(src: Source, total: nat, clean: nat, tamper: nat)
    ensures |Generated(src, total, clean, tamper)| <= 10_000_002
    ensures total > 10_000_002 ==> |Generated(src, total, clean, tamper)| < total
  {
    hide Generated, Numbers, AllNumbers, FillEnd;
    var m := |LINE_CODES| * SERIALS;
    var n := FillEnd(src, total, 0);
    GeneratedKeys(src, total, clean, tamper);
    KeysCount(Generated(src, total, clean, tamper));
    DrawnNumbersAreAmongThem(src, n, m);
    AllNumbersAreFew(src, m);
    SubsetIsSmaller(Numbers(src, n), AllNumbers(src, m));
    TwoMore(Numbers(src, n), PINNED_CLEAN, PINNED_TAMPER);
  }
}
