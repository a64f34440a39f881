/** Road-freight emissions of a fleet, reported in whole grams (kilograms to three places). */
module CarbonRollup {
  import opened Wrappers
  import opened Text
  import opened Rounding

  const DEFAULT_CLASS := "HGV"

  /** A missing number counts as zero, a missing or empty class as the default one. */
  datatype Trip = Trip(distanceKm: Option<real>, payloadTonnes: Option<real>, idleMinutes: Option<real>,
                       vehicleClass: Option<string>)

  function TonneKmFactor(vclass: string): (f: real)
    ensures 62.0 <= f <= 110.0
  {
    var c := Upper(vclass);
    if c == "RIGID" then 85.0 else if c == "LGV" then 110.0 else if c == "REEFER" then 78.0 else 62.0
  }

  function IdleMinuteFactor(vclass: string): (f: real)
    ensures 60.0 <= f <= 224.0
  {
    var c := Upper(vclass);
    if c == "LGV" then 60.0 else if c == "REEFER" then 224.0 else 134.0
  }

  function Clamped(x: Option<real>): (r: real)
    ensures r >= 0.0
  {
    if x.Some? && x.value > 0.0 then x.value else 0.0
  }

  function ClassOf(t: Trip): string {
    Upper(if t.vehicleClass.Some? && t.vehicleClass.value != "" then t.vehicleClass.value else DEFAULT_CLASS)
  }

  function MovingExact(t: Trip): real {
    Clamped(t.distanceKm) * Clamped(t.payloadTonnes) * TonneKmFactor(ClassOf(t))
  }

  function IdleExact(t: Trip): real {
    Clamped(t.idleMinutes) * IdleMinuteFactor(ClassOf(t))
  }

  /** Grams of the moving leg, rounded. */
  function Moving(t: Trip): int {
    RoundHalfEven(MovingExact(t))
  }

  /** Grams of the idle leg, rounded. */
  function Idle(t: Trip): int {
    RoundHalfEven(IdleExact(t))
  }

  datatype Rollup = Rollup(total: int, byClass: map<string, int>, vehiclesByClass: map<string, int>, moving: int,
                           idle: int, count: int)

  function Get(m: map<string, int>, k: string): int {
    if k in m then m[k] else 0
  }

  /** Adding one trip to the running figures. */
  function Added(r: Rollup, t: Trip): Rollup {
    var c := ClassOf(t);
    Rollup(r.moving + Moving(t) + r.idle + Idle(t), r.byClass[c := Get(r.byClass, c) + Moving(t) + Idle(t)],
           r.vehiclesByClass[c := Get(r.vehiclesByClass, c) + 1], r.moving + Moving(t), r.idle + Idle(t), r.count + 1)
  }

  function RollupOf(trips: seq<Trip>): Rollup {
    if |trips| == 0 then Rollup(0, map[], map[], 0, 0, 0)
    else Added(RollupOf(trips[..|trips| - 1]), trips[|trips| - 1])
  }

  method AoiRollup(trips: seq<Trip>) returns (r: Rollup)
    ensures r == RollupOf(trips)
  {
    hide ClassOf, Moving, Idle;
    var byClass: map<string, int>, vehiclesByClass: map<string, int> := map[], map[];
    var moving, idle, count := 0, 0, 0;
    for i := 0 to |trips|
      invariant RollupOf(trips[..i]) == Rollup(moving + idle, byClass, vehiclesByClass, moving, idle, count)
    {
      assert trips[..i + 1][..i] == trips[..i];
      count := count + 1;
      var c := ClassOf(trips[i]);
      var m, d := Moving(trips[i]), Idle(trips[i]);
      moving := moving + m;
      idle := idle + d;
      byClass := byClass[c := Get(byClass, c) + m + d];
      vehiclesByClass := vehiclesByClass[c := Get(vehiclesByClass, c) + 1];
    }
    assert trips[..|trips|] == trips;
    r := Rollup(moving + idle, byClass, vehiclesByClass, moving, idle, count);
  }

  // --- What one trip emits ---------------------------------------------------

  /** A missing or negative amount counts as none. */
  function AtLeastZero(x: Option<real>): real {
    match x
    case None => 0.0
    case Some(v) => if v < 0.0 then 0.0 else v
  }

  /** Grams per tonne and kilometre, and per minute of idling, of an upper-cased class. */
  predicate EmitsAt(c: string, perTonneKm: real, perIdleMinute: real) {
    && (c == "RIGID" ==> perTonneKm == 85.0 && perIdleMinute == 134.0)
    && (c == "LGV" ==> perTonneKm == 110.0 && perIdleMinute == 60.0)
    && (c == "REEFER" ==> perTonneKm == 78.0 && perIdleMinute == 224.0)
    && (c != "RIGID" && c != "LGV" && c != "REEFER" ==> perTonneKm == 62.0 && perIdleMinute == 134.0)
  }

  lemma UpperedClass(t: Trip)
    ensures ClassOf(t) == if t.vehicleClass == None || t.vehicleClass == Some("") then "HGV"
                          else Upper(t.vehicleClass.value)
    ensures Upper(ClassOf(t)) == ClassOf(t)
  {
    assert Upper("HGV") == "HGV";
    if t.vehicleClass.Some? {
      UpperTwice(t.vehicleClass.value);
    }
  }

  lemma ClampedIs(x: Option<real>)
    ensures Clamped(x) == AtLeastZero(x)
  {
  }

  /** To the nearest gram, a trip emits its class's rate for its tonne-kilometres, and for its minutes of idling. */
  lemma TripEmits(t: Trip, perTonneKm: real, perIdleMinute: real)
    requires EmitsAt(ClassOf(t), perTonneKm, perIdleMinute)
    ensures -0.5 <= Moving(t) as real - AtLeastZero(t.distanceKm) * AtLeastZero(t.payloadTonnes) * perTonneKm <= 0.5
    ensures -0.5 <= Idle(t) as real - AtLeastZero(t.idleMinutes) * perIdleMinute <= 0.5
  {
    UpperedClass(t);
    ClampedIs(t.distanceKm);
    ClampedIs(t.payloadTonnes);
    ClampedIs(t.idleMinutes);
    hide ClassOf, Upper, RoundHalfEven, Clamped, AtLeastZero;
    assert TonneKmFactor(ClassOf(t)) == perTonneKm && IdleMinuteFactor(ClassOf(t)) == perIdleMinute;
    hide TonneKmFactor, IdleMinuteFactor, EmitsAt;
  }

  // --- Sums ------------------------------------------------------------------

  function Sum(f: Trip -> int, trips: seq<Trip>): int {
    if |trips| == 0 then 0 else Sum(f, trips[..|trips| - 1]) + f(trips[|trips| - 1])
  }

  /** The sum of a table's values, whatever order they are taken in. */
  ghost function Values(m: map<string, int>): int {
    if m == map[] then 0
    else
      var k :| k in m;
      m[k] + Values(m - {k})
  }

  lemma {:induction false} ValuesWithout(m: map<string, int>, k: string)
    requires k in m
    ensures Values(m) == m[k] + Values(m - {k})
    decreases |m|
  {
    var j :| j in m && Values(m) == m[j] + Values(m - {j});
    if j != k {
      ValuesWithout(m - {j}, k);
      ValuesWithout(m - {k}, j);
      assert m - {j} - {k} == m - {k} - {j};
    }
  }

  lemma ValuesUpdate(m: map<string, int>, k: string, v: int)
    ensures Values(m[k := v]) == Values(m) - Get(m, k) + v
  {
    ValuesWithout(m[k := v], k);
    assert m[k := v] - {k} == m - {k};
    if k in m {
      ValuesWithout(m, k);
    } else {
      assert m - {k} == m;
    }
  }

  // --- Conservation ----------------------------------------------------------

  ghost predicate Conserved(r: Rollup) {
    && r.total == r.moving + r.idle == Values(r.byClass)
    && r.count == Values(r.vehiclesByClass)
    && r.byClass.Keys == r.vehiclesByClass.Keys
  }

  lemma AddingConserves(r: Rollup, t: Trip)
    requires Conserved(r)
    ensures Conserved(Added(r, t))
  {
    hide ClassOf, Moving, Idle, Values;
    var c := ClassOf(t);
    ValuesUpdate(r.byClass, c, Get(r.byClass, c) + Moving(t) + Idle(t));
    ValuesUpdate(r.vehiclesByClass, c, Get(r.vehiclesByClass, c) + 1);
  }

  lemma EmptyConserves()
    ensures Conserved(RollupOf([]))
  {
  }

  /**
   * Every gram is reported once by source and once by class: the total is moving plus idle and the sum
   * over the classes, the class counts add up to the vehicles, and both tables list the same classes.
   */
  lemma {:induction false} RollupConserves(trips: seq<Trip>)
    ensures Conserved(RollupOf(trips)) && RollupOf(trips).count == |trips|
  {
    hide Conserved;
    if |trips| == 0 {
      EmptyConserves();
    } else {
      RollupConserves(trips[..|trips| - 1]);
      AddingConserves(RollupOf(trips[..|trips| - 1]), trips[|trips| - 1]);
    }
  }

  // --- Order -----------------------------------------------------------------

  function InClass(c: string): Trip -> int {
    (t: Trip) => if ClassOf(t) == c then Moving(t) + Idle(t) else 0
  }

  function CountIn(c: string): Trip -> int {
    (t: Trip) => if ClassOf(t) == c then 1 else 0
  }

  /** Each figure as a sum over the trips. */
  lemma {:induction false} RollupSums(trips: seq<Trip>, c: string)
    ensures var r := RollupOf(trips);
            && r.moving == Sum(Moving, trips) && r.idle == Sum(Idle, trips)
            && Get(r.byClass, c) == Sum(InClass(c), trips) && Get(r.vehiclesByClass, c) == Sum(CountIn(c), trips)
            && (c in r.byClass <==> Sum(CountIn(c), trips) > 0) && Sum(CountIn(c), trips) >= 0
  {
    hide ClassOf, Moving, Idle;
    if |trips| != 0 {
      RollupSums(trips[..|trips| - 1], c);
    }
  }

  lemma {:induction false} SumWithout(f: Trip -> int, trips: seq<Trip>, i: nat)
    requires i < |trips|
    ensures Sum(f, trips) == Sum(f, trips[..i] + trips[i + 1..]) + f(trips[i])
  {
    var n := |trips| - 1;
    var rest := trips[..i] + trips[i + 1..];
    if i == n {
      assert rest == trips[..n];
    } else {
      SumWithout(f, trips[..n], i);
      assert rest[..n - 1] == trips[..n][..i] + trips[..n][i + 1..];
      assert rest[n - 1] == trips[n];
    }
  }

  lemma RemoveAt(b: seq<Trip>, i: nat)
    requires i < |b|
    ensures multiset(b[..i] + b[i + 1..]) == multiset(b) - multiset{b[i]}
  {
    assert b == b[..i] + [b[i]] + b[i + 1..];
  }

  lemma {:induction false} SumIgnoresOrder(f: Trip -> int, a: seq<Trip>, b: seq<Trip>)
    requires multiset(a) == multiset(b)
    ensures Sum(f, a) == Sum(f, b)
    decreases |a|
  {
    hide Sum;
    if |a| == 0 {
      assert |multiset(b)| == 0;
      assert a == b;
    } else {
      var n := |a| - 1;
      RemoveAt(a, n);
      assert a[..n] + a[n + 1..] == a[..n];
      assert a[n] in multiset(b);
      var i :| 0 <= i < |b| && b[i] == a[n];
      RemoveAt(b, i);
      SumWithout(f, a, n);
      SumWithout(f, b, i);
      SumIgnoresOrder(f, a[..n], b[..i] + b[i + 1..]);
    }
  }

  lemma SameTables(m: map<string, int>, n: map<string, int>)
    requires forall c :: (c in m <==> c in n) && Get(m, c) == Get(n, c)
    ensures m == n
  {
    assert forall c | c in m :: m[c] == Get(m, c) && n[c] == Get(n, c);
  }

  /** The rollup does not depend on the order of the trips. */
  lemma {:induction false} RollupIgnoresOrder(a: seq<Trip>, b: seq<Trip>)
    requires multiset(a) == multiset(b)
    ensures RollupOf(a) == RollupOf(b)
  {
    hide ClassOf, Moving, Idle, RollupOf, Sum, Values;
    var x, y := RollupOf(a), RollupOf(b);
    forall c ensures (c in x.byClass <==> c in y.byClass) && Get(x.byClass, c) == Get(y.byClass, c)
                     && Get(x.vehiclesByClass, c) == Get(y.vehiclesByClass, c)
    {
      RollupSums(a, c);
      RollupSums(b, c);
      SumIgnoresOrder(InClass(c), a, b);
      SumIgnoresOrder(CountIn(c), a, b);
    }
    RollupConserves(a);
    RollupConserves(b);
    RollupSums(a, "");
    RollupSums(b, "");
    SumIgnoresOrder(Moving, a, b);
    SumIgnoresOrder(Idle, a, b);
    assert |a| == |multiset(a)| == |b|;
    SameTables(x.byClass, y.byClass);
    SameTables(x.vehiclesByClass, y.vehiclesByClass);
  }

  // --- Rounding --------------------------------------------------------------

  function ExactTotal(trips: seq<Trip>): real {
    if |trips| == 0 then 0.0
    else ExactTotal(trips[..|trips| - 1]) + MovingExact(trips[|trips| - 1]) + IdleExact(trips[|trips| - 1])
  }

  /** Rounding each leg moves the total by at most one gram per trip. */
  lemma {:induction false} RoundingIsOneGramPerTrip(trips: seq<Trip>)
    ensures -(|trips| as real) <= RollupOf(trips).total as real - ExactTotal(trips) <= |trips| as real
  {
    hide MovingExact, IdleExact, RoundHalfEven, ClassOf, Values;
    if |trips| != 0 {
      RoundingIsOneGramPerTrip(trips[..|trips| - 1]);
      RollupConserves(trips[..|trips| - 1]);
    }
  }
}
