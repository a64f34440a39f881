/** The empty-container matcher: a greedy, stock-aware allocation of depots to demands. */
module Allocator {
  import opened Wrappers
  import opened StableSort
  import opened Text
  import opened Rounding

  datatype Depot = Depot(depotId: string, kind: string, lat: real, lon: real,
                         stock: map<string, int>, dwellMin: real)

  datatype Demand = Demand(demandId: string, source: string, cargoType: string,
                           containerType: string, quantity: int, priority: string,
                           originLat: real, originLon: real)

  datatype Allocation = Allocation(demandId: string, supplyDepot: string, depotKind: string,
                                   source: string, containerType: string, cargoType: string,
                                   quantity: int, distanceKm: real, estTrtMin: real, confidence: real,
                                   cost: real, costDistance: real, costDwell: real, costPriority: real)

  /** Great-circle distance between two (lat, lon) points; left abstract. */
  type Haversine = (real, real, real, real) -> real

  /** The mutable working copy of every depot's stock. */
  type Stock = map<string, map<string, int>>

  const W_DISTANCE := 1.0
  const W_DWELL := 0.5
  const W_PRIORITY := 8.0
  const ROAD_SPEED_KMPH := 30.0
  const GATE_TURN_MIN := 6.0

  function PriorityRank(priority: string): int {
    if priority == "high" then 0 else if priority == "low" then 2 else 1
  }

  // --- Costs -----------------------------------------------------------------

  /** A depot that still holds the wanted type, with its cost terms for one demand. */
  datatype Candidate = Candidate(total: real, distTerm: real, dwellTerm: real, prioTerm: real,
                                 distanceKm: real, depot: Depot)

  function CostComponents(hav: Haversine, dep: Depot, d: Demand): Candidate {
    var km := hav(dep.lat, dep.lon, d.originLat, d.originLon);
    var dist := W_DISTANCE * km;
    var dwell := W_DWELL * dep.dwellMin;
    var prio := W_PRIORITY * PriorityRank(d.priority) as real;
    Candidate(dist + dwell + prio, dist, dwell, prio, km, dep)
  }

  function EstTrtMin(distanceKm: real, dep: Depot): real {
    RoundTo(distanceKm / ROAD_SPEED_KMPH * 60.0 + dep.dwellMin + GATE_TURN_MIN, 100)
  }

  function Clamp01(x: real): real {
    if x < 0.0 then 0.0 else if x > 1.0 then 1.0 else x
  }

  lemma ProductSign(x: real, y: real)
    requires y > 0.0
    ensures x > 0.0 <==> x * y > 0.0
    ensures x < 0.0 <==> x * y < 0.0
  {
  }

  lemma MarginIs(best: real, second: real)
    requires second > 0.0
    ensures (second - best) / second == 1.0 - best / second
    ensures best <= 0.0 ==> best / second <= 0.0
    ensures 0.0 <= best <= second ==> 0.0 <= best / second <= 1.0
    ensures second <= best ==> best / second >= 1.0
  {
    var q, r := best / second, (second - best) / second;
    assert q * second == best && r * second == second - best;
    assert (r - (1.0 - q)) * second == 0.0;
    ProductSign(r - (1.0 - q), second);
    ProductSign(q, second);
    ProductSign(q - 1.0, second);
  }

  /** How much cheaper the winner is than the runner-up: between a half and one, to three places. */
  function Confidence(bestCost: real, secondCost: Option<real>): (c: real)
    ensures 0.5 <= c <= 1.0
    ensures secondCost.None? ==> c == 0.6
    ensures secondCost.Some? && secondCost.value <= 0.0 ==> c == 0.5
    ensures secondCost.Some? && 0.0 < secondCost.value <= bestCost ==> c == 0.5
    ensures secondCost.Some? && bestCost <= 0.0 < secondCost.value ==> c == 1.0
    ensures secondCost.Some? && 0.0 <= bestCost <= secondCost.value && 0.0 < secondCost.value ==>
              -0.0005 <= c - (1.0 - bestCost / secondCost.value / 2.0) <= 0.0005
  {
    match secondCost
    case None => 0.6
    case Some(second) =>
      if second <= 0.0 then 0.5
      else
        var margin := (second - bestCost) / second;
        MarginIs(bestCost, second);
        RoundKeepsOrder(500.0, (0.5 + 0.5 * Clamp01(margin)) * 1000.0);
        RoundKeepsOrder((0.5 + 0.5 * Clamp01(margin)) * 1000.0, 1000.0);
        RoundTo(0.5 + 0.5 * Clamp01(margin), 1000)
  }

  // --- Orders ----------------------------------------------------------------

  /** Cheaper first, ties by depot id. */
  predicate CandidateLeq(a: Candidate, b: Candidate) {
    a.total < b.total || (a.total == b.total && StrLeq(a.depot.depotId, b.depot.depotId))
  }

  /** High priority first, then by demand id. */
  predicate DemandLeq(a: Demand, b: Demand) {
    PriorityRank(a.priority) < PriorityRank(b.priority)
    || (PriorityRank(a.priority) == PriorityRank(b.priority) && StrLeq(a.demandId, b.demandId))
  }

  predicate AllocationLeq(a: Allocation, b: Allocation) {
    StrLeq(a.demandId, b.demandId)
  }

  ghost predicate DistinctDepots(supply: seq<Depot>) {
    forall i, j | 0 <= i < j < |supply| :: supply[i].depotId != supply[j].depotId
  }

  ghost predicate DistinctDemands(demand: seq<Demand>) {
    forall i, j | 0 <= i < j < |demand| :: demand[i].demandId != demand[j].demandId
  }

  // --- Specification of one run ----------------------------------------------

  /** Boxes of type `ct` left at depot `id`; an unknown depot or type holds none. */
  function Level(stock: Stock, id: string, ct: string): int {
    if id in stock && ct in stock[id] then stock[id][ct] else 0
  }

  function Take(stock: Stock, id: string, ct: string, filled: int): Stock
    requires id in stock && ct in stock[id]
  {
    stock[id := stock[id][ct := stock[id][ct] - filled]]
  }

  /** The copied stock table; a repeated depot id keeps its last book entry. */
  function InitialStock(supply: seq<Depot>): Stock {
    if |supply| == 0 then map[]
    else
      var last := supply[|supply| - 1];
      InitialStock(supply[..|supply| - 1])[last.depotId := last.stock]
  }

  function Candidates(hav: Haversine, supply: seq<Depot>, stock: Stock, d: Demand): seq<Candidate> {
    if |supply| == 0 then []
    else
      var last := supply[|supply| - 1];
      Candidates(hav, supply[..|supply| - 1], stock, d)
      + if Level(stock, last.depotId, d.containerType) <= 0 then [] else [CostComponents(hav, last, d)]
  }

  function Ranked(hav: Haversine, supply: seq<Depot>, stock: Stock, d: Demand): seq<Candidate> {
    SortBy(CandidateLeq, Candidates(hav, supply, stock, d))
  }

  datatype Outcome = Outcome(stock: Stock, made: Option<Allocation>)

  function MakeAllocation(d: Demand, best: Candidate, second: Option<real>, filled: int): Allocation {
    Allocation(d.demandId, best.depot.depotId, best.depot.kind, d.source, d.containerType, d.cargoType,
               filled, RoundTo(best.distanceKm, 100), EstTrtMin(best.distanceKm, best.depot),
               Confidence(best.total, second), RoundTo(best.total, 100), RoundTo(best.distTerm, 100),
               RoundTo(best.dwellTerm, 100), RoundTo(best.prioTerm, 100))
  }

  ghost predicate Stocked(stock: Stock, id: string, ct: string) {
    Level(stock, id, ct) > 0
  }

  /** The candidates are exactly the stocked depots of the book, with their costs. */
  lemma {:induction false} CandidatesAreStockedDepots(hav: Haversine, supply: seq<Depot>, stock: Stock, d: Demand)
    ensures forall c :: c in Candidates(hav, supply, stock, d) <==>
              c.depot in supply && Stocked(stock, c.depot.depotId, d.containerType)
              && c == CostComponents(hav, c.depot, d)
  {
    if |supply| != 0 {
      var front, last := supply[..|supply| - 1], supply[|supply| - 1];
      CandidatesAreStockedDepots(hav, front, stock, d);
      assert supply == front + [last];
    }
  }

  lemma RankedAreStocked(hav: Haversine, supply: seq<Depot>, stock: Stock, d: Demand)
    ensures |Ranked(hav, supply, stock, d)| == |Candidates(hav, supply, stock, d)|
    ensures forall c | c in Ranked(hav, supply, stock, d) ::
              c.depot in supply && Stocked(stock, c.depot.depotId, d.containerType)
              && c == CostComponents(hav, c.depot, d)
  {
    var cands := Candidates(hav, supply, stock, d);
    SortByPermutes(CandidateLeq, cands);
    assert |multiset(SortBy(CandidateLeq, cands))| == |multiset(cands)|;
    CandidatesAreStockedDepots(hav, supply, stock, d);
    forall c | c in Ranked(hav, supply, stock, d) ensures c in cands {
      assert c in multiset(SortBy(CandidateLeq, cands));
    }
  }

  function Serve(hav: Haversine, supply: seq<Depot>, stock: Stock, d: Demand): Outcome {
    var ranked := Ranked(hav, supply, stock, d);
    if |ranked| == 0 then Outcome(stock, None)
    else
      var best := ranked[0];
      var id := best.depot.depotId;
      var avail := Level(stock, id, d.containerType);
      var filled := if d.quantity < avail then d.quantity else avail;
      var second := if |ranked| > 1 then Some(ranked[1].total) else None;
      RankedAreStocked(hav, supply, stock, d);
      Outcome(Take(stock, id, d.containerType, filled), Some(MakeAllocation(d, best, second, filled)))
  }

  datatype Fill = Fill(stock: Stock, made: seq<Allocation>)

  /** How one demand is served from the stock on hand. */
  type Server = (Stock, Demand) -> Outcome

  function ServeFrom(hav: Haversine, supply: seq<Depot>): Server {
    (stock, d) => Serve(hav, supply, stock, d)
  }

  /** Serves `ds` in order from `stock`. */
  function Process(serve: Server, stock: Stock, ds: seq<Demand>): Fill {
    if |ds| == 0 then Fill(stock, [])
    else
      var before := Process(serve, stock, ds[..|ds| - 1]);
      var step := serve(before.stock, ds[|ds| - 1]);
      Fill(step.stock, before.made + if step.made.Some? then [step.made.value] else [])
  }

  /** The demands in the order they are served. */
  function Order(demand: seq<Demand>): seq<Demand> {
    SortBy(DemandLeq, demand)
  }

  function Run(hav: Haversine, supply: seq<Depot>, demand: seq<Demand>): Fill {
    Process(ServeFrom(hav, supply), InitialStock(supply), Order(demand))
  }

  function Allocations(hav: Haversine, supply: seq<Depot>, demand: seq<Demand>): seq<Allocation> {
    SortBy(AllocationLeq, Run(hav, supply, demand).made)
  }

  // --- The orders are total --------------------------------------------------

  lemma CandidateOrderIsTotal()
    ensures TotalPreorder(CandidateLeq)
  {
    forall a, b ensures CandidateLeq(a, b) || CandidateLeq(b, a) {
      StrLeqTotal(a.depot.depotId, b.depot.depotId);
    }
    forall a, b, c | CandidateLeq(a, b) && CandidateLeq(b, c) ensures CandidateLeq(a, c) {
      if a.total == b.total == c.total {
        StrLeqTransitive(a.depot.depotId, b.depot.depotId, c.depot.depotId);
      }
    }
  }

  lemma DemandOrderIsTotal()
    ensures TotalPreorder(DemandLeq)
  {
    forall a, b ensures DemandLeq(a, b) || DemandLeq(b, a) {
      StrLeqTotal(a.demandId, b.demandId);
    }
    forall a, b, c | DemandLeq(a, b) && DemandLeq(b, c) ensures DemandLeq(a, c) {
      if PriorityRank(a.priority) == PriorityRank(b.priority) == PriorityRank(c.priority) {
        StrLeqTransitive(a.demandId, b.demandId, c.demandId);
      }
    }
  }

  // --- Choice ----------------------------------------------------------------

  /** What a depot costs a demand, whatever its priority: a point a kilometre and half a point a minute of dwell. */
  function DepotCost(hav: Haversine, dep: Depot, d: Demand): real {
    hav(dep.lat, dep.lon, d.originLat, d.originLon) + dep.dwellMin / 2.0
  }

  /** Depot `dep` beats every stocked depot of the book on (cost without the priority term, depot id). */
  ghost predicate IsChoice(hav: Haversine, supply: seq<Depot>, stock: Stock, d: Demand, dep: Depot) {
    && dep in supply && Stocked(stock, dep.depotId, d.containerType)
    && forall other | other in supply && Stocked(stock, other.depotId, d.containerType) ::
         var a, b := DepotCost(hav, dep, d), DepotCost(hav, other, d);
         a < b || (a == b && StrLeq(dep.depotId, other.depotId))
  }

  /** The first of the ranking is the choice. */
  lemma FirstIsChosen(hav: Haversine, supply: seq<Depot>, stock: Stock, d: Demand)
    requires |Ranked(hav, supply, stock, d)| > 0
    ensures IsChoice(hav, supply, stock, d, Ranked(hav, supply, stock, d)[0].depot)
  {
    var cands, ranked := Candidates(hav, supply, stock, d), Ranked(hav, supply, stock, d);
    RankedAreStocked(hav, supply, stock, d);
    CandidatesAreStockedDepots(hav, supply, stock, d);
    CandidateOrderIsTotal();
    SortHeadIsMinimum(CandidateLeq, cands);
    assert ranked[0] in ranked;
    forall other | other in supply && Stocked(stock, other.depotId, d.containerType)
      ensures CandidateLeq(ranked[0], CostComponents(hav, other, d))
    {
      assert CostComponents(hav, other, d) in cands;
    }
  }

  /** A demand is served exactly when some depot of the book is stocked, and then from the cheapest. */
  lemma {:induction false} ServesTheCheapestStockedDepot(hav: Haversine, supply: seq<Depot>, stock: Stock, d: Demand)
    ensures Serve(hav, supply, stock, d).made.None? <==>
              forall dep | dep in supply :: !Stocked(stock, dep.depotId, d.containerType)
    ensures Serve(hav, supply, stock, d).made.Some? ==>
              var a := Serve(hav, supply, stock, d).made.value;
              && a.demandId == d.demandId && a.containerType == d.containerType
              && a.quantity == (if d.quantity < Level(stock, a.supplyDepot, a.containerType) then d.quantity
                                else Level(stock, a.supplyDepot, a.containerType))
              && exists dep: Depot :: dep.depotId == a.supplyDepot && IsChoice(hav, supply, stock, d, dep)
  {
    var cands := Candidates(hav, supply, stock, d);
    CandidatesAreStockedDepots(hav, supply, stock, d);
    RankedAreStocked(hav, supply, stock, d);
    if |cands| == 0 {
      forall dep | dep in supply ensures !Stocked(stock, dep.depotId, d.containerType) {
        assert CostComponents(hav, dep, d) !in cands;
      }
    } else {
      FirstIsChosen(hav, supply, stock, d);
    }
  }

  /** With distinct depot ids the choice is unique. */
  lemma ChoiceIsUnique(hav: Haversine, supply: seq<Depot>, stock: Stock, d: Demand, x: Depot, y: Depot)
    requires DistinctDepots(supply)
    requires IsChoice(hav, supply, stock, d, x) && IsChoice(hav, supply, stock, d, y)
    ensures x == y
  {
    StrLeqAntisymmetric(x.depotId, y.depotId);
  }

  lemma ChoiceIgnoresPriority(hav: Haversine, supply: seq<Depot>, stock: Stock, d: Demand, priority: string, dep: Depot)
    requires IsChoice(hav, supply, stock, d.(priority := priority), dep)
    ensures IsChoice(hav, supply, stock, d, dep)
  {
    var d' := d.(priority := priority);
    forall other | other in supply && Stocked(stock, other.depotId, d.containerType)
      ensures var a, b := DepotCost(hav, dep, d), DepotCost(hav, other, d);
              a < b || (a == b && StrLeq(dep.depotId, other.depotId))
    {
      assert Stocked(stock, other.depotId, d'.containerType);
    }
  }

  /** Re-ranking a demand never changes which depot serves it, nor how much. */
  lemma {:induction false} PriorityNeverChangesTheDepot(hav: Haversine, supply: seq<Depot>, stock: Stock, d: Demand,
                                                        priority: string)
    requires DistinctDepots(supply)
    ensures var o1, o2 := Serve(hav, supply, stock, d), Serve(hav, supply, stock, d.(priority := priority));
            && o1.stock == o2.stock
            && o1.made.Some? == o2.made.Some?
            && (o1.made.Some? ==> o1.made.value.supplyDepot == o2.made.value.supplyDepot
                                  && o1.made.value.quantity == o2.made.value.quantity)
  {
    var d' := d.(priority := priority);
    ServesTheCheapestStockedDepot(hav, supply, stock, d);
    ServesTheCheapestStockedDepot(hav, supply, stock, d');
    var o1, o2 := Serve(hav, supply, stock, d), Serve(hav, supply, stock, d');
    hide IsChoice, Ranked, Confidence, EstTrtMin;
    if o1.made.Some? {
      var x: Depot :| x.depotId == o1.made.value.supplyDepot && IsChoice(hav, supply, stock, d, x);
      var y: Depot :| y.depotId == o2.made.value.supplyDepot && IsChoice(hav, supply, stock, d', y);
      ChoiceIgnoresPriority(hav, supply, stock, d, priority, y);
      ChoiceIsUnique(hav, supply, stock, d, x, y);
    }
  }

  // --- The matcher itself ----------------------------------------------------

  method CopyStock(supply: seq<Depot>) returns (stock: Stock)
    ensures stock == InitialStock(supply)
  {
    stock := map[];
    for i := 0 to |supply|
      invariant stock == InitialStock(supply[..i])
    {
      assert supply[..i + 1][..i] == supply[..i];
      stock := stock[supply[i].depotId := supply[i].stock];
    }
    assert supply[..|supply|] == supply;
  }

  method FindCandidates(hav: Haversine, supply: seq<Depot>, stock: Stock, d: Demand)
    returns (candidates: seq<Candidate>)
    ensures candidates == Candidates(hav, supply, stock, d)
  {
    candidates := [];
    for i := 0 to |supply|
      invariant candidates == Candidates(hav, supply[..i], stock, d)
    {
      assert supply[..i + 1][..i] == supply[..i];
      if Level(stock, supply[i].depotId, d.containerType) <= 0 {
        continue;
      }
      candidates := candidates + [CostComponents(hav, supply[i], d)];
    }
    assert supply[..|supply|] == supply;
  }

  /** One turn of the serving loop. */
  method FillDemand(hav: Haversine, supply: seq<Depot>, stock: Stock, d: Demand)
    returns (left: Stock, made: Option<Allocation>)
    ensures Outcome(left, made) == Serve(hav, supply, stock, d)
  {
    var candidates := FindCandidates(hav, supply, stock, d);
    RankedAreStocked(hav, supply, stock, d);
    hide Candidates, CostComponents, MakeAllocation, SortBy;
    if |candidates| == 0 {
      return stock, None;
    }
    candidates := SortBy(CandidateLeq, candidates);
    var best := candidates[0];
    var second := if |candidates| > 1 then Some(candidates[1].total) else None;
    var avail := stock[best.depot.depotId][d.containerType];
    var filled := if d.quantity < avail then d.quantity else avail;
    left := stock[best.depot.depotId := stock[best.depot.depotId][d.containerType := avail - filled]];
    made := Some(MakeAllocation(d, best, second, filled));
  }

  /** Serves every demand it can, decrementing a working copy of the stock, and lists the result by demand id. */
  method Allocate(hav: Haversine, supply: seq<Depot>, demand: seq<Demand>) returns (allocations: seq<Allocation>)
    ensures allocations == Allocations(hav, supply, demand)
  {
    var stock := CopyStock(supply);
    ghost var start := stock;
    allocations := [];
    var ordered := SortBy(DemandLeq, demand);
    for k := 0 to |ordered|
      invariant Process(ServeFrom(hav, supply), start, ordered[..k]) == Fill(stock, allocations)
    {
      assert ordered[..k + 1][..k] == ordered[..k];
      var made;
      stock, made := FillDemand(hav, supply, stock, ordered[k]);
      allocations := allocations + if made.Some? then [made.value] else [];
    }
    assert ordered[..|ordered|] == ordered;
    allocations := SortBy(AllocationLeq, allocations);
  }
}
