/** What a whole allocation run keeps: conservation, no priority inversion, order independence. */
module AllocatorTheorems {
  import opened Wrappers
  import opened StableSort
  import opened Text
  import opened Rounding
  import opened Allocator

  // --- Conservation ----------------------------------------------------------

  /** Boxes of type `ct` drawn from depot `id` by the given allocations. */
  function Drawn(made: seq<Allocation>, id: string, ct: string): int {
    if |made| == 0 then 0
    else
      var a := made[0];
      (if a.supplyDepot == id && a.containerType == ct then a.quantity else 0) + Drawn(made[1..], id, ct)
  }

  lemma {:induction false} DrawnAppend(made: seq<Allocation>, a: Allocation, id: string, ct: string)
    ensures Drawn(made + [a], id, ct) == Drawn(made, id, ct) + Drawn([a], id, ct)
  {
    if |made| == 0 {
      assert made + [a] == [a];
    } else {
      assert (made + [a])[1..] == made[1..] + [a];
      DrawnAppend(made[1..], a, id, ct);
    }
  }

  lemma {:induction false} DrawnInsert(a: Allocation, made: seq<Allocation>, id: string, ct: string)
    ensures Drawn(Insert(AllocationLeq, a, made), id, ct) == Drawn([a], id, ct) + Drawn(made, id, ct)
  {
    if |made| != 0 {
      if AllocationLeq(a, made[0]) {
        assert ([a] + made)[1..] == made;
      } else {
        var rest := Insert(AllocationLeq, a, made[1..]);
        DrawnInsert(a, made[1..], id, ct);
        assert ([made[0]] + rest)[1..] == rest;
      }
    }
  }

  lemma {:induction false} DrawnSorted(made: seq<Allocation>, id: string, ct: string)
    ensures Drawn(SortBy(AllocationLeq, made), id, ct) == Drawn(made, id, ct)
  {
    if |made| != 0 {
      DrawnSorted(made[1..], id, ct);
      DrawnInsert(made[0], SortBy(AllocationLeq, made[1..]), id, ct);
    }
  }

  ghost predicate ConservesOn(serve: Server, stock: Stock, d: Demand, id: string, ct: string) {
    var o := serve(stock, d);
    && Level(stock, id, ct) == Level(o.stock, id, ct) + (if o.made.Some? then Drawn([o.made.value], id, ct) else 0)
    && (Level(stock, id, ct) >= 0 ==> Level(o.stock, id, ct) >= 0)
    && (Level(stock, id, ct) <= 0 ==> Level(o.stock, id, ct) == Level(stock, id, ct))
  }

  /** Serving one demand moves boxes out of a depot into its allocation and into nothing else. */
  ghost predicate Conserving(serve: Server, id: string, ct: string) {
    forall stock, d :: ConservesOn(serve, stock, d, id, ct)
  }

  lemma {:induction false} ServeConserves(hav: Haversine, supply: seq<Depot>, id: string, ct: string)
    ensures Conserving(ServeFrom(hav, supply), id, ct)
  {
    forall stock, d ensures ConservesOn(ServeFrom(hav, supply), stock, d, id, ct) {
      RankedAreStocked(hav, supply, stock, d);
    }
  }

  lemma {:induction false} ProcessConserves(serve: Server, stock: Stock, ds: seq<Demand>, id: string, ct: string)
    requires Conserving(serve, id, ct)
    ensures var f := Process(serve, stock, ds);
            && Level(stock, id, ct) == Level(f.stock, id, ct) + Drawn(f.made, id, ct)
            && (Level(stock, id, ct) >= 0 ==> Level(f.stock, id, ct) >= 0)
  {
    if |ds| != 0 {
      var front, d := ds[..|ds| - 1], ds[|ds| - 1];
      ProcessConserves(serve, stock, front, id, ct);
      var before := Process(serve, stock, front);
      var o := serve(before.stock, d);
      assert ConservesOn(serve, before.stock, d, id, ct);
      if o.made.Some? {
        DrawnAppend(before.made, o.made.value, id, ct);
      } else {
        assert before.made + [] == before.made;
      }
    }
  }

  /** Initial stock is remaining stock plus what the returned allocations take, and never goes negative. */
  lemma StockIsConserved(hav: Haversine, supply: seq<Depot>, demand: seq<Demand>, id: string, ct: string)
    ensures var left := Run(hav, supply, demand).stock;
            && Level(InitialStock(supply), id, ct)
                 == Level(left, id, ct) + Drawn(Allocations(hav, supply, demand), id, ct)
            && (Level(InitialStock(supply), id, ct) >= 0 ==> Level(left, id, ct) >= 0)
  {
    ServeConserves(hav, supply, id, ct);
    ProcessConserves(ServeFrom(hav, supply), InitialStock(supply), Order(demand), id, ct);
    DrawnSorted(Run(hav, supply, demand).made, id, ct);
  }

  // --- What the result lists -------------------------------------------------

  /** The stock on hand when the `k`th demand is served. */
  function StockAt(serve: Server, stock: Stock, ds: seq<Demand>, k: nat): Stock
    requires k <= |ds|
  {
    Process(serve, stock, ds[..k]).stock
  }

  /** What the `k`th demand of the serving order receives. */
  function Received(serve: Server, stock: Stock, ds: seq<Demand>, k: nat): Option<Allocation>
    requires k < |ds|
  {
    serve(StockAt(serve, stock, ds, k), ds[k]).made
  }

  lemma {:induction false} MadeIsReceived(serve: Server, stock: Stock, ds: seq<Demand>, a: Allocation)
    ensures a in Process(serve, stock, ds).made <==>
              exists k :: 0 <= k < |ds| && Received(serve, stock, ds, k) == Some(a)
  {
    if |ds| != 0 {
      var n := |ds| - 1;
      var front := ds[..n];
      MadeIsReceived(serve, stock, front, a);
      assert forall k | 0 <= k <= n :: front[..k] == ds[..k];
      assert forall k | 0 <= k < n :: Received(serve, stock, front, k) == Received(serve, stock, ds, k);
      assert a in Process(serve, stock, ds).made <==>
        a in Process(serve, stock, front).made || Received(serve, stock, ds, n) == Some(a);
    }
  }

  /** The sorted result list holds exactly what the served demands received. */
  lemma ResultListsTheServed(serve: Server, stock: Stock, ds: seq<Demand>, a: Allocation)
    ensures a in SortBy(AllocationLeq, Process(serve, stock, ds).made) <==>
              exists k :: 0 <= k < |ds| && Received(serve, stock, ds, k) == Some(a)
  {
    MadeIsReceived(serve, stock, ds, a);
    SortKeepsMembers(AllocationLeq, Process(serve, stock, ds).made, a);
  }

  /** Each served demand draws from the cheapest depot on the stock left by everyone served before it. */
  lemma {:induction false} EveryAllocationWasTheBestChoice(hav: Haversine, supply: seq<Depot>, demand: seq<Demand>,
                                                           k: nat, a: Allocation)
    requires k < |Order(demand)|
    requires Received(ServeFrom(hav, supply), InitialStock(supply), Order(demand), k) == Some(a)
    ensures a.demandId == Order(demand)[k].demandId
    ensures exists dep: Depot :: (dep.depotId == a.supplyDepot
              && IsChoice(hav, supply, StockAt(ServeFrom(hav, supply), InitialStock(supply), Order(demand), k),
                          Order(demand)[k], dep))
  {
    ServesTheCheapestStockedDepot(hav, supply, StockAt(ServeFrom(hav, supply), InitialStock(supply), Order(demand), k),
                                  Order(demand)[k]);
  }

  // --- No priority inversion -------------------------------------------------

  /** Every depot of the book is out of type `ct`. */
  ghost predicate Exhausted(supply: seq<Depot>, stock: Stock, ct: string) {
    forall dep | dep in supply :: Level(stock, dep.depotId, ct) <= 0
  }

  lemma SkippedMeansExhausted(hav: Haversine, supply: seq<Depot>, stock: Stock, d: Demand)
    ensures Serve(hav, supply, stock, d).made.None? <==> Exhausted(supply, stock, d.containerType)
  {
    ServesTheCheapestStockedDepot(hav, supply, stock, d);
    if Exhausted(supply, stock, d.containerType) {
      forall dep | dep in supply ensures !Stocked(stock, dep.depotId, d.containerType) {
      }
    } else {
      var dep :| dep in supply && Level(stock, dep.depotId, d.containerType) > 0;
      assert Stocked(stock, dep.depotId, d.containerType);
    }
  }

  lemma {:induction false} ExhaustedStays(serve: Server, supply: seq<Depot>, stock: Stock, ds: seq<Demand>,
                                          k: nat, ct: string)
    requires k <= |ds|
    requires forall dep | dep in supply :: Conserving(serve, dep.depotId, ct)
    requires Exhausted(supply, StockAt(serve, stock, ds, k), ct)
    ensures Exhausted(supply, Process(serve, stock, ds).stock, ct)
  {
    if k == |ds| {
      assert ds[..k] == ds;
    } else {
      var front := ds[..|ds| - 1];
      assert front[..k] == ds[..k];
      ExhaustedStays(serve, supply, stock, front, k, ct);
      forall dep | dep in supply ensures Level(Process(serve, stock, ds).stock, dep.depotId, ct) <= 0 {
        assert ConservesOn(serve, Process(serve, stock, front).stock, ds[|ds| - 1], dep.depotId, ct);
      }
    }
  }

  /**
   * Once a demand is skipped, every later-served demand of its type is skipped too, and at the end
   * every depot of the book has run out of that type.
   */
  lemma {:induction false} NoPriorityInversion(hav: Haversine, supply: seq<Depot>, demand: seq<Demand>, i: nat)
    requires i < |Order(demand)|
    requires Received(ServeFrom(hav, supply), InitialStock(supply), Order(demand), i).None?
    ensures forall j | i < j < |Order(demand)| && Order(demand)[j].containerType == Order(demand)[i].containerType ::
              Received(ServeFrom(hav, supply), InitialStock(supply), Order(demand), j).None?
    ensures Exhausted(supply, Run(hav, supply, demand).stock, Order(demand)[i].containerType)
  {
    var ds, stock, serve := Order(demand), InitialStock(supply), ServeFrom(hav, supply);
    var ct := ds[i].containerType;
    SkippedMeansExhausted(hav, supply, StockAt(serve, stock, ds, i), ds[i]);
    forall dep | dep in supply ensures Conserving(serve, dep.depotId, ct) {
      ServeConserves(hav, supply, dep.depotId, ct);
    }
    ExhaustedStays(serve, supply, stock, ds, i, ct);
    forall j | i < j < |ds| && ds[j].containerType == ct ensures Received(serve, stock, ds, j).None? {
      assert ds[..j][..i] == ds[..i];
      ExhaustedStays(serve, supply, stock, ds[..j], i, ct);
      SkippedMeansExhausted(hav, supply, StockAt(serve, stock, ds, j), ds[j]);
    }
  }

  /** More urgent: high before everything else, and everything else before low. */
  predicate MoreUrgent(a: Demand, b: Demand) {
    (a.priority == "high" && b.priority != "high") || (a.priority != "low" && b.priority == "low")
  }

  /** More urgent, or neither is and the id comes no later. */
  predicate Precedes(a: Demand, b: Demand) {
    MoreUrgent(a, b) || (!MoreUrgent(b, a) && StrLeq(a.demandId, b.demandId))
  }

  /** The demands are served high first and low last, and by ascending id among equals. */
  lemma UrgentAreServedFirst(demand: seq<Demand>)
    ensures multiset(Order(demand)) == multiset(demand)
    ensures forall i, j | 0 <= i < j < |Order(demand)| :: Precedes(Order(demand)[i], Order(demand)[j])
  {
    DemandOrderIsTotal();
    SortBySorts(DemandLeq, demand);
    SortByPermutes(DemandLeq, demand);
    forall i, j | 0 <= i < j < |Order(demand)| ensures Precedes(Order(demand)[i], Order(demand)[j]) {
      assert DemandLeq(Order(demand)[i], Order(demand)[j]);
    }
  }

  /** A demand is never served while one of its type that comes before it, by urgency and then by id, is skipped. */
  lemma {:induction false} ServedMeansMoreUrgentServed(hav: Haversine, supply: seq<Depot>, demand: seq<Demand>,
                                                       i: nat, j: nat)
    requires i < |Order(demand)| && j < |Order(demand)|
    requires Order(demand)[i].containerType == Order(demand)[j].containerType
    requires Precedes(Order(demand)[i], Order(demand)[j]) && !Precedes(Order(demand)[j], Order(demand)[i])
    requires Received(ServeFrom(hav, supply), InitialStock(supply), Order(demand), j).Some?
    ensures Received(ServeFrom(hav, supply), InitialStock(supply), Order(demand), i).Some?
  {
    UrgentAreServedFirst(demand);
    hide Order, Precedes, Received;
    assert i < j;
    if Received(ServeFrom(hav, supply), InitialStock(supply), Order(demand), i).None? {
      NoPriorityInversion(hav, supply, demand, i);
    }
  }

  // --- Order independence ----------------------------------------------------

  /** Stock `stock` holds the shelves of depot `dep`. */
  ghost predicate Shelved(stock: Stock, dep: Depot) {
    dep.depotId in stock && stock[dep.depotId] == dep.stock
  }

  ghost predicate IdIn(supply: seq<Depot>, id: string) {
    exists dep: Depot :: dep in supply && dep.depotId == id
  }

  lemma {:induction false} ShelvedInBook(supply: seq<Depot>, dep: Depot)
    requires DistinctDepots(supply) && dep in supply
    ensures Shelved(InitialStock(supply), dep)
  {
    var front, last := supply[..|supply| - 1], supply[|supply| - 1];
    assert supply == front + [last];
    if dep in front {
      ShelvedInBook(front, dep);
      var k :| 0 <= k < |front| && front[k] == dep;
      assert supply[k].depotId != supply[|supply| - 1].depotId;
    }
  }

  lemma {:induction false} StockIsOfTheBook(supply: seq<Depot>, id: string)
    ensures id in InitialStock(supply) <==> IdIn(supply, id)
  {
    if |supply| != 0 {
      var front, last := supply[..|supply| - 1], supply[|supply| - 1];
      assert supply == front + [last];
      StockIsOfTheBook(front, id);
    }
  }

  lemma InitialStockOf(supply: seq<Depot>)
    requires DistinctDepots(supply)
    ensures forall dep | dep in supply :: Shelved(InitialStock(supply), dep)
    ensures forall id :: id in InitialStock(supply) <==> IdIn(supply, id)
  {
    forall dep | dep in supply ensures Shelved(InitialStock(supply), dep) {
      ShelvedInBook(supply, dep);
    }
    forall id ensures id in InitialStock(supply) <==> IdIn(supply, id) {
      StockIsOfTheBook(supply, id);
    }
  }

  lemma SameMembers<T>(xs: seq<T>, ys: seq<T>)
    requires multiset(xs) == multiset(ys)
    ensures forall x :: x in xs <==> x in ys
  {
    forall x ensures x in xs <==> x in ys {
      assert x in multiset(xs) <==> x in multiset(ys);
    }
  }

  lemma DistinctIsMemberwise(supply: seq<Depot>)
    requires DistinctDepots(supply)
    ensures forall a, b | a in supply && b in supply :: a.depotId == b.depotId ==> a == b
  {
  }

  lemma {:induction false} DistinctCounts(xs: seq<Depot>, dep: Depot)
    requires DistinctDepots(xs)
    ensures multiset(xs)[dep] <= 1
  {
    if |xs| != 0 {
      DistinctCounts(xs[1..], dep);
      assert xs == [xs[0]] + xs[1..];
      if dep == xs[0] {
        assert dep !in xs[1..];
      }
    }
  }

  lemma {:induction false} DistinctIsPermutable(xs: seq<Depot>, ys: seq<Depot>)
    requires multiset(xs) == multiset(ys) && DistinctDepots(xs)
    ensures DistinctDepots(ys)
  {
    SameMembers(xs, ys);
    forall i, j | 0 <= i < j < |ys| ensures ys[i].depotId != ys[j].depotId {
      if ys[i].depotId == ys[j].depotId {
        assert ys[i] in xs && ys[j] in xs;
        assert ys[i] == ys[j];
        var rest := ys[..i] + ys[i + 1..];
        assert ys == ys[..i] + [ys[i]] + ys[i + 1..];
        assert multiset(ys) == multiset(rest) + multiset{ys[i]};
        assert ys[j] == ys[i + 1..][j - i - 1] && ys[j] in rest;
        assert multiset(ys)[ys[i]] >= 2;
        DistinctCounts(xs, ys[i]);
      }
    }
  }

  ghost predicate NoRepeats<T>(xs: seq<T>) {
    forall i, j | 0 <= i < j < |xs| :: xs[i] != xs[j]
  }

  lemma {:induction false} NoRepeatsCountsOnce<T>(xs: seq<T>)
    requires NoRepeats(xs)
    ensures multiset(xs) == multiset(set x | x in xs)
  {
    if |xs| != 0 {
      var front, last := xs[..|xs| - 1], xs[|xs| - 1];
      NoRepeatsCountsOnce(front);
      assert xs == front + [last];
      assert (set x | x in xs) == (set x | x in front) + {last};
      assert last !in front;
    }
  }

  lemma {:induction false} CandidatesDoNotRepeat(hav: Haversine, supply: seq<Depot>, stock: Stock, d: Demand)
    requires DistinctDepots(supply)
    ensures NoRepeats(Candidates(hav, supply, stock, d))
  {
    if |supply| != 0 {
      var front, last := supply[..|supply| - 1], supply[|supply| - 1];
      CandidatesDoNotRepeat(hav, front, stock, d);
      CandidatesAreStockedDepots(hav, front, stock, d);
      assert CostComponents(hav, last, d) !in Candidates(hav, front, stock, d);
    }
  }

  function Penalty(priority: string): real {
    if priority == "high" then 0.0 else if priority == "low" then 16.0 else 8.0
  }

  /** The allocation names the demand and the depot, its distance, its turn-round time and what it costs. */
  ghost predicate Reports(hav: Haversine, a: Allocation, d: Demand, dep: Depot) {
    var km := hav(dep.lat, dep.lon, d.originLat, d.originLon);
    && a.demandId == d.demandId && a.source == d.source && a.cargoType == d.cargoType
    && a.containerType == d.containerType && a.supplyDepot == dep.depotId && a.depotKind == dep.kind
    && a.distanceKm == RoundTo(km, 100) && a.estTrtMin == RoundTo(2.0 * km + dep.dwellMin + 6.0, 100)
    && a.costDistance == RoundTo(km, 100) && a.costDwell == RoundTo(dep.dwellMin / 2.0, 100)
    && a.costPriority == RoundTo(Penalty(d.priority), 100)
    && a.cost == RoundTo(km + dep.dwellMin / 2.0 + Penalty(d.priority), 100)
  }

  /** Of the stocked depots other than `dep`, `other` costs the demand least. */
  ghost predicate IsRunnerUp(hav: Haversine, supply: seq<Depot>, stock: Stock, d: Demand, dep: Depot, other: Depot) {
    && other in supply && other.depotId != dep.depotId && Stocked(stock, other.depotId, d.containerType)
    && forall third | third in supply && third.depotId != dep.depotId
                      && Stocked(stock, third.depotId, d.containerType) ::
         DepotCost(hav, other, d) <= DepotCost(hav, third, d)
  }

  /** `c` is the confidence of choosing `dep`: against the runner-up, or flat when there is none. */
  ghost predicate SureOf(hav: Haversine, supply: seq<Depot>, stock: Stock, d: Demand, dep: Depot, c: real) {
    var cost := DepotCost(hav, dep, d) + Penalty(d.priority);
    || (c == 0.6
        && forall other | other in supply && other.depotId != dep.depotId ::
             !Stocked(stock, other.depotId, d.containerType))
    || exists other: Depot :: (IsRunnerUp(hav, supply, stock, d, dep, other)
         && c == Confidence(cost, Some(DepotCost(hav, other, d) + Penalty(d.priority))))
  }

  lemma HeadsDiffer<T>(xs: seq<T>, ys: seq<T>)
    requires NoRepeats(xs) && multiset(xs) == multiset(ys) && |ys| >= 2
    ensures forall k | 0 < k < |ys| :: ys[0] != ys[k]
  {
    NoRepeatsCountsOnce(xs);
    forall k | 0 < k < |ys| ensures ys[0] != ys[k] {
      assert ys == [ys[0]] + ys[1..];
      assert ys[k] == ys[1..][k - 1] && ys[k] in multiset(ys[1..]);
      assert ys[0] in multiset(xs);
    }
  }

  lemma CandidateCosts(hav: Haversine, dep: Depot, d: Demand)
    ensures var c := CostComponents(hav, dep, d);
            c.depot == dep && c.total == DepotCost(hav, dep, d) + Penalty(d.priority)
  {
  }

  /** A stocked depot of another id stands in the ranking after the chosen one. */
  lemma OthersAreRankedLater(hav: Haversine, supply: seq<Depot>, stock: Stock, d: Demand, other: Depot)
    requires other in supply && Stocked(stock, other.depotId, d.containerType)
    requires |Ranked(hav, supply, stock, d)| > 0 && Ranked(hav, supply, stock, d)[0].depot.depotId != other.depotId
    ensures |Ranked(hav, supply, stock, d)| > 1
    ensures Ranked(hav, supply, stock, d)[1].total <= CostComponents(hav, other, d).total
  {
    var cands, ranked := Candidates(hav, supply, stock, d), Ranked(hav, supply, stock, d);
    CandidatesAreStockedDepots(hav, supply, stock, d);
    SortKeepsMembers(CandidateLeq, cands, CostComponents(hav, other, d));
    var k :| 0 <= k < |ranked| && ranked[k] == CostComponents(hav, other, d);
    CandidateOrderIsTotal();
    SortBySorts(CandidateLeq, cands);
    if k > 1 {
      assert CandidateLeq(ranked[1], ranked[k]);
    }
  }

  /** The second of the ranking is the runner-up. */
  lemma SecondIsRunnerUp(hav: Haversine, supply: seq<Depot>, stock: Stock, d: Demand)
    requires DistinctDepots(supply) && |Ranked(hav, supply, stock, d)| > 1
    ensures var ranked := Ranked(hav, supply, stock, d);
            IsRunnerUp(hav, supply, stock, d, ranked[0].depot, ranked[1].depot)
  {
    var cands, ranked := Candidates(hav, supply, stock, d), Ranked(hav, supply, stock, d);
    RankedAreStocked(hav, supply, stock, d);
    CandidatesDoNotRepeat(hav, supply, stock, d);
    SortByPermutes(CandidateLeq, cands);
    HeadsDiffer(cands, ranked);
    assert ranked[0] in ranked && ranked[1] in ranked;
    hide Ranked, Candidates, NoRepeats;
    DistinctIsMemberwise(supply);
    CandidateCosts(hav, ranked[1].depot, d);
    forall third | third in supply && third.depotId != ranked[0].depot.depotId
                   && Stocked(stock, third.depotId, d.containerType)
      ensures DepotCost(hav, ranked[1].depot, d) <= DepotCost(hav, third, d)
    {
      OthersAreRankedLater(hav, supply, stock, d, third);
      CandidateCosts(hav, third, d);
    }
  }

  lemma MadeReports(hav: Haversine, d: Demand, best: Candidate, second: Option<real>, filled: int)
    requires best == CostComponents(hav, best.depot, d)
    ensures Reports(hav, MakeAllocation(d, best, second, filled), d, best.depot)
  {
    hide Confidence, RoundTo;
  }

  lemma NoneOther(hav: Haversine, supply: seq<Depot>, stock: Stock, d: Demand)
    requires |Ranked(hav, supply, stock, d)| == 1
    ensures forall other | other in supply && other.depotId != Ranked(hav, supply, stock, d)[0].depot.depotId ::
              !Stocked(stock, other.depotId, d.containerType)
  {
    hide Ranked, Stocked, CostComponents;
    forall other | other in supply && other.depotId != Ranked(hav, supply, stock, d)[0].depot.depotId
      ensures !Stocked(stock, other.depotId, d.containerType)
    {
      if Stocked(stock, other.depotId, d.containerType) {
        OthersAreRankedLater(hav, supply, stock, d, other);
      }
    }
  }

  lemma SureAgainst(hav: Haversine, supply: seq<Depot>, stock: Stock, d: Demand, dep: Depot, other: Depot)
    requires IsRunnerUp(hav, supply, stock, d, dep, other)
    ensures var penalty := Penalty(d.priority);
            SureOf(hav, supply, stock, d, dep, Confidence(DepotCost(hav, dep, d) + penalty,
                                                          Some(DepotCost(hav, other, d) + penalty)))
  {
    hide IsRunnerUp, DepotCost, Penalty, Confidence;
  }

  lemma FirstIsSure(hav: Haversine, supply: seq<Depot>, stock: Stock, d: Demand)
    requires DistinctDepots(supply) && |Ranked(hav, supply, stock, d)| > 0
    ensures var ranked := Ranked(hav, supply, stock, d);
            var second := if |ranked| > 1 then Some(ranked[1].total) else None;
            SureOf(hav, supply, stock, d, ranked[0].depot, Confidence(ranked[0].total, second))
  {
    var ranked := Ranked(hav, supply, stock, d);
    hide Ranked, CostComponents, IsRunnerUp, DepotCost, Stocked, Penalty;
    RankedAreStocked(hav, supply, stock, d);
    assert ranked[0] in ranked;
    CandidateCosts(hav, ranked[0].depot, d);
    if |ranked| > 1 {
      hide SureOf, Confidence;
      SecondIsRunnerUp(hav, supply, stock, d);
      assert ranked[1] in ranked;
      CandidateCosts(hav, ranked[1].depot, d);
      SureAgainst(hav, supply, stock, d, ranked[0].depot, ranked[1].depot);
    } else {
      NoneOther(hav, supply, stock, d);
    }
  }

  /** What the allocation of a demand says of the depot chosen, and how sure it is of it. */
  lemma AllocationReports(hav: Haversine, supply: seq<Depot>, stock: Stock, d: Demand)
    requires DistinctDepots(supply) && Serve(hav, supply, stock, d).made.Some?
    ensures var a := Serve(hav, supply, stock, d).made.value;
            exists dep: Depot :: (IsChoice(hav, supply, stock, d, dep) && Reports(hav, a, d, dep)
                                  && SureOf(hav, supply, stock, d, dep, a.confidence))
  {
    var ranked, made := Ranked(hav, supply, stock, d), Serve(hav, supply, stock, d).made.value;
    RankedAreStocked(hav, supply, stock, d);
    assert ranked[0] in ranked;
    var second := if |ranked| > 1 then Some(ranked[1].total) else None;
    assert made == MakeAllocation(d, ranked[0], second, made.quantity);
    assert made.confidence == Confidence(ranked[0].total, second);
    hide Ranked, Serve, MakeAllocation, IsChoice, Reports, SureOf, CostComponents, Confidence;
    MadeReports(hav, d, ranked[0], second, made.quantity);
    FirstIsChosen(hav, supply, stock, d);
    FirstIsSure(hav, supply, stock, d);
  }

  lemma RankedPermute(hav: Haversine, xs: seq<Depot>, ys: seq<Depot>, stock: Stock, d: Demand)
    requires multiset(xs) == multiset(ys) && DistinctDepots(xs)
    ensures Ranked(hav, xs, stock, d) == Ranked(hav, ys, stock, d)
  {
    var cands, cands' := Candidates(hav, xs, stock, d), Candidates(hav, ys, stock, d);
    DistinctIsPermutable(xs, ys);
    CandidatesDoNotRepeat(hav, xs, stock, d);
    CandidatesDoNotRepeat(hav, ys, stock, d);
    CandidatesAreStockedDepots(hav, xs, stock, d);
    CandidatesAreStockedDepots(hav, ys, stock, d);
    SameMembers(xs, ys);
    assert (set c | c in cands) == (set c | c in cands');
    NoRepeatsCountsOnce(cands);
    NoRepeatsCountsOnce(cands');
    CandidateOrderIsTotal();
    forall a, b | a in cands && b in cands && CandidateLeq(a, b) && CandidateLeq(b, a) ensures a == b {
      StrLeqAntisymmetric(a.depot.depotId, b.depot.depotId);
      DistinctIsMemberwise(xs);
    }
    SortForgetsOrder(CandidateLeq, cands, cands');
  }

  lemma {:induction false} ProcessAgrees(f: Server, g: Server, stock: Stock, ds: seq<Demand>)
    requires forall s, d :: f(s, d) == g(s, d)
    ensures Process(f, stock, ds) == Process(g, stock, ds)
  {
    if |ds| != 0 {
      ProcessAgrees(f, g, stock, ds[..|ds| - 1]);
    }
  }

  lemma OrderPermute(ds: seq<Demand>, es: seq<Demand>)
    requires multiset(ds) == multiset(es) && DistinctDemands(ds)
    ensures Order(ds) == Order(es)
  {
    DemandOrderIsTotal();
    forall a, b | a in ds && b in ds && DemandLeq(a, b) && DemandLeq(b, a) ensures a == b {
      StrLeqAntisymmetric(a.demandId, b.demandId);
    }
    SortForgetsOrder(DemandLeq, ds, es);
  }

  /** Shuffling either book changes neither the allocations nor the remaining stock. */
  lemma OrderIndependence(hav: Haversine, supply1: seq<Depot>, supply2: seq<Depot>,
                          demand1: seq<Demand>, demand2: seq<Demand>)
    requires multiset(supply1) == multiset(supply2) && DistinctDepots(supply1)
    requires multiset(demand1) == multiset(demand2) && DistinctDemands(demand1)
    ensures Allocations(hav, supply1, demand1) == Allocations(hav, supply2, demand2)
    ensures Run(hav, supply1, demand1).stock == Run(hav, supply2, demand2).stock
  {
    OrderPermute(demand1, demand2);
    DistinctIsPermutable(supply1, supply2);
    InitialStockOf(supply1);
    InitialStockOf(supply2);
    SameMembers(supply1, supply2);
    assert InitialStock(supply1) == InitialStock(supply2);
    var f, g := ServeFrom(hav, supply1), ServeFrom(hav, supply2);
    forall s, d ensures f(s, d) == g(s, d) {
      RankedPermute(hav, supply1, supply2, s, d);
    }
    ProcessAgrees(f, g, InitialStock(supply1), Order(demand1));
  }

  // --- The order of the result -----------------------------------------------

  lemma AllocationOrderIsTotal()
    ensures TotalPreorder(AllocationLeq)
  {
    forall a, b ensures AllocationLeq(a, b) || AllocationLeq(b, a) {
      StrLeqTotal(a.demandId, b.demandId);
    }
    forall a, b, c | AllocationLeq(a, b) && AllocationLeq(b, c) ensures AllocationLeq(a, c) {
      StrLeqTransitive(a.demandId, b.demandId, c.demandId);
    }
  }

  lemma ListedAsServedWhenSorted(hav: Haversine, supply: seq<Depot>, demand: seq<Demand>)
    ensures Allocations(hav, supply, demand) == Run(hav, supply, demand).made
            <==> Sorted(AllocationLeq, Run(hav, supply, demand).made)
  {
    hide Run;
    AllocationOrderIsTotal();
    SortBySorts(AllocationLeq, Run(hav, supply, demand).made);
    if Sorted(AllocationLeq, Run(hav, supply, demand).made) {
      SortOfSorted(AllocationLeq, Run(hav, supply, demand).made);
    }
  }

  predicate ById(a: Demand, b: Demand) {
    StrLeq(a.demandId, b.demandId)
  }

  /** Every allocation carries the id of the demand it serves. */
  ghost predicate NamesTheDemand(serve: Server) {
    forall stock, d :: serve(stock, d).made.Some? ==> serve(stock, d).made.value.demandId == d.demandId
  }

  ghost predicate NamedIn(a: Allocation, ds: seq<Demand>) {
    exists i :: 0 <= i < |ds| && ds[i].demandId == a.demandId
  }

  lemma NamedBefore(a: Allocation, ds: seq<Demand>)
    requires |ds| > 0 && Sorted(ById, ds) && NamedIn(a, ds[..|ds| - 1])
    ensures NamedIn(a, ds) && StrLeq(a.demandId, ds[|ds| - 1].demandId)
  {
    hide StrLeq;
    var i :| 0 <= i < |ds| - 1 && ds[..|ds| - 1][i].demandId == a.demandId;
    assert ById(ds[i], ds[|ds| - 1]);
  }

  lemma SortedAppend(made: seq<Allocation>, a: Allocation)
    requires Sorted(AllocationLeq, made) && forall b | b in made :: AllocationLeq(b, a)
    ensures Sorted(AllocationLeq, made + [a])
  {
    hide AllocationLeq;
  }

  /** Demands that come by ascending id are served by ascending id. */
  lemma {:induction false} AscendingServedAscending(serve: Server, stock: Stock, ds: seq<Demand>)
    requires NamesTheDemand(serve) && Sorted(ById, ds)
    ensures Sorted(AllocationLeq, Process(serve, stock, ds).made)
    ensures forall a | a in Process(serve, stock, ds).made :: NamedIn(a, ds)
  {
    if |ds| != 0 {
      var front, d := ds[..|ds| - 1], ds[|ds| - 1];
      AscendingServedAscending(serve, stock, front);
      var before := Process(serve, stock, front);
      forall a | a in before.made ensures StrLeq(a.demandId, d.demandId) && NamedIn(a, ds) {
        NamedBefore(a, ds);
      }
      var o := serve(before.stock, d);
      hide StrLeq, ById;
      if o.made.Some? {
        assert ds[|ds| - 1].demandId == o.made.value.demandId;
        SortedAppend(before.made, o.made.value);
      }
    }
  }

  lemma ServingNamesTheDemand(hav: Haversine, supply: seq<Depot>)
    ensures NamesTheDemand(ServeFrom(hav, supply))
  {
    forall stock, d | ServeFrom(hav, supply)(stock, d).made.Some?
      ensures ServeFrom(hav, supply)(stock, d).made.value.demandId == d.demandId
    {
      ServesTheCheapestStockedDepot(hav, supply, stock, d);
    }
  }

  // --- One depot that can serve everyone -------------------------------------

  /** What the demands ask for in all, none less than nothing. */
  function Wanted(ds: seq<Demand>): nat {
    if |ds| == 0 then 0
    else
      var q := ds[|ds| - 1].quantity;
      Wanted(ds[..|ds| - 1]) + if q > 0 then q else 0
  }

  /** Depot `id` has a box to spare beyond all that is wanted of each type wanted. */
  ghost predicate HoldsEnough(stock: Stock, id: string, ds: seq<Demand>) {
    forall d | d in ds :: Level(stock, id, d.containerType) > Wanted(ds)
  }

  /** With a box of its type at depot `id` the demand is served, and `id` loses no more than is asked for. */
  ghost predicate ServesFromStock(serve: Server, id: string, stock: Stock, d: Demand) {
    Level(stock, id, d.containerType) > 0 ==>
      && serve(stock, d).made.Some?
      && serve(stock, d).made.value.demandId == d.demandId
      && forall ct :: Level(stock, id, ct) - Level(serve(stock, d).stock, id, ct) <= Wanted([d])
  }

  lemma {:induction false} OneDepotServes(hav: Haversine, dep: Depot, stock: Stock, d: Demand)
    ensures ServesFromStock(ServeFrom(hav, [dep]), dep.depotId, stock, d)
  {
    assert dep in [dep] && [d][..0] == [];
    if Level(stock, dep.depotId, d.containerType) > 0 {
      assert Stocked(stock, dep.depotId, d.containerType);
      ServesTheCheapestStockedDepot(hav, [dep], stock, d);
      RankedAreStocked(hav, [dep], stock, d);
    }
  }

  /** Each demand received an allocation, in turn. */
  ghost predicate InTurn(made: seq<Allocation>, ds: seq<Demand>) {
    |made| == |ds| && forall i | 0 <= i < |ds| :: made[i].demandId == ds[i].demandId
  }

  lemma WantedSplits(ds: seq<Demand>)
    requires |ds| > 0
    ensures Wanted(ds) == Wanted(ds[..|ds| - 1]) + Wanted([ds[|ds| - 1]])
  {
    assert [ds[|ds| - 1]][..0] == [];
  }

  lemma {:induction false} EveryoneIsServed(serve: Server, id: string, stock: Stock, ds: seq<Demand>)
    requires forall s, d :: ServesFromStock(serve, id, s, d)
    requires HoldsEnough(stock, id, ds)
    ensures InTurn(Process(serve, stock, ds).made, ds)
    ensures forall ct :: Level(stock, id, ct) - Level(Process(serve, stock, ds).stock, id, ct) <= Wanted(ds)
  {
    if |ds| != 0 {
      var front, d := ds[..|ds| - 1], ds[|ds| - 1];
      WantedSplits(ds);
      assert HoldsEnough(stock, id, front);
      hide Level, Wanted;
      EveryoneIsServed(serve, id, stock, front);
      assert d in ds;
      assert ServesFromStock(serve, id, Process(serve, stock, front).stock, d);
    }
  }

  /** Holds one box more than all is wanted, of every type wanted. */
  function AmpleDepot(ds: seq<Demand>): Depot {
    Depot("D", "EMPTY_YARD", 0.0, 0.0, map d | d in ds :: d.containerType := 1 + Wanted(ds), 0.0)
  }

  lemma AmpleDepotHoldsEnough(ds: seq<Demand>)
    ensures HoldsEnough(InitialStock([AmpleDepot(ds)]), AmpleDepot(ds).depotId, ds)
  {
    var dep := AmpleDepot(ds);
    ShelvedInBook([dep], dep);
  }

  lemma SameIdsSameOrder(made: seq<Allocation>, ds: seq<Demand>)
    requires InTurn(made, ds)
    ensures Sorted(AllocationLeq, made) <==> Sorted(ById, ds)
  {
    hide StrLeq;
  }

  /** Whatever the depots hold, the result is in serving order. */
  ghost predicate ListedAsServed(hav: Haversine, demand: seq<Demand>) {
    forall supply :: Allocations(hav, supply, demand) == Run(hav, supply, demand).made
  }

  /**
   * Whatever the depots hold, the result is in serving order, as its documentation says, if and only if the
   * demands, in priority order, come by ascending id.
   */
  lemma ServingOrderExactlyWhenByDemandId(hav: Haversine, demand: seq<Demand>)
    ensures ListedAsServed(hav, demand) <==> Sorted(ById, Order(demand))
  {
    var ds := Order(demand);
    if Sorted(ById, ds) {
      forall supply ensures Allocations(hav, supply, demand) == Run(hav, supply, demand).made {
        ServingNamesTheDemand(hav, supply);
        AscendingServedAscending(ServeFrom(hav, supply), InitialStock(supply), ds);
        ListedAsServedWhenSorted(hav, supply, demand);
      }
    } else {
      var dep := AmpleDepot(ds);
      var supply := [dep];
      forall s, d ensures ServesFromStock(ServeFrom(hav, supply), dep.depotId, s, d) {
        OneDepotServes(hav, dep, s, d);
      }
      AmpleDepotHoldsEnough(ds);
      EveryoneIsServed(ServeFrom(hav, supply), dep.depotId, InitialStock(supply), ds);
      SameIdsSameOrder(Run(hav, supply, demand).made, ds);
      ListedAsServedWhenSorted(hav, supply, demand);
    }
  }

  /** Two demands for one box each, the later id more urgent. */
  function UrgentLast(any: Demand): seq<Demand> {
    [any.(demandId := "A", priority := "low", quantity := 1), any.(demandId := "B", priority := "high", quantity := 1)]
  }

  lemma DrawnFromOne(serve: Server, stock: Stock, d: Demand, id: string)
    requires ConservesOn(serve, stock, d, id, d.containerType)
    requires serve(stock, d).made.Some? && serve(stock, d).made.value.quantity <= 1
    requires Level(stock, id, d.containerType) >= 2
    ensures Level(serve(stock, d).stock, id, d.containerType) >= 1
  {
    var a := serve(stock, d).made.value;
    assert [a][1..] == [];
    assert Drawn([a], id, d.containerType)
        == (if a.supplyDepot == id && a.containerType == d.containerType then a.quantity else 0)
           + Drawn([a][1..], id, d.containerType);
  }

  /** A depot with a box to spare still has one after a demand for one box. */
  lemma StillStocked(hav: Haversine, supply: seq<Depot>, stock: Stock, d: Demand, dep: Depot)
    requires dep in supply && Level(stock, dep.depotId, d.containerType) >= 2 && d.quantity == 1
    ensures Serve(hav, supply, stock, d).made.Some?
    ensures Serve(hav, supply, stock, d).made.value.demandId == d.demandId
    ensures Stocked(Serve(hav, supply, stock, d).stock, dep.depotId, d.containerType)
  {
    ServesTheCheapestStockedDepot(hav, supply, stock, d);
    assert Stocked(stock, dep.depotId, d.containerType);
    ServeConserves(hav, supply, dep.depotId, d.containerType);
    hide Serve, IsChoice, ConservesOn;
    var o := ServeFrom(hav, supply)(stock, d);
    assert ConservesOn(ServeFrom(hav, supply), stock, d, dep.depotId, d.containerType);
    DrawnFromOne(ServeFrom(hav, supply), stock, d, dep.depotId);
  }

  lemma UrgentComesFirst(low: Demand, high: Demand)
    requires low.priority == "low" && high.priority == "high"
    ensures Order([low, high]) == [high, low]
  {
    SortOfTwo(DemandLeq, low, high);
  }

  lemma TwoServed(serve: Server, stock: Stock, first: Demand, second: Demand)
    ensures var o1 := serve(stock, first);
            var o2 := serve(o1.stock, second);
            o1.made.Some? && o2.made.Some? ==>
              Process(serve, stock, [first, second]) == Fill(o2.stock, [o1.made.value, o2.made.value])
  {
    assert [first, second][..1] == [first] && [first][..0] == [];
    assert Process(serve, stock, [first]).stock == serve(stock, first).stock;
  }

  /** Where some depot can serve both, the more urgent is served first and listed last. */
  lemma ServedFirstListedLast(hav: Haversine, supply: seq<Depot>, any: Demand, dep: Depot)
    requires dep in supply && Level(InitialStock(supply), dep.depotId, any.containerType) >= 2
    ensures var made := Run(hav, supply, UrgentLast(any)).made;
            && |made| == 2 && made[0].demandId == "B" && made[1].demandId == "A"
            && Allocations(hav, supply, UrgentLast(any)) == [made[1], made[0]]
  {
    var low, high := UrgentLast(any)[0], UrgentLast(any)[1];
    UrgentComesFirst(low, high);
    var stock := InitialStock(supply);
    StillStocked(hav, supply, stock, high, dep);
    var o := Serve(hav, supply, stock, high);
    ServesTheCheapestStockedDepot(hav, supply, o.stock, low);
    TwoServed(ServeFrom(hav, supply), stock, high, low);
    hide Serve, Stocked, IsChoice, InitialStock, Process;
    var made := Run(hav, supply, UrgentLast(any)).made;
    assert made == [made[0], made[1]];
    SortOfTwo(AllocationLeq, made[0], made[1]);
  }
}
