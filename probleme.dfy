/** The CARP problem object and its split (ProblemeCARP.java): the matrix
    of feasible trips built from a giant tour, the distance table between
    network nodes, the depot and the vehicle capacity, then the evaluation
    of that matrix by `evaluer`. */
module Probleme {
  import opened Common
  import opened Resultat
  import opened Solution
  import opened Fitness
  import opened Reconstruction
  import opened Optimality

  /** `distancier`: the distance between every two network nodes, indexed
      by node number minus one. */
  type Distances = seq<seq<Ext>>

  ghost predicate Square(dist: Distances)
  {
    forall r :: 0 <= r < |dist| ==> |dist[r]| == |dist|
  }

  /** A node number the distance table has a row and a column for. */
  predicate NodeOk(dist: Distances, x: int)
  {
    1 <= x <= |dist|
  }

  /** The distance from node a to node b. */
  ghost function Leg(dist: Distances, a: int, b: int): Ext
    requires Square(dist) && NodeOk(dist, a) && NodeOk(dist, b)
  {
    dist[a - 1][b - 1]
  }

  /** Every slot of the giant tour holds a task. */
  ghost predicate NoNulls(ts: seq<Option<Arc>>)
  {
    forall k :: 0 <= k < |ts| ==> ts[k].Some?
  }

  /** The demand of tasks i..j-1, added from i on. */
  ghost function DemandSum(ts: seq<Option<Arc>>, i: nat, j: nat): int
    requires NoNulls(ts) && i <= j <= |ts|
    decreases j - i
  {
    if j == i then 0 else DemandSum(ts, i, j - 1) + DemandOf(ts[j - 1].value)
  }

  /** The depot and the end nodes of tasks i..j-1 are nodes of the table. */
  ghost predicate NodesOk(dist: Distances, depot: int, ts: seq<Option<Arc>>, i: nat, j: nat)
    requires NoNulls(ts) && i <= j <= |ts|
  {
    NodeOk(dist, depot) &&
    forall k :: i <= k < j ==> NodeOk(dist, ts[k].value.depart) && NodeOk(dist, ts[k].value.arrivee)
  }

  /** Every trip within the capacity reads only nodes of the table. */
  ghost predicate Readable(dist: Distances, depot: int, cap: int, ts: seq<Option<Arc>>)
    requires NoNulls(ts)
  {
    forall i, j :: 0 <= i < j <= |ts| && DemandSum(ts, i, j) <= cap ==> NodesOk(dist, depot, ts, i, j)
  }

  /** What `split` needs of its input: a square distance table, a task in
      every slot, and node numbers it can look up for every trip it costs. */
  ghost predicate Fits(dist: Distances, depot: int, cap: int, ts: seq<Option<Arc>>)
  {
    Square(dist) && NoNulls(ts) && Readable(dist, depot, cap, ts)
  }

  /** The length of a trip from the depot serving tasks i..j-1, before the
      return to the depot, accumulated task after task. */
  ghost function Tour(dist: Distances, depot: int, ts: seq<Option<Arc>>, i: nat, j: nat): Ext
    requires Square(dist) && NoNulls(ts) && i < j <= |ts| && NodesOk(dist, depot, ts, i, j)
    decreases j
  {
    if j == i + 1 then
      Add(Leg(dist, depot, ts[i].value.depart), Fin(CostOf(ts[i].value)))
    else
      Add(Add(Tour(dist, depot, ts, i, j - 1), Leg(dist, ts[j - 2].value.arrivee, ts[j - 1].value.depart)),
          Fin(CostOf(ts[j - 1].value)))
  }

  /** The cost of a trip serving tasks i..j-1, back at the depot. */
  ghost function TripCost(dist: Distances, depot: int, ts: seq<Option<Arc>>, i: nat, j: nat): Ext
    requires Square(dist) && NoNulls(ts) && i < j <= |ts| && NodesOk(dist, depot, ts, i, j)
  {
    Add(Tour(dist, depot, ts, i, j), Leg(dist, ts[j - 1].value.arrivee, depot))
  }

  /** The same length written out from the other end: from the end of
      task k, through tasks k+1..j-1, back to the depot. */
  ghost function Rest(dist: Distances, depot: int, ts: seq<Option<Arc>>, k: nat, j: nat): Ext
    requires Square(dist) && NoNulls(ts) && k < j <= |ts| && NodesOk(dist, depot, ts, k, j)
    decreases j - k
  {
    if k + 1 == j then
      Leg(dist, ts[k].value.arrivee, depot)
    else
      Add(Add(Leg(dist, ts[k].value.arrivee, ts[k + 1].value.depart), Fin(CostOf(ts[k + 1].value))),
          Rest(dist, depot, ts, k + 1, j))
  }

  lemma {:induction false} TripCostSplit(dist: Distances, depot: int, ts: seq<Option<Arc>>, i: nat, k: nat, j: nat)
    requires Square(dist) && NoNulls(ts) && i <= k < j <= |ts| && NodesOk(dist, depot, ts, i, j)
    ensures TripCost(dist, depot, ts, i, j) == Add(Tour(dist, depot, ts, i, k + 1), Rest(dist, depot, ts, k, j))
    decreases j - k
  {
    if k + 1 < j {
      TripCostSplit(dist, depot, ts, i, k + 1, j);
    }
  }

  /** The cost of a trip is the distance from the depot to the start of
      its first task, plus, for each task, its traversal cost and the
      distance from its end to the start of the next task, or to the depot
      after the last task. */
  lemma TripCostClosedForm(dist: Distances, depot: int, ts: seq<Option<Arc>>, i: nat, j: nat)
    requires Square(dist) && NoNulls(ts) && i < j <= |ts| && NodesOk(dist, depot, ts, i, j)
    ensures TripCost(dist, depot, ts, i, j) ==
            Add(Add(Leg(dist, depot, ts[i].value.depart), Fin(CostOf(ts[i].value))), Rest(dist, depot, ts, i, j))
  {
    TripCostSplit(dist, depot, ts, i, i, j);
  }

  /** `tourneeViable[i][j]`: the cost of the trip serving tasks i..j-1 when
      their demand fits in the vehicle, +infinity otherwise. */
  ghost function SegEntry(dist: Distances, depot: int, cap: int, ts: seq<Option<Arc>>, i: nat, j: nat): Ext
    requires Fits(dist, depot, cap, ts) && i <= |ts| && j <= |ts|
  {
    if i < j && DemandSum(ts, i, j) <= cap then TripCost(dist, depot, ts, i, j) else Inf
  }

  /** The matrix `split` builds for the giant tour `ts`; a trip only goes
      forward along the tour. */
  ghost function SegMatrix(dist: Distances, depot: int, cap: int, ts: seq<Option<Arc>>): (m: Matrix)
    requires Fits(dist, depot, cap, ts)
    ensures Covers(m, |ts|) && Triangular(m, |ts|)
    ensures forall i, j :: 0 <= i <= |ts| && 0 <= j <= |ts| ==> m[i][j] == SegEntry(dist, depot, cap, ts, i, j)
  {
    seq(|ts| + 1, i requires 0 <= i <= |ts| =>
      seq(|ts| + 1, j requires 0 <= j <= |ts| => SegEntry(dist, depot, cap, ts, i, j)))
  }

  /** A one-task trip: depot, the task, depot, if the task fits in the
      vehicle; +infinity otherwise. */
  lemma SingleTaskCost(dist: Distances, depot: int, cap: int, ts: seq<Option<Arc>>, i: nat)
    requires Fits(dist, depot, cap, ts) && i < |ts|
    ensures var t := ts[i].value;
      DemandOf(t) > cap ==> SegMatrix(dist, depot, cap, ts)[i][i + 1] == Inf
    ensures var t := ts[i].value;
      DemandOf(t) <= cap ==>
        NodesOk(dist, depot, ts, i, i + 1) &&
        SegMatrix(dist, depot, cap, ts)[i][i + 1] ==
          Add(Add(Leg(dist, depot, t.depart), Fin(CostOf(t))), Leg(dist, t.arrivee, depot))
  {
    assert DemandSum(ts, i, i + 1) == DemandOf(ts[i].value);
  }

  /** Every trip `split` ends up with serves at least one task and
      carries no more than the vehicle's capacity, at the cost of that
      trip. */
  lemma SplitTripsFit(dist: Distances, depot: int, cap: int, ts: seq<Option<Arc>>)
    requires Fits(dist, depot, cap, ts)
    ensures var m := SegMatrix(dist, depot, cap, ts);
      var segs := SplitSegments(m, |ts|);
      forall k :: 0 <= k < |segs| ==>
        segs[k].0 < segs[k].1 <= |ts| && DemandSum(ts, segs[k].0, segs[k].1) <= cap &&
        m[segs[k].0][segs[k].1] == TripCost(dist, depot, ts, segs[k].0, segs[k].1)
  {
    var m := SegMatrix(dist, depot, cap, ts);
    SplitSegmentsFinite(m, |ts|);
  }

  /** The triangle inequality at nodes a, b, c (0-based). */
  ghost predicate TriangleAt(dist: Distances, a: nat, b: nat, c: nat)
    requires Square(dist) && a < |dist| && b < |dist| && c < |dist|
  {
    Le(dist[a][c], Add(dist[a][b], dist[b][c]))
  }

  /** The table holds shortest-path distances: no detour is shorter. */
  ghost predicate Triangle(dist: Distances)
    requires Square(dist)
  {
    forall a: nat, b: nat, c: nat :: a < |dist| && b < |dist| && c < |dist| ==> TriangleAt(dist, a, b, c)
  }

  /** Traversing a task costs at least the distance between its ends. */
  ghost predicate CostsCover(dist: Distances, ts: seq<Option<Arc>>)
    requires Square(dist) && NoNulls(ts)
  {
    forall k :: 0 <= k < |ts| && NodeOk(dist, ts[k].value.depart) && NodeOk(dist, ts[k].value.arrivee) ==>
      Le(Leg(dist, ts[k].value.depart, ts[k].value.arrivee), Fin(CostOf(ts[k].value)))
  }

  ghost predicate NonNegDemands(ts: seq<Option<Arc>>)
    requires NoNulls(ts)
  {
    forall k :: 0 <= k < |ts| ==> DemandOf(ts[k].value) >= 0
  }

  /** Serving one more task never makes a trip cheaper: the detour through
      the task's ends is no shorter than going straight back to the depot. */
  lemma AdjacentMono(dist: Distances, depot: int, cap: int, ts: seq<Option<Arc>>, q: nat, k: nat)
    requires Fits(dist, depot, cap, ts) && Triangle(dist) && CostsCover(dist, ts) && NonNegDemands(ts)
    requires q < k < |ts|
    ensures var m := SegMatrix(dist, depot, cap, ts); Le(m[q][k], m[q][k + 1])
  {
    if DemandSum(ts, q, k + 1) <= cap {
      assert DemandSum(ts, q, k + 1) == DemandSum(ts, q, k) + DemandOf(ts[k].value);
      assert NodesOk(dist, depot, ts, q, k + 1);
      var a, s, e := ts[k - 1].value.arrivee, ts[k].value.depart, ts[k].value.arrivee;
      var T := Tour(dist, depot, ts, q, k);
      assert TriangleAt(dist, a - 1, s - 1, depot - 1);
      assert TriangleAt(dist, s - 1, e - 1, depot - 1);
      assert Le(Leg(dist, s, e), Fin(CostOf(ts[k].value)));
      assert Tour(dist, depot, ts, q, k + 1) == Add(Add(T, Leg(dist, a, s)), Fin(CostOf(ts[k].value)));
    }
  }

  lemma {:induction false} RowMono(dist: Distances, depot: int, cap: int, ts: seq<Option<Arc>>, q: nat, j: nat, k: nat)
    requires Fits(dist, depot, cap, ts) && Triangle(dist) && CostsCover(dist, ts) && NonNegDemands(ts)
    requires q < j <= k <= |ts|
    ensures var m := SegMatrix(dist, depot, cap, ts); Le(m[q][j], m[q][k])
    decreases k - j
  {
    var m := SegMatrix(dist, depot, cap, ts);
    if j < k {
      AdjacentMono(dist, depot, cap, ts, q, j);
      RowMono(dist, depot, cap, ts, q, j + 1, k);
      LeTrans(m[q][j], m[q][j + 1], m[q][k]);
    }
  }

  /** On a shortest-path table, with task costs covering the distance
      between their ends and non-negative demands, every row of the matrix
      `split` builds is non-decreasing. */
  lemma SegMatrixMonotone(dist: Distances, depot: int, cap: int, ts: seq<Option<Arc>>)
    requires Fits(dist, depot, cap, ts) && Triangle(dist) && CostsCover(dist, ts) && NonNegDemands(ts)
    ensures MonotoneRows(SegMatrix(dist, depot, cap, ts), |ts|)
  {
    forall q, j, k | 0 <= q < j <= k <= |ts|
      ensures Le(SegMatrix(dist, depot, cap, ts)[q][j], SegMatrix(dist, depot, cap, ts)[q][k])
    {
      RowMono(dist, depot, cap, ts, q, j, k);
    }
  }

  /** On a shortest-path table, `split` finds an optimal split of the
      giant tour into trips that fit in the vehicle: when one exists, the
      trips it keeps give back the tour, put end to end, and no other way
      of cutting the tour costs less; when none exists, it keeps no trip
      and its cost is 0. */
  lemma SplitOptimal(dist: Distances, depot: int, cap: int, ts: seq<Option<Arc>>)
    requires Fits(dist, depot, cap, ts) && Triangle(dist) && CostsCover(dist, ts) && NonNegDemands(ts)
    ensures var m, n := SegMatrix(dist, depot, cap, ts), |ts|;
      (n == 0 || Opt(m, n, n).Fin?) ==>
        Flatten(SplitTrips(m, ts)) == ts && SplitCost(m, n) == Opt(m, n, n) &&
        forall segs :: Cuts(segs, 0, n) && InRange(segs, n) ==> Le(SplitCost(m, n), SegCost(m, n, segs))
    ensures var m, n := SegMatrix(dist, depot, cap, ts), |ts|;
      (n > 0 && Opt(m, n, n) == Inf) ==> SplitTrips(m, ts) == [] && SplitCost(m, n) == Fin(0)
  {
    var m, n := SegMatrix(dist, depot, cap, ts), |ts|;
    SegMatrixMonotone(dist, depot, cap, ts);
    if n == 0 || Opt(m, n, n).Fin? {
      OptimalSplit(m, n);
      FinalOpt(m, n);
      SplitTripsCover(m, ts);
    } else {
      NoSplit(m, n);
    }
  }

  /** Every distance in the table is finite: all nodes reach each other. */
  ghost predicate FiniteTable(dist: Distances)
    requires Square(dist)
  {
    forall r, c :: 0 <= r < |dist| && 0 <= c < |dist| ==> dist[r][c].Fin?
  }

  /** Every task on its own fits in the vehicle. */
  ghost predicate TasksFit(cap: int, ts: seq<Option<Arc>>)
    requires NoNulls(ts)
  {
    forall k :: 0 <= k < |ts| ==> DemandOf(ts[k].value) <= cap
  }

  lemma {:induction false} OptFinite(dist: Distances, depot: int, cap: int, ts: seq<Option<Arc>>, j: nat)
    requires Fits(dist, depot, cap, ts) && FiniteTable(dist) && TasksFit(cap, ts) && j <= |ts|
    ensures Opt(SegMatrix(dist, depot, cap, ts), |ts|, j).Fin?
  {
    if j > 0 {
      var m := SegMatrix(dist, depot, cap, ts);
      OptFinite(dist, depot, cap, ts, j - 1);
      SingleTaskCost(dist, depot, cap, ts, j - 1);
      BestViaLe(m, |ts|, j, j - 1, j - 1);
    }
  }

  /** With a finite distance table and every task fitting in the vehicle on
      its own, the giant tour can always be split (one task per trip at
      worst), so the first case of `SplitOptimal` applies. */
  lemma SplitExists(dist: Distances, depot: int, cap: int, ts: seq<Option<Arc>>)
    requires Fits(dist, depot, cap, ts) && FiniteTable(dist) && TasksFit(cap, ts)
    ensures Opt(SegMatrix(dist, depot, cap, ts), |ts|, |ts|).Fin?
  {
    OptFinite(dist, depot, cap, ts, |ts|);
  }

  lemma {:induction false} DemandSumNonNeg(ts: seq<Option<Arc>>, i: nat, j: nat)
    requires NoNulls(ts) && NonNegDemands(ts) && i <= j <= |ts|
    ensures DemandSum(ts, i, j) >= 0
    decreases j - i
  {
    if j > i {
      DemandSumNonNeg(ts, i, j - 1);
    }
  }

  /** With non-negative demands, a trip carries at least the demand of any
      task it serves. */
  lemma {:induction false} DemandSumAtLeast(ts: seq<Option<Arc>>, i: nat, k: nat, j: nat)
    requires NoNulls(ts) && NonNegDemands(ts) && i <= k < j <= |ts|
    ensures DemandSum(ts, i, j) >= DemandOf(ts[k].value)
    decreases j - i
  {
    if j - 1 == k {
      DemandSumNonNeg(ts, i, k);
    } else {
      DemandSumAtLeast(ts, i, k, j - 1);
    }
  }

  /** Every way of serving tasks 0..j-1 whose last trip starts at one of
      the cut points 0..i passes through task k or an unreachable cut point. */
  lemma {:induction false} BestViaBlocked(dist: Distances, depot: int, cap: int, ts: seq<Option<Arc>>, k: nat, j: nat, i: nat)
    requires Fits(dist, depot, cap, ts) && NonNegDemands(ts) && k < |ts| && DemandOf(ts[k].value) > cap
    requires k < j <= |ts| && i < j
    requires forall p :: k < p < j ==> Opt(SegMatrix(dist, depot, cap, ts), |ts|, p) == Inf
    ensures BestVia(SegMatrix(dist, depot, cap, ts), |ts|, j, i) == Inf
    decreases i
  {
    var m := SegMatrix(dist, depot, cap, ts);
    if i <= k {
      DemandSumAtLeast(ts, i, k, j);
      assert m[i][j] == Inf;
    } else {
      assert Opt(m, |ts|, i) == Inf;
    }
    if i > 0 {
      BestViaBlocked(dist, depot, cap, ts, k, j, i - 1);
    }
  }

  /** Past a task that does not fit in the vehicle, no cut point can be
      reached. */
  lemma {:induction false} OptBlocked(dist: Distances, depot: int, cap: int, ts: seq<Option<Arc>>, k: nat, j: nat)
    requires Fits(dist, depot, cap, ts) && NonNegDemands(ts) && k < |ts| && DemandOf(ts[k].value) > cap
    requires k < j <= |ts|
    ensures Opt(SegMatrix(dist, depot, cap, ts), |ts|, j) == Inf
    decreases j
  {
    forall p | k < p < j
      ensures Opt(SegMatrix(dist, depot, cap, ts), |ts|, p) == Inf
    {
      OptBlocked(dist, depot, cap, ts, k, p);
    }
    BestViaBlocked(dist, depot, cap, ts, k, j, j - 1);
  }

  /** On a triangular matrix the label of cut point n is never below the
      cheapest split. */
  lemma LabelAtLeastOpt(m: Matrix, n: nat)
    requires Covers(m, n) && Triangular(m, n) && 1 <= n
    ensures Le(Opt(m, n, n), FinalLabels(m, n).temp[n])
  {
    if FinalLabels(m, n).temp[n].Fin? {
      SplitReconstructs(m, n);
      OptLowerBound(m, n, SplitSegments(m, n), n);
      SplitCostIsSegCost(m, n);
      LeTrans(Opt(m, n, n), SplitCost(m, n), FinalLabels(m, n).temp[n]);
    }
  }

  /** When one task's demand alone exceeds the capacity (demands being
      non-negative), `split` keeps no trip and its cost is 0; nothing
      signals that the tour could not be split. */
  lemma OverweightTask(dist: Distances, depot: int, cap: int, ts: seq<Option<Arc>>, k: nat)
    requires Fits(dist, depot, cap, ts) && NonNegDemands(ts) && k < |ts| && DemandOf(ts[k].value) > cap
    ensures var m := SegMatrix(dist, depot, cap, ts);
      SplitTrips(m, ts) == [] && SplitCost(m, |ts|) == Fin(0)
  {
    var m, n := SegMatrix(dist, depot, cap, ts), |ts|;
    OptBlocked(dist, depot, cap, ts, k, n);
    LabelAtLeastOpt(m, n);
    Unreachable(m, n);
  }

  /** The capacity loop of `split`: the demand of tasks i..j-1; a task
      without a demand property adds nothing. */
  method SegmentDemand(ts: seq<Option<Arc>>, i: nat, j: nat) returns (capacite: int)
    requires NoNulls(ts) && i <= j <= |ts|
    ensures capacite == DemandSum(ts, i, j)
  {
    capacite := 0;
    for k := i to j
      invariant capacite == DemandSum(ts, i, k)
    {
      var demande := ts[k].value.demande;
      if demande.Some? {
        capacite := capacite + demande.value;
      }
    }
  }

  /** The length loop of `split`: from the depot to the first task, each
      task traversed and joined to the next, then back to the depot. */
  method SegmentLength(dist: Distances, depot: int, ts: seq<Option<Arc>>, i: nat, j: nat) returns (longueur: Ext)
    requires Square(dist) && NoNulls(ts) && i < j <= |ts| && NodesOk(dist, depot, ts, i, j)
    ensures longueur == TripCost(dist, depot, ts, i, j)
  {
    var currentTask := ts[i].value;
    longueur := dist[depot - 1][currentTask.depart - 1];
    if currentTask.coutParcours.Some? {
      longueur := Add(longueur, Fin(currentTask.coutParcours.value));
    }
    var currentArrivee := currentTask.arrivee;
    for k := i + 1 to j
      invariant longueur == Tour(dist, depot, ts, i, k)
      invariant currentArrivee == ts[k - 1].value.arrivee
    {
      var nextTask := ts[k].value;
      longueur := Add(longueur, dist[currentArrivee - 1][nextTask.depart - 1]);
      if nextTask.coutParcours.Some? {
        longueur := Add(longueur, Fin(nextTask.coutParcours.value));
      }
      currentArrivee := nextTask.arrivee;
    }
    longueur := Add(longueur, dist[currentArrivee - 1][depot - 1]);
  }

  /** The matrix-filling loops of `split`: every entry starts at
      +infinity; each pair i < j whose demand fits gets the trip's cost. */
  method BuildTourneeViable(dist: Distances, depot: int, cap: int, ts: seq<Option<Arc>>)
    returns (tourneeViable: array2<Ext>)
    requires Fits(dist, depot, cap, ts)
    ensures fresh(tourneeViable)
    ensures tourneeViable.Length0 == |ts| + 1 && tourneeViable.Length1 == |ts| + 1
    ensures Rows(tourneeViable) == SegMatrix(dist, depot, cap, ts)
  {
    var n := |ts|;
    tourneeViable := new Ext[n + 1, n + 1]((_, _) => Inf);
    for i := 0 to n
      invariant forall a, b :: 0 <= a <= n && 0 <= b <= n ==>
        tourneeViable[a, b] == if a < i then SegEntry(dist, depot, cap, ts, a, b) else Inf
    {
      for j := i + 1 to n + 1
        invariant forall a, b :: 0 <= a <= n && 0 <= b <= n ==>
          tourneeViable[a, b] == if a < i || (a == i && b < j) then SegEntry(dist, depot, cap, ts, a, b) else Inf
      {
        var capacite := SegmentDemand(ts, i, j);
        if capacite <= cap {
          var longueur := SegmentLength(dist, depot, ts, i, j);
          tourneeViable[i, j] := longueur;
        }
      }
    }
    ghost var m := SegMatrix(dist, depot, cap, ts);
    forall a | 0 <= a <= n ensures Rows(tourneeViable)[a] == m[a] {
    }
  }

  class ProblemeCARP {
    /** The distance table between network nodes. */
    var distancier: Distances
    /** The number of the depot node. */
    var depot: int
    /** The cost found by the last split. */
    var lCost: Ext
    /** The vehicle capacity condition, when the problem has one. */
    var capaciteCamion: Option<int>

    /** A problem over a given distance table and capacity condition; the
        depot is node 1 and no split has been made. */
    constructor (dist: Distances, cap: Option<int>)
      ensures distancier == dist && capaciteCamion == cap && depot == 1 && lCost == Fin(0)
    {
      distancier := dist;
      capaciteCamion := cap;
      depot := 1;
      lCost := Fin(0);
    }

    method GetDepot() returns (d: int)
      ensures d == depot
    {
      d := depot;
    }

    method SetDepot(d: int)
      modifies this`depot
      ensures depot == d
    {
      depot := d;
    }

    /** `split`: with a capacity condition, builds the matrix of feasible
        trips for the giant tour of `sol` and evaluates it, which stores a
        fresh result on `sol` and sets `lCost`; without one, changes nothing. */
    method Split(sol: SolutionCARP)
      requires capaciteCamion.Some? ==> Fits(distancier, depot, capaciteCamion.value, sol.taches)
      modifies this`lCost, sol`resultat
      ensures capaciteCamion.None? ==> lCost == old(lCost) && sol.resultat == old(sol.resultat)
      ensures capaciteCamion.Some? ==>
        var m := SegMatrix(distancier, depot, capaciteCamion.value, sol.taches);
        fresh(sol.resultat) && sol.resultat.coutTotal == lCost &&
        lCost == SplitCost(m, |sol.taches|) && Carries(sol.resultat, SplitTrips(m, sol.taches))
    {
      if capaciteCamion.Some? {
        var tourneeViable := BuildTourneeViable(distancier, depot, capaciteCamion.value, sol.taches);
        lCost := Evaluer(tourneeViable, sol);
      }
    }

    /** `fonctionObjectif`: splits a CARP solution and returns its cost;
        0 for `null` or for a solution of another problem. */
    method FonctionObjectif(s: Ref) returns (r: Ext)
      requires s.Carp? && capaciteCamion.Some? ==> Fits(distancier, depot, capaciteCamion.value, s.sol.taches)
      modifies this`lCost, s.Footprint()`resultat
      ensures !s.Carp? ==> r == Fin(0) && lCost == old(lCost)
      ensures s.Carp? ==> r == lCost
      ensures s.Carp? && capaciteCamion.None? ==> lCost == old(lCost) && s.sol.resultat == old(s.sol.resultat)
      ensures s.Carp? && capaciteCamion.Some? ==>
        var m := SegMatrix(distancier, depot, capaciteCamion.value, s.sol.taches);
        fresh(s.sol.resultat) && s.sol.resultat.coutTotal == lCost &&
        lCost == SplitCost(m, |s.sol.taches|) && Carries(s.sol.resultat, SplitTrips(m, s.sol.taches))
    {
      if s.Carp? {
        Split(s.sol);
        return lCost;
      }
      return Fin(0);
    }
  }
}
