# CARP split, modelled in Dafny

This project models the *split* step of a solver for the Capacitated Arc
Routing Problem (CARP). A candidate solution is a *giant tour*: one ordered
list of the tasks (arcs with a demand and a traversal cost) that must be
served. `split` cuts this tour into consecutive trips. Each trip leaves the
depot, serves its tasks in tour order and returns to the depot, and the
demand of each trip must fit in the vehicle.

The Java code does this in two stages:

1. `ProblemeCARP.split` builds the matrix `tourneeViable`. Entry `[i][j]` is
   the cost of one trip serving tasks `i..j-1` when their demand fits,
   and +infinity otherwise.
2. `FitnessCARP.evaluer` labels the cut points `0..n`. It uses `tabTemp` for
   the labels, `marqueur` for the predecessors and `getIndexOfNextMin` to
   pick the next cut point. It then walks the predecessors back from `n`
   into `choix`. Finally it emits the trips in tour order into a fresh
   `ResultatCARP`, stores that result on the solution and returns the sum
   of the chosen matrix entries.

Modules, one per concern:

- `Common`: costs `Ext = Fin(int) | Inf`, with Java's float `+Infinity`
  as `Inf`; `Option` standing for Java `null` and for `Integer.MIN_VALUE`
  ("no predecessor"); tasks as the `Arc` record.
- `Resultat`: the classes `Tournee` and `ResultatCARP`
  (`ResultatCARP.java`).
- `Solution`: the class `SolutionCARP` with its task-list operations
  (`SolutionCARP.java`).
- `Fitness`: `evaluer` and `getIndexOfNextMin`. They are written as
  imperative methods over arrays and proved equal to pure functions that
  follow the loops as written: `NextMin`, `Relax`, `Labelling`, `Choix`,
  `Segments` and `ChoixCost`.
- `Reconstruction`: what the emitted trips are. On a matrix that is
  +infinity on and below the diagonal, every predecessor is an earlier cut
  point. When cut point n is reachable (`Reconstruction.SplitReconstructs`,
  `SplitTripsCover`), the trips then cut `0..n` into consecutive non-empty
  pieces, put end to end they give back the tour, and the returned cost is
  the sum of their matrix entries. When it is not reachable, no trip is
  kept and the cost is 0 (`Reconstruction.Unreachable`).
- `Optimality`: a reference definition of the cheapest split, `Opt`, by
  recursion over the last trip. Two results relate the labelling to it:
  - On a matrix whose rows never decrease, the labelling returns exactly
    `Opt`, and no way of cutting the tour costs less.
  - `NotShortestInGeneral` is a concrete matrix on which the labelling as
    written is not a shortest path.
- `Probleme`: the class `ProblemeCARP`, the matrix builder and
  `fonctionObjectif`.
  - The trip-cost formula is given in closed form.
  - On a shortest-path distance table, the matrix `split` builds has
    non-decreasing rows. This holds when task costs are at least the
    distance between their ends and demands are non-negative. From it,
    `SplitOptimal` proves that `split` finds an optimal feasible split when
    one exists; when none exists it keeps no trip and returns 0.

## Model

| member | source | states |
|---|---|---|
| Resultat.Tournee.constructor | src/carp/ResultatCARP.java:137-148 | a new trip has no tasks and cost 0 |
| Resultat.Tournee.GetCoutTournee | src/carp/ResultatCARP.java:157-159 | returns the trip's stored cost |
| Resultat.Tournee.SetCoutTournee | src/carp/ResultatCARP.java:169-171 | the trip's cost becomes the argument; nothing else changes |
| Resultat.Tournee.GetTaches | src/carp/ResultatCARP.java:180-182 | returns the trip's task list |
| Resultat.Tournee.SetTaches | src/carp/ResultatCARP.java:192-194 | the trip's task list becomes the argument |
| Resultat.Tournee.AddTache | src/carp/ResultatCARP.java:206-208 | appends the task at the end, keeps the earlier tasks in order, and returns true |
| Resultat.ResultatCARP.constructor | src/carp/ResultatCARP.java:20-32 | a new result has no trips and total cost 0 |
| Resultat.ResultatCARP.GetCoutTotal | src/carp/ResultatCARP.java:45-47 | returns the stored total |
| Resultat.ResultatCARP.SetCoutTotal | src/carp/ResultatCARP.java:60-62 | the total becomes the argument |
| Resultat.ResultatCARP.GetTournees | src/carp/ResultatCARP.java:72-74 | returns the trip list |
| Resultat.ResultatCARP.SetTournees | src/carp/ResultatCARP.java:84-86 | the trip list becomes the argument |
| Resultat.ResultatCARP.NouvelleTournee | src/carp/ResultatCARP.java:95-97 | appends exactly one fresh, empty trip of cost 0; earlier trips are unchanged; returns true |
| Solution.Nulls | src/carp/SolutionCARP.java:198-202 | `nb` slots, every one null |
| Solution.FirstIndex | src/carp/SolutionCARP.java:159-161 | the index of the first occurrence of the element |
| Solution.RemoveFirst | src/carp/SolutionCARP.java:159-161 | `List.remove(Object)`: the list without its first element equal to the argument; the list itself when there is none |
| Solution.RemoveFirstMultiset | src/carp/SolutionCARP.java:159-161 | `List.remove` of a present element takes out exactly one copy of it (multiset difference) and shortens the list by one |
| Solution.SolutionCARP.constructor | src/carp/SolutionCARP.java:33-37 | empty task list and a fresh, empty result |
| Solution.SolutionCARP.WithSize | src/carp/SolutionCARP.java:47-53 | `nb` null slots and a fresh, empty result |
| Solution.SolutionCARP.FromTasks | src/carp/SolutionCARP.java:63-67 | holds the given tasks and a fresh, empty result |
| Solution.SolutionCARP.GetResultat | src/carp/SolutionCARP.java:78-80 | returns the stored result |
| Solution.SolutionCARP.SetResultat | src/carp/SolutionCARP.java:91-93 | the result becomes the argument |
| Solution.SolutionCARP.GetTaches | src/carp/SolutionCARP.java:104-106 | returns the task list |
| Solution.SolutionCARP.SetTaches | src/carp/SolutionCARP.java:117-119 | the task list becomes the argument |
| Solution.SolutionCARP.AjouterTache | src/carp/SolutionCARP.java:137-142 | returns true iff the task was absent; then it is appended, otherwise the list is unchanged; a duplicate-free list stays duplicate-free |
| Solution.SolutionCARP.RetirerTache | src/carp/SolutionCARP.java:159-161 | returns true iff the task occurs; the first occurrence is removed |
| Solution.SolutionCARP.RetirerTacheNumero | src/carp/SolutionCARP.java:178-184 | returns true iff some task has that number; the first such task is removed and the rest keep their order; otherwise nothing changes |
| Solution.SolutionCARP.SetNbTaches | src/carp/SolutionCARP.java:198-202 | pads with nulls up to exactly `nb` when `nb` exceeds the length; keeps the prefix; never shrinks |
| Solution.SolutionCARP.Equals | src/carp/SolutionCARP.java:216-230 | true iff the other object is a `SolutionCARP` whose task list has the same length and the same elements in order |
| Solution.SolutionCARP.Copy | src/carp/SolutionCARP.java:264-270 | a fresh solution with the same tasks in the same order, sharing the result object |
| Fitness.ScanMin | src/carp/FitnessCARP.java:183-186 | the scan from i on keeps the candidate unless a later entry is strictly smaller; the result lies in `[iMin, length)` |
| Fitness.ScanMinFirst | src/carp/FitnessCARP.java:183-186 | the scan that keeps a candidate unless a later entry is strictly smaller ends on the first minimum of the rest of the array |
| Fitness.NextMin | src/carp/FitnessCARP.java:171-189 | with a non-empty window `[s+1, length)`: the result lies in it, is a minimum of it, and is strictly smaller than every earlier entry of it; with an empty window: `s+1` |
| Fitness.GetIndexOfNextMin | src/carp/FitnessCARP.java:171-189 | the loop returns `NextMin` of the array, the first minimum of the window |
| Fitness.InitLabels | src/carp/FitnessCARP.java:76-81 | the labels copy row 0 of the matrix; predecessor 0 exactly at its finite entries, none elsewhere |
| Fitness.Step | src/carp/FitnessCARP.java:97-101 | one relaxation of cut point i from `iMin`: when the entry is finite and `label(iMin) + entry` is strictly below `label(i)`, the label becomes that sum and the predecessor `iMin`; otherwise, ties included, nothing changes |
| Fitness.Relax | src/carp/FitnessCARP.java:95-102 | the inner loop: `Step` applied to cut points i, i+1, ..., n in that order |
| Fitness.Labelling | src/carp/FitnessCARP.java:87-104 | the outer loop: select `NextMin` of the labels over the window after `nbVus`; stop when it is n; otherwise relax from `nbVus + 2` and go on with `nbVus + 1` |
| Fitness.FinalLabels | src/carp/FitnessCARP.java:68-104 | the labels the loop leaves, starting from the initial labels with `nbVus` 0 |
| Fitness.RelaxPredOk | src/carp/FitnessCARP.java:95-102 | a relaxation keeps "a cut point has a predecessor iff its label is finite, and the predecessor's segment to it is finite" |
| Fitness.LabellingPredOk | src/carp/FitnessCARP.java:87-104 | the outer loop keeps that property |
| Fitness.FinalPredOk | src/carp/FitnessCARP.java:76-104 | for every matrix, after labelling: `marqueur[i]` is set iff `tabTemp[i]` is finite, and a set predecessor is a cut point joined to i by a finite entry |
| Fitness.InitMarks | src/carp/FitnessCARP.java:68-81 | fresh arrays equal to the initial labels: row 0 copied, predecessor 0 exactly at the finite entries |
| Fitness.RelaxFrom | src/carp/FitnessCARP.java:95-102 | the inner loop leaves the arrays equal to `Relax` of their old contents |
| Fitness.LabelCutPoints | src/carp/FitnessCARP.java:68-104 | the arrays after the labelling loop equal `FinalLabels` of the matrix; the loop itself makes at most n passes (a ghost counter of its passes never exceeds `nbVus`) |
| Fitness.Choix | src/carp/FitnessCARP.java:110-117 | the walk has the requested length, starts at n, and its last entry, if set, is a cut point |
| Fitness.ChoixPrefix | src/carp/FitnessCARP.java:110-117 | a shorter walk is a prefix of a longer one |
| Fitness.ChoixLink | src/carp/FitnessCARP.java:113-117 | each entry after a set one is that entry's predecessor; after an unset entry, the next is unset |
| Fitness.ChoixShaped | src/carp/FitnessCARP.java:110-117 | set entries of `choix` form a prefix that starts at index 0, and each is a cut point |
| Fitness.ChainBack | src/carp/FitnessCARP.java:110-117 | the fresh `choix` array equals the walk back from n along the predecessors |
| Fitness.Segments | src/carp/FitnessCARP.java:125-128 | the pairs `(choix[k], choix[k-1])` for the set entries k, in the order the loop meets them, from the last index down |
| Fitness.ChoixCost | src/carp/FitnessCARP.java:122-131 | the value of `dist` after the loop: the matrix entries of those pairs, added in that order |
| Fitness.SplitSegments | src/carp/FitnessCARP.java:110-140 | the pairs `evaluer` emits: `Segments` of the walk back from n over the final labels |
| Fitness.SplitCost | src/carp/FitnessCARP.java:110-152 | the value `evaluer` returns: `ChoixCost` of that walk |
| Fitness.SplitTrips | src/carp/FitnessCARP.java:125-144 | the task lists of the emitted trips: tasks `a..b-1` for each emitted pair (a, b) |
| Fitness.SegmentsInRange | src/carp/FitnessCARP.java:125-140 | every emitted pair lies within 0..n |
| Fitness.SplitSegmentsInRange | src/carp/FitnessCARP.java:125-140 | every pair `evaluer` emits lies within 0..n |
| Fitness.Slice | src/carp/FitnessCARP.java:135-140 | the tasks copied for boundaries (a, b): the first `b-a` tasks from task a on, and nothing when b ≤ a |
| Fitness.AppendTasks | src/carp/FitnessCARP.java:135-140 | the trip gains, at its end, tasks `a..b-1`, and nothing when b ≤ a |
| Fitness.SegmentsStep | src/carp/FitnessCARP.java:125-131 | one step of the reconstruction loop adds the pair `(choix[i], choix[i-1])` at the end of the trips when `choix[i]` is set; otherwise it adds nothing |
| Fitness.EmitTrip | src/carp/FitnessCARP.java:134-140 | the result gains one trip, of cost 0, holding tasks `a..b-1`; earlier trips are unchanged |
| Fitness.EmitTrips | src/carp/FitnessCARP.java:122-146 | a fresh result whose trips hold, in order, the slices of the pairs walked from the end of `choix`; its total equals the returned sum of their matrix entries |
| Fitness.Evaluer | src/carp/FitnessCARP.java:68-152 | stores on the solution a fresh result whose total is the returned value; that value is `SplitCost` of the matrix; its trips hold the slices `SplitTrips`, each with cost 0 |
| Reconstruction.InitChainOk | src/carp/FitnessCARP.java:76-81 | on a triangular matrix the initial predecessors (0) are below their cut points, and each label covers the entry that set it |
| Reconstruction.StepChainOk | src/carp/FitnessCARP.java:97-101 | one relaxation keeps this "chain" property: every set predecessor p of i has p < i and label(p) + m[p][i] ≤ label(i) |
| Reconstruction.RelaxChainOk | src/carp/FitnessCARP.java:95-102 | the inner loop keeps the chain property |
| Reconstruction.LabellingChainOk | src/carp/FitnessCARP.java:87-104 | the outer loop keeps the chain property |
| Reconstruction.FinalChainOk | src/carp/FitnessCARP.java:76-104 | on a triangular matrix, every predecessor left by the labelling is strictly smaller than its cut point, so the chain from n strictly decreases |
| Reconstruction.CutsBetween | src/carp/FitnessCARP.java:125-140 | trips that cut a..b each lie between a and b, with a start strictly before their end |
| Reconstruction.CutsFlatten | src/carp/FitnessCARP.java:125-140 | the task lists of trips that cut a..b, put end to end, are exactly tasks `a..b-1` |
| Reconstruction.ChoixDescends | src/carp/FitnessCARP.java:110-117 | the entry at index k of `choix`, if set, is at most n-k: the walk descends by at least one per step |
| Reconstruction.NoneTail | src/carp/FitnessCARP.java:125-126 | once `choix` is unset, the reconstruction loop emits nothing and adds nothing |
| Reconstruction.ChainAt | src/carp/FitnessCARP.java:97-101 | a cut point with a finite label has an earlier predecessor p, and label(p) + m[p][x] ≤ label(x) |
| Reconstruction.WalkSnoc | src/carp/FitnessCARP.java:125-131 | one more step down `choix` extends the consecutive cut of 0..choix[i+1] to 0..choix[i], keeping the cost bound |
| Reconstruction.WalkBack | src/carp/FitnessCARP.java:110-131 | from any reached entry x of `choix`, the trips emitted so far cut 0..x, and their sum is at most the label of x |
| Reconstruction.ChoixCostIsSegCost | src/carp/FitnessCARP.java:122-131 | the accumulated `dist` equals the left-to-right sum of the matrix entries of the emitted pairs |
| Reconstruction.SplitCostIsSegCost | src/carp/FitnessCARP.java:122-131 | the value `evaluer` returns is the sum of the matrix entries of the trips it emits |
| Reconstruction.WalkFinite | src/carp/FitnessCARP.java:125-131 | every entry added to `dist` along the walk is finite |
| Reconstruction.SplitCostFinite | src/carp/FitnessCARP.java:122-152 | for every matrix, `evaluer` returns a finite value |
| Reconstruction.SegCostFinite | src/carp/FitnessCARP.java:131 | a finite sum has only finite terms |
| Reconstruction.SplitSegmentsFinite | src/carp/FitnessCARP.java:125-131 | every trip `evaluer` emits has a finite matrix entry |
| Reconstruction.Unreachable | src/carp/FitnessCARP.java:113-126 | when cut point n keeps an infinite label (no predecessor), no trip is emitted and the value is 0; there is no error signal |
| Reconstruction.EmptyTour | src/carp/FitnessCARP.java:110-152 | an empty tour gives no trip and the value 0 |
| Reconstruction.SplitReconstructs | src/carp/FitnessCARP.java:87-131 | on a triangular matrix with n reachable, the emitted pairs cut 0..n into consecutive trips in forward order, and their sum is at most the label of n |
| Reconstruction.SplitTripsCover | src/carp/FitnessCARP.java:110-144 | under the same conditions, the emitted trips are non-empty and, put end to end, give back the giant tour |
| Optimality.Opt | src/carp/FitnessCARP.java:87-104 | reference definition: the cheapest cost of serving tasks 0..j-1 by consecutive trips, 0 for no task, otherwise the best over the cut point where the last trip starts |
| Optimality.BestVia | src/carp/FitnessCARP.java:95-102 | the cheapest such cost whose last trip starts at one of the cut points 0..i |
| Optimality.BestViaLe | src/carp/FitnessCARP.java:95-102 | `BestVia` is at most `Opt(p) + m[p][j]` for every allowed p |
| Optimality.OptLowerBound | src/carp/FitnessCARP.java:87-131 | no way of cutting 0..j into consecutive trips costs less than `Opt(j)` |
| Optimality.BestViaMono | src/carp/FitnessCARP.java:95-102 | with non-decreasing rows, reaching a later cut point is never cheaper |
| Optimality.RelaxOpt | src/carp/FitnessCARP.java:95-102 | relaxing from cut point v+1, whose label is already optimal, turns `BestVia(k, v)` into `BestVia(k, v+1)` for every later k |
| Optimality.NextMinInOrder | src/carp/FitnessCARP.java:89 | with non-decreasing rows, `getIndexOfNextMin` always selects cut point `nbVus + 1` |
| Optimality.OptInvDone | src/carp/FitnessCARP.java:88-92 | when the loop stops, every label is optimal |
| Optimality.OptInvStep | src/carp/FitnessCARP.java:93-102 | one pass keeps the loop invariant: labels up to v+1 optimal, later ones `BestVia(k, v+1)` |
| Optimality.LabellingOpt | src/carp/FitnessCARP.java:87-104 | with non-decreasing rows, the loop leaves every label equal to `Opt` |
| Optimality.FinalOpt | src/carp/FitnessCARP.java:68-104 | with non-decreasing rows, `tabTemp[k] == Opt(k)` for every cut point k ≥ 1 after the labelling |
| Optimality.OptimalSplit | src/carp/FitnessCARP.java:68-152 | on a triangular matrix with non-decreasing rows and a feasible split: the emitted trips cut 0..n, the value is `Opt(n)`, and no cutting costs less |
| Optimality.NoSplit | src/carp/FitnessCARP.java:110-152 | with non-decreasing rows and no feasible split, every cutting costs +infinity, yet `evaluer` emits no trip and returns 0 |
| Optimality.UnevenLabels | src/carp/FitnessCARP.java:87-104 | the labels the loop leaves on the matrix `Uneven` |
| Optimality.UnevenSplit | src/carp/FitnessCARP.java:110-152 | on `Uneven`, `evaluer` emits (0..1), (2) and returns 51 |
| Optimality.UnevenShape | src/carp/FitnessCARP.java:68-104 | `Uneven` is triangular and its row 0 decreases |
| Optimality.UnevenCheaperCuts | src/carp/FitnessCARP.java:122-131 | the trips (0), (1..2) of `Uneven` cost 11 |
| Optimality.NotShortestInGeneral | src/carp/FitnessCARP.java:87-104 | without non-decreasing rows the labelling is not a shortest path: it returns 51 where 11 is possible |
| Probleme.DemandSum | src/carp/ProblemeCARP.java:142-148 | the demand of tasks i..j-1, added from task i on; a missing demand counts as 0 |
| Probleme.Tour | src/carp/ProblemeCARP.java:152-194 | the length of the trip before its return: depot to the first task's start, each task's cost, each join from one task's end to the next one's start, accumulated in the loop's order |
| Probleme.TripCost | src/carp/ProblemeCARP.java:152-197 | that length plus the return from the last task's end to the depot |
| Probleme.SegEntry | src/carp/ProblemeCARP.java:142-202 | entry [i][j]: the trip cost when i < j and the demand fits the capacity, +infinity otherwise |
| Probleme.TripCostSplit | src/carp/ProblemeCARP.java:152-197 | a trip's cost splits at any task k into the cost up to task k and the rest of the trip back to the depot |
| Probleme.TripCostClosedForm | src/carp/ProblemeCARP.java:152-197 | a trip costs depot→start of its first task, plus each task's traversal cost (0 when missing), plus each join end→next start, plus last end→depot |
| Probleme.SegMatrix | src/carp/ProblemeCARP.java:116-138 | the matrix is (n+1)×(n+1) and +infinity on and below the diagonal; entry [i][j] is the trip cost when i < j and the demand fits, otherwise +infinity |
| Probleme.SingleTaskCost | src/carp/ProblemeCARP.java:142-202 | a one-task entry is depot→start + own cost + end→depot when its demand fits, otherwise +infinity |
| Probleme.SplitTripsFit | src/carp/ProblemeCARP.java:137-204 | every trip `split` keeps serves at least one task, has demand within the capacity, and costs exactly its trip cost |
| Probleme.AdjacentMono | src/carp/ProblemeCARP.java:142-202 | on a shortest-path table, serving one more task never makes a trip cheaper |
| Probleme.RowMono | src/carp/ProblemeCARP.java:137-204 | under the same conditions, `[q][j] ≤ [q][k]` whenever q < j ≤ k |
| Probleme.SegMatrixMonotone | src/carp/ProblemeCARP.java:137-204 | under the same conditions, every row of the matrix is non-decreasing |
| Probleme.SplitOptimal | src/carp/ProblemeCARP.java:105-243 | on a shortest-path table with a feasible split: the kept trips give back the tour, the value is `Opt(n)`, and no cutting costs less; with none: no trip and cost 0 |
| Probleme.OptFinite | src/carp/ProblemeCARP.java:137-204 | with a finite table and every task fitting on its own, every prefix of the tour can be split |
| Probleme.SplitExists | src/carp/ProblemeCARP.java:137-204 | under the same conditions a split of the whole tour exists, so the first case of `SplitOptimal` applies |
| Probleme.DemandSumNonNeg | src/carp/ProblemeCARP.java:142-148 | with non-negative demands, a trip's demand is non-negative |
| Probleme.DemandSumAtLeast | src/carp/ProblemeCARP.java:142-148 | with non-negative demands, a trip carries at least the demand of each task it serves |
| Probleme.BestViaBlocked | src/carp/ProblemeCARP.java:142-150 | with a task k heavier than the capacity, serving 0..j-1 (j > k) with the last trip starting at 0..i is impossible once every cut point between k and j is |
| Probleme.OptBlocked | src/carp/ProblemeCARP.java:142-150 | with a task k heavier than the capacity, no cut point after k can be reached |
| Probleme.LabelAtLeastOpt | src/carp/FitnessCARP.java:87-131 | on a triangular matrix the final label of cut point n is never below the cheapest split |
| Probleme.OverweightTask | src/carp/ProblemeCARP.java:105-243 | when one task's demand alone exceeds the capacity (demands non-negative), `split` keeps no trip and its cost is 0, with no error signal |
| Probleme.SegmentDemand | src/carp/ProblemeCARP.java:142-148 | the loop sums the demands of tasks i..j-1; a missing demand counts as 0 |
| Probleme.SegmentLength | src/carp/ProblemeCARP.java:152-197 | the loop, with its moving `currentArrivee`, computes the trip cost of tasks i..j-1 |
| Probleme.BuildTourneeViable | src/carp/ProblemeCARP.java:116-204 | the fresh (n+1)×(n+1) array equals `SegMatrix` entry by entry |
| Probleme.ProblemeCARP.constructor | src/carp/ProblemeCARP.java:30-44 | depot 1, `l_cost` 0, the given distance table and capacity condition |
| Probleme.ProblemeCARP.GetDepot | src/carp/ProblemeCARP.java:252-254 | returns the depot number |
| Probleme.ProblemeCARP.SetDepot | src/carp/ProblemeCARP.java:264-266 | the depot becomes the argument, so a following `GetDepot` returns it |
| Probleme.ProblemeCARP.Split | src/carp/ProblemeCARP.java:105-243 | without a capacity condition, `l_cost` and the solution's result are unchanged; with one, the solution gets a fresh result whose total is `l_cost`, equal to `SplitCost` of `SegMatrix`, whose trips hold `SplitTrips` |
| Probleme.ProblemeCARP.FonctionObjectif | src/carp/ProblemeCARP.java:68-76 | for a `SolutionCARP`: runs `split` and returns `l_cost`; for null or another kind of solution: returns 0 and changes nothing |

## Left out

- Java `float` arithmetic: costs are unbounded integers with an explicit `Inf`, so rounding and overflow are not modelled.
- The demand sum `capacite` is a `float` in the source; here it is an integer sum of integer demands.
- The distance table is a parameter of the `ProblemeCARP` constructor. Computing it (`initialiserDistancier`, Dijkstra in the graph library) is not part of this model.
- Loading a problem from a file, the static `graphe`, `GrapheCARP.java` and the generic condition/property API are not part of this model. The capacity condition is an `Option<int>` field; a task's demand and traversal cost are `Option<int>` fields of `Arc`, where `None` counts as 0.
- `estRealisable` always returns true and is not part of this model.
- Timing (`Date`, `timeBoucles`, `timeCalculDist`), `toString`, `afficher` and every console message are left out. This includes the message `split` prints when the capacity condition is missing; the model keeps only the observable effect of that branch, which is that nothing changes.
- `Arc.equals` is taken to be structural equality of the `Arc` record; the real `Arc` class lives in the external graph library.
- Solution.SolutionCARP.Copy: `super.clone()` in the source is shallow, so the copy shares the very same task list object; the model gives the copy an equal list value and does not capture that aliasing.
- Lists are `seq` values in `Tournee`, `ResultatCARP` and `SolutionCARP`. In the source, `getTaches` and `getTournees` return the live list object, and the constructors and setters store the caller's list object, so a caller can change an object's list behind its back. The model does not capture that sharing; only the trip objects inside a result are shared references.
- Solution.SolutionCARP.WithSize: requires `nb >= 0`. In the source, `new ArrayList(nb)` throws `IllegalArgumentException` on a negative size; the model does not model exceptions.
- Solution.SolutionCARP.RetirerTacheNumero, Solution.SolutionCARP.Equals: the source throws a `NullPointerException` on a null slot reached by the scan; the model requires that no such slot is reached.
- Probleme.ProblemeCARP.Split: requires a square distance table, a task in every slot, and that every trip within the capacity names only nodes of the table. The source would throw an exception otherwise; the model does not model exceptions.
- Probleme.ProblemeCARP.FonctionObjectif: has the same requirement, for a `SolutionCARP` argument.
- Fitness.Evaluer: does not state that the trip objects it creates are fresh and pairwise distinct. Only their contents are stated: tasks, and cost 0. Stating freshness per trip made the proof too costly.
- Fitness.GetIndexOfNextMin: requires `toSkip >= -1`. `evaluer` only ever passes `nbVus >= 0`.
- `evaluer` is one method in the source. Here it is split into its commented phases (`InitMarks`, `RelaxFrom`, `LabelCutPoints`, `ChainBack`, `EmitTrips`), which `Evaluer` calls in the same order. The matrix loops of `split` are likewise the methods `SegmentDemand`, `SegmentLength` and `BuildTourneeViable`.
- `split` has no way to signal a tour that cannot be split: `evaluer` then returns 0 with no trips (`Reconstruction.Unreachable`, `Optimality.NoSplit`); in particular this happens when one task's demand alone exceeds the capacity (`Probleme.OverweightTask`).
- The source's own comment at src/carp/ProblemeCARP.java:234 calls the labelling a shortest-path search ("chemin le plus court"). As written, it picks the minimum over the window `[nbVus+1, n]` and can skip a cut point, so on an arbitrary matrix it is not a shortest path (`Optimality.NotShortestInGeneral`). It is optimal whenever the matrix rows never decrease, and `Probleme.SegMatrixMonotone` proves that the matrices `split` builds from a shortest-path table have such rows. This is why the model reports it as a property, not as a defect.
