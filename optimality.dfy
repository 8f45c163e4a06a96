/** When every row of the segment-cost matrix is non-decreasing (a trip
    never gets cheaper by serving one more task, which holds for the
    matrices `split` builds from a distance table with the triangle
    inequality), the labelling of `evaluer` selects the cut points in index
    order and computes, for every cut point, the cheapest way to serve the
    tasks before it; the trips it emits are then an optimal split of the
    giant tour. On other matrices it is not a shortest path in general:
    `NotShortestInGeneral` gives a matrix where it misses the optimum. */
module Optimality {
  import opened Common
  import opened Fitness
  import opened Reconstruction

  /** The cheapest way to serve tasks 0..j-1 by consecutive trips, by
      dynamic programming over the cut point where the last trip starts. */
  ghost function Opt(m: Matrix, n: nat, j: nat): Ext
    requires Covers(m, n) && j <= n
    decreases j, 1
  {
    if j == 0 then Fin(0) else BestVia(m, n, j, j - 1)
  }

  /** The cheapest way to serve tasks 0..j-1 whose last trip starts at one
      of the cut points 0..i. */
  ghost function BestVia(m: Matrix, n: nat, j: nat, i: nat): Ext
    requires Covers(m, n) && i < j <= n
    decreases i + 1, 0
  {
    var via := Add(Opt(m, n, i), m[i][j]);
    if i == 0 then via else Min(BestVia(m, n, j, i - 1), via)
  }

  /** Within a row, a trip that serves more tasks costs at least as much. */
  ghost predicate MonotoneRows(m: Matrix, n: nat)
    requires Covers(m, n)
  {
    forall i, j, k :: 0 <= i < j <= k <= n ==> Le(m[i][j], m[i][k])
  }

  lemma {:induction false} BestViaLe(m: Matrix, n: nat, j: nat, i: nat, p: nat)
    requires Covers(m, n) && p <= i < j <= n
    ensures Le(BestVia(m, n, j, i), Add(Opt(m, n, p), m[p][j]))
    decreases i
  {
    if p < i {
      BestViaLe(m, n, j, i - 1, p);
    }
  }

  /** No way of cutting 0..j into consecutive trips costs less than `Opt`. */
  lemma {:induction false} OptLowerBound(m: Matrix, n: nat, segs: seq<(nat, nat)>, j: nat)
    requires Covers(m, n) && j <= n && Cuts(segs, 0, j)
    ensures InRange(segs, n) && Le(Opt(m, n, j), SegCost(m, n, segs))
    decreases |segs|
  {
    CutsBetween(segs, 0, j);
    if segs != [] {
      var init := segs[..|segs| - 1];
      var p := segs[|segs| - 1].0;
      OptLowerBound(m, n, init, p);
      BestViaLe(m, n, j, j - 1, p);
      AddMono(Opt(m, n, p), SegCost(m, n, init), m[p][j], m[p][j]);
    }
  }

  /** With non-decreasing rows, the best way to reach a later cut point
      through the cut points 0..v costs at least as much. */
  lemma {:induction false} BestViaMono(m: Matrix, n: nat, j: nat, k: nat, v: nat)
    requires Covers(m, n) && MonotoneRows(m, n) && v < j <= k <= n
    ensures Le(BestVia(m, n, j, v), BestVia(m, n, k, v))
    decreases v
  {
    assert Le(m[v][j], m[v][k]);
    AddMono(Opt(m, n, v), Opt(m, n, v), m[v][j], m[v][k]);
    if v > 0 {
      BestViaMono(m, n, j, k, v - 1);
      MinMono(BestVia(m, n, j, v - 1), BestVia(m, n, k, v - 1),
              Add(Opt(m, n, v), m[v][j]), Add(Opt(m, n, v), m[v][k]));
    }
  }

  /** The label of cut point k once the cut points 1..v are done: final
      for k <= v, the best through 0..v otherwise. */
  ghost predicate LabelAt(m: Matrix, n: nat, L: Labels, v: nat, k: nat)
    requires Covers(m, n) && Sized(L, n) && v <= n && 1 <= k <= n
  {
    if k <= v then L.temp[k] == Opt(m, n, k) else L.temp[k] == BestVia(m, n, k, v)
  }

  /** The invariant of the labelling loop when `nbVus` is v. */
  ghost predicate OptInv(m: Matrix, n: nat, L: Labels, v: nat)
    requires Covers(m, n) && Sized(L, n) && v <= n
  {
    forall k :: 1 <= k <= n ==> LabelAt(m, n, L, v, k)
  }

  /** Relaxing through cut point v+1, whose label is final, from cut point
      i on turns "best through 0..v" into "best through 0..v+1". */
  lemma {:induction false} RelaxOpt(m: Matrix, n: nat, L: Labels, v: nat, i: nat)
    requires Covers(m, n) && Sized(L, n) && v + 1 <= n && v + 2 <= i
    requires L.temp[v + 1] == Opt(m, n, v + 1)
    requires forall k :: i <= k <= n ==> L.temp[k] == BestVia(m, n, k, v)
    ensures var R := Relax(m, n, L, v + 1, i);
      (forall k :: 0 <= k < i && k <= n ==> R.temp[k] == L.temp[k]) &&
      (forall k :: i <= k <= n ==> R.temp[k] == BestVia(m, n, k, v + 1))
    decreases n + 1 - i
  {
    if i <= n {
      var S := Step(m, n, L, v + 1, i);
      assert S.temp[i] == BestVia(m, n, i, v + 1);
      RelaxOpt(m, n, S, v, i + 1);
    }
  }

  /** The selected cut point is always the first one not yet done. */
  lemma NextMinInOrder(m: Matrix, n: nat, L: Labels, v: nat)
    requires Covers(m, n) && MonotoneRows(m, n) && Sized(L, n) && v < n && OptInv(m, n, L, v)
    ensures NextMin(L.temp, v) == v + 1
  {
    var iMin := NextMin(L.temp, v);
    if iMin != v + 1 {
      assert LabelAt(m, n, L, v, v + 1) && LabelAt(m, n, L, v, iMin);
      BestViaMono(m, n, v + 1, iMin, v);
      assert false;
    }
  }

  /** Once the cut points up to n-1 are done, every label is final. */
  lemma OptInvDone(m: Matrix, n: nat, L: Labels, v: nat)
    requires Covers(m, n) && Sized(L, n) && v <= n && n <= v + 1 && OptInv(m, n, L, v)
    ensures forall k :: 1 <= k <= n ==> L.temp[k] == Opt(m, n, k)
  {
    forall k | 1 <= k <= n ensures L.temp[k] == Opt(m, n, k) {
      assert LabelAt(m, n, L, v, k);
    }
  }

  /** One pass of the labelling loop, through cut point v+1, keeps the
      invariant with one more cut point done. */
  lemma OptInvStep(m: Matrix, n: nat, L: Labels, v: nat)
    requires Covers(m, n) && Sized(L, n) && v + 1 < n && OptInv(m, n, L, v)
    ensures OptInv(m, n, Relax(m, n, L, v + 1, v + 2), v + 1)
  {
    assert LabelAt(m, n, L, v, v + 1);
    forall k | v + 2 <= k <= n ensures L.temp[k] == BestVia(m, n, k, v) {
      assert LabelAt(m, n, L, v, k);
    }
    RelaxOpt(m, n, L, v, v + 2);
    var R := Relax(m, n, L, v + 1, v + 2);
    var w := v + 1;
    forall k | 1 <= k <= n ensures LabelAt(m, n, R, w, k) {
      assert LabelAt(m, n, L, v, k);
    }
  }

  lemma {:induction false} LabellingOpt(m: Matrix, n: nat, L: Labels, v: nat)
    requires Covers(m, n) && MonotoneRows(m, n) && Sized(L, n) && v <= n && OptInv(m, n, L, v)
    ensures forall k :: 1 <= k <= n ==> Labelling(m, n, L, v).temp[k] == Opt(m, n, k)
    decreases n - v
  {
    if v + 1 >= n {
      if v < n {
        NextMinInOrder(m, n, L, v);
      }
      OptInvDone(m, n, L, v);
    } else {
      NextMinInOrder(m, n, L, v);
      OptInvStep(m, n, L, v);
      LabellingOpt(m, n, Relax(m, n, L, v + 1, v + 2), v + 1);
    }
  }

  /** With non-decreasing rows, every label the labelling leaves (cut
      point 0 aside) is the cheapest way to reach that cut point. */
  lemma FinalOpt(m: Matrix, n: nat)
    requires Covers(m, n) && MonotoneRows(m, n)
    ensures forall k :: 1 <= k <= n ==> FinalLabels(m, n).temp[k] == Opt(m, n, k)
  {
    var L := InitLabels(m, n);
    forall k | 1 <= k <= n ensures LabelAt(m, n, L, 0, k) {
    }
    LabellingOpt(m, n, L, 0);
  }

  /** On a matrix shaped as `split` builds it, when some split of the tour
      exists (always for an empty tour), `evaluer` emits trips that cut the
      tour into consecutive pieces at the least total cost: no other way of
      cutting it into trips costs less. */
  lemma OptimalSplit(m: Matrix, n: nat)
    requires Covers(m, n) && Triangular(m, n) && MonotoneRows(m, n)
    requires n == 0 || Opt(m, n, n).Fin?
    ensures Cuts(SplitSegments(m, n), 0, n)
    ensures SplitCost(m, n) == Opt(m, n, n)
    ensures forall segs :: Cuts(segs, 0, n) && InRange(segs, n) ==> Le(SplitCost(m, n), SegCost(m, n, segs))
  {
    FinalOpt(m, n);
    SplitReconstructs(m, n);
    SplitCostIsSegCost(m, n);
    OptLowerBound(m, n, SplitSegments(m, n), n);
    forall segs | Cuts(segs, 0, n) && InRange(segs, n) ensures Le(SplitCost(m, n), SegCost(m, n, segs)) {
      OptLowerBound(m, n, segs, n);
    }
  }

  /** When no split exists, every way of cutting the tour includes an
      infinite trip, and `evaluer` emits no trip and returns 0. */
  lemma NoSplit(m: Matrix, n: nat)
    requires Covers(m, n) && MonotoneRows(m, n) && 1 <= n && Opt(m, n, n) == Inf
    ensures SplitSegments(m, n) == [] && SplitCost(m, n) == Fin(0)
    ensures forall segs :: Cuts(segs, 0, n) && InRange(segs, n) ==> SegCost(m, n, segs) == Inf
  {
    FinalOpt(m, n);
    Unreachable(m, n);
    forall segs | Cuts(segs, 0, n) && InRange(segs, n) ensures SegCost(m, n, segs) == Inf {
      OptLowerBound(m, n, segs, n);
    }
  }

  /** A triangular matrix over three tasks whose row 0 is not
      non-decreasing. */
  const Uneven: Matrix :=
    [[Inf, Fin(10), Fin(1), Fin(100)],
     [Inf, Inf, Inf, Fin(1)],
     [Inf, Inf, Inf, Fin(50)],
     [Inf, Inf, Inf, Inf]]

  /** The labels the labelling loop leaves on `Uneven`: cut point 3 is
      reached through cut point 2, and cut point 1 is never relaxed from. */
  lemma UnevenLabels()
    ensures FinalLabels(Uneven, 3) ==
      Labels([Inf, Fin(10), Fin(1), Fin(51)], [None, Some(0), Some(0), Some(2)])
  {
    var m := Uneven;
    var L0 := InitLabels(m, 3);
    assert L0.temp == [Inf, Fin(10), Fin(1), Fin(100)];
    assert L0.marq == [None, Some(0), Some(0), Some(0)];
    assert NextMin(L0.temp, 0) == 2;
    var L1 := Labels([Inf, Fin(10), Fin(1), Fin(51)], [None, Some(0), Some(0), Some(2)]);
    assert Step(m, 3, L0, 2, 2) == L0;
    assert Relax(m, 3, L0, 2, 2) == L1;
    assert NextMin(L1.temp, 1) == 2;
    assert Relax(m, 3, L1, 2, 3) == L1;
    assert NextMin(L1.temp, 2) == 3;
    assert Labelling(m, 3, L1, 1) == L1;
  }

  /** The trips `evaluer` keeps on `Uneven` and their total cost. */
  lemma UnevenSplit()
    ensures SplitSegments(Uneven, 3) == [(0, 2), (2, 3)] && SplitCost(Uneven, 3) == Fin(51)
  {
    var m := Uneven;
    UnevenLabels();
    var marq := [None, Some(0), Some(0), Some(2)];
    var c := Choix(marq, 3, 4);
    assert Choix(marq, 3, 2) == [Some(3), Some(2)];
    assert Choix(marq, 3, 3) == [Some(3), Some(2), Some(0)];
    assert c == [Some(3), Some(2), Some(0), None];
    ChoixShaped(marq, 3, 4);
    assert Segments(c, 2) == [];
    assert Segments(c, 1) == [(0, 2)];
    assert Segments(c, 0) == [(0, 2), (2, 3)];
    assert ChoixCost(m, 3, c, 2) == Fin(0);
    assert ChoixCost(m, 3, c, 1) == Fin(1);
    assert ChoixCost(m, 3, c, 0) == Fin(51);
  }

  /** `Uneven` is a matrix `evaluer` accepts whose first row decreases. */
  lemma UnevenShape()
    ensures Covers(Uneven, 3) && Triangular(Uneven, 3) && !MonotoneRows(Uneven, 3)
  {
    assert !Le(Uneven[0][1], Uneven[0][2]);
  }

  /** The cuts (0..1), (1..3) of `Uneven` cost 11. */
  lemma UnevenCheaperCuts()
    ensures Cuts([(0, 1), (1, 3)], 0, 3) && InRange([(0, 1), (1, 3)], 3)
    ensures SegCost(Uneven, 3, [(0, 1), (1, 3)]) == Fin(11)
  {
    assert [(0, 1), (1, 3)][..1] == [(0, 1)];
    assert Cuts([(0, 1)], 0, 1);
    assert SegCost(Uneven, 3, [(0, 1)]) == Fin(10);
  }

  /** Without non-decreasing rows the labelling is not a shortest path:
      on `Uneven` it selects cut point 2 first, never relaxes through cut
      point 1, and `evaluer` returns 51 for the trips (0..1), (2); the
      trips (0), (1..2) cost 11. */
  lemma NotShortestInGeneral()
    ensures Covers(Uneven, 3) && Triangular(Uneven, 3) && !MonotoneRows(Uneven, 3)
    ensures SplitSegments(Uneven, 3) == [(0, 2), (2, 3)] && SplitCost(Uneven, 3) == Fin(51)
    ensures Cuts([(0, 1), (1, 3)], 0, 3) && InRange([(0, 1), (1, 3)], 3)
    ensures SegCost(Uneven, 3, [(0, 1), (1, 3)]) == Fin(11)
  {
    UnevenShape();
    UnevenSplit();
    UnevenCheaperCuts();
  }
}
