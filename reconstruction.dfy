/** What the trips `evaluer` emits are, for a matrix built the way `split`
    builds it (finite entries only above the diagonal): the predecessor
    walk from cut point n reaches cut point 0, the trips cut the giant tour
    into consecutive non-empty pieces that put back together give the whole
    tour, and the total is at most the label of cut point n. */
module Reconstruction {
  import opened Common
  import opened Fitness

  /** Entries on and below the diagonal are +infinity: a trip goes from a
      cut point to a later one. */
  ghost predicate Triangular(m: Matrix, n: nat)
    requires Covers(m, n)
  {
    forall i, j :: 0 <= j <= i <= n ==> m[i][j] == Inf
  }

  /** The cost of reaching cut point p in a walk: nothing for the start of
      the tour, the label otherwise. */
  ghost function Eff(L: Labels, p: nat): Ext
    requires p < |L.temp|
  {
    if p == 0 then Fin(0) else L.temp[p]
  }

  /** The predecessor of cut point i, if any, is an earlier cut point,
      and reaching it and then taking one trip costs at most the label of i. */
  ghost predicate LinkOk(m: Matrix, n: nat, L: Labels, i: nat)
    requires Covers(m, n) && Sized(L, n) && 1 <= i <= n
  {
    L.marq[i].Some? ==>
      L.marq[i].value < i && Le(Add(Eff(L, L.marq[i].value), m[L.marq[i].value][i]), L.temp[i])
  }

  /** Cut point 0 has no predecessor, every other one has a good link. */
  ghost predicate ChainOk(m: Matrix, n: nat, L: Labels)
    requires Covers(m, n) && Sized(L, n)
  {
    L.marq[0].None? && forall i :: 1 <= i <= n ==> LinkOk(m, n, L, i)
  }

  lemma InitChainOk(m: Matrix, n: nat)
    requires Covers(m, n) && Triangular(m, n)
    ensures ChainOk(m, n, InitLabels(m, n))
  {
    assert m[0][0] == Inf;
  }

  /** One relaxation keeps the chain property: the label it lowers is the
      one it sets a predecessor for, and a lower label only makes the
      inequalities of the cut points after it easier. */
  lemma StepChainOk(m: Matrix, n: nat, L: Labels, iMin: nat, i: nat)
    requires Covers(m, n) && Triangular(m, n) && Sized(L, n) && ChainOk(m, n, L)
    requires 1 <= iMin <= n && i <= n
    ensures ChainOk(m, n, Step(m, n, L, iMin, i))
  {
    var S := Step(m, n, L, iMin, i);
    if S != L {
      assert iMin < i;
      forall k | 1 <= k <= n ensures LinkOk(m, n, S, k) {
        assert LinkOk(m, n, L, k);
        if k != i && S.marq[k].Some? {
          var p := S.marq[k].value;
          assert Le(Eff(S, p), Eff(L, p));
          AddMono(Eff(S, p), Eff(L, p), m[p][k], m[p][k]);
        }
      }
    }
  }

  lemma {:induction false} RelaxChainOk(m: Matrix, n: nat, L: Labels, iMin: nat, i: nat)
    requires Covers(m, n) && Triangular(m, n) && Sized(L, n) && ChainOk(m, n, L)
    requires 1 <= iMin <= n
    ensures ChainOk(m, n, Relax(m, n, L, iMin, i))
    decreases n + 1 - i
  {
    if i <= n {
      StepChainOk(m, n, L, iMin, i);
      RelaxChainOk(m, n, Step(m, n, L, iMin, i), iMin, i + 1);
    }
  }

  lemma {:induction false} LabellingChainOk(m: Matrix, n: nat, L: Labels, nbVus: nat)
    requires Covers(m, n) && Triangular(m, n) && Sized(L, n) && ChainOk(m, n, L) && nbVus <= n
    ensures ChainOk(m, n, Labelling(m, n, L, nbVus))
    decreases n - nbVus
  {
    if nbVus < n {
      var iMin := NextMin(L.temp, nbVus);
      if iMin != n {
        RelaxChainOk(m, n, L, iMin, nbVus + 2);
        LabellingChainOk(m, n, Relax(m, n, L, iMin, nbVus + 2), nbVus + 1);
      }
    }
  }

  /** On a triangular matrix every predecessor the labelling leaves is an
      earlier cut point, and cut point 0 has none. */
  lemma FinalChainOk(m: Matrix, n: nat)
    requires Covers(m, n) && Triangular(m, n)
    ensures ChainOk(m, n, FinalLabels(m, n))
  {
    InitChainOk(m, n);
    LabellingChainOk(m, n, InitLabels(m, n), 0);
  }

  /** `segs` cuts the cut points a..b into consecutive trips, each from a
      cut point to a strictly later one. */
  ghost predicate Cuts(segs: seq<(nat, nat)>, a: nat, b: nat)
    decreases |segs|
  {
    if segs == [] then a == b
    else
      var last := segs[|segs| - 1];
      last.0 < last.1 && last.1 == b && Cuts(segs[..|segs| - 1], a, last.0)
  }

  lemma {:induction false} CutsBetween(segs: seq<(nat, nat)>, a: nat, b: nat)
    requires Cuts(segs, a, b)
    ensures a <= b
    ensures forall k :: 0 <= k < |segs| ==> a <= segs[k].0 < segs[k].1 <= b
    decreases |segs|
  {
    if segs != [] {
      var init := segs[..|segs| - 1];
      CutsBetween(init, a, segs[|segs| - 1].0);
    }
  }

  /** The trips' task lists put end to end. */
  ghost function Flatten(lists: seq<seq<Option<Arc>>>): seq<Option<Arc>>
  {
    if lists == [] then [] else Flatten(lists[..|lists| - 1]) + lists[|lists| - 1]
  }

  /** Trips that cut a..b hold, put end to end, exactly the tasks a..b-1. */
  lemma {:induction false} CutsFlatten(ts: seq<Option<Arc>>, segs: seq<(nat, nat)>, a: nat, b: nat)
    requires Cuts(segs, a, b) && a <= b <= |ts|
    ensures InRange(segs, |ts|)
    ensures Flatten(TripLists(ts, segs)) == ts[a..b]
    decreases |segs|
  {
    CutsBetween(segs, a, b);
    if segs != [] {
      var init := segs[..|segs| - 1];
      var last := segs[|segs| - 1];
      CutsFlatten(ts, init, a, last.0);
      TripListsSnoc(ts, segs);
      assert ts[a..b] == ts[a..last.0] + ts[last.0..b];
    }
  }

  /** The task lists of the trips are those of all but the last trip,
      followed by the last trip's tasks. */
  lemma TripListsSnoc(ts: seq<Option<Arc>>, segs: seq<(nat, nat)>)
    requires InRange(segs, |ts|) && segs != []
    ensures var last := segs[|segs| - 1];
      TripLists(ts, segs) == TripLists(ts, segs[..|segs| - 1]) + [Slice(ts, last.0, last.1)]
  {
    assert TripLists(ts, segs)[..|segs| - 1] == TripLists(ts, segs[..|segs| - 1]);
  }

  /** The whole `choix` array for the labels `L`. */
  ghost function Walk(L: Labels, n: nat): (c: seq<Option<nat>>)
    requires Sized(L, n) && Bounded(L.marq, n)
    ensures c == Choix(L.marq, n, n + 1) && Shaped(c) && Bounded(c, n)
  {
    ChoixShaped(L.marq, n, n + 1);
    Choix(L.marq, n, n + 1)
  }

  /** A walk along the predecessors never grows longer than the cut point
      it started from allows. */
  lemma {:induction false} ChoixDescends(m: Matrix, n: nat, L: Labels, k: nat)
    requires Covers(m, n) && Sized(L, n) && Bounded(L.marq, n) && ChainOk(m, n, L) && k <= n
    ensures var c := Choix(L.marq, n, n + 1); c[k].Some? ==> c[k].value + k <= n
  {
    if k > 0 {
      var c := Choix(L.marq, n, n + 1);
      ChoixLink(L.marq, n, n + 1, k);
      ChoixDescends(m, n, L, k - 1);
      if c[k - 1].Some? && c[k - 1].value > 0 {
        assert LinkOk(m, n, L, c[k - 1].value);
      }
    }
  }

  /** Once `choix` is unset after i, nothing more is emitted or added. */
  lemma {:induction false} NoneTail(m: Matrix, n: nat, c: seq<Option<nat>>, i: nat)
    requires Covers(m, n) && Shaped(c) && Bounded(c, n) && i < |c|
    requires i + 1 < |c| ==> c[i + 1].None?
    ensures Segments(c, i) == [] && ChoixCost(m, n, c, i) == Fin(0)
    decreases |c| - i
  {
    if i + 1 < |c| {
      NoneTail(m, n, c, i + 1);
    }
  }

  /** The predecessor of a reachable cut point x >= 1 is an earlier cut
      point that is reachable too. */
  lemma ChainAt(m: Matrix, n: nat, L: Labels, x: nat)
    requires Covers(m, n) && Sized(L, n) && PredOk(m, n, L) && ChainOk(m, n, L)
    requires 1 <= x <= n && L.temp[x].Fin?
    ensures L.marq[x].Some? && L.marq[x].value < x
    ensures var p := L.marq[x].value;
      Le(Add(Eff(L, p), m[p][x]), L.temp[x]) && (p == 0 || L.temp[p].Fin?)
  {
    assert LinkOk(m, n, L, x);
  }

  /** Walking one index further down `choix`, past a set entry p below x:
      one more trip (p, x), whose matrix entry is added to the total. */
  lemma WalkSnoc(m: Matrix, n: nat, c: seq<Option<nat>>, i: nat, e: Ext, t: Ext)
    requires Covers(m, n) && Shaped(c) && Bounded(c, n) && i + 1 < |c|
    requires c[i].Some? && c[i + 1].Some? && c[i + 1].value < c[i].value
    requires Cuts(Segments(c, i + 1), 0, c[i + 1].value)
    requires Le(ChoixCost(m, n, c, i + 1), e) && Le(Add(e, m[c[i + 1].value][c[i].value]), t)
    ensures Cuts(Segments(c, i), 0, c[i].value) && Le(ChoixCost(m, n, c, i), t)
  {
    var p, x := c[i + 1].value, c[i].value;
    var S := Segments(c, i + 1);
    assert Segments(c, i) == S + [(p, x)];
    assert (S + [(p, x)])[..|S|] == S;
    AddMono(ChoixCost(m, n, c, i + 1), e, m[p][x], m[p][x]);
  }

  /** The walk from a reachable cut point x, written at index i of `choix`,
      emits trips that cut 0..x and cost at most what reaching x costs. */
  lemma {:induction false} WalkBack(m: Matrix, n: nat, L: Labels, i: nat)
    requires Covers(m, n) && Sized(L, n) && PredOk(m, n, L) && ChainOk(m, n, L) && i <= n
    requires var c := Walk(L, n);
      c[i].Some? && (c[i].value == 0 || L.temp[c[i].value].Fin?)
    ensures var c := Walk(L, n);
      Cuts(Segments(c, i), 0, c[i].value) && Le(ChoixCost(m, n, c, i), Eff(L, c[i].value))
    decreases n - i
  {
    var c := Walk(L, n);
    var x := c[i].value;
    ChoixDescends(m, n, L, i);
    if x == 0 {
      if i < n {
        ChoixLink(L.marq, n, n + 1, i + 1);
      }
      NoneTail(m, n, c, i);
    } else {
      assert i < n;
      ChoixLink(L.marq, n, n + 1, i + 1);
      assert c[i + 1] == L.marq[x];
      ChainAt(m, n, L, x);
      var p := L.marq[x].value;
      WalkBack(m, n, L, i + 1);
      WalkSnoc(m, n, c, i, Eff(L, p), L.temp[x]);
    }
  }

  /** `evaluer`'s total is the left-to-right sum of the matrix entries of
      the trips it emits. */
  lemma {:induction false} ChoixCostIsSegCost(m: Matrix, n: nat, c: seq<Option<nat>>, i: nat)
    requires Covers(m, n) && Shaped(c) && Bounded(c, n) && i < |c|
    ensures InRange(Segments(c, i), n) && ChoixCost(m, n, c, i) == SegCost(m, n, Segments(c, i))
    decreases |c| - i
  {
    SegmentsInRange(c, i, n);
    if i < |c| - 1 {
      ChoixCostIsSegCost(m, n, c, i + 1);
      if c[i + 1].Some? {
        var S := Segments(c, i + 1);
        var T := Segments(c, i);
        assert T == S + [(c[i + 1].value, c[i].value)];
        assert T[..|S|] == S;
      } else {
        assert Segments(c, i) == Segments(c, i + 1);
        assert ChoixCost(m, n, c, i) == ChoixCost(m, n, c, i + 1);
      }
    }
  }

  lemma SplitCostIsSegCost(m: Matrix, n: nat)
    requires Covers(m, n)
    ensures InRange(SplitSegments(m, n), n)
    ensures SplitCost(m, n) == SegCost(m, n, SplitSegments(m, n))
  {
    FinalPredOk(m, n);
    ChoixShaped(FinalLabels(m, n).marq, n, n + 1);
    ChoixCostIsSegCost(m, n, Choix(FinalLabels(m, n).marq, n, n + 1), 0);
  }

  /** Every trip emitted has a finite matrix entry, so `evaluer` never
      returns +infinity, whatever the matrix. */
  lemma {:induction false} WalkFinite(m: Matrix, n: nat, L: Labels, i: nat)
    requires Covers(m, n) && Sized(L, n) && PredOk(m, n, L) && i <= n
    ensures ChoixCost(m, n, Walk(L, n), i).Fin?
    decreases n - i
  {
    ChoixShaped(L.marq, n, n + 1);
    if i < n {
      ChoixLink(L.marq, n, n + 1, i + 1);
      WalkFinite(m, n, L, i + 1);
    }
  }

  lemma SplitCostFinite(m: Matrix, n: nat)
    requires Covers(m, n)
    ensures SplitCost(m, n).Fin?
  {
    FinalPredOk(m, n);
    WalkFinite(m, n, FinalLabels(m, n), 0);
  }

  /** A finite sum of matrix entries has only finite terms. */
  lemma {:induction false} SegCostFinite(m: Matrix, n: nat, segs: seq<(nat, nat)>)
    requires Covers(m, n) && InRange(segs, n) && SegCost(m, n, segs).Fin?
    ensures forall k :: 0 <= k < |segs| ==> m[segs[k].0][segs[k].1].Fin?
    decreases |segs|
  {
    if segs != [] {
      var init := segs[..|segs| - 1];
      SegCostFinite(m, n, init);
      assert forall k :: 0 <= k < |init| ==> segs[k] == init[k];
    }
  }

  /** Every trip `evaluer` emits has a finite matrix entry. */
  lemma SplitSegmentsFinite(m: Matrix, n: nat)
    requires Covers(m, n)
    ensures InRange(SplitSegments(m, n), n)
    ensures forall k :: 0 <= k < |SplitSegments(m, n)| ==>
      m[SplitSegments(m, n)[k].0][SplitSegments(m, n)[k].1].Fin?
  {
    SplitCostFinite(m, n);
    SplitCostIsSegCost(m, n);
    SegCostFinite(m, n, SplitSegments(m, n));
  }

  /** When cut point n keeps an infinite label, `evaluer` emits no trip
      and returns 0: there is no signal that no split exists. */
  lemma Unreachable(m: Matrix, n: nat)
    requires Covers(m, n) && 1 <= n && FinalLabels(m, n).temp[n] == Inf
    ensures SplitSegments(m, n) == [] && SplitCost(m, n) == Fin(0)
  {
    var L := FinalLabels(m, n);
    FinalPredOk(m, n);
    ChoixShaped(L.marq, n, n + 1);
    ChoixLink(L.marq, n, n + 1, 1);
    NoneTail(m, n, Choix(L.marq, n, n + 1), 0);
  }

  /** An empty giant tour gives no trip and cost 0. */
  lemma EmptyTour(m: Matrix)
    requires Covers(m, 0)
    ensures SplitSegments(m, 0) == [] && SplitCost(m, 0) == Fin(0)
  {
    var L := FinalLabels(m, 0);
    FinalPredOk(m, 0);
    ChoixShaped(L.marq, 0, 1);
    NoneTail(m, 0, Choix(L.marq, 0, 1), 0);
  }

  /** On a triangular matrix where cut point n is reachable (always so
      for an empty tour), the trips cut 0..n into consecutive non-empty
      pieces and cost at most the label of n. */
  lemma SplitReconstructs(m: Matrix, n: nat)
    requires Covers(m, n) && Triangular(m, n)
    requires n == 0 || FinalLabels(m, n).temp[n].Fin?
    ensures Cuts(SplitSegments(m, n), 0, n)
    ensures Le(SplitCost(m, n), Eff(FinalLabels(m, n), n))
  {
    var L := FinalLabels(m, n);
    FinalPredOk(m, n);
    FinalChainOk(m, n);
    var c := Walk(L, n);
    assert SplitSegments(m, n) == Segments(c, 0);
    assert SplitCost(m, n) == ChoixCost(m, n, c, 0);
    WalkBack(m, n, L, 0);
  }

  /** Put end to end, the trips `evaluer` emits give back the giant tour. */
  lemma SplitTripsCover(m: Matrix, ts: seq<Option<Arc>>)
    requires Covers(m, |ts|) && Triangular(m, |ts|)
    requires |ts| == 0 || FinalLabels(m, |ts|).temp[|ts|].Fin?
    ensures Flatten(SplitTrips(m, ts)) == ts
    ensures forall k :: 0 <= k < |SplitTrips(m, ts)| ==> SplitTrips(m, ts)[k] != []
  {
    var n := |ts|;
    SplitReconstructs(m, n);
    var segs := SplitSegments(m, n);
    CutsFlatten(ts, segs, 0, n);
    CutsBetween(segs, 0, n);
    assert ts[0..n] == ts;
    forall k | 0 <= k < |SplitTrips(m, ts)| ensures SplitTrips(m, ts)[k] != [] {
      assert SplitTrips(m, ts)[k] == ts[segs[k].0..segs[k].1];
      assert |ts[segs[k].0..segs[k].1]| > 0;
    }
  }
}
