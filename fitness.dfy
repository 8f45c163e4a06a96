/** The evaluation of a giant tour once its segment-cost matrix is known
    (FitnessCARP.java): a labelling of the cut points 0..n, as written, then
    the walk back along the predecessors and the emission of the trips.

    The loops of `Evaluer` are specified by pure functions that follow the
    code step by step (`InitLabels`, `NextMin`, `Relax`, `Labelling`,
    `Choix`, `Segments`); what those functions compute is proved in the
    modules `Reconstruction` and `Optimality`. */
module Fitness {
  import opened Common
  import opened Resultat
  import opened Solution

  /** `tourneeViable` as a value: `m[i][j]` is the cost of one trip serving
      tasks i..j-1, or +infinity. */
  type Matrix = seq<seq<Ext>>

  /** `m` has (at least) the cut points 0..n in both dimensions. */
  ghost predicate Covers(m: Matrix, n: nat)
  {
    |m| > n && forall i :: 0 <= i <= n ==> |m[i]| > n
  }

  ghost function Rows(a: array2<Ext>): (m: Matrix)
    reads a
    ensures |m| == a.Length0 && forall i :: 0 <= i < a.Length0 ==> |m[i]| == a.Length1
    ensures forall i, j :: 0 <= i < a.Length0 && 0 <= j < a.Length1 ==> m[i][j] == a[i, j]
  {
    seq(a.Length0, i requires 0 <= i < a.Length0 reads a =>
      seq(a.Length1, j requires 0 <= j < a.Length1 reads a => a[i, j]))
  }

  /** The working arrays `tabTemp` (labels) and `marqueur` (predecessors;
      `None` stands for `Integer.MIN_VALUE`). */
  datatype Labels = Labels(temp: seq<Ext>, marq: seq<Option<nat>>)

  ghost predicate Sized(L: Labels, n: nat)
  {
    |L.temp| == n + 1 && |L.marq| == n + 1
  }

  /** The labels copy row 0 of the matrix; a finite entry gets predecessor 0. */
  ghost function InitLabels(m: Matrix, n: nat): (L: Labels)
    requires Covers(m, n)
    ensures Sized(L, n)
  {
    Labels(seq(n + 1, i requires 0 <= i <= n => m[0][i]),
           seq(n + 1, i requires 0 <= i <= n => if m[0][i].Fin? then Some(0) else None))
  }

  /** The scanning loop of `getIndexOfNextMin` from index `i` on, with the
      current candidate `iMin`: a later index replaces it only when strictly smaller. */
  ghost function ScanMin(t: seq<Ext>, iMin: nat, i: nat): (r: nat)
    requires iMin < i <= |t|
    ensures iMin <= r < |t|
    decreases |t| - i
  {
    if i == |t| then iMin else ScanMin(t, if Lt(t[i], t[iMin]) then i else iMin, i + 1)
  }

  /** If `iMin` is the first minimum of `t[lo..i]`, the scan ends on the
      first minimum of `t[lo..]`. */
  lemma {:induction false} ScanMinFirst(t: seq<Ext>, lo: nat, iMin: nat, i: nat)
    requires lo <= iMin < i <= |t|
    requires forall k :: lo <= k < i ==> Le(t[iMin], t[k])
    requires forall k :: lo <= k < iMin ==> Lt(t[iMin], t[k])
    ensures var r := ScanMin(t, iMin, i);
      lo <= r < |t| &&
      (forall k :: lo <= k < |t| ==> Le(t[r], t[k])) &&
      (forall k :: lo <= k < r ==> Lt(t[r], t[k]))
    decreases |t| - i
  {
    if i < |t| {
      var next := if Lt(t[i], t[iMin]) then i else iMin;
      ScanMinFirst(t, lo, next, i + 1);
    }
  }

  /** What `getIndexOfNextMin(t, s)` returns: the first index of a minimum
      of the window `t[s+1..]`, or `s+1` when that window has no element. */
  ghost function NextMin(t: seq<Ext>, s: int): (r: int)
    requires -1 <= s
    ensures s + 1 < |t| ==> s + 1 <= r < |t|
    ensures s + 1 < |t| ==> forall k :: s + 1 <= k < |t| ==> Le(t[r], t[k])
    ensures s + 1 < |t| ==> forall k :: s + 1 <= k < r ==> Lt(t[r], t[k])
    ensures s + 1 >= |t| ==> r == s + 1
  {
    var iMin := s + 1;
    if iMin < |t| - 1 then
      ScanMinFirst(t, iMin, iMin, iMin + 1);
      ScanMin(t, iMin, iMin + 1)
    else
      iMin
  }

  /** One relaxation, at cut point `i`, from the selected cut point `iMin`. */
  ghost function Step(m: Matrix, n: nat, L: Labels, iMin: nat, i: nat): (R: Labels)
    requires Covers(m, n) && Sized(L, n) && iMin <= n && i <= n
    ensures Sized(R, n)
  {
    var c := Add(L.temp[iMin], m[iMin][i]);
    if m[iMin][i] != Inf && Lt(c, L.temp[i]) then Labels(L.temp[i := c], L.marq[i := Some(iMin)]) else L
  }

  /** The inner `for` loop of the labelling, from cut point `i` to n. */
  ghost function Relax(m: Matrix, n: nat, L: Labels, iMin: nat, i: nat): (R: Labels)
    requires Covers(m, n) && Sized(L, n) && iMin <= n
    ensures Sized(R, n)
    decreases n + 1 - i
  {
    if i > n then L else Relax(m, n, Step(m, n, L, iMin, i), iMin, i + 1)
  }

  /** The outer `while` loop of the labelling, entered with `nbVus` cut points seen. */
  ghost function Labelling(m: Matrix, n: nat, L: Labels, nbVus: nat): (R: Labels)
    requires Covers(m, n) && Sized(L, n) && nbVus <= n
    ensures Sized(R, n)
    decreases n - nbVus
  {
    if nbVus == n then L
    else
      var iMin := NextMin(L.temp, nbVus);
      if iMin == n then L else Labelling(m, n, Relax(m, n, L, iMin, nbVus + 2), nbVus + 1)
  }

  ghost function FinalLabels(m: Matrix, n: nat): (L: Labels)
    requires Covers(m, n)
    ensures Sized(L, n)
  {
    Labelling(m, n, InitLabels(m, n), 0)
  }

  /** What holds of the labels whatever the matrix: a cut point has a
      predecessor exactly when its label is finite, and a predecessor is a
      cut point joined to it by a finite segment. */
  ghost predicate PredOk(m: Matrix, n: nat, L: Labels)
    requires Covers(m, n) && Sized(L, n)
  {
    forall i :: 0 <= i <= n ==>
      (L.marq[i].Some? <==> L.temp[i].Fin?) &&
      (L.marq[i].Some? ==> L.marq[i].value <= n && m[L.marq[i].value][i].Fin?)
  }

  lemma {:induction false} RelaxPredOk(m: Matrix, n: nat, L: Labels, iMin: nat, i: nat)
    requires Covers(m, n) && Sized(L, n) && iMin <= n && PredOk(m, n, L)
    ensures PredOk(m, n, Relax(m, n, L, iMin, i))
    decreases n + 1 - i
  {
    if i <= n {
      var S := Step(m, n, L, iMin, i);
      assert PredOk(m, n, S) by {
        forall k | 0 <= k <= n
          ensures (S.marq[k].Some? <==> S.temp[k].Fin?) &&
                  (S.marq[k].Some? ==> S.marq[k].value <= n && m[S.marq[k].value][k].Fin?)
        {
          if k != i || S == L {
          }
        }
      }
      RelaxPredOk(m, n, S, iMin, i + 1);
    }
  }

  lemma {:induction false} LabellingPredOk(m: Matrix, n: nat, L: Labels, nbVus: nat)
    requires Covers(m, n) && Sized(L, n) && nbVus <= n && PredOk(m, n, L)
    ensures PredOk(m, n, Labelling(m, n, L, nbVus))
    decreases n - nbVus
  {
    if nbVus < n {
      var iMin := NextMin(L.temp, nbVus);
      if iMin != n {
        RelaxPredOk(m, n, L, iMin, nbVus + 2);
        LabellingPredOk(m, n, Relax(m, n, L, iMin, nbVus + 2), nbVus + 1);
      }
    }
  }

  /** For any matrix, the final labels give every cut point with a finite
      label a predecessor in 0..n joined to it by a finite segment. */
  lemma FinalPredOk(m: Matrix, n: nat)
    requires Covers(m, n)
    ensures PredOk(m, n, FinalLabels(m, n))
  {
    LabellingPredOk(m, n, InitLabels(m, n), 0);
  }

  ghost predicate Bounded(marq: seq<Option<nat>>, n: nat)
  {
    forall k :: 0 <= k < |marq| && marq[k].Some? ==> marq[k].value <= n
  }

  /** The first `len` entries of `choix`: cut point n, then the predecessor
      of the entry before, as long as there is one; unset afterwards. */
  ghost function Choix(marq: seq<Option<nat>>, n: nat, len: nat): (c: seq<Option<nat>>)
    requires |marq| == n + 1 && Bounded(marq, n) && 1 <= len
    ensures |c| == len && c[0] == Some(n)
    ensures c[len - 1].Some? ==> c[len - 1].value <= n
    decreases len
  {
    if len == 1 then [Some(n)]
    else
      var p := Choix(marq, n, len - 1);
      p + [if p[len - 2].Some? then marq[p[len - 2].value] else None]
  }

  /** A shorter walk is a prefix of a longer one. */
  lemma {:induction false} ChoixPrefix(marq: seq<Option<nat>>, n: nat, len: nat, len': nat)
    requires |marq| == n + 1 && Bounded(marq, n) && 1 <= len' <= len
    ensures Choix(marq, n, len)[..len'] == Choix(marq, n, len')
    decreases len
  {
    if len' < len {
      ChoixPrefix(marq, n, len - 1, len');
      assert Choix(marq, n, len)[..len - 1] == Choix(marq, n, len - 1);
    }
  }

  /** Each set entry after the first is the predecessor of the entry
      before it, which is set too. */
  lemma ChoixLink(marq: seq<Option<nat>>, n: nat, len: nat, k: nat)
    requires |marq| == n + 1 && Bounded(marq, n) && 1 <= k < len
    ensures var c := Choix(marq, n, len);
            c[k - 1].Some? ==> c[k - 1].value <= n && c[k] == marq[c[k - 1].value]
    ensures var c := Choix(marq, n, len);
            c[k - 1].None? ==> c[k].None?
  {
    ChoixPrefix(marq, n, len, k + 1);
    ChoixPrefix(marq, n, k + 1, k);
    assert Choix(marq, n, len)[k - 1] == Choix(marq, n, len)[..k + 1][k - 1] == Choix(marq, n, k)[k - 1];
  }

  /** A `choix` array: set at 0, and set entries form a prefix. */
  ghost predicate Shaped(c: seq<Option<nat>>)
  {
    |c| >= 1 && c[0].Some? && forall j, k :: 0 <= j <= k < |c| && c[k].Some? ==> c[j].Some?
  }

  /** Every walk is shaped, and its set entries are cut points. */
  lemma {:induction false} ChoixShaped(marq: seq<Option<nat>>, n: nat, len: nat)
    requires |marq| == n + 1 && Bounded(marq, n) && 1 <= len
    ensures Shaped(Choix(marq, n, len)) && Bounded(Choix(marq, n, len), n)
    decreases len
  {
    if len > 1 {
      ChoixShaped(marq, n, len - 1);
      var c := Choix(marq, n, len);
      assert c[..len - 1] == Choix(marq, n, len - 1);
    }
  }

  /** The trips the reconstruction loop has emitted once it has walked
      `choix` from its last index down to `i+1`: for each set entry k, the
      pair (choix[k], choix[k-1]), first task and end cut point of the trip. */
  ghost function Segments(c: seq<Option<nat>>, i: nat): seq<(nat, nat)>
    requires Shaped(c) && i < |c|
    decreases |c| - i
  {
    if i == |c| - 1 then []
    else Segments(c, i + 1) + (if c[i + 1].Some? then [(c[i + 1].value, c[i].value)] else [])
  }

  /** The trip boundaries `evaluer` emits for matrix `m` over n tasks. */
  ghost function SplitSegments(m: Matrix, n: nat): seq<(nat, nat)>
    requires Covers(m, n)
  {
    FinalPredOk(m, n);
    ChoixShaped(FinalLabels(m, n).marq, n, n + 1);
    Segments(Choix(FinalLabels(m, n).marq, n, n + 1), 0)
  }

  /** The value of `dist` once the reconstruction loop has walked `choix`
      from its last index down to `i+1`: the matrix entries of the pairs
      (c[k], c[k-1]) for the set entries k > i, added from the last one down. */
  ghost function ChoixCost(m: Matrix, n: nat, c: seq<Option<nat>>, i: nat): Ext
    requires Covers(m, n) && Shaped(c) && Bounded(c, n) && i < |c|
    decreases |c| - i
  {
    if i == |c| - 1 then Fin(0)
    else
      var rest := ChoixCost(m, n, c, i + 1);
      if c[i + 1].Some? then Add(rest, m[c[i + 1].value][c[i].value]) else rest
  }

  /** The total `evaluer` returns for matrix `m` over n tasks. */
  ghost function SplitCost(m: Matrix, n: nat): Ext
    requires Covers(m, n)
  {
    FinalPredOk(m, n);
    ChoixShaped(FinalLabels(m, n).marq, n, n + 1);
    ChoixCost(m, n, Choix(FinalLabels(m, n).marq, n, n + 1), 0)
  }

  /** The task lists of the trips `evaluer` emits for the giant tour `ts`. */
  ghost function SplitTrips(m: Matrix, ts: seq<Option<Arc>>): seq<seq<Option<Arc>>>
    requires Covers(m, |ts|)
  {
    SplitSegmentsInRange(m, |ts|);
    TripLists(ts, SplitSegments(m, |ts|))
  }

  ghost predicate InRange(segs: seq<(nat, nat)>, n: nat)
  {
    forall k :: 0 <= k < |segs| ==> segs[k].0 <= n && segs[k].1 <= n
  }

  /** The value of `dist` after summing, left to right, the matrix entries
      of the given trip boundaries. */
  ghost function SegCost(m: Matrix, n: nat, segs: seq<(nat, nat)>): Ext
    requires Covers(m, n) && InRange(segs, n)
  {
    if segs == [] then Fin(0)
    else
      var last := segs[|segs| - 1];
      Add(SegCost(m, n, segs[..|segs| - 1]), m[last.0][last.1])
  }

  /** The tasks the inner loop copies for boundaries (a, b): `ts[a..b-1]`,
      nothing when b <= a. */
  ghost function Slice(ts: seq<Option<Arc>>, a: nat, b: nat): (r: seq<Option<Arc>>)
    requires b <= |ts|
    ensures a < b ==> |r| == b - a && r <= ts[a..]
    ensures b <= a ==> r == []
  {
    if a < b then ts[a..b] else []
  }

  ghost function TripLists(ts: seq<Option<Arc>>, segs: seq<(nat, nat)>): (r: seq<seq<Option<Arc>>>)
    requires InRange(segs, |ts|)
    ensures |r| == |segs|
  {
    seq(|segs|, k requires 0 <= k < |segs| => Slice(ts, segs[k].0, segs[k].1))
  }

  lemma SegmentsInRange(c: seq<Option<nat>>, i: nat, n: nat)
    requires Shaped(c) && Bounded(c, n) && i < |c|
    ensures InRange(Segments(c, i), n)
    decreases |c| - i
  {
    if i < |c| - 1 {
      SegmentsInRange(c, i + 1, n);
    }
  }

  lemma SplitSegmentsInRange(m: Matrix, n: nat)
    requires Covers(m, n)
    ensures InRange(SplitSegments(m, n), n)
  {
    FinalPredOk(m, n);
    ChoixShaped(FinalLabels(m, n).marq, n, n + 1);
    SegmentsInRange(Choix(FinalLabels(m, n).marq, n, n + 1), 0, n);
  }

  /** `getIndexOfNextMin`: scans `tab` from `toSkip + 2` on, keeping the
      earliest strict minimum; the window starts at `toSkip + 1`. */
  method GetIndexOfNextMin(tab: array<Ext>, toSkip: int) returns (iMin: int)
    requires -1 <= toSkip
    ensures iMin == NextMin(tab[..], toSkip)
  {
    iMin := toSkip + 1;
    if iMin < tab.Length - 1 {
      for i := iMin + 1 to tab.Length
        invariant toSkip + 1 <= iMin < i
        invariant ScanMin(tab[..], iMin, i) == ScanMin(tab[..], toSkip + 1, toSkip + 2)
      {
        if Lt(tab[i], tab[iMin]) {
          iMin := i;
        }
      }
    }
  }

  /** The first phase of `evaluer`: `tabTemp` copies row 0 of the matrix
      and `marqueur` gives predecessor 0 to every finite entry of it. */
  method InitMarks(tourneeViable: array2<Ext>, n: nat) returns (tabTemp: array<Ext>, marqueur: array<Option<nat>>)
    requires tourneeViable.Length0 > n && tourneeViable.Length1 > n
    ensures fresh(tabTemp) && fresh(marqueur)
    ensures Labels(tabTemp[..], marqueur[..]) == InitLabels(Rows(tourneeViable), n)
  {
    ghost var m := Rows(tourneeViable);
    tabTemp := new Ext[n + 1];
    marqueur := new Option<nat>[n + 1](_ => None);
    for i := 0 to n + 1
      invariant tabTemp[..i] == InitLabels(m, n).temp[..i]
      invariant marqueur[..i] == InitLabels(m, n).marq[..i]
      invariant forall k :: i <= k <= n ==> marqueur[k] == None
    {
      tabTemp[i] := tourneeViable[0, i];
      if tabTemp[i] != Inf {
        marqueur[i] := Some(0);
      }
    }
    assert tabTemp[..] == tabTemp[..n + 1];
    assert marqueur[..] == marqueur[..n + 1];
  }

  /** The inner `for` loop of the labelling: relaxes cut points `from..n`
      through the selected cut point `iMin`. */
  method RelaxFrom(tourneeViable: array2<Ext>, n: nat, tabTemp: array<Ext>, marqueur: array<Option<nat>>,
                   iMin: nat, from: nat)
    requires tourneeViable.Length0 > n && tourneeViable.Length1 > n
    requires tabTemp.Length == n + 1 && marqueur.Length == n + 1
    requires iMin <= n && from <= n + 1
    modifies tabTemp, marqueur
    ensures Labels(tabTemp[..], marqueur[..]) ==
            Relax(Rows(tourneeViable), n, old(Labels(tabTemp[..], marqueur[..])), iMin, from)
  {
    ghost var m := Rows(tourneeViable);
    ghost var before := Labels(tabTemp[..], marqueur[..]);
    for i := from to n + 1
      invariant Relax(m, n, Labels(tabTemp[..], marqueur[..]), iMin, i) == Relax(m, n, before, iMin, from)
    {
      if tourneeViable[iMin, i] != Inf {
        if Lt(Add(tabTemp[iMin], tourneeViable[iMin, i]), tabTemp[i]) {
          tabTemp[i] := Add(tabTemp[iMin], tourneeViable[iMin, i]);
          marqueur[i] := Some(iMin);
        }
      }
    }
  }

  /** The first two phases of `evaluer`: the marks after the labelling loop,
      which makes at most n passes (`passes` counts them): each pass either
      raises `nbVus` by one or sets it to n. */
  method LabelCutPoints(tourneeViable: array2<Ext>, n: nat)
    returns (tabTemp: array<Ext>, marqueur: array<Option<nat>>, ghost passes: nat)
    requires tourneeViable.Length0 > n && tourneeViable.Length1 > n
    ensures fresh(tabTemp) && fresh(marqueur)
    ensures Labels(tabTemp[..], marqueur[..]) == FinalLabels(Rows(tourneeViable), n)
    ensures passes <= n
  {
    ghost var m := Rows(tourneeViable);
    tabTemp, marqueur := InitMarks(tourneeViable, n);
    var nbVus := 0;
    passes := 0;
    while nbVus < n
      invariant 0 <= nbVus <= n
      invariant tabTemp.Length == n + 1 && marqueur.Length == n + 1
      invariant Labelling(m, n, Labels(tabTemp[..], marqueur[..]), nbVus) == FinalLabels(m, n)
      invariant passes <= nbVus
      decreases n - nbVus
    {
      var iMin := GetIndexOfNextMin(tabTemp, nbVus);
      if iMin == n {
        nbVus := n;
      } else {
        nbVus := nbVus + 1;
        RelaxFrom(tourneeViable, n, tabTemp, marqueur, iMin, nbVus + 1);
      }
      passes := passes + 1;
    }
  }

  /** The third phase of `evaluer`: `choix` walks the predecessors back from
      cut point n. */
  method ChainBack(marqueur: array<Option<nat>>, n: nat) returns (choix: array<Option<nat>>)
    requires marqueur.Length == n + 1 && Bounded(marqueur[..], n)
    ensures fresh(choix) && choix[..] == Choix(marqueur[..], n, n + 1)
  {
    ghost var marq := marqueur[..];
    choix := new Option<nat>[n + 1](_ => None);
    var x: Option<nat> := Some(n);
    choix[0] := x;
    for i := 1 to n + 1
      invariant choix[..i] == Choix(marq, n, i)
      invariant x == choix[i - 1]
      invariant forall k :: i <= k <= n ==> choix[k] == None
    {
      if x.Some? {
        choix[i] := marqueur[x.value];
        x := marqueur[x.value];
      }
      assert choix[..i + 1] == choix[..i] + [choix[i]];
    }
    assert choix[..] == choix[..n + 1];
  }

  /** The innermost loop of `evaluer`: copies the tasks a..b-1 of the
      giant tour, in order, at the end of trip `tr`. */
  method AppendTasks(tr: Tournee, taches: seq<Option<Arc>>, a: nat, b: nat)
    requires a <= |taches| && b <= |taches|
    modifies tr`taches
    ensures tr.taches == old(tr.taches) + Slice(taches, a, b)
  {
    var j := 0;
    while j < b - a
      invariant 0 <= j && (a < b ==> j <= b - a) && (b <= a ==> j == 0)
      invariant tr.taches == old(tr.taches) + taches[a..a + j]
    {
      var _ := tr.AddTache(taches[a + j]);
      j := j + 1;
    }
  }

  /** Walking `choix` one index further down adds the pair (c[i], c[i-1])
      when c[i] is set, and nothing otherwise. */
  lemma SegmentsStep(m: Matrix, n: nat, ts: seq<Option<Arc>>, c: seq<Option<nat>>, i: nat)
    requires Covers(m, n) && |ts| == n && Shaped(c) && Bounded(c, n) && 0 < i < |c|
    ensures InRange(Segments(c, i), n) && InRange(Segments(c, i - 1), n)
    ensures c[i].Some? ==>
              var segs := Segments(c, i);
              var a, b := c[i].value, c[i - 1].value;
              Segments(c, i - 1) == segs + [(a, b)] &&
              TripLists(ts, Segments(c, i - 1)) == TripLists(ts, segs) + [Slice(ts, a, b)]
    ensures c[i].None? ==> Segments(c, i - 1) == Segments(c, i)
  {
    SegmentsInRange(c, i, n);
    SegmentsInRange(c, i - 1, n);
    if c[i].Some? {
      var segs := Segments(c, i);
      assert Segments(c, i - 1)[..|segs|] == segs;
    }
  }

  /** The trips of `r` hold, in order, the given task lists; `evaluer`
      never sets a trip's own cost, so each keeps its initial 0. */
  ghost predicate Carries(r: ResultatCARP, lists: seq<seq<Option<Arc>>>)
    reads r, r.tournees
  {
    |r.tournees| == |lists| &&
    forall k :: 0 <= k < |lists| ==> r.tournees[k].taches == lists[k] && r.tournees[k].coutTournee == Fin(0)
  }

  /** The body of the last phase of `evaluer` for one pair (a, b): a new
      trip at the end of the result, holding the tasks a..b-1. */
  method EmitTrip(resultat: ResultatCARP, taches: seq<Option<Arc>>, a: nat, b: nat,
                  ghost lists: seq<seq<Option<Arc>>>)
    requires a <= |taches| && b <= |taches| && Carries(resultat, lists)
    modifies resultat`tournees
    ensures Carries(resultat, lists + [Slice(taches, a, b)])
  {
    var nbTrips := |resultat.tournees|;
    var _ := resultat.NouvelleTournee();
    var tr := resultat.tournees[nbTrips];
    AppendTasks(tr, taches, a, b);
  }

  /** The last phase of `evaluer`: one new trip per set entry of `choix`,
      walked from its end, the sum of their matrix entries, stored as the
      total cost of a fresh result. */
  method EmitTrips(tourneeViable: array2<Ext>, taches: seq<Option<Arc>>, choix: array<Option<nat>>)
    returns (dist: Ext, resultat: ResultatCARP)
    requires tourneeViable.Length0 > |taches| && tourneeViable.Length1 > |taches|
    requires choix.Length == |taches| + 1 && Shaped(choix[..]) && Bounded(choix[..], |taches|)
    ensures fresh(resultat) && resultat.coutTotal == dist
    ensures InRange(Segments(choix[..], 0), |taches|)
    ensures dist == ChoixCost(Rows(tourneeViable), |taches|, choix[..], 0)
    ensures Carries(resultat, TripLists(taches, Segments(choix[..], 0)))
  {
    var n := |taches|;
    ghost var m := Rows(tourneeViable);
    ghost var c := choix[..];
    dist := Fin(0);
    var nbTrips := 0;
    resultat := new ResultatCARP();
    SegmentsInRange(c, n, n);
    var i := n;
    while i > 0
      invariant 0 <= i <= n
      invariant InRange(Segments(c, i), n)
      invariant dist == ChoixCost(m, n, c, i)
      invariant fresh(resultat) && nbTrips == |Segments(c, i)|
      invariant Carries(resultat, TripLists(taches, Segments(c, i)))
    {
      SegmentsStep(m, n, taches, c, i);
      if choix[i].Some? {
        var a := choix[i].value;
        var b := choix[i - 1].value;
        dist := Add(dist, tourneeViable[a, b]);
        EmitTrip(resultat, taches, a, b, TripLists(taches, Segments(c, i)));
        nbTrips := nbTrips + 1;
      }
      i := i - 1;
    }
    resultat.SetCoutTotal(dist);
  }

  /** `evaluer`: labels the cut points, walks the predecessors back from
      cut point n into `choix`, then emits one trip per boundary pair in
      forward order, sums their matrix entries, and stores a fresh result
      with that total on `sol`. */
  method Evaluer(tourneeViable: array2<Ext>, sol: SolutionCARP) returns (dist: Ext)
    requires tourneeViable.Length0 > |sol.taches| && tourneeViable.Length1 > |sol.taches|
    modifies sol`resultat
    ensures fresh(sol.resultat) && sol.resultat.coutTotal == dist
    ensures dist == SplitCost(Rows(tourneeViable), |sol.taches|)
    ensures Carries(sol.resultat, SplitTrips(Rows(tourneeViable), sol.taches))
  {
    var taches := sol.taches;
    var n := |taches|;
    ghost var m := Rows(tourneeViable);

    ghost var passes;
    var tabTemp, marqueur;
    tabTemp, marqueur, passes := LabelCutPoints(tourneeViable, n);
    FinalPredOk(m, n);
    var choix := ChainBack(marqueur, n);
    ChoixShaped(marqueur[..], n, n + 1);
    var resultat;
    dist, resultat := EmitTrips(tourneeViable, taches, choix);
    ghost var segs := SplitSegments(m, n);
    assert segs == Segments(choix[..], 0);
    sol.SetResultat(resultat);
  }
}
