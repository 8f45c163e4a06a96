/** A candidate solution of the CARP: a giant tour (the ordered task list,
    whose slots may hold Java `null`) and the result of its last evaluation
    (SolutionCARP.java). */
module Solution {
  import opened Common
  import opened Resultat

  /** A reference as Java hands it to `equals` or `fonctionObjectif`:
      `null`, a `SolutionCARP`, or an object of some other class. */
  datatype Ref = Null | Carp(sol: SolutionCARP) | Other
  {
    function Footprint(): set<SolutionCARP>
    {
      if Carp? then {sol} else {}
    }
  }

  /** No task occurs twice in the list. */
  ghost predicate NoDuplicates(s: seq<Option<Arc>>)
  {
    forall i, j :: 0 <= i < j < |s| ==> s[i] != s[j]
  }

  /** `nb` null slots. */
  function Nulls(nb: nat): (r: seq<Option<Arc>>)
    ensures |r| == nb && forall k :: 0 <= k < nb ==> r[k] == None
  {
    if nb == 0 then [] else Nulls(nb - 1) + [None]
  }

  /** The index of the first occurrence of `t` in `s`, which must occur. */
  function FirstIndex(s: seq<Option<Arc>>, t: Option<Arc>): (i: nat)
    requires t in s
    ensures i < |s| && s[i] == t && t !in s[..i]
  {
    if s[0] == t then 0 else FirstIndex(s[1..], t) + 1
  }

  /** `List.remove(Object)`: drops the first element equal to `t`, if any. */
  function RemoveFirst(s: seq<Option<Arc>>, t: Option<Arc>): seq<Option<Arc>>
  {
    if t in s then var i := FirstIndex(s, t); s[..i] + s[i + 1..] else s
  }

  /** Removing an element that occurs takes exactly one copy of it out of
      the list and keeps the order of the others. */
  lemma {:induction false} RemoveFirstMultiset(s: seq<Option<Arc>>, t: Option<Arc>)
    requires t in s
    ensures |RemoveFirst(s, t)| == |s| - 1
    ensures multiset(RemoveFirst(s, t)) == multiset(s) - multiset{t}
  {
    var i := FirstIndex(s, t);
    assert s == s[..i] + [t] + s[i + 1..];
    calc {
      multiset(s);
      multiset(s[..i]) + multiset{t} + multiset(s[i + 1..]);
      multiset(RemoveFirst(s, t)) + multiset{t};
    }
  }

  /** Scanning `s` for task number `numero` meets no null slot before the
      first match (the source dereferences every slot it visits). */
  predicate ScanSafe(s: seq<Option<Arc>>, numero: int)
  {
    s == [] || (s[0].Some? && (s[0].value.numero == numero || ScanSafe(s[1..], numero)))
  }

  predicate HasNumero(t: Option<Arc>, numero: int)
  {
    t.Some? && t.value.numero == numero
  }

  /** Comparing `a` with `b` slot by slot meets no null slot of `a`
      before the first difference (the source calls `equals` on it). */
  predicate EqScanSafe(a: seq<Option<Arc>>, b: seq<Option<Arc>>)
    requires |a| == |b|
  {
    a == [] || (a[0].Some? && (a[0] != b[0] || EqScanSafe(a[1..], b[1..])))
  }

  class SolutionCARP {
    var taches: seq<Option<Arc>>
    var resultat: ResultatCARP

    constructor ()
      ensures taches == [] && fresh(resultat)
      ensures resultat.tournees == [] && resultat.coutTotal == Fin(0)
    {
      taches := [];
      resultat := new ResultatCARP();
    }

    /** A solution with `nb` null slots (`new ArrayList(nb)` refuses a negative `nb`). */
    constructor WithSize(nb: int)
      requires nb >= 0
      ensures taches == Nulls(nb) && fresh(resultat)
      ensures resultat.tournees == [] && resultat.coutTotal == Fin(0)
    {
      taches := [];
      resultat := new ResultatCARP();
      new;
      SetNbTaches(nb);
    }

    constructor FromTasks(ts: seq<Option<Arc>>)
      ensures taches == ts && fresh(resultat)
      ensures resultat.tournees == [] && resultat.coutTotal == Fin(0)
    {
      resultat := new ResultatCARP();
      taches := ts;
    }

    method GetResultat() returns (r: ResultatCARP)
      ensures r == resultat
    {
      r := resultat;
    }

    method SetResultat(r: ResultatCARP)
      modifies this`resultat
      ensures resultat == r
    {
      resultat := r;
    }

    method GetTaches() returns (ts: seq<Option<Arc>>)
      ensures ts == taches
    {
      ts := taches;
    }

    method SetTaches(ts: seq<Option<Arc>>)
      modifies this`taches
      ensures taches == ts
    {
      taches := ts;
    }

    /** Appends `t` unless the list already contains it. */
    method AjouterTache(t: Option<Arc>) returns (ok: bool)
      modifies this`taches
      ensures ok <==> t !in old(taches)
      ensures taches == if ok then old(taches) + [t] else old(taches)
      ensures NoDuplicates(old(taches)) ==> NoDuplicates(taches)
    {
      if t !in taches {
        taches := taches + [t];
        return true;
      }
      return false;
    }

    /** Removes the first occurrence of `t`, reporting whether there was one. */
    method RetirerTache(t: Option<Arc>) returns (ok: bool)
      modifies this`taches
      ensures ok <==> t in old(taches)
      ensures taches == RemoveFirst(old(taches), t)
    {
      ok := t in taches;
      taches := RemoveFirst(taches, t);
    }

    /** Removes the first task whose number is `numero`, reporting whether
        there was one. */
    method RetirerTacheNumero(numero: int) returns (ok: bool)
      requires ScanSafe(taches, numero)
      modifies this`taches
      ensures ok <==> exists k :: 0 <= k < |old(taches)| && HasNumero(old(taches)[k], numero)
      ensures ok ==> exists k :: 0 <= k < |old(taches)| && HasNumero(old(taches)[k], numero) &&
                                 (forall l :: 0 <= l < k ==> !HasNumero(old(taches)[l], numero)) &&
                                 taches == old(taches)[..k] + old(taches)[k + 1..]
      ensures !ok ==> taches == old(taches)
    {
      var k := 0;
      while k < |taches|
        invariant 0 <= k <= |taches|
        invariant ScanSafe(taches[k..], numero)
        invariant forall l :: 0 <= l < k ==> !HasNumero(taches[l], numero)
      {
        var t := taches[k];
        if t.value.numero == numero {
          var s := taches;
          assert t !in s[..k];
          assert FirstIndex(s, t) == k;
          ok := RetirerTache(t);
          return;
        }
        assert taches[k + 1..] == taches[k..][1..];
        k := k + 1;
      }
      return false;
    }

    /** Pads the list with nulls up to length `nb`; never shortens it. */
    method SetNbTaches(nb: int)
      modifies this`taches
      ensures taches == if nb > |old(taches)| then old(taches) + Nulls(nb - |old(taches)|) else old(taches)
    {
      if nb > |taches| {
        var i := |taches| + 1;
        ghost var start := |taches|;
        while i <= nb
          invariant start + 1 <= i <= nb + 1
          invariant taches == old(taches) + Nulls(i - 1 - start)
        {
          taches := taches + [None];
          i := i + 1;
        }
      }
    }

    /** Two solutions are equal when their task lists agree slot by slot. */
    method Equals(obj: Ref) returns (r: bool)
      requires obj.Carp? && |obj.sol.taches| == |taches| ==> EqScanSafe(taches, obj.sol.taches)
      ensures r <==> obj.Carp? && taches == obj.sol.taches
    {
      if obj.Carp? {
        var s := obj.sol;
        if |taches| != |s.taches| {
          return false;
        }
        var k := 0;
        while k < |taches|
          invariant 0 <= k <= |taches|
          invariant taches[..k] == s.taches[..k]
          invariant EqScanSafe(taches[k..], s.taches[k..])
        {
          if taches[k] != s.taches[k] {
            return false;
          }
          assert taches[k + 1..] == taches[k..][1..];
          assert s.taches[k + 1..] == s.taches[k..][1..];
          k := k + 1;
        }
        assert taches == taches[..k];
        assert s.taches == s.taches[..k];
        return true;
      } else {
        return false;
      }
    }

    /** A shallow clone: the copy holds the same tasks, in the same order,
        and shares the result object. */
    method Copy() returns (c: SolutionCARP)
      ensures fresh(c) && c.taches == taches && c.resultat == resultat
    {
      c := new SolutionCARP.FromTasks(taches);
      c.resultat := resultat;
    }
  }
}
