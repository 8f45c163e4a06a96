/** The result of splitting a giant tour: the ordered list of vehicle trips
    and their total cost (ResultatCARP.java, with its helper class Tournee). */
module Resultat {
  import opened Common

  /** One vehicle trip: the tasks it serves, in order, and its own cost. */
  class Tournee {
    var coutTournee: Ext
    var taches: seq<Option<Arc>>

    constructor ()
      ensures coutTournee == Fin(0) && taches == []
    {
      coutTournee := Fin(0);
      taches := [];
    }

    method GetCoutTournee() returns (c: Ext)
      ensures c == coutTournee
    {
      c := coutTournee;
    }

    method SetCoutTournee(c: Ext)
      modifies this`coutTournee
      ensures coutTournee == c
    {
      coutTournee := c;
    }

    method GetTaches() returns (ts: seq<Option<Arc>>)
      ensures ts == taches
    {
      ts := taches;
    }

    method SetTaches(ts: seq<Option<Arc>>)
      modifies this`taches
      ensures taches == ts
    {
      taches := ts;
    }

    /** Appends a task at the end of the trip; `List.add` always succeeds. */
    method AddTache(t: Option<Arc>) returns (ok: bool)
      modifies this`taches
      ensures ok && taches == old(taches) + [t]
    {
      taches := taches + [t];
      ok := true;
    }
  }

  class ResultatCARP {
    var coutTotal: Ext
    var tournees: seq<Tournee>

    constructor ()
      ensures coutTotal == Fin(0) && tournees == []
    {
      coutTotal := Fin(0);
      tournees := [];
    }

    method GetCoutTotal() returns (c: Ext)
      ensures c == coutTotal
    {
      c := coutTotal;
    }

    method SetCoutTotal(c: Ext)
      modifies this`coutTotal
      ensures coutTotal == c
    {
      coutTotal := c;
    }

    method GetTournees() returns (ts: seq<Tournee>)
      ensures ts == tournees
    {
      ts := tournees;
    }

    method SetTournees(ts: seq<Tournee>)
      modifies this`tournees
      ensures tournees == ts
    {
      tournees := ts;
    }

    /** Appends one new, empty trip; the earlier trips stay where they were. */
    method NouvelleTournee() returns (ok: bool)
      modifies this`tournees
      ensures ok && |tournees| == |old(tournees)| + 1
      ensures tournees[..|old(tournees)|] == old(tournees)
      ensures fresh(tournees[|old(tournees)|])
      ensures tournees[|old(tournees)|].taches == [] && tournees[|old(tournees)|].coutTournee == Fin(0)
    {
      var t := new Tournee();
      tournees := tournees + [t];
      ok := true;
    }
  }
}
