/** Values shared by the whole model of the CARP split: optional values
    (a Java `null`, an absent property, the `Integer.MIN_VALUE` marker),
    costs extended with the `Float.POSITIVE_INFINITY` sentinel, and the
    service tasks (arcs) a giant tour is made of. */
module Common {

  datatype Option<T> = None | Some(value: T)

  /** A cost as the Java code stores it in a `float`: a finite value or +infinity.
      Costs are modelled as integers; the source never produces NaN. */
  datatype Ext = Fin(v: int) | Inf

  /** Float addition on non-NaN operands: +infinity absorbs everything. */
  function Add(x: Ext, y: Ext): Ext
  {
    if x.Fin? && y.Fin? then Fin(x.v + y.v) else Inf
  }

  /** Float `<`: +infinity is above every finite value and not below itself. */
  predicate Lt(x: Ext, y: Ext)
  {
    match (x, y)
    case (Fin(a), Fin(b)) => a < b
    case (Fin(_), Inf) => true
    case (Inf, _) => false
  }

  predicate Le(x: Ext, y: Ext)
  {
    !Lt(y, x)
  }

  /** The smaller of two costs; the first one on a tie. */
  function Min(x: Ext, y: Ext): Ext
  {
    if Lt(y, x) then y else x
  }

  lemma LeTrans(x: Ext, y: Ext, z: Ext)
    requires Le(x, y) && Le(y, z)
    ensures Le(x, z)
  {
  }

  lemma AddMono(x: Ext, x': Ext, y: Ext, y': Ext)
    requires Le(x, x') && Le(y, y')
    ensures Le(Add(x, y), Add(x', y'))
  {
  }

  lemma MinMono(x: Ext, x': Ext, y: Ext, y': Ext)
    requires Le(x, x') && Le(y, y')
    ensures Le(Min(x, y), Min(x', y'))
  {
  }

  /** A service task (a required arc of the network): its number, the 1-based
      numbers of its start and end nodes, and its optional traversal cost and
      demand properties. */
  datatype Arc = Arc(numero: int, depart: int, arrivee: int, coutParcours: Option<int>, demande: Option<int>)

  /** The demand a task consumes; a task without the property consumes nothing. */
  function DemandOf(a: Arc): int
  {
    match a.demande
    case Some(d) => d
    case None => 0
  }

  /** The cost of traversing a task; a task without the property costs nothing. */
  function CostOf(a: Arc): int
  {
    match a.coutParcours
    case Some(c) => c
    case None => 0
  }
}
