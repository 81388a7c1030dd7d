/** Nodes, their impact as attack targets, and the blast-radius roll-up of graph.go. */
module Impact {
  import opened Prelude

  datatype NodeType = Resource | Role | Identity | OtherNode(name: string)

  /** The "privilege_level" attribute, when it is present and a string. */
  datatype PrivilegeLevel = NoLevel | Admin | Privileged | OtherLevel(name: string)

  datatype Node = Node(id: Uuid, entity: Uuid, ntype: NodeType, title: string, criticality: Criticality,
                       level: PrivilegeLevel)

  predicate IsAdminRole(n: Node) {
    n.ntype.Role? && (n.level.Admin? || n.level.Privileged?)
  }

  function TargetImpact(n: Node): Option<Criticality> {
    if n.ntype.Resource? && (n.criticality.CrownJewel? || n.criticality.High?) then Some(n.criticality)
    else if IsAdminRole(n) then Some(CrownJewel)
    else None
  }

  datatype BlastRadius = BlastRadius(reachableResources: int, highCritCount: int, crownJewelCount: int,
                                     nearestCrownJewel: int, reachesAdmin: bool)

  type Nodes = map<Uuid, Node>

  predicate IsResource(nodes: Nodes, x: Uuid) {
    x in nodes && nodes[x].ntype.Resource?
  }

  predicate IsHigh(nodes: Nodes, x: Uuid) {
    IsResource(nodes, x) && nodes[x].criticality.High?
  }

  predicate IsCrownJewel(nodes: Nodes, x: Uuid) {
    IsResource(nodes, x) && nodes[x].criticality.CrownJewel?
  }

  predicate IsAdmin(nodes: Nodes, x: Uuid) {
    x in nodes && nodes[x].ntype.Role? && (nodes[x].level.Admin? || nodes[x].level.Privileged?)
  }

  /** What a roll-up counts. */
  datatype Kind = AnyResource | HighResource | JewelResource

  predicate HasKind(nodes: Nodes, k: Kind, x: Uuid) {
    match k
    case AnyResource => IsResource(nodes, x)
    case HighResource => IsHigh(nodes, x)
    case JewelResource => IsCrownJewel(nodes, x)
  }

  function Reached(nodes: Nodes, reach: map<Uuid, nat>, k: Kind): set<Uuid> {
    set x | x in reach && HasKind(nodes, k, x)
  }

  /** `near` is the least distance of a reached crown jewel, or -1 when there is none. */
  ghost predicate IsNearest(nodes: Nodes, reach: map<Uuid, nat>, near: int) {
    if near == -1 then forall x :: x in reach ==> !IsCrownJewel(nodes, x)
    else
      && (exists x :: x in reach && IsCrownJewel(nodes, x) && reach[x] == near)
      && (forall x :: x in reach && IsCrownJewel(nodes, x) ==> near <= reach[x])
  }

  /** `br` sums up the reached nodes. */
  ghost predicate RollsUp(nodes: Nodes, reach: map<Uuid, nat>, br: BlastRadius) {
    && br.reachableResources == |Reached(nodes, reach, AnyResource)|
    && br.highCritCount == |Reached(nodes, reach, HighResource)|
    && br.crownJewelCount == |Reached(nodes, reach, JewelResource)|
    && IsNearest(nodes, reach, br.nearestCrownJewel)
    && (br.reachesAdmin <==> exists x :: x in reach && IsAdmin(nodes, x))
  }

  /** There is one roll-up only, so the order of the map iteration that computes it is irrelevant. */
  lemma RollUpIsUnique(nodes: Nodes, reach: map<Uuid, nat>, a: BlastRadius, b: BlastRadius)
    requires RollsUp(nodes, reach, a) && RollsUp(nodes, reach, b)
    ensures a == b
  {
  }

  lemma NothingRollsUp(nodes: Nodes)
    ensures RollsUp(nodes, map[], BlastRadius(0, 0, 0, -1, false))
  {
  }

  /** One turn of the roll-up loop. */
  function Count(nodes: Nodes, br: BlastRadius, x: Uuid, hops: nat): BlastRadius {
    if x !in nodes then br else
      var n := nodes[x];
      match n.ntype
      case Resource =>
        var more := br.(reachableResources := br.reachableResources + 1);
        (match n.criticality
         case CrownJewel =>
           more.(crownJewelCount := br.crownJewelCount + 1,
                 nearestCrownJewel :=
                   if br.nearestCrownJewel == -1 || hops < br.nearestCrownJewel then hops else br.nearestCrownJewel)
         case High => more.(highCritCount := br.highCritCount + 1)
         case _ => more)
      case Role => if IsAdminRole(n) then br.(reachesAdmin := true) else br
      case _ => br
  }

  lemma CountNearest(nodes: Nodes, reach: map<Uuid, nat>, near: int, x: Uuid, hops: nat)
    requires x !in reach && IsNearest(nodes, reach, near)
    ensures IsNearest(nodes, reach[x := hops],
              if IsCrownJewel(nodes, x) && (near == -1 || hops < near) then hops else near)
  {
  }

  lemma ReachedGrows(nodes: Nodes, reach: map<Uuid, nat>, x: Uuid, hops: nat, k: Kind)
    requires x !in reach
    ensures |Reached(nodes, reach[x := hops], k)| == |Reached(nodes, reach, k)|
        + (if HasKind(nodes, k, x) then 1 else 0)
  {
    hide HasKind;
    var before := Reached(nodes, reach, k);
    assert Reached(nodes, reach[x := hops], k) == if HasKind(nodes, k, x) then before + {x} else before;
  }

  /** One turn of the roll-up loop extends the roll-up by the id it handles. */
  lemma CountRollsUp(nodes: Nodes, reach: map<Uuid, nat>, br: BlastRadius, x: Uuid, hops: nat)
    requires x !in reach && RollsUp(nodes, reach, br)
    ensures RollsUp(nodes, reach[x := hops], Count(nodes, br, x, hops))
  {
    ReachedGrows(nodes, reach, x, hops, AnyResource);
    ReachedGrows(nodes, reach, x, hops, HighResource);
    ReachedGrows(nodes, reach, x, hops, JewelResource);
    CountNearest(nodes, reach, br.nearestCrownJewel, x, hops);
    CountAdmin(nodes, reach, x, hops);
    CountFields(nodes, br, x, hops);
    hide Count, Reached, IsResource, IsHigh, IsCrownJewel, IsAdmin, IsNearest;
  }

  lemma CountAdmin(nodes: Nodes, reach: map<Uuid, nat>, x: Uuid, hops: nat)
    ensures (exists y :: y in reach[x := hops] && IsAdmin(nodes, y))
        <==> IsAdmin(nodes, x) || exists y :: y in reach && IsAdmin(nodes, y)
  {
  }

  lemma CountFields(nodes: Nodes, br: BlastRadius, x: Uuid, hops: nat)
    ensures Count(nodes, br, x, hops) == BlastRadius(
              br.reachableResources + (if IsResource(nodes, x) then 1 else 0),
              br.highCritCount + (if IsHigh(nodes, x) then 1 else 0),
              br.crownJewelCount + (if IsCrownJewel(nodes, x) then 1 else 0),
              if IsCrownJewel(nodes, x) && (br.nearestCrownJewel == -1 || hops < br.nearestCrownJewel) then hops
              else br.nearestCrownJewel,
              br.reachesAdmin || IsAdmin(nodes, x))
  {
  }
}
