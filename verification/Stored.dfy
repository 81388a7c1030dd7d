/** Walks over the stored edges of a graph, with no adjacency lists: what the traversals mean to a caller. */
module Stored {
  import opened Prelude
  import opened Walks
  import opened Layers
  import opened Impact
  import opened StableSort
  import Attack
  import Frontier
  import Neighbors
  import Reach

  /** `es` is a walk of stored edges of the given types from `x` to `y`. */
  ghost predicate Leads(stored: seq<Edge>, types: set<EdgeType>, es: seq<Edge>, x: Uuid, y: Uuid) {
    && (if es == [] then x == y else es[0].src == x && es[|es| - 1].dst == y)
    && (forall i :: 0 <= i < |es| ==> es[i] in stored && es[i].etype in types)
    && forall i :: 0 < i < |es| ==> es[i - 1].dst == es[i].src
  }

  /** The shortest such walks from `x` to `y` have `n` edges. */
  ghost predicate Nearest(stored: seq<Edge>, types: set<EdgeType>, x: Uuid, y: Uuid, n: int) {
    && (exists es :: |es| == n && Leads(stored, types, es, x, y))
    && forall es :: Leads(stored, types, es, x, y) ==> n <= |es|
  }

  /** `reach` holds every id but `start` that such a walk of at most `maxHops` edges leads to, at its distance. */
  ghost predicate Reaches(stored: seq<Edge>, types: set<EdgeType>, start: Uuid, maxHops: int, reach: map<Uuid, nat>) {
    && (forall x :: x in reach <==> x != start && exists es :: |es| <= maxHops && Leads(stored, types, es, start, x))
    && forall x :: x in reach ==> Nearest(stored, types, start, x, reach[x])
  }

  /** `depth` is the greatest distance, within the limit, at which such walks find an id. */
  ghost predicate Deepest(stored: seq<Edge>, types: set<EdgeType>, start: Uuid, maxHops: int, depth: nat) {
    && (depth == 0 || depth <= maxHops)
    && (exists x :: Nearest(stored, types, start, x, depth))
    && forall x, n: nat :: n <= maxHops && Nearest(stored, types, start, x, n) ==> n <= depth
  }

  /** The step relation is that of the stored edges of these types. */
  ghost predicate StepsAre(succ: Succ, stored: seq<Edge>, types: set<EdgeType>) {
    forall x, y :: Joined(succ, x, y) <==> exists e :: e in stored && e.etype in types && e.src == x && e.dst == y
  }

  lemma {:induction false} EdgesOfWalk(succ: Succ, stored: seq<Edge>, types: set<EdgeType>, w: seq<Uuid>)
      returns (es: seq<Edge>)
    requires StepsAre(succ, stored, types) && IsWalk(succ, w)
    ensures Leads(stored, types, es, w[0], w[|w| - 1]) && |es| == |w| - 1
  {
    if |w| == 1 {
      es := [];
    } else {
      var x, y := w[|w| - 2], w[|w| - 1];
      assert Joined(succ, x, y);
      var front := EdgesOfWalk(succ, stored, types, w[..|w| - 1]);
      var e :| e in stored && e.etype in types && e.src == x && e.dst == y;
      es := front + [e];
    }
  }

  lemma {:induction false} WalkOfEdges(succ: Succ, stored: seq<Edge>, types: set<EdgeType>, es: seq<Edge>, x: Uuid,
                                       y: Uuid) returns (w: seq<Uuid>)
    requires StepsAre(succ, stored, types) && Leads(stored, types, es, x, y)
    ensures IsWalk(succ, w) && w[0] == x && w[|w| - 1] == y && |w| == |es| + 1
  {
    if es == [] {
      w := [x];
    } else {
      var e := es[|es| - 1];
      assert Joined(succ, e.src, e.dst);
      var v := WalkOfEdges(succ, stored, types, es[..|es| - 1], x, e.src);
      w := v + [y];
    }
  }

  lemma WithinIsLeads(succ: Succ, stored: seq<Edge>, types: set<EdgeType>, x: Uuid, y: Uuid, n: nat)
    requires StepsAre(succ, stored, types)
    ensures Within(succ, x, y, n) <==> exists es :: |es| <= n && Leads(stored, types, es, x, y)
  {
    hide Leads, StepsAre;
    if Within(succ, x, y, n) {
      var w :| IsWalk(succ, w) && w[0] == x && w[|w| - 1] == y && |w| <= n + 1;
      var es := EdgesOfWalk(succ, stored, types, w);
    }
    if es :| |es| <= n && Leads(stored, types, es, x, y) {
      var w := WalkOfEdges(succ, stored, types, es, x, y);
    }
  }

  /** The distance in the step relation is the distance along stored edges. */
  lemma DistanceIsNearest(succ: Succ, stored: seq<Edge>, types: set<EdgeType>, x: Uuid, y: Uuid, n: nat)
    requires StepsAre(succ, stored, types)
    ensures AtDistance(succ, x, y, n) <==> Nearest(stored, types, x, y, n)
  {
    hide Leads, StepsAre, Within;
    forall m: nat ensures Within(succ, x, y, m) <==> exists es :: |es| <= m && Leads(stored, types, es, x, y) {
      WithinIsLeads(succ, stored, types, x, y, m);
    }
    if AtDistance(succ, x, y, n) {
      var es :| |es| <= n && Leads(stored, types, es, x, y);
      assert Within(succ, x, y, |es|);
      forall fs | Leads(stored, types, fs, x, y) ensures n <= |fs| {
        assert Within(succ, x, y, |fs|);
      }
    }
    if Nearest(stored, types, x, y, n) {
      var es :| |es| == n && Leads(stored, types, es, x, y);
      assert Within(succ, x, y, n);
    }
  }

  lemma ReachMapReaches(adj: Adjacency, stored: seq<Edge>, types: set<EdgeType>, start: Uuid, maxHops: int)
    requires StepsAre(Steps(adj, Capability), stored, types)
    ensures Reaches(stored, types, start, maxHops, Reach.ReachMap(adj, start, Frontier.Bound(maxHops)))
  {
    var succ, h := Steps(adj, Capability), Frontier.Bound(maxHops);
    var reach := Reach.ReachMap(adj, start, h);
    hide Reach.ReachMap, Steps, StepsAre, Leads, Nearest, AtDistance, Within;
    forall x
      ensures x in reach <==> x != start && exists es :: |es| <= maxHops && Leads(stored, types, es, start, x)
      ensures x in reach ==> Nearest(stored, types, start, x, reach[x])
    {
      Reach.ReachIsExact(adj, start, h, x);
      WithinIsLeads(succ, stored, types, start, x, h);
      if maxHops < 0 {
        NoStepsLead(stored, types, start, x);
      }
      if x in reach {
        DistanceIsNearest(succ, stored, types, start, x, reach[x]);
      }
    }
  }

  lemma NoStepsLead(stored: seq<Edge>, types: set<EdgeType>, x: Uuid, y: Uuid)
    ensures (exists es :: |es| <= 0 && Leads(stored, types, es, x, y)) ==> x == y
  {
  }

  lemma DeepestPivotDeepest(adj: Adjacency, stored: seq<Edge>, types: set<EdgeType>, start: Uuid, maxHops: int,
                            depth: nat)
    requires StepsAre(Steps(adj, Trust), stored, types)
    requires Reach.DeepestPivot(adj, start, Frontier.Bound(maxHops), depth)
    ensures Deepest(stored, types, start, maxHops, depth)
  {
    var succ := Steps(adj, Trust);
    hide Steps, StepsAre, Leads, Nearest, AtDistance;
    forall x, n: nat ensures AtDistance(succ, start, x, n) <==> Nearest(stored, types, start, x, n) {
      DistanceIsNearest(succ, stored, types, start, x, n);
    }
    assert Reach.Inhabited(succ, start, depth);
    forall x, n: nat | n <= maxHops && Nearest(stored, types, start, x, n) ensures n <= depth {
      assert AtDistance(succ, start, x, n);
      assert Reach.Inhabited(succ, start, n);
    }
  }

  // ----- blast radius -----

  /** `br` counts the known resources of `reach` by criticality, and says how near the nearest crown jewel is. */
  ghost predicate Totals(nodes: Nodes, reach: map<Uuid, nat>, br: BlastRadius) {
    var resources := set x | x in reach && x in nodes && nodes[x].ntype.Resource?;
    var jewels := set x | x in resources && nodes[x].criticality.CrownJewel?;
    && br.reachableResources == |resources|
    && br.highCritCount == |set x | x in resources && nodes[x].criticality.High?|
    && br.crownJewelCount == |jewels|
    && (br.nearestCrownJewel == -1 <==> jewels == {})
    && (forall x :: x in jewels ==> br.nearestCrownJewel <= reach[x])
    && (jewels != {} ==> exists x :: x in jewels && reach[x] == br.nearestCrownJewel)
    && (br.reachesAdmin <==>
        exists x :: x in reach && x in nodes && nodes[x].ntype.Role?
                    && (nodes[x].level.Admin? || nodes[x].level.Privileged?))
  }

  lemma RollUpTotals(nodes: Nodes, reach: map<Uuid, nat>, br: BlastRadius)
    requires RollsUp(nodes, reach, br)
    ensures Totals(nodes, reach, br)
  {
    var resources := set x | x in reach && x in nodes && nodes[x].ntype.Resource?;
    var jewels := set x | x in resources && nodes[x].criticality.CrownJewel?;
    assert Reached(nodes, reach, AnyResource) == resources;
    assert Reached(nodes, reach, JewelResource) == jewels;
    assert Reached(nodes, reach, HighResource) == set x | x in resources && nodes[x].criticality.High?;
    assert forall x :: x in jewels <==> x in reach && IsCrownJewel(nodes, x);
  }

  // ----- attack paths -----

  /** `x` is a target of impact `c`: a crown-jewel or high resource, or an admin or privileged role. */
  ghost predicate IsTarget(nodes: Nodes, x: Uuid, c: Criticality) {
    && x in nodes
    && (|| (nodes[x].ntype.Resource? && (c.CrownJewel? || c.High?) && nodes[x].criticality == c)
        || (nodes[x].ntype.Role? && (nodes[x].level.Admin? || nodes[x].level.Privileged?) && c.CrownJewel?))
  }

  /** `p` walks stored edges of the given types, visits no id twice, and is as short as any walk to its target. */
  ghost predicate IsPath(nodes: Nodes, stored: seq<Edge>, types: set<EdgeType>, start: Uuid, maxHops: int,
                         p: Attack.Path) {
    && |p.nodes| == p.hops + 1 && |p.edges| == p.hops <= maxHops
    && p.nodes[0] == start && p.nodes[p.hops] != start
    && (forall i :: 0 <= i < p.hops ==>
          && p.edges[i] in stored && p.edges[i].etype in types
          && p.edges[i].src == p.nodes[i] && p.edges[i].dst == p.nodes[i + 1])
    && (forall i, j :: 0 <= i < j <= p.hops ==> p.nodes[i] != p.nodes[j])
    && Nearest(stored, types, start, p.nodes[p.hops], p.hops)
    && IsTarget(nodes, p.nodes[p.hops], p.impact)
  }

  /** Crown jewels first, and shorter first among equals. */
  ghost predicate InRankOrder(r: seq<Attack.Path>) {
    forall i, j :: 0 <= i < j < |r| ==>
      (r[j].impact.CrownJewel? ==> r[i].impact.CrownJewel?) && (r[i].impact == r[j].impact ==> r[i].hops <= r[j].hops)
  }

  /** `r` holds at most `limit` such paths in rank order, to different targets, and to all of them if it holds fewer. */
  ghost predicate AreAttackPaths(nodes: Nodes, stored: seq<Edge>, types: set<EdgeType>, start: Uuid, maxHops: int,
                                 limit: int, r: seq<Attack.Path>) {
    && |r| <= limit && InRankOrder(r)
    && (forall p :: p in r ==> IsPath(nodes, stored, types, start, maxHops, p))
    && (forall i, j :: 0 <= i < j < |r| ==> Attack.End(r[i]) != Attack.End(r[j]))
    && (|r| < limit ==> forall x, c :: x != start && IsTarget(nodes, x, c) ==>
          (exists es :: |es| <= maxHops && Leads(stored, types, es, start, x)) ==>
          exists p :: p in r && Attack.End(p) == x && p.impact == c)
  }

  lemma TargetIsTarget(nodes: Nodes, x: Uuid, c: Criticality)
    ensures IsTarget(nodes, x, c) <==> x in nodes && TargetImpact(nodes[x]) == Some(c)
  {
  }

  lemma RankedIsPath(nodes: Nodes, adj: Adjacency, stored: seq<Edge>, types: set<EdgeType>, start: Uuid, maxHops: int,
                     limit: nat, p: Attack.Path)
    requires types == {Uses, Assumes, Impersonates, CanMintToken, BindsTo, References, FederatedFrom, HasPermissions}
    requires StepsAre(Steps(adj, Capability), stored, types)
    requires forall x, e :: e in EdgesOf(adj, x) <==> e in stored && e.src == x
    requires p in Attack.Ranked(nodes, adj, start, Frontier.Bound(maxHops), limit)
    ensures IsPath(nodes, stored, types, start, maxHops, p)
  {
    hide Attack.Ranked, StepsAre, Nearest, AtDistance, Steps, IsTarget, TargetImpact, EdgesOf;
    Attack.RankedPathIsSound(nodes, adj, start, Frontier.Bound(maxHops), limit, p);
    TargetIsTarget(nodes, Attack.End(p), p.impact);
    DistanceIsNearest(Steps(adj, Capability), stored, types, start, Attack.End(p), p.hops);
    forall i | 0 <= i < p.hops
      ensures p.edges[i] in stored && p.edges[i].etype in types
      ensures p.edges[i].src == p.nodes[i] && p.edges[i].dst == p.nodes[i + 1]
    {
      assert StoredStep(adj, Capability, p.nodes[i], p.edges[i], p.nodes[i + 1]);
      StepHasType(adj, stored, types, p.edges[i], p.nodes[i]);
    }
  }

  /** Whether an edge is followed depends on its type only, so a followed edge is of one of the types. */
  lemma StepHasType(adj: Adjacency, stored: seq<Edge>, types: set<EdgeType>, e: Edge, x: Uuid)
    requires types == {Uses, Assumes, Impersonates, CanMintToken, BindsTo, References, FederatedFrom, HasPermissions}
    requires e in EdgesOf(adj, x) && Follows(Capability, e)
    ensures e.etype in types
  {
  }

  lemma RankedInOrder(nodes: Nodes, adj: Adjacency, start: Uuid, h: nat, limit: nat)
    ensures InRankOrder(Attack.Ranked(nodes, adj, start, h, limit))
  {
    hide Attack.Ranked, TargetImpact;
    var r := Attack.Ranked(nodes, adj, start, h, limit);
    Attack.RankedIsBest(nodes, adj, start, h, limit);
    forall i, j | 0 <= i < j < |r|
      ensures r[j].impact.CrownJewel? ==> r[i].impact.CrownJewel?
      ensures r[i].impact == r[j].impact ==> r[i].hops <= r[j].hops
    {
      assert !Before(Attack.PathKey(r[j]), Attack.PathKey(r[i]));
    }
  }

  lemma FewAreAll(nodes: Nodes, adj: Adjacency, stored: seq<Edge>, types: set<EdgeType>, start: Uuid, maxHops: int,
                  limit: nat, x: Uuid, c: Criticality)
    requires StepsAre(Steps(adj, Capability), stored, types)
    requires |Attack.Ranked(nodes, adj, start, Frontier.Bound(maxHops), limit)| < limit
    requires x != start && IsTarget(nodes, x, c) && exists es :: |es| <= maxHops && Leads(stored, types, es, start, x)
    ensures exists p :: p in Attack.Ranked(nodes, adj, start, Frontier.Bound(maxHops), limit)
                        && Attack.End(p) == x && p.impact == c
  {
    hide Attack.AllTargets, Attack.Ranked, Attack.End, Reach.ReachMap, TargetImpact, IsTarget, Steps, StepsAre, Leads;
    var h := Frontier.Bound(maxHops);
    TargetIsTarget(nodes, x, c);
    Attack.RankedIsBest(nodes, adj, start, h, limit);
    Attack.GatheredIsPrefix(nodes, adj, start, h, limit);
    Attack.SmallResultIsAll(nodes, adj, start, h, limit);
    WithinIsLeads(Steps(adj, Capability), stored, types, start, x, h);
    Reach.ReachIsExact(adj, start, h, x);
    Attack.AllTargetsComplete(nodes, adj, start, h, x);
    var p :| p in Attack.AllTargets(nodes, adj, start, h) && Attack.End(p) == x;
    Attack.TargetIsReached(nodes, adj, start, h, p);
  }

  /** What `AttackPaths` returns, said over the stored edges. */
  lemma RankedAreAttackPaths(nodes: Nodes, adj: Adjacency, stored: seq<Edge>, types: set<EdgeType>, start: Uuid,
                             maxHops: int, limit: nat)
    requires types == {Uses, Assumes, Impersonates, CanMintToken, BindsTo, References, FederatedFrom, HasPermissions}
    requires StepsAre(Steps(adj, Capability), stored, types)
    requires forall x, e :: e in EdgesOf(adj, x) <==> e in stored && e.src == x
    ensures AreAttackPaths(nodes, stored, types, start, maxHops, limit,
                           Attack.Ranked(nodes, adj, start, Frontier.Bound(maxHops), limit))
  {
    hide Attack.Ranked, IsPath, InRankOrder, IsTarget, Attack.End, Attack.PathKey, Steps, StepsAre, EdgesOf, Leads;
    var h := Frontier.Bound(maxHops);
    var r := Attack.Ranked(nodes, adj, start, h, limit);
    Attack.RankedIsBest(nodes, adj, start, h, limit);
    RankedInOrder(nodes, adj, start, h, limit);
    forall p | p in r ensures IsPath(nodes, stored, types, start, maxHops, p) {
      RankedIsPath(nodes, adj, stored, types, start, maxHops, limit, p);
    }
    if |r| < limit {
      forall x, c | x != start && IsTarget(nodes, x, c)
                    && (exists es :: |es| <= maxHops && Leads(stored, types, es, start, x))
        ensures exists p :: p in r && Attack.End(p) == x && p.impact == c
      {
        FewAreAll(nodes, adj, stored, types, start, maxHops, limit, x, c);
      }
    }
  }

  // ----- neighbourhoods -----

  /** Both ids are ends of `e`. */
  predicate Links(e: Edge, x: Uuid, y: Uuid) {
    (e.src == x || e.dst == x) && (e.src == y || e.dst == y)
  }

  ghost predicate Adjacent(nodes: Nodes, stored: seq<Edge>, x: Uuid, y: Uuid) {
    y in nodes && exists e :: e in stored && Links(e, x, y)
  }

  predicate AreParallel(e: Edge, f: Edge) {
    e.src == f.src && e.etype == f.etype && e.dst == f.dst
  }

  /** `w` goes along stored edges in either direction, from `start` through known ids to `x`. */
  ghost predicate Strolls(nodes: Nodes, stored: seq<Edge>, w: seq<Uuid>, start: Uuid, x: Uuid) {
    && |w| > 0 && w[0] == start && w[|w| - 1] == x
    && forall i :: 0 < i < |w| ==> Adjacent(nodes, stored, w[i - 1], w[i])
  }

  ghost predicate Near(nodes: Nodes, stored: seq<Edge>, start: Uuid, x: Uuid, n: int) {
    exists w :: |w| <= n + 1 && Strolls(nodes, stored, w, start, x)
  }

  /** `e` is stored, and one of its ends is fewer than `depth` steps away. */
  ghost predicate Borders(nodes: Nodes, stored: seq<Edge>, start: Uuid, depth: int, e: Edge) {
    e in stored && (Near(nodes, stored, start, e.src, depth - 1) || Near(nodes, stored, start, e.dst, depth - 1))
  }

  /** The known nodes at most `depth` steps away, each once, and of the bordering edges one per source, type and end. */
  ghost predicate IsNeighborhood(nodes: Nodes, stored: seq<Edge>, start: Uuid, depth: int, listed: seq<Node>,
                                 edges: seq<Edge>) {
    && (forall n :: n in listed <==> n.id in nodes && nodes[n.id] == n
                                     && Near(nodes, stored, start, n.id, Max(depth, 0)))
    && (forall i, j :: 0 <= i < j < |listed| ==> listed[i].id != listed[j].id)
    && (forall e :: e in edges ==> Borders(nodes, stored, start, depth, e))
    && (forall e :: Borders(nodes, stored, start, depth, e) ==> exists f :: f in edges && AreParallel(e, f))
    && forall i, j :: 0 <= i < j < |edges| ==> !AreParallel(edges[i], edges[j])
  }

  lemma BesideIsLinked(nodes: Nodes, stored: seq<Edge>, x: Uuid, y: Uuid)
    ensures Joined(Neighbors.Beside(nodes, stored), x, y) <==> Adjacent(nodes, stored, x, y)
  {
    var es := Neighbors.Around(stored, {x});
    Neighbors.EndsOf(es, y);
    if e :| e in stored && Links(e, x, y) {
      Neighbors.EndsOf((set f | f in stored), x);
      assert e in es;
    }
  }

  lemma StrollIsWalk(nodes: Nodes, stored: seq<Edge>, w: seq<Uuid>, start: Uuid, x: Uuid)
    ensures Strolls(nodes, stored, w, start, x) <==>
            IsWalk(Neighbors.Beside(nodes, stored), w) && w[0] == start && w[|w| - 1] == x
  {
    hide Neighbors.Beside, Adjacent;
    forall i | 0 < i < |w|
      ensures Joined(Neighbors.Beside(nodes, stored), w[i - 1], w[i]) <==> Adjacent(nodes, stored, w[i - 1], w[i])
    {
      BesideIsLinked(nodes, stored, w[i - 1], w[i]);
    }
  }

  lemma VicinityIsNear(nodes: Nodes, stored: seq<Edge>, start: Uuid, x: Uuid, n: nat)
    ensures x in Neighbors.Vicinity(nodes, stored, start, n) <==> Near(nodes, stored, start, x, n)
  {
    var succ := Neighbors.Beside(nodes, stored);
    hide Neighbors.Beside, Strolls;
    BallIsWithin(succ, start, x, n);
    forall w ensures Strolls(nodes, stored, w, start, x) <==> IsWalk(succ, w) && w[0] == start && w[|w| - 1] == x {
      StrollIsWalk(nodes, stored, w, start, x);
    }
    assert Within(succ, start, x, n) <==>
      exists w :: |w| <= n + 1 && Strolls(nodes, stored, w, start, x);
  }

  lemma AroundBorders(nodes: Nodes, stored: seq<Edge>, start: Uuid, depth: int, e: Edge)
    ensures Borders(nodes, stored, start, depth, e) <==>
            depth > 0 && e in Neighbors.Around(stored, Neighbors.Vicinity(nodes, stored, start, depth - 1))
  {
    hide Near, Neighbors.Vicinity;
    if depth > 0 {
      VicinityIsNear(nodes, stored, start, e.src, depth - 1);
      VicinityIsNear(nodes, stored, start, e.dst, depth - 1);
    } else {
      NobodyNear(nodes, stored, start, e.src, depth - 1);
      NobodyNear(nodes, stored, start, e.dst, depth - 1);
    }
  }

  lemma NobodyNear(nodes: Nodes, stored: seq<Edge>, start: Uuid, x: Uuid, n: int)
    requires n < 0
    ensures !Near(nodes, stored, start, x, n)
  {
  }

  /** What `Neighborhood` returns, said over the stored edges. */
  lemma ViewIsNeighborhood(nodes: Nodes, stored: seq<Edge>, start: Uuid, depth: int, listed: seq<Node>,
                           edges: seq<Edge>)
    requires forall x :: x in nodes ==> nodes[x].id == x
    requires Neighbors.IsView(nodes, stored, start, Frontier.Bound(depth), listed, edges)
    ensures IsNeighborhood(nodes, stored, start, depth, listed, edges)
  {
    hide Near, Borders, AreParallel, Neighbors.Vicinity, Neighbors.Around, Neighbors.Keys, Neighbors.EdgesShown;
    var d := Frontier.Bound(depth);
    forall x ensures x in Neighbors.Vicinity(nodes, stored, start, d) <==> Near(nodes, stored, start, x, d) {
      VicinityIsNear(nodes, stored, start, x, d);
    }
    forall e
      ensures Borders(nodes, stored, start, depth, e) <==>
              depth > 0 && e in Neighbors.Around(stored, Neighbors.Vicinity(nodes, stored, start, depth - 1))
    {
      AroundBorders(nodes, stored, start, depth, e);
    }
    EdgesAreOnePerKey(if d == 0 then {} else
      Neighbors.Around(stored, Neighbors.Vicinity(nodes, stored, start, d - 1)), edges);
  }

  lemma EdgesAreOnePerKey(done: set<Edge>, edges: seq<Edge>)
    requires Neighbors.EdgesShown(done, Neighbors.Keys(done), edges)
    ensures forall e :: e in edges ==> e in done
    ensures forall e :: e in done ==> exists f :: f in edges && AreParallel(e, f)
    ensures forall i, j :: 0 <= i < j < |edges| ==> !AreParallel(edges[i], edges[j])
  {
    forall e | e in done ensures exists f :: f in edges && AreParallel(e, f) {
      assert Neighbors.KeyOf(e) in Neighbors.Keys(done);
      var f :| f in edges && Neighbors.KeyOf(f) == Neighbors.KeyOf(e);
    }
    forall i, j | 0 <= i < j < |edges| ensures !AreParallel(edges[i], edges[j]) {
      assert Neighbors.KeyOf(edges[i]) != Neighbors.KeyOf(edges[j]);
    }
  }
}
