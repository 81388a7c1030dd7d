/** The in-memory property graph of graph.go and load.go, as an object with its traversals. */
module GraphEngine {
  import opened Prelude
  import opened Walks
  import opened Layers
  import opened Impact
  import opened Neighbors
  import Frontier
  import Reach
  import opened Stored
  import Attack
  import StableSort
  import Percentile

  /** The stored edges that leave (`outgoing`) or enter `x`, oldest first. */
  function Filed(stored: seq<Edge>, x: Uuid, outgoing: bool): seq<Edge> {
    if stored == [] then [] else
      var e := stored[|stored| - 1];
      Filed(stored[..|stored| - 1], x, outgoing) + (if (if outgoing then e.src else e.dst) == x then [e] else [])
  }

  /** A queue entry of the searches that keep no path. */
  datatype Item = Item(id: Uuid, hops: nat)

  ghost predicate Mirrors(q: seq<Item>, queue: seq<Trail>) {
    |q| == |queue| && forall i :: 0 <= i < |q| ==> q[i] == Item(queue[i].id, queue[i].hops)
  }

  /** The first `k` edges of `es` have been scanned for trail `t`. */
  ghost predicate Tracing(mode: Mode, t: Trail, es: seq<Edge>, k: nat, seen: set<Uuid>, found: seq<Trail>,
                          visited: set<Uuid>) {
    k <= |es| && found == ScanEdges(mode, t, es[..k], seen) && visited == seen + Ids(found)
  }

  lemma TraceStarts(mode: Mode, t: Trail, es: seq<Edge>, seen: set<Uuid>)
    ensures Tracing(mode, t, es, 0, seen, [], seen)
  {
  }

  /** Scanning one more edge finds its end when it is followed to an unseen id, and nothing otherwise. */
  lemma TraceOne(mode: Mode, t: Trail, es: seq<Edge>, k: nat, seen: set<Uuid>, found: seq<Trail>, visited: set<Uuid>)
    requires k < |es| && Tracing(mode, t, es, k, seen, found, visited)
    ensures if Follows(mode, es[k]) && es[k].dst !in visited
            then Tracing(mode, t, es, k + 1, seen, found + [Extend(t, es[k])], visited + {es[k].dst})
            else Tracing(mode, t, es, k + 1, seen, found, visited)
  {
    hide Follows;
    assert es[..k + 1][..k] == es[..k] && es[..k + 1][k] == es[k];
    IdsAppend(found, Extend(t, es[k]));
  }

  lemma TraceEnds(mode: Mode, t: Trail, es: seq<Edge>, seen: set<Uuid>, found: seq<Trail>, visited: set<Uuid>)
    requires Tracing(mode, t, es, |es|, seen, found, visited)
    ensures found == ScanEdges(mode, t, es, seen) && visited == seen + Ids(found)
  {
    assert es[..|es|] == es;
  }

  /** The same, for a search whose queue holds only ids and hops; `rest` was waiting before. */
  ghost predicate Scanning(mode: Mode, t: Trail, es: seq<Edge>, k: nat, seen: set<Uuid>, rest: seq<Trail>,
                           found: seq<Trail>, visited: set<Uuid>, q: seq<Item>) {
    Tracing(mode, t, es, k, seen, found, visited) && Mirrors(q, rest + found)
  }

  lemma ScanStarts(mode: Mode, t: Trail, es: seq<Edge>, seen: set<Uuid>, rest: seq<Trail>, q: seq<Item>)
    requires Mirrors(q, rest)
    ensures Scanning(mode, t, es, 0, seen, rest, [], seen, q)
  {
  }

  lemma ScanOne(mode: Mode, t: Trail, es: seq<Edge>, k: nat, seen: set<Uuid>, rest: seq<Trail>,
                found: seq<Trail>, visited: set<Uuid>, q: seq<Item>)
    requires k < |es| && Scanning(mode, t, es, k, seen, rest, found, visited, q)
    ensures if Follows(mode, es[k]) && es[k].dst !in visited
            then Scanning(mode, t, es, k + 1, seen, rest, found + [Extend(t, es[k])], visited + {es[k].dst},
                          q + [Item(es[k].dst, t.hops + 1)])
            else Scanning(mode, t, es, k + 1, seen, rest, found, visited, q)
  {
    hide Follows, Tracing;
    TraceOne(mode, t, es, k, seen, found, visited);
    assert rest + (found + [Extend(t, es[k])]) == rest + found + [Extend(t, es[k])];
  }

  lemma ScanEnds(mode: Mode, t: Trail, es: seq<Edge>, seen: set<Uuid>, rest: seq<Trail>, found: seq<Trail>,
                 visited: set<Uuid>, q: seq<Item>)
    requires Scanning(mode, t, es, |es|, seen, rest, found, visited, q)
    ensures found == ScanEdges(mode, t, es, seen) && visited == seen + Ids(found) && Mirrors(q, rest + found)
  {
    TraceEnds(mode, t, es, seen, found, visited);
  }

  /** A persisted node and edge, as the store returns them. */
  datatype NodeRow = NodeRow(id: Uuid, entity: Option<Uuid>, ntype: NodeType, title: string,
                             criticality: Criticality, level: PrivilegeLevel)

  function FromRow(r: NodeRow): Node {
    Node(r.id, if r.entity.Some? then r.entity.value else NIL_UUID, r.ntype, r.title, r.criticality, r.level)
  }

  function LastRows(rows: seq<NodeRow>): Nodes {
    if rows == [] then map[] else
      var r := rows[|rows| - 1];
      LastRows(rows[..|rows| - 1])[r.id := FromRow(r)]
  }

  /** A node keeps the last row with its id. */
  lemma {:induction false} LastRowWins(rows: seq<NodeRow>, i: nat)
    requires i < |rows| && forall j :: i < j < |rows| ==> rows[j].id != rows[i].id
    ensures rows[i].id in LastRows(rows)
    ensures var n, r := LastRows(rows)[rows[i].id], rows[i];
      && n.id == r.id && n.entity == (if r.entity.Some? then r.entity.value else NIL_UUID) && n.ntype == r.ntype
      && n.title == r.title && n.criticality == r.criticality && n.level == r.level
  {
    if i < |rows| - 1 {
      LastRowWins(rows[..|rows| - 1], i);
    }
  }

  /** The index from entities to node ids that adding the rows one by one builds. */
  function EntityIndex(rows: seq<NodeRow>): map<Uuid, Uuid> {
    if rows == [] then map[] else
      var n, front := FromRow(rows[|rows| - 1]), EntityIndex(rows[..|rows| - 1]);
      if n.entity == NIL_UUID then front else front[n.entity := n.id]
  }

  /** An entity other than the nil one resolves to the node id of its last row, and to nothing when it has none. */
  lemma {:induction false} LastRowResolves(rows: seq<NodeRow>, entity: Uuid)
    ensures entity in EntityIndex(rows)
      <==> entity != NIL_UUID && exists i :: 0 <= i < |rows| && rows[i].entity == Some(entity)
    ensures entity in EntityIndex(rows) ==>
      exists i :: 0 <= i < |rows| && rows[i].entity == Some(entity) && EntityIndex(rows)[entity] == rows[i].id
        && forall j :: i < j < |rows| ==> rows[j].entity != Some(entity)
  {
    if rows != [] {
      var front, last := rows[..|rows| - 1], rows[|rows| - 1];
      LastRowResolves(front, entity);
      assert forall i :: 0 <= i < |front| ==> front[i] == rows[i];
      if last.entity == Some(entity) && entity != NIL_UUID {
        assert rows[|rows| - 1].entity == Some(entity) && EntityIndex(rows)[entity] == last.id;
      } else {
        assert entity in EntityIndex(rows) <==> entity in EntityIndex(front);
      }
    }
  }

  const CAPABILITIES: set<EdgeType> := {Uses, Assumes, Impersonates, CanMintToken, BindsTo, References,
                                        FederatedFrom, HasPermissions}
  const PIVOTS: set<EdgeType> := {Assumes, Impersonates, FederatedFrom, CanMintToken}

  lemma FiledJoins(adj: Adjacency, stored: seq<Edge>, mode: Mode, x: Uuid, y: Uuid)
    requires forall z :: EdgesOf(adj, z) == Filed(stored, z, true)
    ensures Joined(Steps(adj, mode), x, y)
      <==> exists e :: e in stored && Follows(mode, e) && e.src == x && e.dst == y
  {
    hide Follows, Joined, Filed, Steps, EdgesOf;
    StepsJoin(adj, mode, x, y);
    Incident(stored, x);
  }

  lemma FiledMembers(adj: Adjacency, stored: seq<Edge>)
    requires forall x :: EdgesOf(adj, x) == Filed(stored, x, true)
    ensures forall x, e :: e in EdgesOf(adj, x) <==> e in stored && e.src == x
  {
    forall x ensures forall e :: e in EdgesOf(adj, x) <==> e in stored && e.src == x {
      Incident(stored, x);
    }
  }

  /** Filed adjacency lists step along the stored capability edges. */
  lemma FiledCapabilities(adj: Adjacency, stored: seq<Edge>)
    requires forall x :: EdgesOf(adj, x) == Filed(stored, x, true)
    ensures StepsAre(Steps(adj, Capability), stored, CAPABILITIES)
  {
    forall x, y
      ensures Joined(Steps(adj, Capability), x, y)
        <==> exists e :: e in stored && e.etype in CAPABILITIES && e.src == x && e.dst == y
    {
      FiledJoins(adj, stored, Capability, x, y);
      hide Filed, Joined, Steps, EdgesOf;
      assert forall e :: Follows(Capability, e) <==> e.etype in CAPABILITIES;
    }
  }

  /** Filed adjacency lists step along the stored trust edges. */
  lemma FiledPivots(adj: Adjacency, stored: seq<Edge>)
    requires forall x :: EdgesOf(adj, x) == Filed(stored, x, true)
    ensures StepsAre(Steps(adj, Trust), stored, PIVOTS)
  {
    forall x, y
      ensures Joined(Steps(adj, Trust), x, y)
        <==> exists e :: e in stored && e.etype in PIVOTS && e.src == x && e.dst == y
    {
      FiledJoins(adj, stored, Trust, x, y);
      hide Filed, Joined, Steps, EdgesOf;
      assert forall e :: Follows(Trust, e) <==> e.etype in PIVOTS;
    }
  }

  class Graph {
    var nodes: Nodes
    var out: Adjacency
    var inn: Adjacency
    var byEntity: map<Uuid, Uuid>
    /** Every edge ever added, oldest first. */
    ghost var stored: seq<Edge>

    ghost predicate Valid()
      reads this
    {
      && (forall x :: EdgesOf(out, x) == Filed(stored, x, true))
      && (forall x :: EdgesOf(inn, x) == Filed(stored, x, false))
      && (forall x :: x in nodes ==> nodes[x].id == x)
      && NIL_UUID !in byEntity && byEntity.Values <= nodes.Keys
    }

    lemma ValidFiled()
      requires Valid()
      ensures forall x :: EdgesOf(out, x) == Filed(stored, x, true)
    {
    }

    constructor ()
      ensures Valid() && nodes == map[] && stored == [] && byEntity == map[]
    {
      nodes, out, inn, byEntity, stored := map[], map[], map[], map[], [];
    }

    method AddNode(n: Node)
      requires Valid()
      modifies this`nodes, this`byEntity
      ensures Valid() && nodes == old(nodes)[n.id := n]
      ensures byEntity == if n.entity == NIL_UUID then old(byEntity) else old(byEntity)[n.entity := n.id]
    {
      nodes := nodes[n.id := n];
      if n.entity != NIL_UUID {
        byEntity := byEntity[n.entity := n.id];
      }
    }

    method AddEdge(e: Edge)
      requires Valid()
      modifies this`out, this`inn, this`stored
      ensures Valid() && stored == old(stored) + [e]
    {
      out := out[e.src := EdgesOf(out, e.src) + [e]];
      inn := inn[e.dst := EdgesOf(inn, e.dst) + [e]];
      stored := stored + [e];
      assert stored[..|stored| - 1] == old(stored);
    }

    /** Builds the graph from rows: a repeated node id keeps its last row, an entity the id of its last row. */
    static method FromModels(rows: seq<NodeRow>, edges: seq<Edge>) returns (g: Graph)
      ensures fresh(g) && g.Valid() && g.stored == edges && g.nodes == LastRows(rows) && g.byEntity == EntityIndex(rows)
    {
      hide Graph.Valid, Filed;
      g := new Graph();
      for k := 0 to |rows|
        invariant fresh(g) && g.Valid() && g.stored == []
        invariant g.nodes == LastRows(rows[..k]) && g.byEntity == EntityIndex(rows[..k])
      {
        g.AddNode(FromRow(rows[k]));
        assert rows[..k + 1][..k] == rows[..k];
      }
      assert rows[..|rows|] == rows;
      for k := 0 to |edges|
        invariant fresh(g) && g.Valid() && g.stored == edges[..k]
        invariant g.nodes == LastRows(rows) && g.byEntity == EntityIndex(rows)
      {
        g.AddEdge(edges[k]);
      }
    }

    method NodeIDForEntity(entity: Uuid) returns (r: Option<Uuid>)
      requires Valid()
      ensures r == if entity in byEntity then Some(byEntity[entity]) else None
      ensures r.Some? ==> r.value in nodes && entity != NIL_UUID
    {
      r := if entity in byEntity then Some(byEntity[entity]) else None;
      assert r.Some? ==> r.value in byEntity.Values;
    }

    /** Bounded breadth-first search over capability edges. */
    method Reachable(start: Uuid, maxHops: int) returns (reach: map<Uuid, nat>)
      ensures reach == Reach.ReachMap(out, start, Frontier.Bound(maxHops))
      ensures Valid() ==> Reaches(stored, {Uses, Assumes, Impersonates, CanMintToken, BindsTo, References,
                                           FederatedFrom, HasPermissions}, start, maxHops, reach)
    {
      hide Valid, Reaches;
      hide Upto, Frontier.Running, Reach.ReachMap, Reach.Records, Ids, Scanning, ScanEdges;
      ghost var limit := Frontier.Bound(maxHops);
      reach := map[];
      var visited := {start};
      var q := [Item(start, 0)];
      ghost var popped: seq<Trail>, queue := [], [Origin(start)];
      Frontier.Starts(out, Capability, start, limit);
      Reach.RecordsNothing(start);
      while |q| > 0
        invariant Frontier.Running(out, Capability, start, limit, popped, queue, visited)
        invariant Mirrors(q, queue)
        invariant Reach.Records(reach, start, popped + queue) && start in visited
        decreases |Upto(out, Capability, start, limit)| - |popped|
      {
        Frontier.VisitedIds(out, Capability, start, limit, popped, queue, visited);
        Frontier.Advances(out, Capability, start, limit, popped, queue, visited);
        var cur := q[0];
        q := q[1..];
        ghost var t, rest, seen, found: seq<Trail> := queue[0], queue[1..], visited, [];
        ghost var base := popped + queue;
        assert base + [] == base;
        Frontier.NothingScanned(out, Capability, {});
        if cur.hops < maxHops {
          var es := EdgesOf(out, cur.id);
          ScanStarts(Capability, t, es, seen, rest, q);
          for k := 0 to |es|
            invariant Scanning(Capability, t, es, k, seen, rest, found, visited, q)
            invariant Reach.Records(reach, start, base + found) && visited == Ids(base + found) && start in visited
          {
            ScanOne(Capability, t, es, k, seen, rest, found, visited, q);
            var e := es[k];
            if IsCapabilityEdge(e.etype) && e.dst !in visited {
              Reach.RecordOne(reach, start, base + found, Extend(t, e));
              assert base + found + [Extend(t, e)] == base + (found + [Extend(t, e)]);
              visited := visited + {e.dst};
              reach := reach[e.dst := cur.hops + 1];
              q := q + [Item(e.dst, cur.hops + 1)];
              found := found + [Extend(t, e)];
            }
          }
          ScanEnds(Capability, t, es, seen, rest, found, visited, q);
        }
        assert found == Frontier.Found(out, Capability, limit, t, seen) && visited == seen + Ids(found);
        assert popped + [t] + (rest + found) == base + found;
        popped, queue := popped + [t], rest + found;
      }
      Frontier.Finishes(out, Capability, start, limit, popped, visited);
      assert popped + [] == popped;
      Reach.RecordsReach(out, start, limit, reach);
      if Valid() {
        FiledCapabilities(out, stored) by {
          ValidFiled();
        }
        ReachMapReaches(out, stored, CAPABILITIES, start, maxHops);
      }
    }

    /** How deep a chain of trust pivots is reachable, by shortest distance. */
    method TrustChainDepth(start: Uuid, maxHops: int) returns (depth: nat)
      ensures Reach.DeepestPivot(out, start, Frontier.Bound(maxHops), depth)
      ensures Valid() ==> Deepest(stored, {Assumes, Impersonates, FederatedFrom, CanMintToken}, start, maxHops, depth)
    {
      hide Valid, Deepest, Reach.DeepestPivot;
      hide Upto, Frontier.Running, Ids, Scanning, ScanEdges, Steps;
      ghost var limit := Frontier.Bound(maxHops);
      depth := 0;
      var visited := {start};
      var q := [Item(start, 0)];
      ghost var popped: seq<Trail>, queue := [], [Origin(start)];
      Frontier.Starts(out, Trust, start, limit);
      while |q| > 0
        invariant Frontier.Running(out, Trust, start, limit, popped, queue, visited)
        invariant Mirrors(q, queue)
        invariant depth == LastHops(popped) && (popped == [] ==> queue != [])
        decreases |Upto(out, Trust, start, limit)| - |popped|
      {
        Frontier.VisitedIds(out, Trust, start, limit, popped, queue, visited);
        Frontier.Advances(out, Trust, start, limit, popped, queue, visited);
        var cur := q[0];
        q := q[1..];
        ghost var t, rest, seen, found: seq<Trail> := queue[0], queue[1..], visited, [];
        Frontier.NothingScanned(out, Trust, {});
        LastHopsGrow(out, start, limit, popped, queue);
        if cur.hops > depth {
          depth := cur.hops;
        }
        if cur.hops < maxHops {
          var es := EdgesOf(out, cur.id);
          ScanStarts(Trust, t, es, seen, rest, q);
          for k := 0 to |es|
            invariant Scanning(Trust, t, es, k, seen, rest, found, visited, q)
          {
            ScanOne(Trust, t, es, k, seen, rest, found, visited, q);
            var e := es[k];
            if !IsTrustEdge(e.etype) || e.dst in visited {
              continue;
            }
            visited := visited + {e.dst};
            q := q + [Item(e.dst, cur.hops + 1)];
            found := found + [Extend(t, e)];
          }
          ScanEnds(Trust, t, es, seen, rest, found, visited, q);
        }
        assert found == Frontier.Found(out, Trust, limit, t, seen) && visited == seen + Ids(found);
        assert rest + [] == rest;
        popped, queue := popped + [t], rest + found;
      }
      Frontier.Finishes(out, Trust, start, limit, popped, visited);
      Reach.LastTrailIsDeepest(out, start, limit);
      if Valid() {
        FiledPivots(out, stored) by {
          ValidFiled();
        }
        DeepestPivotDeepest(out, stored, PIVOTS, start, maxHops, depth);
      }
    }

    /** Rolls up what is reachable, visiting the reached ids in any order. */
    method ComputeBlastRadius(start: Uuid, maxHops: int) returns (br: BlastRadius)
      ensures RollsUp(nodes, Reach.ReachMap(out, start, Frontier.Bound(maxHops)), br)
      ensures Valid() ==> exists reach ::
        Reaches(stored, {Uses, Assumes, Impersonates, CanMintToken, BindsTo, References, FederatedFrom,
                         HasPermissions}, start, maxHops, reach)
        && Totals(nodes, reach, br)
    {
      hide Valid, Reaches, Totals;
      hide Reach.ReachMap, RollsUp, Count;
      var reach := Reachable(start, maxHops);
      br := BlastRadius(0, 0, 0, -1, false);
      var todo := reach.Keys;
      ghost var done: map<Uuid, nat> := map[];
      NothingRollsUp(nodes);
      while todo != {}
        invariant todo <= reach.Keys && done.Keys == reach.Keys - todo
        invariant forall x :: x in done ==> done[x] == reach[x]
        invariant RollsUp(nodes, done, br)
        decreases todo
      {
        var x :| x in todo;
        CountRollsUp(nodes, done, br, x, reach[x]);
        br := Count(nodes, br, x, reach[x]);
        done := done[x := reach[x]];
        todo := todo - {x};
      }
      assert done == reach;
      RollUpTotals(nodes, reach, br);
    }

    /** Ranked shortest paths to high-impact targets; None stands for the panic of a slice that is out of range. */
    method AttackPaths(start: Uuid, maxHops: int, limit: int) returns (paths: Option<seq<Attack.Path>>)
      ensures paths == if limit < 0 then None
          else Some(Attack.Ranked(nodes, out, start, Frontier.Bound(maxHops), limit))
      ensures Valid() && limit >= 0 ==>
        AreAttackPaths(nodes, stored, {Uses, Assumes, Impersonates, CanMintToken, BindsTo, References, FederatedFrom,
                                       HasPermissions}, start, maxHops, limit, paths.value)
    {
      hide Valid, AreAttackPaths;
      hide Upto, Frontier.Running, Ids, Tracing, ScanEdges, Attack.Targets, Attack.Gathered, StableSort.Sort;
      ghost var bound, keep := Frontier.Bound(maxHops), Max(limit, 0);
      var results: seq<Attack.Path> := [];
      var visitedTarget: set<Uuid> := {};
      var visited := {start};
      var q := [Origin(start)];
      ghost var popped: seq<Trail>, cut := [], false;
      Frontier.Starts(out, Capability, start, bound);
      Attack.NoTargets(nodes, start);
      while |q| > 0
        invariant Frontier.Running(out, Capability, start, bound, popped, q, visited)
        invariant visitedTarget <= Ids(popped)
        invariant results == Attack.Targets(nodes, start, popped) && |results| < Attack.Quota(keep)
        invariant !cut
        decreases |Upto(out, Capability, start, bound)| - |popped|
      {
        Frontier.VisitedIds(out, Capability, start, bound, popped, q, visited);
        Frontier.Advances(out, Capability, start, bound, popped, q, visited);
        var cur := q[0];
        ghost var rest, seen, found: seq<Trail>, before := q[1..], visited, [], popped;
        HeadIsNew(out, Capability, start, bound, popped, q);
        Attack.TargetsStep(nodes, start, popped, cur);
        IdsAppend(popped, cur);
        q := q[1..];
        popped := popped + [cur];
        if cur.id in nodes && cur.id != start {
          var impact := TargetImpact(nodes[cur.id]);
          if impact.Some? && cur.id !in visitedTarget {
            visitedTarget := visitedTarget + {cur.id};
            results := results + [Attack.Path(cur.path, cur.edges, impact.value, cur.hops)];
            if |results| >= limit * 3 {
              cut := true;
              Attack.PrefixIsGathered(nodes, out, start, bound, keep, popped);
              break;
            }
          }
        }
        Frontier.NothingScanned(out, Capability, {});
        if cur.hops < maxHops {
          var es := EdgesOf(out, cur.id);
          TraceStarts(Capability, cur, es, seen);
          for k := 0 to |es|
            invariant Tracing(Capability, cur, es, k, seen, found, visited) && q == rest + found
          {
            var e := es[k];
            TraceOne(Capability, cur, es, k, seen, found, visited);
            if !IsCapabilityEdge(e.etype) {
              continue;
            }
            if e.dst in visited {
              continue;
            }
            visited := visited + {e.dst};
            q := q + [Trail(e.dst, cur.path + [e.dst], cur.edges + [e], cur.hops + 1)];
            found := found + [Extend(cur, e)];
          }
          TraceEnds(Capability, cur, es, seen, found, visited);
        }
        assert found == Frontier.Found(out, Capability, bound, cur, seen) && visited == seen + Ids(found);
        assert rest + [] == rest;
      }
      if !cut {
        Frontier.Finishes(out, Capability, start, bound, popped, visited);
        Attack.WholeIsGathered(nodes, out, start, bound, keep);
      }
      results := StableSort.Sort(results, Attack.PathKey);
      if |results| > limit {
        if limit < 0 {
          return None;
        }
        results := results[..limit];
      }
      paths := Some(results);
      if Valid() {
        ValidFiled();
        FiledCapabilities(out, stored);
        FiledMembers(out, stored);
        RankedAreAttackPaths(nodes, out, stored, CAPABILITIES, start, maxHops, limit);
      }
    }

    /** Shows the edges of one adjacency list, and the ends not yet shown. */
    method ShowAll(es: seq<Edge>, start: Uuid, ghost done: set<Edge>, ghost before: set<Uuid>, seenN0: set<Uuid>,
                   seenE0: set<EdgeKey>, listed0: seq<Node>, edges0: seq<Edge>, next0: seq<Uuid>)
      returns (seenN: set<Uuid>, seenE: set<EdgeKey>, listed: seq<Node>, edges: seq<Edge>, next: seq<Uuid>)
      requires forall x :: x in nodes ==> nodes[x].id == x
      requires Shows(nodes, start, done, seenN0, seenE0, listed0, edges0) && Newcomers(nodes, before, seenN0, next0)
      ensures Shows(nodes, start, done + (set e | e in es), seenN, seenE, listed, edges)
          && Newcomers(nodes, before, seenN, next)
    {
      hide NodesShown, EdgesShown, Ends;
      seenN, seenE, listed, edges, next := seenN0, seenE0, listed0, edges0, next0;
      ghost var shown := done;
      assert done + (set e | e in es[..0]) == done;
      for k := 0 to |es|
        invariant shown == done + (set e | e in es[..k])
        invariant Shows(nodes, start, shown, seenN, seenE, listed, edges) && Newcomers(nodes, before, seenN, next)
      {
        var e := es[k];
        assert es[..k + 1] == es[..k] + [e];
        ShowEdge(shown, seenE, edges, e);
        EndsGrow(shown, e);
        if KeyOf(e) !in seenE {
          edges := edges + [e];
        }
        seenE := seenE + {KeyOf(e)};
        shown := shown + {e};
        ghost var seen0 := seenN;
        var others := [e.src, e.dst];
        for o := 0 to 2
          invariant seenN == seen0 + (set x | x in others[..o])
          invariant NodesShown(nodes, seenN, listed) && Newcomers(nodes, before, seenN, next)
        {
          var other := others[o];
          assert others[..o + 1] == others[..o] + [other];
          if other !in seenN {
            ShowId(nodes, seenN, listed, other);
            seenN := seenN + {other};
            if other in nodes {
              listed := listed + [nodes[other]];
              next := next + [other];
            }
          }
        }
        assert others[..2] == others;
      }
      assert es[..|es|] == es;
    }

    /** The sub-graph within `depth` undirected hops of `start`. */
    method Neighborhood(start: Uuid, depth: int) returns (listed: seq<Node>, edges: seq<Edge>)
      requires Valid()
      ensures IsNeighborhood(nodes, stored, start, depth, listed, edges)
    {
      hide NodesShown, EdgesShown, Ends, RoundDone, Vicinity, IsView, Around, Filed, Newcomers, IsRing;
      var seenN, seenE: set<EdgeKey> := {start}, {};
      listed, edges := if start in nodes then [nodes[start]] else [], [];
      var frontier := [start];
      ghost var done: set<Edge> := {};
      FirstRound(nodes, stored, start);
      FirstView(nodes, start);
      FirstRing(nodes, stored, start);
      for d := 0 to Max(depth, 0)
        invariant RoundDone(nodes, stored, start, d, done)
        invariant Shows(nodes, start, done, seenN, seenE, listed, edges)
        invariant IsRing(nodes, stored, start, d, frontier)
      {
        var next: seq<Uuid> := [];
        ghost var done0, before := done, seenN;
        RoundStarts(nodes, stored, before, frontier, done0);
        for i := 0 to |frontier|
          invariant done == done0 + Around(stored, Members(frontier[..i]))
          invariant Shows(nodes, start, done, seenN, seenE, listed, edges) && Newcomers(nodes, before, seenN, next)
        {
          var o, n := EdgesOf(out, frontier[i]), EdgesOf(inn, frontier[i]);
          Incident(stored, frontier[i]);
          AroundOneMore(stored, frontier, i, o, n);
          seenN, seenE, listed, edges, next := ShowAll(o, start, done, before, seenN, seenE, listed, edges, next);
          done := done + (set e | e in o);
          seenN, seenE, listed, edges, next := ShowAll(n, start, done, before, seenN, seenE, listed, edges, next);
          done := done + (set e | e in n);
        }
        assert frontier[..|frontier|] == frontier;
        RoundEnds(nodes, stored, start, d, done0, done, before, seenN, frontier, next);
        frontier := next;
      }
      ViewDone(nodes, stored, start, Max(depth, 0), done, seenN, seenE, listed, edges);
      ViewIsNeighborhood(nodes, stored, start, depth, listed, edges);
    }

    /** The 90th percentile of the reachable-resource counts of all identities, visited in any order. */
    method ReachableCountP90(maxHops: int) returns (r: int)
      ensures forall order :: Enumerates(order, set x | x in nodes && nodes[x].ntype.Identity?)
                ==> r == Percentile.Quantile(Counts(nodes, out, order, Frontier.Bound(maxHops)), 0.9)
    {
      hide Percentile.Quantile, Reach.ReachMap;
      var counts: seq<int> := [];
      var todo := nodes.Keys;
      ghost var visited: seq<Uuid> := [];
      while todo != {}
        invariant todo <= nodes.Keys
        invariant counts == Counts(nodes, out, visited, Frontier.Bound(maxHops))
        invariant Enumerates(visited, Identities(nodes) - todo)
        decreases todo
      {
        var id :| id in todo;
        todo := todo - {id};
        if nodes[id].ntype.Identity? {
          var br := ComputeBlastRadius(id, maxHops);
          counts := counts + [br.reachableResources];
          visited := visited + [id];
        }
      }
      var vals := new int[|counts|](i requires 0 <= i < |counts| => counts[i]);
      assert vals[..] == counts;
      assert Identities(nodes) == set x | x in nodes && nodes[x].ntype.Identity?;
      forall order | Enumerates(order, Identities(nodes))
        ensures Percentile.Quantile(counts, 0.9)
            == Percentile.Quantile(Counts(nodes, out, order, Frontier.Bound(maxHops)), 0.9)
      {
        CountsPermute(nodes, out, visited, order, Identities(nodes), Frontier.Bound(maxHops));
        Percentile.QuantileIgnoresOrder(counts, Counts(nodes, out, order, Frontier.Bound(maxHops)), 0.9);
      }
      r := Percentile.NearestRank(vals, 0.9);
    }
  }

  function Identities(nodes: Nodes): set<Uuid> {
    set x | x in nodes && nodes[x].ntype.Identity?
  }

  /** `order` lists the members of `s`, each once. */
  ghost predicate Enumerates(order: seq<Uuid>, s: set<Uuid>) {
    (forall x :: x in order <==> x in s) && forall i, j :: 0 <= i < j < |order| ==> order[i] != order[j]
  }

  function ReachedCount(nodes: Nodes, adj: Adjacency, x: Uuid, h: nat): int {
    |Reached(nodes, Reach.ReachMap(adj, x, h), AnyResource)|
  }

  function Counts(nodes: Nodes, adj: Adjacency, order: seq<Uuid>, h: nat): seq<int> {
    seq(|order|, i requires 0 <= i < |order| => ReachedCount(nodes, adj, order[i], h))
  }

  lemma CountsConcat(nodes: Nodes, adj: Adjacency, a: seq<Uuid>, b: seq<Uuid>, h: nat)
    ensures Counts(nodes, adj, a + b, h) == Counts(nodes, adj, a, h) + Counts(nodes, adj, b, h)
  {
    hide ReachedCount;
  }

  /** Counting one listed id first gives the same counts up to order. */
  lemma CountsBringForward(nodes: Nodes, adj: Adjacency, order: seq<Uuid>, i: nat, h: nat)
    requires i < |order|
    ensures multiset(Counts(nodes, adj, order, h))
      == multiset(Counts(nodes, adj, [order[i]], h)) + multiset(Counts(nodes, adj, order[..i] + order[i + 1..], h))
  {
    hide Counts;
    var front, x, back := order[..i], [order[i]], order[i + 1..];
    assert order == front + (x + back);
    CountsConcat(nodes, adj, front, x + back, h);
    CountsConcat(nodes, adj, x, back, h);
    CountsConcat(nodes, adj, front, back, h);
  }

  lemma Listed(order: seq<Uuid>, s: set<Uuid>)
    requires Enumerates(order, s)
    ensures forall x :: x in order <==> x in s
  {
  }

  lemma EmptyListing(order: seq<Uuid>, s: set<Uuid>)
    requires Enumerates(order, s)
    ensures order == [] <==> s == {}
  {
    if order != [] {
      assert order[0] in s;
    }
  }

  lemma StrikeOut(order: seq<Uuid>, s: set<Uuid>, i: nat)
    requires Enumerates(order, s) && i < |order|
    ensures Enumerates(order[..i] + order[i + 1..], s - {order[i]})
  {
    var rest := order[..i] + order[i + 1..];
    assert order == order[..i] + ([order[i]] + order[i + 1..]);
    forall x ensures x in rest <==> x in s - {order[i]} {
      assert x in order <==> x in rest || x == order[i];
    }
  }

  /** Two listings of the same ids give the same counts up to order. */
  lemma {:induction false} CountsPermute(nodes: Nodes, adj: Adjacency, a: seq<Uuid>, b: seq<Uuid>, s: set<Uuid>, h: nat)
    requires Enumerates(a, s) && Enumerates(b, s)
    ensures multiset(Counts(nodes, adj, a, h)) == multiset(Counts(nodes, adj, b, h))
    decreases |a|
  {
    if a == [] {
      EmptyListing(a, s);
      EmptyListing(b, s);
    } else {
      hide Counts, Enumerates;
      assert a[0] in b by {
        Listed(a, s);
        Listed(b, s);
      }
      var x := a[0];
      var i :| 0 <= i < |b| && b[i] == x;
      var a', b' := a[..0] + a[1..], b[..i] + b[i + 1..];
      StrikeOut(a, s, 0);
      StrikeOut(b, s, i);
      CountsPermute(nodes, adj, a', b', s - {x}, h);
      CountsBringForward(nodes, adj, a, 0, h);
      CountsBringForward(nodes, adj, b, i, h);
    }
  }

  lemma Incident(stored: seq<Edge>, x: Uuid)
    ensures forall e :: e in Filed(stored, x, true) <==> e in stored && e.src == x
    ensures forall e :: e in Filed(stored, x, false) <==> e in stored && e.dst == x
  {
  }

  function LastHops(popped: seq<Trail>): nat {
    if popped == [] then 0 else popped[|popped| - 1].hops
  }

  lemma LastHopsGrow(adj: Adjacency, start: Uuid, limit: nat, popped: seq<Trail>, queue: seq<Trail>)
    requires popped + queue <= Upto(adj, Trust, start, limit) && queue != []
    ensures LastHops(popped) <= queue[0].hops
  {
    hide Upto;
    UptoOrdered(adj, Trust, start, limit);
    var all := Upto(adj, Trust, start, limit);
    assert (popped + queue)[|popped|] == queue[0] == all[|popped|];
    if popped != [] {
      assert (popped + queue)[|popped| - 1] == popped[|popped| - 1] == all[|popped| - 1];
    }
  }

  lemma HeadIsNew(adj: Adjacency, mode: Mode, start: Uuid, limit: nat, popped: seq<Trail>, queue: seq<Trail>)
    requires popped + queue <= Upto(adj, mode, start, limit) && queue != []
    ensures queue[0].id !in Ids(popped) && popped + [queue[0]] <= Upto(adj, mode, start, limit)
  {
    hide Upto;
    UptoOrdered(adj, mode, start, limit);
    var all := Upto(adj, mode, start, limit);
    assert (popped + queue)[|popped|] == queue[0] == all[|popped|];
    forall i | 0 <= i < |popped| ensures popped[i].id != queue[0].id {
      assert (popped + queue)[i] == popped[i] == all[i];
    }
  }

  lemma IdsAppend(s: seq<Trail>, t: Trail)
    ensures Ids(s + [t]) == Ids(s) + {t.id}
  {
  }
}
