/** A work queue visits the layers in order: what every queue-driven traversal of graph.go keeps. */
module Frontier {
  import opened Prelude
  import opened Layers

  /** The source's hop limits are ints; a negative one expands nothing. */
  function Bound(maxHops: int): nat { Max(maxHops, 0) }

  function Before(adj: Adjacency, mode: Mode, start: Uuid, d: nat): seq<Trail> {
    if d == 0 then [] else Upto(adj, mode, start, d - 1)
  }

  /** `i` trails of layer `d` have been taken from the queue, all with their edges scanned unless `d` is the limit. */
  ghost predicate At(adj: Adjacency, mode: Mode, start: Uuid, limit: nat, d: nat, i: nat,
                     popped: seq<Trail>, queue: seq<Trail>, visited: set<Uuid>) {
    var layer := Layer(adj, mode, start, d);
    && d <= limit && i <= |layer|
    && popped == Before(adj, mode, start, d) + layer[..i]
    && var ahead := if d < limit then ScanLayer(adj, mode, layer[..i], Ids(Upto(adj, mode, start, d))) else [];
    && queue == layer[i..] + ahead
    && visited == Ids(Upto(adj, mode, start, d)) + Ids(ahead)
  }

  /** `popped` has been taken from the queue, `queue` is still in it, `visited` marks both. */
  ghost predicate Running(adj: Adjacency, mode: Mode, start: Uuid, limit: nat,
                          popped: seq<Trail>, queue: seq<Trail>, visited: set<Uuid>) {
    exists d: nat, i: nat :: At(adj, mode, start, limit, d, i, popped, queue, visited)
  }

  lemma Starts(adj: Adjacency, mode: Mode, start: Uuid, limit: nat)
    ensures Running(adj, mode, start, limit, [], [Origin(start)], {start})
  {
    assert Origin(start) in Upto(adj, mode, start, 0);
    assert ScanLayer(adj, mode, [], Ids(Upto(adj, mode, start, 0))) == [];
    assert At(adj, mode, start, limit, 0, 0, [], [Origin(start)], {start});
  }

  /** What handling the head of the queue appends to it. */
  function Found(adj: Adjacency, mode: Mode, limit: nat, cur: Trail, visited: set<Uuid>): seq<Trail> {
    if cur.hops >= limit then [] else ScanEdges(mode, cur, EdgesOf(adj, cur.id), visited)
  }

  lemma NothingScanned(adj: Adjacency, mode: Mode, seen: set<Uuid>)
    ensures Ids([]) == {} && ScanLayer(adj, mode, [], seen) == []
  {
  }

  lemma LayerStep(adj: Adjacency, mode: Mode, start: Uuid, d: nat)
    ensures Layer(adj, mode, start, d + 1) == ScanLayer(adj, mode, Layer(adj, mode, start, d),
                                                        Ids(Upto(adj, mode, start, d)))
    ensures Upto(adj, mode, start, d + 1) == Upto(adj, mode, start, d) + Layer(adj, mode, start, d + 1)
    ensures Upto(adj, mode, start, d) == Before(adj, mode, start, d) + Layer(adj, mode, start, d)
  {
  }

  /** The end of layer `d` is the start of layer `d + 1`. */
  lemma NextLayer(adj: Adjacency, mode: Mode, start: Uuid, limit: nat, d: nat,
                  popped: seq<Trail>, queue: seq<Trail>, visited: set<Uuid>)
    requires At(adj, mode, start, limit, d, |Layer(adj, mode, start, d)|, popped, queue, visited)
    requires d < limit
    ensures At(adj, mode, start, limit, d + 1, 0, popped, queue, visited) && queue == Layer(adj, mode, start, d + 1)
  {
    hide ScanEdges, ScanLayer, Ids, Layer, Upto;
    LayerStep(adj, mode, start, d);
    var layer, next := Layer(adj, mode, start, d), Layer(adj, mode, start, d + 1);
    assert layer[..|layer|] == layer;
    IdsConcat(Upto(adj, mode, start, d), next);
    assert next[..0] == [];
    NothingScanned(adj, mode, Ids(Upto(adj, mode, start, d + 1)));
  }

  lemma StaysWithin(adj: Adjacency, mode: Mode, start: Uuid, limit: nat, d: nat, i: nat,
               popped: seq<Trail>, queue: seq<Trail>, visited: set<Uuid>)
    requires At(adj, mode, start, limit, d, i, popped, queue, visited)
    requires i < |Layer(adj, mode, start, d)|
    ensures queue != [] && queue[0] == Layer(adj, mode, start, d)[i] && queue[0].hops == d
    ensures var found := Found(adj, mode, limit, queue[0], visited);
            At(adj, mode, start, limit, d, i + 1, popped + [queue[0]], queue[1..] + found, visited + Ids(found))
  {
    hide ScanEdges, EdgesOf, Extend, Ids, Layer, Upto, Before;
    var layer, seen := Layer(adj, mode, start, d), Ids(Upto(adj, mode, start, d));
    var cur := layer[i];
    LayerHops(adj, mode, start, d, cur);
    assert layer[..i + 1][..i] == layer[..i] && layer[i..] == [cur] + layer[i + 1..];
    var ahead := if d < limit then ScanLayer(adj, mode, layer[..i], seen) else [];
    var found := Found(adj, mode, limit, cur, visited);
    IdsConcat(ahead, found);
    NothingScanned(adj, mode, seen);
    assert queue[1..] + found == layer[i + 1..] + (ahead + found);
    assert popped + [cur] == Before(adj, mode, start, d) + layer[..i + 1];
  }

  /** A non-empty queue is at some place inside a layer. */
  lemma HeadPlace(adj: Adjacency, mode: Mode, start: Uuid, limit: nat,
                  popped: seq<Trail>, queue: seq<Trail>, visited: set<Uuid>) returns (d: nat, i: nat)
    requires Running(adj, mode, start, limit, popped, queue, visited) && queue != []
    ensures i < |Layer(adj, mode, start, d)| && At(adj, mode, start, limit, d, i, popped, queue, visited)
  {
    hide ScanLayer, Ids, Layer, Upto, Before;
    d, i :| At(adj, mode, start, limit, d, i, popped, queue, visited);
    if i == |Layer(adj, mode, start, d)| {
      NextLayer(adj, mode, start, limit, d, popped, queue, visited);
      d, i := d + 1, 0;
    }
  }

  /** Taking the head and scanning its edges keeps the queue running. */
  lemma Advances(adj: Adjacency, mode: Mode, start: Uuid, limit: nat,
                 popped: seq<Trail>, queue: seq<Trail>, visited: set<Uuid>)
    requires Running(adj, mode, start, limit, popped, queue, visited) && queue != []
    ensures var found := Found(adj, mode, limit, queue[0], visited);
            Running(adj, mode, start, limit, popped + [queue[0]], queue[1..] + found, visited + Ids(found))
  {
    hide At, Ids, Layer, Found;
    var d, i := HeadPlace(adj, mode, start, limit, popped, queue, visited);
    StaysWithin(adj, mode, start, limit, d, i, popped, queue, visited);
    var found := Found(adj, mode, limit, queue[0], visited);
    assert At(adj, mode, start, limit, d, i + 1, popped + [queue[0]], queue[1..] + found, visited + Ids(found));
  }

  lemma {:induction false} UptoIsPrefix(adj: Adjacency, mode: Mode, start: Uuid, d: nat, n: nat)
    requires d <= n
    ensures Upto(adj, mode, start, d) <= Upto(adj, mode, start, n)
    decreases n
  {
    if d < n {
      UptoIsPrefix(adj, mode, start, d, n - 1);
    }
  }

  /** An empty queue has visited the whole order. */
  lemma Finishes(adj: Adjacency, mode: Mode, start: Uuid, limit: nat, popped: seq<Trail>, visited: set<Uuid>)
    requires Running(adj, mode, start, limit, popped, [], visited)
    ensures popped == Upto(adj, mode, start, limit) && visited == Ids(popped)
  {
    hide ScanEdges, ScanLayer, Ids, Layer, Upto;
    var d: nat, i: nat :| At(adj, mode, start, limit, d, i, popped, [], visited);
    LayerStep(adj, mode, start, d);
    var layer := Layer(adj, mode, start, d);
    assert layer[i..] == [];
    assert layer[..i] == layer;
    NothingScanned(adj, mode, {});
    if d < limit {
      LayersEnd(adj, mode, start, d + 1, limit);
    }
  }

  lemma {:induction false} ScanLayerIsPrefix(adj: Adjacency, mode: Mode, layer: seq<Trail>, seen: set<Uuid>, i: nat)
    requires i <= |layer|
    ensures ScanLayer(adj, mode, layer[..i], seen) <= ScanLayer(adj, mode, layer, seen)
    decreases |layer|
  {
    if i == |layer| {
      assert layer[..i] == layer;
    } else {
      ScanLayerIsPrefix(adj, mode, layer[..|layer| - 1], seen, i);
      assert layer[..|layer| - 1][..i] == layer[..i];
    }
  }

  /** What is taken or waiting is an initial part of the order, and is what is marked. */
  lemma VisitedIds(adj: Adjacency, mode: Mode, start: Uuid, limit: nat,
                   popped: seq<Trail>, queue: seq<Trail>, visited: set<Uuid>)
    requires Running(adj, mode, start, limit, popped, queue, visited)
    ensures visited == Ids(popped + queue)
    ensures popped + queue <= Upto(adj, mode, start, limit)
  {
    hide ScanEdges, ScanLayer, Ids, Layer, Upto;
    var d: nat, i: nat :| At(adj, mode, start, limit, d, i, popped, queue, visited);
    LayerStep(adj, mode, start, d);
    var layer := Layer(adj, mode, start, d);
    var ahead := if d < limit then ScanLayer(adj, mode, layer[..i], Ids(Upto(adj, mode, start, d))) else [];
    assert popped + queue == Upto(adj, mode, start, d) + ahead;
    IdsConcat(Upto(adj, mode, start, d), ahead);
    UptoIsPrefix(adj, mode, start, d, limit);
    if d < limit {
      ScanLayerIsPrefix(adj, mode, layer, Ids(Upto(adj, mode, start, d)), i);
      UptoIsPrefix(adj, mode, start, d + 1, limit);
    }
  }
}
