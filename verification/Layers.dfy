/** The property graph's values and the breadth-first order the traversals of graph.go follow. */
module Layers {
  import opened Prelude
  import opened Walks

  datatype EdgeType =
    | Uses | Assumes | Impersonates | CanMintToken | BindsTo
    | References | FederatedFrom | HasPermissions | OtherEdge(name: string)

  datatype Edge = Edge(src: Uuid, dst: Uuid, etype: EdgeType, weight: real, observed: bool)

  /** The adjacency lists: the edges stored under an id, oldest first. */
  type Adjacency = map<Uuid, seq<Edge>>

  function EdgesOf(adj: Adjacency, x: Uuid): seq<Edge> {
    if x in adj then adj[x] else []
  }

  /** Which edges a forward traversal follows. */
  datatype Mode = Capability | Trust

  predicate IsCapabilityEdge(t: EdgeType) {
    !t.OtherEdge?
  }

  predicate IsTrustEdge(t: EdgeType) {
    t.Assumes? || t.Impersonates? || t.FederatedFrom? || t.CanMintToken?
  }

  predicate Follows(mode: Mode, e: Edge) {
    match mode
    case Capability => IsCapabilityEdge(e.etype)
    case Trust => IsTrustEdge(e.etype)
  }

  /** The successor relation a mode induces. */
  function Steps(adj: Adjacency, mode: Mode): Succ {
    map x | x in adj :: set e | e in adj[x] && Follows(mode, e) :: e.dst
  }

  lemma StepsJoin(adj: Adjacency, mode: Mode, x: Uuid, y: Uuid)
    ensures Joined(Steps(adj, mode), x, y) <==> exists e :: e in EdgesOf(adj, x) && Follows(mode, e) && e.dst == y
  {
  }

  /** An id a traversal has found, with the walk that found it. */
  datatype Trail = Trail(id: Uuid, path: seq<Uuid>, edges: seq<Edge>, hops: nat)

  function Origin(start: Uuid): Trail {
    Trail(start, [start], [], 0)
  }

  function Extend(t: Trail, e: Edge): Trail {
    Trail(e.dst, t.path + [e.dst], t.edges + [e], t.hops + 1)
  }

  function Ids(s: seq<Trail>): set<Uuid> {
    set t | t in s :: t.id
  }

  lemma IdsConcat(s: seq<Trail>, t: seq<Trail>)
    ensures Ids(s + t) == Ids(s) + Ids(t)
  {
  }

  /** The trails that scanning the edge list `es` of `cur` finds, when `seen` is already known. */
  function ScanEdges(mode: Mode, cur: Trail, es: seq<Edge>, seen: set<Uuid>): seq<Trail> {
    if es == [] then [] else
      var found := ScanEdges(mode, cur, es[..|es| - 1], seen);
      var e := es[|es| - 1];
      if Follows(mode, e) && e.dst !in seen && e.dst !in Ids(found) then found + [Extend(cur, e)] else found
  }

  /** The trails that scanning a whole layer finds. */
  function ScanLayer(adj: Adjacency, mode: Mode, layer: seq<Trail>, seen: set<Uuid>): seq<Trail> {
    if layer == [] then [] else
      var found := ScanLayer(adj, mode, layer[..|layer| - 1], seen);
      var cur := layer[|layer| - 1];
      found + ScanEdges(mode, cur, EdgesOf(adj, cur.id), seen + Ids(found))
  }

  /** Layer `d` of the breadth-first order: the ids first reached in `d` steps, in discovery order. */
  function Layer(adj: Adjacency, mode: Mode, start: Uuid, d: nat): seq<Trail>
    decreases d, 0
  {
    if d == 0 then [Origin(start)]
    else ScanLayer(adj, mode, Layer(adj, mode, start, d - 1), Ids(Upto(adj, mode, start, d - 1)))
  }

  /** The whole breadth-first order down to depth `d`. */
  function Upto(adj: Adjacency, mode: Mode, start: Uuid, d: nat): seq<Trail>
    decreases d, 1
  {
    if d == 0 then Layer(adj, mode, start, 0) else Upto(adj, mode, start, d - 1) + Layer(adj, mode, start, d)
  }

  // ----- what a scan finds -----

  lemma {:induction false} ScanEdgesFinds(mode: Mode, cur: Trail, es: seq<Edge>, seen: set<Uuid>)
    ensures var r := ScanEdges(mode, cur, es, seen);
            && (forall t :: t in r ==> exists e :: e in es && Follows(mode, e) && e.dst !in seen && t == Extend(cur, e))
            && (forall e :: e in es && Follows(mode, e) && e.dst !in seen ==> e.dst in Ids(r))
            && Ids(r) !! seen
            && (forall i, j :: 0 <= i < j < |r| ==> r[i].id != r[j].id)
  {
    if es != [] {
      var front, e := es[..|es| - 1], es[|es| - 1];
      assert es == front + [e];
      ScanEdgesFinds(mode, cur, front, seen);
      var found := ScanEdges(mode, cur, front, seen);
      IdsConcat(found, [Extend(cur, e)]);
      assert Extend(cur, e) in [Extend(cur, e)];
      forall i | 0 <= i < |found| ensures found[i].id in Ids(found) {
      }
    }
  }

  lemma {:induction false} ScanLayerFinds(adj: Adjacency, mode: Mode, layer: seq<Trail>, seen: set<Uuid>)
    ensures var r := ScanLayer(adj, mode, layer, seen);
            && (forall t :: t in r ==> exists u, e ::
                  u in layer && e in EdgesOf(adj, u.id) && Follows(mode, e) && e.dst !in seen && t == Extend(u, e))
            && (forall u, e :: u in layer && e in EdgesOf(adj, u.id) && Follows(mode, e) && e.dst !in seen ==>
                  e.dst in Ids(r))
            && Ids(r) !! seen
            && (forall i, j :: 0 <= i < j < |r| ==> r[i].id != r[j].id)
  {
    if layer != [] {
      var front, cur := layer[..|layer| - 1], layer[|layer| - 1];
      assert layer == front + [cur];
      ScanLayerFinds(adj, mode, front, seen);
      var found := ScanLayer(adj, mode, front, seen);
      var es := EdgesOf(adj, cur.id);
      ScanEdgesFinds(mode, cur, es, seen + Ids(found));
      var more := ScanEdges(mode, cur, es, seen + Ids(found));
      IdsConcat(found, more);
      forall i | 0 <= i < |found| ensures found[i].id in Ids(found) {
      }
      forall i | 0 <= i < |more| ensures more[i].id in Ids(more) {
      }
    }
  }

  // ----- the layers are the rings of equal distance -----

  lemma ScanLayerIdSound(adj: Adjacency, mode: Mode, layer: seq<Trail>, seen: set<Uuid>, t: Trail)
    requires t in ScanLayer(adj, mode, layer, seen)
    ensures t.id in Image(Steps(adj, mode), Ids(layer)) && t.id !in seen
  {
    ScanLayerFinds(adj, mode, layer, seen);
    var u, e :| u in layer && e in EdgesOf(adj, u.id) && Follows(mode, e) && e.dst !in seen && t == Extend(u, e);
    StepsJoin(adj, mode, u.id, t.id);
    assert u.id in Ids(layer) && Joined(Steps(adj, mode), u.id, t.id);
    ImageMember(Steps(adj, mode), Ids(layer), t.id);
  }

  lemma ScanLayerIdComplete(adj: Adjacency, mode: Mode, layer: seq<Trail>, seen: set<Uuid>, y: Uuid)
    requires y in Image(Steps(adj, mode), Ids(layer)) && y !in seen
    ensures y in Ids(ScanLayer(adj, mode, layer, seen))
  {
    ImageMember(Steps(adj, mode), Ids(layer), y);
    var x :| x in Ids(layer) && Joined(Steps(adj, mode), x, y);
    var u :| u in layer && u.id == x;
    StepsJoin(adj, mode, x, y);
    var e :| e in EdgesOf(adj, x) && Follows(mode, e) && e.dst == y;
    ScanLayerFinds(adj, mode, layer, seen);
  }

  /** Scanning a layer finds exactly the unseen successors of its ids. */
  lemma ScanLayerIds(adj: Adjacency, mode: Mode, layer: seq<Trail>, seen: set<Uuid>)
    ensures Ids(ScanLayer(adj, mode, layer, seen)) == Image(Steps(adj, mode), Ids(layer)) - seen
  {
    var r := ScanLayer(adj, mode, layer, seen);
    forall y | y in Ids(r) ensures y in Image(Steps(adj, mode), Ids(layer)) - seen {
      var t :| t in r && t.id == y;
      ScanLayerIdSound(adj, mode, layer, seen, t);
    }
    forall y | y in Image(Steps(adj, mode), Ids(layer)) - seen ensures y in Ids(r) {
      ScanLayerIdComplete(adj, mode, layer, seen, y);
    }
  }

  /** A step out of a ball starts from its outermost ring. */
  lemma RingSuffices(succ: Succ, x: Uuid, d: nat, ring: set<Uuid>)
    requires if d == 0 then ring == {x} else ring == Ball(succ, x, d) - Ball(succ, x, d - 1)
    ensures Ball(succ, x, d + 1) == Ball(succ, x, d) + Image(succ, ring)
  {
  }

  lemma NextRing(adj: Adjacency, mode: Mode, start: Uuid, d: nat, seen: seq<Trail>, layer: seq<Trail>, next: seq<Trail>)
    requires Ids(seen) == Ball(Steps(adj, mode), start, d)
    requires if d == 0 then Ids(layer) == {start}
             else Ids(layer) == Ball(Steps(adj, mode), start, d) - Ball(Steps(adj, mode), start, d - 1)
    requires next == ScanLayer(adj, mode, layer, Ids(seen))
    ensures Ids(seen + next) == Ball(Steps(adj, mode), start, d + 1)
    ensures Ids(next) == Ball(Steps(adj, mode), start, d + 1) - Ball(Steps(adj, mode), start, d)
  {
    ScanLayerIds(adj, mode, layer, Ids(seen));
    IdsConcat(seen, next);
    RingSuffices(Steps(adj, mode), start, d, Ids(layer));
  }

  lemma {:induction false} UptoIsBall(adj: Adjacency, mode: Mode, start: Uuid, d: nat)
    ensures Ids(Upto(adj, mode, start, d)) == Ball(Steps(adj, mode), start, d)
    ensures if d == 0 then Ids(Layer(adj, mode, start, d)) == {start}
            else Ids(Layer(adj, mode, start, d)) ==
                 Ball(Steps(adj, mode), start, d) - Ball(Steps(adj, mode), start, d - 1)
  {
    hide ScanLayer, Ball, Ids;
    if d == 0 {
      StartIsBall(adj, mode, start);
    } else {
      UptoIsBall(adj, mode, start, d - 1);
      NextRing(adj, mode, start, d - 1, Upto(adj, mode, start, d - 1), Layer(adj, mode, start, d - 1),
               Layer(adj, mode, start, d));
    }
  }

  lemma StartIsBall(adj: Adjacency, mode: Mode, start: Uuid)
    ensures Ids(Layer(adj, mode, start, 0)) == {start}
        && Ids(Upto(adj, mode, start, 0)) == Ball(Steps(adj, mode), start, 0)
  {
    assert Origin(start) in Upto(adj, mode, start, 0);
  }

  // ----- trails are shortest simple walks along stored edges -----

  /** Edge `e` is stored under `x`, is followed, and leads to `y`. */
  predicate StoredStep(adj: Adjacency, mode: Mode, x: Uuid, e: Edge, y: Uuid) {
    e in EdgesOf(adj, x) && Follows(mode, e) && e.dst == y
  }

  /** The trail is a walk from `start` along stored edges that the mode follows, without a repeated id. */
  ghost predicate IsTrail(adj: Adjacency, mode: Mode, start: Uuid, t: Trail) {
    && |t.path| == t.hops + 1 && |t.edges| == t.hops
    && t.path[0] == start && t.path[t.hops] == t.id
    && (forall i :: 0 <= i < t.hops ==> StoredStep(adj, mode, t.path[i], t.edges[i], t.path[i + 1]))
    && (forall i, j :: 0 <= i < j <= t.hops ==> t.path[i] != t.path[j])
  }

  /** A trail of layer `d` has `d` hops and stays within the `known` ids. */
  ghost predicate LayerOk(adj: Adjacency, mode: Mode, start: Uuid, d: nat, known: set<Uuid>, t: Trail) {
    t.hops == d && IsTrail(adj, mode, start, t) && forall x :: x in t.path ==> x in known
  }

  lemma NextTrail(adj: Adjacency, mode: Mode, start: Uuid, d: nat, known: set<Uuid>, u: Trail, e: Edge, more: set<Uuid>)
    requires LayerOk(adj, mode, start, d, known, u)
    requires StoredStep(adj, mode, u.id, e, e.dst) && e.dst !in known && e.dst in more
    ensures LayerOk(adj, mode, start, d + 1, known + more, Extend(u, e))
  {
  }

  /** A trail that a scan finds extends a trail of the scanned layer to an unseen id. */
  lemma ScannedTrail(adj: Adjacency, mode: Mode, layer: seq<Trail>, seen: set<Uuid>, t: Trail)
      returns (u: Trail, e: Edge)
    requires t in ScanLayer(adj, mode, layer, seen)
    ensures u in layer && StoredStep(adj, mode, u.id, e, e.dst) && e.dst !in seen && t == Extend(u, e)
  {
    hide ScanLayer;
    ScanLayerFinds(adj, mode, layer, seen);
    u, e :| u in layer && e in EdgesOf(adj, u.id) && Follows(mode, e) && e.dst !in seen && t == Extend(u, e);
  }

  lemma {:induction false} LayerTrails(adj: Adjacency, mode: Mode, start: Uuid, d: nat, t: Trail)
    requires t in Layer(adj, mode, start, d)
    ensures LayerOk(adj, mode, start, d, Ids(Upto(adj, mode, start, d)), t)
  {
    hide ScanLayer, StoredStep;
    if d == 0 {
      assert Origin(start) in Upto(adj, mode, start, 0);
    } else {
      hide IsTrail, LayerOk;
      var seen, next := Upto(adj, mode, start, d - 1), Layer(adj, mode, start, d);
      var u, e := ScannedTrail(adj, mode, Layer(adj, mode, start, d - 1), Ids(seen), t);
      LayerTrails(adj, mode, start, d - 1, u);
      IdsConcat(seen, next);
      assert t.id in Ids(next);
      NextTrail(adj, mode, start, d - 1, Ids(seen), u, e, Ids(next));
    }
  }

  lemma LayerHops(adj: Adjacency, mode: Mode, start: Uuid, d: nat, t: Trail)
    requires t in Layer(adj, mode, start, d)
    ensures t.hops == d
  {
    hide IsTrail, Layer;
    LayerTrails(adj, mode, start, d, t);
  }

  /** Every trail of the order is a shortest simple walk. */
  lemma {:induction false} UptoTrails(adj: Adjacency, mode: Mode, start: Uuid, d: nat, t: Trail)
    requires t in Upto(adj, mode, start, d)
    ensures t.hops <= d && IsTrail(adj, mode, start, t)
    ensures AtDistance(Steps(adj, mode), start, t.id, t.hops)
    ensures t in Layer(adj, mode, start, t.hops)
    decreases d
  {
    if t in Layer(adj, mode, start, d) {
      LayerTrails(adj, mode, start, d, t);
      UptoIsBall(adj, mode, start, d);
      assert t.id in Ids(Layer(adj, mode, start, d));
      RingIsDistance(Steps(adj, mode), start, t.id, d);
    } else {
      UptoTrails(adj, mode, start, d - 1, t);
    }
  }

  lemma LayerIsNew(adj: Adjacency, mode: Mode, start: Uuid, d: nat)
    requires d > 0
    ensures Ids(Layer(adj, mode, start, d)) !! Ids(Upto(adj, mode, start, d - 1))
        && Different(Layer(adj, mode, start, d))
  {
    hide ScanLayer, Upto, Ids;
    ScanLayerFinds(adj, mode, Layer(adj, mode, start, d - 1), Ids(Upto(adj, mode, start, d - 1)));
  }

  ghost predicate Different(s: seq<Trail>) {
    forall i, j :: 0 <= i < j < |s| ==> s[i].id != s[j].id
  }

  ghost predicate Outward(s: seq<Trail>) {
    forall i, j :: 0 <= i < j < |s| ==> s[i].hops <= s[j].hops
  }

  lemma OutwardConcat(seen: seq<Trail>, next: seq<Trail>, d: nat)
    requires Different(seen) && Outward(seen) && Different(next) && Ids(seen) !! Ids(next)
    requires (forall t :: t in seen ==> t.hops <= d) && (forall t :: t in next ==> t.hops == d)
    ensures Different(seen + next) && Outward(seen + next)
  {
    forall t | t in seen ensures t.id in Ids(seen) {
    }
    forall t | t in next ensures t.id in Ids(next) {
    }
    hide Ids;
  }

  /** The order starts at `start`, never repeats an id and never gets closer. */
  lemma {:induction false} UptoOrdered(adj: Adjacency, mode: Mode, start: Uuid, d: nat)
    ensures var all := Upto(adj, mode, start, d); |all| > 0 && all[0] == Origin(start) && Different(all) && Outward(all)
  {
    if d > 0 {
      UptoOrdered(adj, mode, start, d - 1);
      var seen, next := Upto(adj, mode, start, d - 1), Layer(adj, mode, start, d);
      LayerIsNew(adj, mode, start, d);
      forall t | t in seen ensures t.hops <= d {
        UptoTrails(adj, mode, start, d - 1, t);
      }
      forall t | t in next ensures t.hops == d {
        LayerHops(adj, mode, start, d, t);
      }
      hide Layer, Different, Outward;
      OutwardConcat(seen, next, d);
    }
  }

  /** An empty layer ends the order. */
  lemma {:induction false} LayersEnd(adj: Adjacency, mode: Mode, start: Uuid, d: nat, n: nat)
    requires Layer(adj, mode, start, d) == [] && d <= n
    ensures Layer(adj, mode, start, n) == []
    ensures d > 0 ==> Upto(adj, mode, start, n) == Upto(adj, mode, start, d - 1)
    decreases n
  {
    if d < n {
      LayersEnd(adj, mode, start, d, n - 1);
    }
  }
}
