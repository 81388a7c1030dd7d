/** What `Neighborhood` shows: the undirected ball through known nodes, and the edges around it. */
module Neighbors {
  import opened Prelude
  import opened Walks
  import opened Layers
  import opened Impact

  /** The dedupe key of an edge: source, type, destination. */
  datatype EdgeKey = EdgeKey(src: Uuid, etype: EdgeType, dst: Uuid)

  function KeyOf(e: Edge): EdgeKey { EdgeKey(e.src, e.etype, e.dst) }

  function Members(s: seq<Uuid>): set<Uuid> {
    set x | x in s
  }

  function Keys(es: set<Edge>): set<EdgeKey> {
    set e | e in es :: KeyOf(e)
  }

  function Ends(es: set<Edge>): set<Uuid> {
    (set e | e in es :: e.src) + (set e | e in es :: e.dst)
  }

  /** The stored edges with an end in `s`. */
  function Around(stored: seq<Edge>, s: set<Uuid>): set<Edge> {
    set e | e in stored && (e.src in s || e.dst in s)
  }

  /** Known ids that share a stored edge with `x`, in either direction. */
  function Known(nodes: Nodes, s: set<Uuid>): set<Uuid> {
    set x | x in s && x in nodes
  }

  function Beside(nodes: Nodes, stored: seq<Edge>): Succ {
    map x | x in Ends(set e | e in stored) :: Known(nodes, Ends(Around(stored, {x})))
  }

  /** The ids within `d` undirected steps of `start`, every step ending at a known node. */
  function Vicinity(nodes: Nodes, stored: seq<Edge>, start: Uuid, d: nat): set<Uuid> {
    Ball(Beside(nodes, stored), start, d)
  }

  lemma EndsOf(es: set<Edge>, x: Uuid)
    ensures x in Ends(es) <==> exists e :: e in es && (e.src == x || e.dst == x)
  {
  }

  lemma StepBeside(nodes: Nodes, stored: seq<Edge>, s: set<Uuid>)
    ensures Image(Beside(nodes, stored), s) == Known(nodes, Ends(Around(stored, s)))
  {
    forall y ensures y in Image(Beside(nodes, stored), s) <==> y in Known(nodes, Ends(Around(stored, s))) {
      BesideIsEnd(nodes, stored, s, y);
      EndIsBeside(nodes, stored, s, y);
    }
    hide Beside, Known, Image;
  }

  lemma BesideIsEnd(nodes: Nodes, stored: seq<Edge>, s: set<Uuid>, y: Uuid)
    ensures y in Image(Beside(nodes, stored), s) ==> y in Known(nodes, Ends(Around(stored, s)))
  {
    var succ := Beside(nodes, stored);
    ImageMember(succ, s, y);
    if x :| x in s && Joined(succ, x, y) {
      EndsOf(Around(stored, {x}), y);
      var e :| e in Around(stored, {x}) && (e.src == y || e.dst == y);
      assert e in Around(stored, s);
      EndsOf(Around(stored, s), y);
    }
  }

  lemma EndIsBeside(nodes: Nodes, stored: seq<Edge>, s: set<Uuid>, y: Uuid)
    ensures y in Known(nodes, Ends(Around(stored, s))) ==> y in Image(Beside(nodes, stored), s)
  {
    var succ := Beside(nodes, stored);
    ImageMember(succ, s, y);
    if y in Known(nodes, Ends(Around(stored, s))) {
      EndsOf(Around(stored, s), y);
      var e :| e in Around(stored, s) && (e.src == y || e.dst == y);
      var x := if e.src in s then e.src else e.dst;
      EndsOf((set f | f in stored), x);
      EndsOf(Around(stored, {x}), y);
      assert e in Around(stored, {x});
      assert Joined(succ, x, y);
    }
  }

  /** `listed` holds exactly the known nodes among `seenN`, each once. */
  ghost predicate NodesShown(nodes: Nodes, seenN: set<Uuid>, listed: seq<Node>) {
    && (forall n :: n in listed ==> n.id in seenN && n.id in nodes && nodes[n.id] == n)
    && (forall x :: x in seenN && x in nodes ==> nodes[x] in listed)
    && (forall i, j :: 0 <= i < j < |listed| ==> listed[i].id != listed[j].id)
  }

  /** `edges` holds exactly one of the edges in `done` for each key they have. */
  ghost predicate EdgesShown(done: set<Edge>, seenE: set<EdgeKey>, edges: seq<Edge>) {
    && seenE == Keys(done)
    && (forall e :: e in edges ==> e in done)
    && (forall k :: k in seenE ==> exists e :: e in edges && KeyOf(e) == k)
    && (forall i, j :: 0 <= i < j < |edges| ==> KeyOf(edges[i]) != KeyOf(edges[j]))
  }

  /** The view after the edges in `done` have been shown. */
  ghost predicate Shows(nodes: Nodes, start: Uuid, done: set<Edge>, seenN: set<Uuid>, seenE: set<EdgeKey>,
                        listed: seq<Node>, edges: seq<Edge>) {
    seenN == {start} + Ends(done) && NodesShown(nodes, seenN, listed) && EdgesShown(done, seenE, edges)
  }

  /** `next` holds the known ids that entered the view since it showed `before`. */
  ghost predicate Newcomers(nodes: Nodes, before: set<Uuid>, seenN: set<Uuid>, next: seq<Uuid>) {
    before <= seenN && forall x :: x in next <==> x in seenN && x !in before && x in nodes
  }

  lemma FirstView(nodes: Nodes, start: Uuid)
    requires start in nodes ==> nodes[start].id == start
    ensures Shows(nodes, start, {}, {start}, {}, if start in nodes then [nodes[start]] else [], [])
  {
  }

  lemma ShowId(nodes: Nodes, seenN: set<Uuid>, listed: seq<Node>, x: Uuid)
    requires NodesShown(nodes, seenN, listed) && x !in seenN && (x in nodes ==> nodes[x].id == x)
    ensures NodesShown(nodes, seenN + {x}, if x in nodes then listed + [nodes[x]] else listed)
  {
  }

  lemma ShowEdge(done: set<Edge>, seenE: set<EdgeKey>, edges: seq<Edge>, e: Edge)
    requires EdgesShown(done, seenE, edges)
    ensures EdgesShown(done + {e}, seenE + {KeyOf(e)}, if KeyOf(e) in seenE then edges else edges + [e])
  {
  }

  lemma EndsGrow(done: set<Edge>, e: Edge)
    ensures Ends(done + {e}) == Ends(done) + {e.src, e.dst}
  {
  }

  /** What the caller gets: the known part of the vicinity, and one edge per key around its inner part. */
  ghost predicate IsView(nodes: Nodes, stored: seq<Edge>, start: Uuid, d: nat, listed: seq<Node>, edges: seq<Edge>) {
    && NodesShown(nodes, Vicinity(nodes, stored, start, d), listed)
    && var around := if d == 0 then {} else Around(stored, Vicinity(nodes, stored, start, d - 1));
    EdgesShown(around, Keys(around), edges)
  }

  lemma ViewDone(nodes: Nodes, stored: seq<Edge>, start: Uuid, d: nat, done: set<Edge>, seenN: set<Uuid>,
                 seenE: set<EdgeKey>, listed: seq<Node>, edges: seq<Edge>)
    requires RoundDone(nodes, stored, start, d, done)
    requires Shows(nodes, start, done, seenN, seenE, listed, edges)
    ensures IsView(nodes, stored, start, d, listed, edges)
  {
  }

  /** Scanning the adjacency lists of one more frontier id. */
  lemma AroundOneMore(stored: seq<Edge>, frontier: seq<Uuid>, i: nat, o: seq<Edge>, n: seq<Edge>)
    requires i < |frontier|
    requires forall e :: e in o <==> e in stored && e.src == frontier[i]
    requires forall e :: e in n <==> e in stored && e.dst == frontier[i]
    ensures Around(stored, Members(frontier[..i + 1]))
         == Around(stored, Members(frontier[..i])) + (set e | e in o) + (set e | e in n)
  {
  }

  /** After `d` rounds the view's known ids are the vicinity of radius `d`. */
  ghost predicate RoundDone(nodes: Nodes, stored: seq<Edge>, start: Uuid, d: nat, done: set<Edge>) {
    && done == (if d == 0 then {} else Around(stored, Vicinity(nodes, stored, start, d - 1)))
    && Vicinity(nodes, stored, start, d) == {start} + Known(nodes, Ends(done))
  }

  lemma FirstRound(nodes: Nodes, stored: seq<Edge>, start: Uuid)
    ensures RoundDone(nodes, stored, start, 0, {})
  {
  }

  lemma {:induction false} VicinityBound(nodes: Nodes, stored: seq<Edge>, start: Uuid, d: nat)
    ensures Vicinity(nodes, stored, start, d + 1) == {start}
        + Known(nodes, Ends(Around(stored, Vicinity(nodes, stored, start, d))))
  {
    hide Beside, Ends, Known, Around;
    var v := Vicinity(nodes, stored, start, d);
    StepBeside(nodes, stored, v);
    if d == 0 {
      assert v == {start};
    } else {
      VicinityBound(nodes, stored, start, d - 1);
      var u := Vicinity(nodes, stored, start, d - 1);
      StepBeside(nodes, stored, u);
      assert v == {start} + Image(Beside(nodes, stored), u);
      assert u <= v;
      AroundGrows(nodes, stored, u, v);
    }
  }

  lemma AroundGrows(nodes: Nodes, stored: seq<Edge>, u: set<Uuid>, v: set<Uuid>)
    requires u <= v
    ensures Around(stored, u) <= Around(stored, v)
    ensures Known(nodes, Ends(Around(stored, u))) <= Known(nodes, Ends(Around(stored, v)))
  {
  }

  lemma NextRound(nodes: Nodes, stored: seq<Edge>, start: Uuid, d: nat, done: set<Edge>, ring: set<Uuid>)
    requires RoundDone(nodes, stored, start, d, done)
    requires ring + (if d == 0 then {} else Vicinity(nodes, stored, start, d - 1)) == Vicinity(nodes, stored, start, d)
    ensures RoundDone(nodes, stored, start, d + 1, done + Around(stored, ring))
  {
    hide Vicinity, Known, Ends;
    VicinityBound(nodes, stored, start, d);
    assert done + Around(stored, ring) == Around(stored, Vicinity(nodes, stored, start, d));
  }

  /** The frontier holds the ids at distance exactly `d`. */
  ghost predicate IsRing(nodes: Nodes, stored: seq<Edge>, start: Uuid, d: nat, frontier: seq<Uuid>) {
    Members(frontier) + (if d == 0 then {} else Vicinity(nodes, stored, start, d - 1))
        == Vicinity(nodes, stored, start, d)
  }

  lemma FirstRing(nodes: Nodes, stored: seq<Edge>, start: Uuid)
    ensures IsRing(nodes, stored, start, 0, [start])
  {
  }

  lemma RoundStarts(nodes: Nodes, stored: seq<Edge>, seenN: set<Uuid>, frontier: seq<Uuid>, done: set<Edge>)
    ensures Newcomers(nodes, seenN, seenN, [])
    ensures done + Around(stored, Members(frontier[..0])) == done
  {
  }

  /** A finished round: the newcomers are the next ring. */
  lemma RoundEnds(nodes: Nodes, stored: seq<Edge>, start: Uuid, d: nat, done: set<Edge>, more: set<Edge>,
                  before: set<Uuid>, seenN: set<Uuid>, frontier: seq<Uuid>, next: seq<Uuid>)
    requires RoundDone(nodes, stored, start, d, done) && IsRing(nodes, stored, start, d, frontier)
    requires more == done + Around(stored, Members(frontier))
    requires before == {start} + Ends(done) && seenN == {start} + Ends(more) && Newcomers(nodes, before, seenN, next)
    ensures RoundDone(nodes, stored, start, d + 1, more) && IsRing(nodes, stored, start, d + 1, next)
  {
    hide Vicinity, Around;
    NextRound(nodes, stored, start, d, done, Members(frontier));
    assert Ends(done) <= Ends(more);
  }
}
