/** What `Reachable`, `TrustChainDepth` and `ComputeBlastRadius` mean, free of any queue. */
module Reach {
  import opened Prelude
  import opened Walks
  import opened Layers

  // ----- Reachable -----

  /** Every id other than `start` within `h` capability steps, at its shortest capability distance. */
  function ReachMap(adj: Adjacency, start: Uuid, h: nat): map<Uuid, nat> {
    var succ := Steps(adj, Capability);
    map x | x in Ball(succ, start, h) && x != start :: Distance(succ, start, x, h)
  }

  lemma DistanceIsUnique(succ: Succ, x: Uuid, y: Uuid, m: nat, n: nat)
    requires AtDistance(succ, x, y, m) && AtDistance(succ, x, y, n)
    ensures m == n
  {
  }

  /** Reachability is exactly the existence of a short enough capability walk, at the shortest length. */
  lemma ReachIsExact(adj: Adjacency, start: Uuid, h: nat, x: Uuid)
    ensures x in ReachMap(adj, start, h) <==> x != start && Within(Steps(adj, Capability), start, x, h)
    ensures x in ReachMap(adj, start, h) ==> AtDistance(Steps(adj, Capability), start, x, ReachMap(adj, start, h)[x])
  {
    hide Ball, Steps, Within, AtDistance;
    BallIsWithin(Steps(adj, Capability), start, x, h);
    if x in ReachMap(adj, start, h) {
      DistanceIsShortest(Steps(adj, Capability), start, x, h);
    }
  }

  /** A larger hop limit only adds ids: the ones already reached keep their distance. */
  lemma ReachGrows(adj: Adjacency, start: Uuid, h: nat, k: nat)
    requires h <= k
    ensures forall x :: x in ReachMap(adj, start, h)
              ==> x in ReachMap(adj, start, k) && ReachMap(adj, start, k)[x] == ReachMap(adj, start, h)[x]
    ensures forall x :: x in ReachMap(adj, start, k) && ReachMap(adj, start, k)[x] <= h ==> x in ReachMap(adj, start, h)
  {
    hide Ball, Steps, Within, AtDistance;
    var succ := Steps(adj, Capability);
    BallGrows(succ, start, h, k);
    forall x | x in Ball(succ, start, h) && x != start
      ensures Distance(succ, start, x, h) == Distance(succ, start, x, k)
    {
      DistanceIsShortest(succ, start, x, h);
      DistanceIsShortest(succ, start, x, k);
      DistanceIsUnique(succ, start, x, Distance(succ, start, x, h), Distance(succ, start, x, k));
    }
    forall x | x in Ball(succ, start, k) && Distance(succ, start, x, k) <= h ensures x in Ball(succ, start, h) {
      BallGrows(succ, start, Distance(succ, start, x, k), h);
    }
  }

  /** `reach` holds the found ids with their hops. */
  ghost predicate Records(reach: map<Uuid, nat>, start: Uuid, found: seq<Trail>) {
    reach.Keys == Ids(found) - {start} && forall t :: t in found && t.id != start ==> reach[t.id] == t.hops
  }

  lemma RecordsNothing(start: Uuid)
    ensures Records(map[], start, [] + [Origin(start)]) && Ids([] + [Origin(start)]) == {start}
  {
  }

  lemma RecordOne(reach: map<Uuid, nat>, start: Uuid, found: seq<Trail>, t: Trail)
    requires Records(reach, start, found) && t.id !in Ids(found) && t.id != start
    ensures Records(reach[t.id := t.hops], start, found + [t])
    ensures Ids(found + [t]) == Ids(found) + {t.id}
  {
  }

  /** Once the whole order is recorded, the record is the reachability map. */
  lemma RecordsReach(adj: Adjacency, start: Uuid, h: nat, reach: map<Uuid, nat>)
    requires Records(reach, start, Upto(adj, Capability, start, h))
    ensures reach == ReachMap(adj, start, h)
  {
    hide Upto, Ball, Steps, IsTrail, AtDistance;
    var succ := Steps(adj, Capability);
    UptoIsBall(adj, Capability, start, h);
    forall x | x in reach ensures reach[x] == Distance(succ, start, x, h) {
      var t :| t in Upto(adj, Capability, start, h) && t.id == x;
      UptoTrails(adj, Capability, start, h, t);
      DistanceIsShortest(succ, start, x, h);
      DistanceIsUnique(succ, start, x, t.hops, Distance(succ, start, x, h));
    }
  }

  // ----- TrustChainDepth -----

  /** Some id is exactly `d` steps away. */
  ghost predicate Inhabited(succ: Succ, start: Uuid, d: nat) {
    exists x :: AtDistance(succ, start, x, d)
  }

  /** `depth` is the greatest shortest trust distance within the limit, and every smaller one occurs too. */
  ghost predicate DeepestPivot(adj: Adjacency, start: Uuid, h: nat, depth: nat) {
    && depth <= h
    && forall d: nat :: d <= h ==> (d <= depth <==> Inhabited(Steps(adj, Trust), start, d))
  }

  /** Layer `d` is non-empty exactly when some id is at distance `d`. */
  lemma LayerInhabited(adj: Adjacency, mode: Mode, start: Uuid, d: nat)
    ensures Layer(adj, mode, start, d) != [] <==> Inhabited(Steps(adj, mode), start, d)
  {
    hide Layer, Upto, Image, Steps, Within, IsTrail, AtDistance;
    var succ, layer := Steps(adj, mode), Layer(adj, mode, start, d);
    UptoIsBall(adj, mode, start, d);
    if layer != [] {
      assert layer[0].id in Ids(layer);
      RingIsDistance(succ, start, layer[0].id, d);
    }
    if x :| AtDistance(succ, start, x, d) {
      InRing(succ, start, x, d);
      assert x in Ids(layer);
    }
  }

  lemma InRing(succ: Succ, start: Uuid, x: Uuid, d: nat)
    requires AtDistance(succ, start, x, d)
    ensures x in Ball(succ, start, d) && (d > 0 ==> x !in Ball(succ, start, d - 1))
    ensures d == 0 ==> x == start
  {
    hide Within;
    BallIsWithin(succ, start, x, d);
    if d > 0 {
      BallIsWithin(succ, start, x, d - 1);
    }
  }

  /** The hops of the last trail of the order are the deepest inhabited layer. */
  lemma LastTrailIsDeepest(adj: Adjacency, start: Uuid, h: nat)
    requires Upto(adj, Trust, start, h) != []
    ensures var all := Upto(adj, Trust, start, h); DeepestPivot(adj, start, h, all[|all| - 1].hops)
  {
    hide Layer, Upto, Steps, IsTrail, AtDistance, Inhabited;
    var all := Upto(adj, Trust, start, h);
    var depth := all[|all| - 1].hops;
    UptoTrails(adj, Trust, start, h, all[|all| - 1]);
    UptoOrdered(adj, Trust, start, h);
    forall d: nat | d <= h ensures d <= depth <==> Layer(adj, Trust, start, d) != [] {
      if Layer(adj, Trust, start, d) != [] {
        var t := Layer(adj, Trust, start, d)[0];
        LayerHops(adj, Trust, start, d, t);
        LayerWithinUpto(adj, Trust, start, d, h, t);
      } else if d <= depth {
        LayersEnd(adj, Trust, start, d, depth);
      }
    }
    forall d: nat | d <= h ensures d <= depth <==> Inhabited(Steps(adj, Trust), start, d) {
      LayerInhabited(adj, Trust, start, d);
    }
  }

  lemma {:induction false} LayerWithinUpto(adj: Adjacency, mode: Mode, start: Uuid, d: nat, h: nat, t: Trail)
    requires t in Layer(adj, mode, start, d) && d <= h
    ensures t in Upto(adj, mode, start, h)
    decreases h
  {
    hide ScanLayer;
    if d < h {
      LayerWithinUpto(adj, mode, start, d, h - 1, t);
    }
  }

  lemma TrustIsCapability(adj: Adjacency, x: Uuid, y: Uuid)
    requires Joined(Steps(adj, Trust), x, y)
    ensures Joined(Steps(adj, Capability), x, y)
  {
  }

  /** Every id a pivot chain reaches is reachable, and no later. */
  lemma TrustReachIsReach(adj: Adjacency, start: Uuid, d: nat, x: Uuid)
    requires AtDistance(Steps(adj, Trust), start, x, d) && x != start
    ensures x in ReachMap(adj, start, d) && ReachMap(adj, start, d)[x] <= d
  {
    hide Ball, Steps, Within, AtDistance;
    InRing(Steps(adj, Trust), start, x, d);
    forall a, b | Joined(Steps(adj, Trust), a, b) ensures Joined(Steps(adj, Capability), a, b) {
      TrustIsCapability(adj, a, b);
    }
    BallMonotone(Steps(adj, Trust), Steps(adj, Capability), start, d);
  }

  /** The risk engine's `depth >= 2` test: some pivot chain start -> a -> b ends where no single pivot does. */
  lemma DepthTwoMeans(adj: Adjacency, start: Uuid, h: nat, depth: nat)
    requires DeepestPivot(adj, start, h, depth) && h >= 2
    ensures var succ := Steps(adj, Trust);
            depth >= 2 <==> exists a, b ::
              Joined(succ, start, a) && Joined(succ, a, b) && b != start && !Joined(succ, start, b)
  {
    hide Steps, Within;
    var succ := Steps(adj, Trust);
    if depth >= 2 {
      assert Inhabited(succ, start, 2);
      var b :| AtDistance(succ, start, b, 2);
      InRing(succ, start, b, 2);
      SmallBalls(succ, start, b);
    }
    if a, b :| Joined(succ, start, a) && Joined(succ, a, b) && b != start && !Joined(succ, start, b) {
      SmallBalls(succ, start, b);
      RingIsDistance(succ, start, b, 2);
      assert Inhabited(succ, start, 2);
    }
  }

  lemma SmallBalls(succ: Succ, x: Uuid, y: Uuid)
    ensures y in Ball(succ, x, 1) <==> y == x || Joined(succ, x, y)
    ensures y in Ball(succ, x, 2) <==> y in Ball(succ, x, 1) || exists a :: Joined(succ, x, a) && Joined(succ, a, y)
  {
    hide Joined;
    assert Ball(succ, x, 0) == {x};
    ImageMember(succ, {x}, y);
    ImageMember(succ, Ball(succ, x, 1), y);
    forall a ensures a in Ball(succ, x, 1) <==> a == x || Joined(succ, x, a) {
      ImageMember(succ, {x}, a);
    }
  }

  // ----- the depth and the longest chain -----

  /** A chain of `|w| - 1` pivots from `start` that visits no id twice. */
  ghost predicate IsChain(succ: Succ, start: Uuid, w: seq<Uuid>) {
    IsWalk(succ, w) && w[0] == start && forall i, j :: 0 <= i < j < |w| ==> w[i] != w[j]
  }

  /** `n` is the length of the longest chain of at most `h` pivots. */
  ghost predicate LongestChain(succ: Succ, start: Uuid, h: nat, n: nat) {
    && (exists w :: IsChain(succ, start, w) && |w| == n + 1)
    && forall w :: IsChain(succ, start, w) && |w| <= h + 1 ==> |w| <= n + 1
  }

  /** `w` is a shortest walk to its end. */
  ghost predicate IsShortest(succ: Succ, w: seq<Uuid>) {
    IsWalk(succ, w) && AtDistance(succ, w[0], w[|w| - 1], |w| - 1)
  }

  /** A loop of a walk can be cut out. */
  lemma LoopCutOut(succ: Succ, w: seq<Uuid>, i: nat, j: nat)
    requires IsWalk(succ, w) && i < j < |w| && w[i] == w[j]
    ensures Within(succ, w[0], w[|w| - 1], |w| - 2)
  {
    hide Joined;
    var v := w[..i + 1] + w[j + 1..];
    forall k | 0 < k < |v| ensures Joined(succ, v[k - 1], v[k]) {
      if k > i {
        assert v[k] == w[k + j - i] && v[k - 1] == w[k + j - i - 1];
      }
    }
    assert IsWalk(succ, v) && v[0] == w[0] && v[|v| - 1] == w[|w| - 1] && |v| <= |w| - 1;
  }

  /** So a shortest walk visits no id twice. */
  lemma ShortestIsChain(succ: Succ, w: seq<Uuid>)
    requires IsShortest(succ, w)
    ensures IsChain(succ, w[0], w)
  {
    hide Within;
    forall i, j | 0 <= i < j < |w| ensures w[i] != w[j] {
      if w[i] == w[j] {
        LoopCutOut(succ, w, i, j);
        assert false;
      }
    }
  }

  lemma ShortestWalk(succ: Succ, start: Uuid, x: Uuid, d: nat) returns (w: seq<Uuid>)
    requires AtDistance(succ, start, x, d)
    ensures IsShortest(succ, w) && w[0] == start && w[|w| - 1] == x && |w| == d + 1
  {
    w :| IsWalk(succ, w) && w[0] == start && w[|w| - 1] == x && |w| <= d + 1;
    if |w| <= d {
      assert Within(succ, start, x, |w| - 1);
      assert false;
    }
  }

  /** The depth is always realised by a chain, so it never exceeds the longest one. */
  lemma DepthIsAChain(adj: Adjacency, start: Uuid, h: nat, depth: nat) returns (w: seq<Uuid>)
    requires DeepestPivot(adj, start, h, depth)
    ensures IsChain(Steps(adj, Trust), start, w) && |w| == depth + 1
  {
    hide Steps, IsChain, AtDistance;
    assert Inhabited(Steps(adj, Trust), start, depth);
    var x :| AtDistance(Steps(adj, Trust), start, x, depth);
    w := ShortestWalk(Steps(adj, Trust), start, x, depth);
    ShortestIsChain(Steps(adj, Trust), w);
  }

  /** Every shortest walk from `start` to `x`, which is `d` steps away, passes `y`. */
  ghost predicate Unavoidable(succ: Succ, start: Uuid, x: Uuid, d: nat, y: Uuid) {
    forall w :: IsShortest(succ, w) && w[0] == start && w[|w| - 1] == x && |w| == d + 1 ==> y in w
  }

  /** A pivot out of an id less than `h` steps away leads one step farther, or back to an id no shortest walk avoids. */
  ghost predicate NoDetour(succ: Succ, start: Uuid, h: nat) {
    forall d: nat, x, y :: d < h && AtDistance(succ, start, x, d) && Joined(succ, x, y) ==>
      AtDistance(succ, start, y, d + 1) || Unavoidable(succ, start, x, d, y)
  }

  ghost predicate ChainsAreShortest(succ: Succ, start: Uuid, h: nat) {
    forall w :: IsChain(succ, start, w) && |w| <= h + 1 ==> IsShortest(succ, w)
  }

  lemma {:induction false} ChainIsShortest(succ: Succ, start: Uuid, h: nat, w: seq<Uuid>)
    requires NoDetour(succ, start, h) && IsChain(succ, start, w) && |w| <= h + 1
    ensures IsShortest(succ, w)
  {
    if |w| == 1 {
      assert IsWalk(succ, w) && w[|w| - 1] == start;
      assert Within(succ, start, start, 0);
    } else {
      var v, y := w[..|w| - 1], w[|w| - 1];
      assert IsChain(succ, start, v);
      ChainIsShortest(succ, start, h, v);
      var x, d := v[|v| - 1], |v| - 1;
      assert Joined(succ, x, y) && AtDistance(succ, start, x, d);
      assert y !in v;
      hide AtDistance;
      assert !Unavoidable(succ, start, x, d, y);
    }
  }

  lemma DetourIsChain(succ: Succ, start: Uuid, h: nat, d: nat, x: Uuid, y: Uuid)
    requires ChainsAreShortest(succ, start, h) && d < h && AtDistance(succ, start, x, d) && Joined(succ, x, y)
    requires !Unavoidable(succ, start, x, d, y)
    ensures AtDistance(succ, start, y, d + 1)
  {
    hide AtDistance, Joined;
    var w :| IsShortest(succ, w) && w[0] == start && w[|w| - 1] == x && |w| == d + 1 && y !in w;
    ShortestIsChain(succ, w);
    var v := w + [y];
    assert IsChain(succ, start, v);
    assert IsShortest(succ, v);
  }

  /** Chains of at most `h` pivots are all shortest walks iff no pivot makes a detour. */
  lemma ChainsAreShortestIff(succ: Succ, start: Uuid, h: nat)
    ensures ChainsAreShortest(succ, start, h) <==> NoDetour(succ, start, h)
  {
    hide IsShortest, IsChain, AtDistance, Unavoidable, Joined;
    if NoDetour(succ, start, h) {
      forall w | IsChain(succ, start, w) && |w| <= h + 1 ensures IsShortest(succ, w) {
        ChainIsShortest(succ, start, h, w);
      }
    }
    if ChainsAreShortest(succ, start, h) {
      forall d: nat, x, y | d < h && AtDistance(succ, start, x, d) && Joined(succ, x, y)
        ensures AtDistance(succ, start, y, d + 1) || Unavoidable(succ, start, x, d, y)
      {
        if !Unavoidable(succ, start, x, d, y) {
          DetourIsChain(succ, start, h, d, x, y);
        }
      }
    }
  }

  /** Where no pivot makes a detour, the depth is the longest chain, as the scorer's input says of it. */
  lemma DepthIsLongestChain(adj: Adjacency, start: Uuid, h: nat, depth: nat)
    requires DeepestPivot(adj, start, h, depth) && NoDetour(Steps(adj, Trust), start, h)
    ensures LongestChain(Steps(adj, Trust), start, h, depth)
  {
    var succ := Steps(adj, Trust);
    var w := DepthIsAChain(adj, start, h, depth);
    hide Steps, IsChain, NoDetour, AtDistance;
    forall v | IsChain(succ, start, v) && |v| <= h + 1 ensures |v| <= depth + 1 {
      ChainsAreShortestIff(succ, start, h);
      assert IsShortest(succ, v);
      ChainStarts(succ, start, v);
      assert Inhabited(succ, start, |v| - 1);
    }
  }

  lemma ChainStarts(succ: Succ, start: Uuid, v: seq<Uuid>)
    requires IsChain(succ, start, v)
    ensures |v| > 0 && v[0] == start
  {
  }

  /** A simple chain of two pivots. */
  ghost predicate TwoPivots(succ: Succ, start: Uuid) {
    exists a, b :: IsChain(succ, start, [start, a, b])
  }

  /** A chain of two pivots ends where no single pivot does. */
  ghost predicate FreshEnd(succ: Succ, start: Uuid) {
    exists a, b :: Joined(succ, start, a) && Joined(succ, a, b) && b != start && !Joined(succ, start, b)
  }

  /**
   * The scorer's test `depth >= 2` says whether there is a two-pivot chain, as its comment has it, iff there is none
   * or some such chain ends where no single pivot does.
   */
  lemma ChainTestIsRightIff(adj: Adjacency, start: Uuid, h: nat, depth: nat)
    requires DeepestPivot(adj, start, h, depth) && h >= 2
    ensures var succ := Steps(adj, Trust);
      (depth >= 2 <==> TwoPivots(succ, start)) <==> (TwoPivots(succ, start) ==> FreshEnd(succ, start))
  {
    var succ := Steps(adj, Trust);
    DepthTwoMeans(adj, start, h, depth);
    hide Steps, Joined;
    if a, b :| Joined(succ, start, a) && Joined(succ, a, b) && b != start && !Joined(succ, start, b) {
      var w := [start, a, b];
      assert w[0] == start && w[1] == a && w[2] == b;
      assert IsChain(succ, start, w);
    }
  }

  /**
   * The depth is not the longest pivot chain in general: with pivots start -> a, start -> b and a -> b the longest
   * chain has two pivots and the depth is one.
   */
  lemma DepthIsNotLongestChain(start: Uuid, a: Uuid, b: Uuid, adj: Adjacency)
    requires start != a && a != b && b != start
    requires adj == map[start := [Edge(start, a, Assumes, 1.0, false), Edge(start, b, Assumes, 1.0, false)],
                        a := [Edge(a, b, Assumes, 1.0, false)]]
    ensures forall h: nat, depth: nat :: h >= 2 && DeepestPivot(adj, start, h, depth) ==>
      depth == 1 && LongestChain(Steps(adj, Trust), start, h, 2)
  {
    var succ := Steps(adj, Trust);
    assert adj[start][0] in adj[start] && adj[start][1] in adj[start] && adj[a][0] in adj[a];
    assert Joined(succ, start, a) && Joined(succ, start, b) && Joined(succ, a, b);
    assert forall y :: Joined(succ, a, y) ==> y == b;
    assert forall y :: Joined(succ, start, y) ==> y == a || y == b;
    assert forall y :: !Joined(succ, b, y);
    hide Steps, Joined;
    Triangle(succ, start, a, b);
    forall h: nat, depth: nat | h >= 2 && DeepestPivot(adj, start, h, depth)
      ensures depth == 1 && LongestChain(succ, start, h, 2)
    {
      DepthTwoMeans(adj, start, h, depth);
      assert Ball(succ, start, 0) == {start};
      SmallBalls(succ, start, a);
      RingIsDistance(succ, start, a, 1);
      assert AtDistance(succ, start, a, 1) && Inhabited(succ, start, 1);
    }
  }

  /** Pivots start -> a, start -> b and a -> b only: every chain ends by the third id. */
  lemma Triangle(succ: Succ, start: Uuid, a: Uuid, b: Uuid)
    requires start != a && a != b && b != start
    requires Joined(succ, start, a) && Joined(succ, start, b) && Joined(succ, a, b)
    requires forall y :: Joined(succ, start, y) ==> y == a || y == b
    requires (forall y :: Joined(succ, a, y) ==> y == b) && forall y :: !Joined(succ, b, y)
    ensures forall h: nat :: LongestChain(succ, start, h, 2)
  {
    hide Joined;
    var c := [start, a, b];
    assert c[0] == start && c[1] == a && c[2] == b;
    assert IsChain(succ, start, c);
    forall w | IsChain(succ, start, w) ensures |w| <= 3 {
      TriangleWalk(succ, start, a, b, w);
    }
  }

  lemma {:induction false} TriangleWalk(succ: Succ, start: Uuid, a: Uuid, b: Uuid, w: seq<Uuid>)
    requires IsWalk(succ, w) && w[0] == start
    requires forall y :: Joined(succ, start, y) ==> y == a || y == b
    requires (forall y :: Joined(succ, a, y) ==> y == b) && forall y :: !Joined(succ, b, y)
    ensures |w| <= 3 && (|w| == 1 || w[|w| - 1] == b || (|w| == 2 && w[|w| - 1] == a))
  {
    hide Joined;
    if |w| > 1 {
      var v := w[..|w| - 1];
      assert Joined(succ, v[|v| - 1], w[|w| - 1]);
      TriangleWalk(succ, start, a, b, v);
    }
  }
}
