/** Walks in a successor relation, and the balls they span: the declarative meaning of distance. */
module Walks {
  import opened Prelude

  type Succ = map<Uuid, set<Uuid>>

  predicate Joined(succ: Succ, x: Uuid, y: Uuid) {
    x in succ && y in succ[x]
  }

  /** `w` is a non-empty list of ids, each joined to the next. */
  ghost predicate IsWalk(succ: Succ, w: seq<Uuid>) {
    |w| > 0 && forall i :: 0 < i < |w| ==> Joined(succ, w[i - 1], w[i])
  }

  /** Some walk of at most `n` steps leads from `x` to `y`. */
  ghost predicate Within(succ: Succ, x: Uuid, y: Uuid, n: nat) {
    exists w :: IsWalk(succ, w) && w[0] == x && w[|w| - 1] == y && |w| <= n + 1
  }

  /** The shortest walk from `x` to `y` has exactly `n` steps. */
  ghost predicate AtDistance(succ: Succ, x: Uuid, y: Uuid, n: nat) {
    Within(succ, x, y, n) && forall m: nat :: m < n ==> !Within(succ, x, y, m)
  }

  function Image(succ: Succ, s: set<Uuid>): set<Uuid> {
    set x, y | x in s && x in succ && y in succ[x] :: y
  }

  lemma ImageMember(succ: Succ, s: set<Uuid>, y: Uuid)
    ensures y in Image(succ, s) <==> exists x :: x in s && Joined(succ, x, y)
  {
  }

  /** The ids at most `n` steps from `x`, computed one ring at a time. */
  function Ball(succ: Succ, x: Uuid, n: nat): set<Uuid> {
    if n == 0 then {x} else Ball(succ, x, n - 1) + Image(succ, Ball(succ, x, n - 1))
  }

  lemma {:induction false} BallGrows(succ: Succ, x: Uuid, m: nat, n: nat)
    requires m <= n
    ensures Ball(succ, x, m) <= Ball(succ, x, n)
    decreases n
  {
    if m < n {
      BallGrows(succ, x, m, n - 1);
    }
  }

  lemma {:induction false} BallHasWalk(succ: Succ, x: Uuid, y: Uuid, n: nat) returns (w: seq<Uuid>)
    requires y in Ball(succ, x, n)
    ensures IsWalk(succ, w) && w[0] == x && w[|w| - 1] == y && |w| <= n + 1
    decreases n
  {
    if n == 0 {
      w := [x];
    } else if y in Ball(succ, x, n - 1) {
      w := BallHasWalk(succ, x, y, n - 1);
    } else {
      ImageMember(succ, Ball(succ, x, n - 1), y);
      var z :| z in Ball(succ, x, n - 1) && Joined(succ, z, y);
      var v := BallHasWalk(succ, x, z, n - 1);
      w := v + [y];
    }
  }

  lemma {:induction false} WalkEndsInBall(succ: Succ, w: seq<Uuid>)
    requires IsWalk(succ, w)
    ensures w[|w| - 1] in Ball(succ, w[0], |w| - 1)
  {
    if |w| > 1 {
      var v := w[..|w| - 1];
      WalkEndsInBall(succ, v);
      assert Joined(succ, v[|v| - 1], w[|w| - 1]);
      ImageMember(succ, Ball(succ, w[0], |v| - 1), w[|w| - 1]);
    }
  }

  /** The ring-by-ring computation is exact for walks. */
  lemma BallIsWithin(succ: Succ, x: Uuid, y: Uuid, n: nat)
    ensures y in Ball(succ, x, n) <==> Within(succ, x, y, n)
  {
    if y in Ball(succ, x, n) {
      var w := BallHasWalk(succ, x, y, n);
    }
    if Within(succ, x, y, n) {
      var w :| IsWalk(succ, w) && w[0] == x && w[|w| - 1] == y && |w| <= n + 1;
      WalkEndsInBall(succ, w);
      BallGrows(succ, x, |w| - 1, n);
    }
  }

  /** The first ring that holds `y`. */
  function Distance(succ: Succ, x: Uuid, y: Uuid, n: nat): (d: nat)
    requires y in Ball(succ, x, n)
    ensures d <= n && y in Ball(succ, x, d)
    ensures d > 0 ==> y !in Ball(succ, x, d - 1)
  {
    hide Ball;
    if n > 0 && y in Ball(succ, x, n - 1) then Distance(succ, x, y, n - 1) else n
  }

  lemma RingIsDistance(succ: Succ, x: Uuid, y: Uuid, d: nat)
    requires y in Ball(succ, x, d) && (d > 0 ==> y !in Ball(succ, x, d - 1))
    ensures AtDistance(succ, x, y, d)
  {
    BallIsWithin(succ, x, y, d);
    forall m: nat | m < d ensures !Within(succ, x, y, m) {
      BallIsWithin(succ, x, y, m);
      BallGrows(succ, x, m, d - 1);
    }
  }

  /** The first ring is the length of the shortest walk. */
  lemma DistanceIsShortest(succ: Succ, x: Uuid, y: Uuid, n: nat)
    requires y in Ball(succ, x, n)
    ensures AtDistance(succ, x, y, Distance(succ, x, y, n))
  {
    RingIsDistance(succ, x, y, Distance(succ, x, y, n));
  }

  /** A relation contained in another reaches no more, and no sooner. */
  lemma {:induction false} BallMonotone(small: Succ, big: Succ, x: Uuid, n: nat)
    requires forall a, b :: Joined(small, a, b) ==> Joined(big, a, b)
    ensures Ball(small, x, n) <= Ball(big, x, n)
  {
    if n > 0 {
      BallMonotone(small, big, x, n - 1);
      forall y | y in Image(small, Ball(small, x, n - 1)) ensures y in Ball(big, x, n) {
        ImageMember(small, Ball(small, x, n - 1), y);
        var a :| a in Ball(small, x, n - 1) && Joined(small, a, y);
        assert Joined(big, a, y);
        ImageMember(big, Ball(big, x, n - 1), y);
      }
    }
  }

}
