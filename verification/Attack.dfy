/** What `AttackPaths` returns, and how it agrees with the blast radius. */
module Attack {
  import opened Prelude
  import opened Walks
  import opened Layers
  import opened Impact
  import opened StableSort
  import Reach

  datatype Path = Path(nodes: seq<Uuid>, edges: seq<Edge>, impact: Criticality, hops: nat)

  /** The path a found trail is reported as, when it ends at a target other than the start. */
  function Report(nodes: Nodes, start: Uuid, t: Trail): seq<Path> {
    if t.id in nodes && t.id != start && TargetImpact(nodes[t.id]).Some?
    then [Path(t.path, t.edges, TargetImpact(nodes[t.id]).value, t.hops)] else []
  }

  /** The targets among the found trails, in discovery order. */
  function Targets(nodes: Nodes, start: Uuid, found: seq<Trail>): seq<Path> {
    if found == [] then [] else Targets(nodes, start, found[..|found| - 1]) + Report(nodes, start, found[|found| - 1])
  }

  /** All targets within `h` hops, in breadth-first order. */
  function AllTargets(nodes: Nodes, adj: Adjacency, start: Uuid, h: nat): seq<Path> {
    Targets(nodes, start, Upto(adj, Capability, start, h))
  }

  /** The source's test `len(results) >= limit*3` comes after an append, so at least one target is kept. */
  function Quota(limit: nat): nat { Max(1, 3 * limit) }

  function Gathered(nodes: Nodes, adj: Adjacency, start: Uuid, h: nat, limit: nat): seq<Path> {
    var all := AllTargets(nodes, adj, start, h);
    all[..Min(|all|, Quota(limit))]
  }

  /** Higher impact first, then shorter. */
  function PathKey(p: Path): Key { Key(-CriticalityRank(p.impact), p.hops) }

  function Trim(s: seq<Path>, limit: nat): seq<Path> { if |s| > limit then s[..limit] else s }

  function Ranked(nodes: Nodes, adj: Adjacency, start: Uuid, h: nat, limit: nat): seq<Path> {
    Trim(Sort(Gathered(nodes, adj, start, h, limit), PathKey), limit)
  }

  function End(p: Path): Uuid { if p.nodes == [] then NIL_UUID else p.nodes[|p.nodes| - 1] }

  // ----- every path is a shortest simple walk to a target -----

  /** `p` is a real walk along stored capability edges, simple, and as short as any, to a target. */
  ghost predicate IsAttackPath(nodes: Nodes, adj: Adjacency, start: Uuid, h: nat, p: Path) {
    && |p.nodes| == p.hops + 1 && |p.edges| == p.hops && p.hops <= h
    && p.nodes[0] == start && End(p) != start
    && (forall i :: 0 <= i < p.hops ==> StoredStep(adj, Capability, p.nodes[i], p.edges[i], p.nodes[i + 1]))
    && (forall i, j :: 0 <= i < j <= p.hops ==> p.nodes[i] != p.nodes[j])
    && AtDistance(Steps(adj, Capability), start, End(p), p.hops)
    && End(p) in nodes && TargetImpact(nodes[End(p)]) == Some(p.impact)
  }

  lemma {:induction false} TargetsMember(nodes: Nodes, start: Uuid, found: seq<Trail>, p: Path)
    ensures p in Targets(nodes, start, found) <==> exists t :: t in found && p in Report(nodes, start, t)
  {
    if found != [] {
      var front, last := found[..|found| - 1], found[|found| - 1];
      TargetsMember(nodes, start, front, p);
      assert found == front + [last];
    }
  }

  lemma TargetIsAttackPath(nodes: Nodes, adj: Adjacency, start: Uuid, h: nat, p: Path)
    requires p in AllTargets(nodes, adj, start, h)
    ensures IsAttackPath(nodes, adj, start, h, p)
  {
    hide Upto, Steps, AtDistance, StoredStep, Targets;
    TargetsMember(nodes, start, Upto(adj, Capability, start, h), p);
    var t :| t in Upto(adj, Capability, start, h) && p in Report(nodes, start, t);
    UptoTrails(adj, Capability, start, h, t);
  }

  lemma RankedAreGathered(nodes: Nodes, adj: Adjacency, start: Uuid, h: nat, limit: nat, p: Path)
    requires p in Ranked(nodes, adj, start, h, limit)
    ensures p in Gathered(nodes, adj, start, h, limit) && p in AllTargets(nodes, adj, start, h)
  {
    hide Gathered, Sort;
    var g := Gathered(nodes, adj, start, h, limit);
    SortProperties(g, PathKey);
    assert p in multiset(Sort(g, PathKey));
    assert p in g;
    GatheredIsPrefix(nodes, adj, start, h, limit);
  }

  lemma GatheredIsPrefix(nodes: Nodes, adj: Adjacency, start: Uuid, h: nat, limit: nat)
    ensures Gathered(nodes, adj, start, h, limit) <= AllTargets(nodes, adj, start, h)
    ensures |Gathered(nodes, adj, start, h, limit)| == Min(|AllTargets(nodes, adj, start, h)|, Quota(limit))
  {
  }

  /** Every returned path is a shortest simple capability walk from the start to a target. */
  lemma RankedPathIsSound(nodes: Nodes, adj: Adjacency, start: Uuid, h: nat, limit: nat, p: Path)
    requires p in Ranked(nodes, adj, start, h, limit)
    ensures IsAttackPath(nodes, adj, start, h, p)
  {
    hide Ranked, AllTargets, IsAttackPath;
    RankedAreGathered(nodes, adj, start, h, limit, p);
    TargetIsAttackPath(nodes, adj, start, h, p);
  }

  // ----- which targets are gathered, and the order of the result -----

  lemma {:induction false} TargetsConcat(nodes: Nodes, start: Uuid, a: seq<Trail>, b: seq<Trail>)
    ensures Targets(nodes, start, a + b) == Targets(nodes, start, a) + Targets(nodes, start, b)
  {
    hide Report;
    if b == [] {
      assert a + b == a;
    } else {
      assert (a + b)[..|a + b| - 1] == a + b[..|b| - 1];
      TargetsConcat(nodes, start, a, b[..|b| - 1]);
    }
  }

  /** Distinct ends, nearest first. */
  ghost predicate NearestFirst(r: seq<Path>) {
    forall i, j :: 0 <= i < j < |r| ==> End(r[i]) != End(r[j]) && r[i].hops <= r[j].hops
  }

  ghost predicate EndsAmong(r: seq<Path>, found: seq<Trail>) {
    forall i :: 0 <= i < |r| ==> exists t :: t in found && End(r[i]) == t.id && r[i].hops == t.hops
  }

  lemma EndsAmongMore(r: seq<Path>, found: seq<Trail>, t: Trail)
    requires EndsAmong(r, found)
    ensures EndsAmong(r, found + [t])
  {
    hide End;
  }

  lemma NearestAppend(r: seq<Path>, found: seq<Trail>, p: Path, last: Trail)
    requires NearestFirst(r) && EndsAmong(r, found) && End(p) == last.id && p.hops == last.hops
    requires forall t :: t in found ==> t.id != last.id && t.hops <= last.hops
    ensures NearestFirst(r + [p]) && EndsAmong(r + [p], found + [last])
  {
    hide End;
    EndsAmongMore(r, found, last);
    assert last in found + [last];
  }

  lemma ReportEnds(nodes: Nodes, start: Uuid, t: Trail)
    requires |t.path| == t.hops + 1 && t.path[t.hops] == t.id
    ensures var rep := Report(nodes, start, t);
            rep == [] || (|rep| == 1 && End(rep[0]) == t.id && rep[0].hops == t.hops)
  {
  }

  /** Every path ends at its trail's id. */
  ghost predicate PathsEnd(found: seq<Trail>) {
    forall i :: 0 <= i < |found| ==> |found[i].path| == found[i].hops + 1 && found[i].path[found[i].hops] == found[i].id
  }

  lemma OrderedFront(front: seq<Trail>, last: Trail)
    requires PathsEnd(front + [last]) && Different(front + [last]) && Outward(front + [last])
    ensures PathsEnd(front) && Different(front) && Outward(front)
    ensures |last.path| == last.hops + 1 && last.path[last.hops] == last.id
    ensures forall t :: t in front ==> t.id != last.id && t.hops <= last.hops
  {
    var found := front + [last];
    assert found[|front|] == last && forall i :: 0 <= i < |front| ==> found[i] == front[i];
  }

  lemma {:induction false} TargetsOrdered(nodes: Nodes, start: Uuid, found: seq<Trail>)
    requires PathsEnd(found) && Different(found) && Outward(found)
    ensures EndsAmong(Targets(nodes, start, found), found) && NearestFirst(Targets(nodes, start, found))
  {
    if found != [] {
      hide EndsAmong, NearestFirst, PathsEnd, Different, Outward, Report, End;
      var front, last := found[..|found| - 1], found[|found| - 1];
      assert found == front + [last];
      OrderedFront(front, last);
      TargetsOrdered(nodes, start, front);
      ReportEnds(nodes, start, last);
      var r, rep := Targets(nodes, start, front), Report(nodes, start, last);
      assert Targets(nodes, start, found) == r + rep;
      hide Targets;
      if rep == [] {
        EndsAmongMore(r, front, last);
        assert r + rep == r;
      } else {
        assert rep == [rep[0]];
        NearestAppend(r, front, rep[0], last);
      }
    }
  }

  lemma TargetIsReached(nodes: Nodes, adj: Adjacency, start: Uuid, h: nat, p: Path)
    requires p in AllTargets(nodes, adj, start, h)
    ensures End(p) in Reach.ReachMap(adj, start, h) && Reach.ReachMap(adj, start, h)[End(p)] == p.hops
    ensures End(p) in nodes && TargetImpact(nodes[End(p)]) == Some(p.impact)
  {
    hide AllTargets, End, Reach.ReachMap, Steps, Ball, Within, StoredStep;
    TargetIsAttackPath(nodes, adj, start, h, p);
    var succ := Steps(adj, Capability);
    BallIsWithin(succ, start, End(p), p.hops);
    BallGrows(succ, start, p.hops, h);
    BallIsWithin(succ, start, End(p), h);
    Reach.ReachIsExact(adj, start, h, End(p));
    Reach.DistanceIsUnique(succ, start, End(p), p.hops, Reach.ReachMap(adj, start, h)[End(p)]);
  }

  lemma ReachedIsTarget(nodes: Nodes, adj: Adjacency, start: Uuid, h: nat, x: Uuid) returns (p: Path)
    requires x in Reach.ReachMap(adj, start, h) && x in nodes && TargetImpact(nodes[x]).Some?
    ensures p in AllTargets(nodes, adj, start, h) && End(p) == x
  {
    hide Upto, Steps, Targets, Ball, StoredStep, AtDistance, Distance;
    var all := Upto(adj, Capability, start, h);
    UptoIsBall(adj, Capability, start, h);
    var t :| t in all && t.id == x;
    UptoTrails(adj, Capability, start, h, t);
    p := Path(t.path, t.edges, TargetImpact(nodes[x]).value, t.hops);
    assert Report(nodes, start, t) == [p];
    TargetsMember(nodes, start, all, p);
  }

  lemma NoTargets(nodes: Nodes, start: Uuid)
    ensures Targets(nodes, start, []) == []
  {
  }

  lemma TargetsStep(nodes: Nodes, start: Uuid, found: seq<Trail>, t: Trail)
    ensures Targets(nodes, start, found + [t]) == Targets(nodes, start, found) + Report(nodes, start, t)
  {
  }

  /** Stopping once the quota is met leaves exactly the gathered targets. */
  lemma PrefixIsGathered(nodes: Nodes, adj: Adjacency, start: Uuid, h: nat, limit: nat, popped: seq<Trail>)
    requires popped <= Upto(adj, Capability, start, h)
    requires |Targets(nodes, start, popped)| == Quota(limit)
    ensures Targets(nodes, start, popped) == Gathered(nodes, adj, start, h, limit)
  {
    hide Upto, Targets;
    var all := Upto(adj, Capability, start, h);
    assert all == popped + all[|popped|..];
    TargetsConcat(nodes, start, popped, all[|popped|..]);
  }

  /** Below the quota nothing is cut. */
  lemma WholeIsGathered(nodes: Nodes, adj: Adjacency, start: Uuid, h: nat, limit: nat)
    requires |AllTargets(nodes, adj, start, h)| <= Quota(limit)
    ensures AllTargets(nodes, adj, start, h) == Gathered(nodes, adj, start, h, limit)
  {
  }

  /** The ends of the targets are exactly the reached nodes with an impact, at their reached distance. */
  lemma AllTargetsComplete(nodes: Nodes, adj: Adjacency, start: Uuid, h: nat, x: Uuid)
    ensures (exists p :: p in AllTargets(nodes, adj, start, h) && End(p) == x)
       <==> (x in Reach.ReachMap(adj, start, h) && x in nodes && TargetImpact(nodes[x]).Some?)
  {
    hide AllTargets, Reach.ReachMap, TargetImpact, End;
    if p :| p in AllTargets(nodes, adj, start, h) && End(p) == x {
      TargetIsReached(nodes, adj, start, h, p);
    }
    if x in Reach.ReachMap(adj, start, h) && x in nodes && TargetImpact(nodes[x]).Some? {
      var p := ReachedIsTarget(nodes, adj, start, h, x);
    }
  }

  lemma AllTargetsOrdered(nodes: Nodes, adj: Adjacency, start: Uuid, h: nat)
    ensures NearestFirst(AllTargets(nodes, adj, start, h))
  {
    hide Upto, Steps, Targets, AtDistance, StoredStep, End;
    UptoOrdered(adj, Capability, start, h);
    assert AllTargets(nodes, adj, start, h) == Targets(nodes, start, Upto(adj, Capability, start, h));
    var found := Upto(adj, Capability, start, h);
    forall i | 0 <= i < |found|
      ensures |found[i].path| == found[i].hops + 1 && found[i].path[found[i].hops] == found[i].id
    {
      UptoTrails(adj, Capability, start, h, found[i]);
    }
    TargetsOrdered(nodes, start, found);
  }

  /** The result has distinct ends, is sorted, and no gathered path left out ranks before one returned. */
  lemma RankedIsBest(nodes: Nodes, adj: Adjacency, start: Uuid, h: nat, limit: nat)
    ensures var g, r := Gathered(nodes, adj, start, h, limit), Ranked(nodes, adj, start, h, limit);
            && |r| == Min(|g|, limit)
            && Distinct(r, End) && Sorted(r, PathKey)
            && (forall p :: p in r ==> p in g)
            && (forall p, q :: p in g && p !in r && q in r ==> !Before(PathKey(p), PathKey(q)))
  {
    hide AllTargets, Gathered, End, PathKey, Sort;
    var g := Gathered(nodes, adj, start, h, limit);
    var s, r := Sort(g, PathKey), Ranked(nodes, adj, start, h, limit);
    AllTargetsOrdered(nodes, adj, start, h);
    GatheredIsPrefix(nodes, adj, start, h, limit);
    SortProperties(g, PathKey);
    SortKeepsDistinct(g, PathKey, End);
    forall p | p in r ensures p in g {
      assert p in multiset(s);
    }
    forall p, q | p in g && p !in r && q in r ensures !Before(PathKey(p), PathKey(q)) {
      assert p in multiset(s);
      var i, j :| 0 <= i < |s| && 0 <= j < |r| && s[i] == p && r[j] == q;
      assert r[j] == s[j] && i >= |r|;
    }
  }

  // ----- agreement with the blast radius -----

  /** The first path has crown-jewel impact exactly when some gathered target has. */
  lemma TopIsJewel(nodes: Nodes, adj: Adjacency, start: Uuid, h: nat, limit: nat)
    requires limit >= 1
    ensures var g, r := Gathered(nodes, adj, start, h, limit), Ranked(nodes, adj, start, h, limit);
            (r != [] && r[0].impact.CrownJewel?) <==> exists p :: p in g && p.impact.CrownJewel?
  {
    hide AllTargets, Gathered, Ranked;
    var g, r := Gathered(nodes, adj, start, h, limit), Ranked(nodes, adj, start, h, limit);
    RankedIsBest(nodes, adj, start, h, limit);
    if p :| p in g && p.impact.CrownJewel? {
      if p in r {
        var i :| 0 <= i < |r| && r[i] == p;
        assert i > 0 ==> !Before(PathKey(r[i]), PathKey(r[0]));
      } else {
        assert r[0] in r && !Before(PathKey(p), PathKey(r[0]));
      }
    }
  }

  /** A reachable crown jewel or admin role is the same thing as a target of crown-jewel impact. */
  lemma JewelTargetIffBlast(nodes: Nodes, adj: Adjacency, start: Uuid, h: nat, br: BlastRadius)
    requires RollsUp(nodes, Reach.ReachMap(adj, start, h), br)
    ensures (exists p :: p in AllTargets(nodes, adj, start, h) && p.impact.CrownJewel?)
       <==> (br.crownJewelCount > 0 || br.reachesAdmin)
  {
    hide AllTargets, Reach.ReachMap, End;
    var reach := Reach.ReachMap(adj, start, h);
    var jewels := Reached(nodes, reach, JewelResource);
    if p :| p in AllTargets(nodes, adj, start, h) && p.impact.CrownJewel? {
      TargetIsReached(nodes, adj, start, h, p);
      assert End(p) in jewels || IsAdmin(nodes, End(p));
    }
    if br.crownJewelCount > 0 || br.reachesAdmin {
      var x :| x in reach && (IsCrownJewel(nodes, x) || IsAdmin(nodes, x)) by {
        if br.crownJewelCount > 0 {
          var y :| y in jewels;
        }
      }
      var p := ReachedIsTarget(nodes, adj, start, h, x);
      TargetIsReached(nodes, adj, start, h, p);
    }
  }

  /**
   * Exactly when the top path and the blast radius agree that a crown jewel or admin role is in reach:
   * always, except when the quota is filled by targets of lower impact before the first jewel target.
   */
  lemma TopAgreesWithBlast(nodes: Nodes, adj: Adjacency, start: Uuid, h: nat, limit: nat, br: BlastRadius)
    requires limit >= 1 && RollsUp(nodes, Reach.ReachMap(adj, start, h), br)
    ensures var all, r := AllTargets(nodes, adj, start, h), Ranked(nodes, adj, start, h, limit);
            (((r != [] && r[0].impact.CrownJewel?) <==> (br.crownJewelCount > 0 || br.reachesAdmin))
             <==> !(|all| > 3 * limit && (forall i :: 0 <= i < 3 * limit ==> !all[i].impact.CrownJewel?)
                    && exists p :: p in all && p.impact.CrownJewel?))
  {
    hide AllTargets, Ranked, RollsUp, Reach.ReachMap;
    var all := AllTargets(nodes, adj, start, h);
    var g := Gathered(nodes, adj, start, h, limit);
    TopIsJewel(nodes, adj, start, h, limit);
    JewelTargetIffBlast(nodes, adj, start, h, br);
    if |all| <= 3 * limit {
      assert g == all;
    } else {
      assert forall p :: p in g <==> exists i :: 0 <= i < 3 * limit && all[i] == p;
    }
  }

  /** `near` is the fewest hops of a path in `r` ending at a crown-jewel resource, or -1 when none does. */
  ghost predicate ShortestJewel(nodes: Nodes, r: seq<Path>, near: int) {
    if near == -1 then forall p :: p in r ==> !IsCrownJewel(nodes, End(p))
    else
      && (exists p :: p in r && IsCrownJewel(nodes, End(p)) && p.hops == near)
      && (forall p :: p in r && IsCrownJewel(nodes, End(p)) ==> near <= p.hops)
  }

  /** With no more targets than `limit`, the nearest crown jewel is the shortest path ending at one. */
  lemma NearestJewelIsShortestPath(nodes: Nodes, adj: Adjacency, start: Uuid, h: nat, limit: nat, br: BlastRadius)
    requires RollsUp(nodes, Reach.ReachMap(adj, start, h), br)
    requires |AllTargets(nodes, adj, start, h)| <= limit
    ensures var r := Ranked(nodes, adj, start, h, limit); ShortestJewel(nodes, r, br.nearestCrownJewel)
  {
    hide Reach.ReachMap, End, AllTargets, Ranked;
    var reach := Reach.ReachMap(adj, start, h);
    var all, r := AllTargets(nodes, adj, start, h), Ranked(nodes, adj, start, h, limit);
    SmallResultIsAll(nodes, adj, start, h, limit);
    forall p | p in all ensures End(p) in reach && reach[End(p)] == p.hops {
      TargetIsReached(nodes, adj, start, h, p);
    }
    if br.nearestCrownJewel != -1 {
      var x :| x in reach && IsCrownJewel(nodes, x) && reach[x] == br.nearestCrownJewel;
      var p := ReachedIsTarget(nodes, adj, start, h, x);
    }
  }

  lemma SmallResultIsAll(nodes: Nodes, adj: Adjacency, start: Uuid, h: nat, limit: nat)
    requires |AllTargets(nodes, adj, start, h)| <= limit
    ensures forall p :: p in Ranked(nodes, adj, start, h, limit) <==> p in AllTargets(nodes, adj, start, h)
  {
    hide AllTargets, Sort;
    var g := Gathered(nodes, adj, start, h, limit);
    assert g == AllTargets(nodes, adj, start, h);
    SortProperties(g, PathKey);
    forall p ensures p in Sort(g, PathKey) <==> p in g {
      assert p in multiset(Sort(g, PathKey)) <==> p in multiset(g);
    }
  }

  // ----- exactly when stopping early costs nothing -----

  /** What ranking every target would return. */
  function BestOfAll(nodes: Nodes, adj: Adjacency, start: Uuid, h: nat, limit: nat): seq<Path> {
    Trim(Sort(AllTargets(nodes, adj, start, h), PathKey), limit)
  }

  /** The paths of crown-jewel impact, in order. */
  function Jewels(s: seq<Path>): seq<Path> {
    if s == [] then [] else Jewels(s[..|s| - 1]) + (if s[|s| - 1].impact.CrownJewel? then [s[|s| - 1]] else [])
  }

  /** The other paths, in order. */
  function Others(s: seq<Path>): seq<Path> {
    if s == [] then [] else Others(s[..|s| - 1]) + (if s[|s| - 1].impact.CrownJewel? then [] else [s[|s| - 1]])
  }

  /** Nearest first, and no impact below high. */
  ghost predicate Ripe(s: seq<Path>) {
    && (forall i, j :: 0 <= i < j < |s| ==> s[i].hops <= s[j].hops)
    && forall i :: 0 <= i < |s| ==> s[i].impact.CrownJewel? || s[i].impact.High?
  }

  lemma {:induction false} SplitConcat(a: seq<Path>, b: seq<Path>)
    ensures Jewels(a + b) == Jewels(a) + Jewels(b) && Others(a + b) == Others(a) + Others(b)
  {
    if b == [] {
      assert a + b == a;
    } else {
      assert (a + b)[..|a + b| - 1] == a + b[..|b| - 1];
      SplitConcat(a, b[..|b| - 1]);
    }
  }

  lemma {:induction false} SplitMembers(s: seq<Path>)
    ensures |Jewels(s)| + |Others(s)| == |s|
    ensures forall p :: p in Jewels(s) <==> p in s && p.impact.CrownJewel?
    ensures forall p :: p in Others(s) <==> p in s && !p.impact.CrownJewel?
  {
    if s != [] {
      SplitMembers(s[..|s| - 1]);
      assert s == s[..|s| - 1] + [s[|s| - 1]];
    }
  }

  /** An element that comes before all of `b` and not before the last of `a` goes between them. */
  lemma {:induction false} InsertBetween(a: seq<Path>, b: seq<Path>, x: Path)
    requires forall y :: y in b ==> Before(PathKey(x), PathKey(y))
    requires a != [] ==> !Before(PathKey(x), PathKey(a[|a| - 1]))
    ensures Insert(a + b, x, PathKey) == a + [x] + b
  {
    hide PathKey;
    if b == [] {
      assert a + b == a && a + [x] + b == a + [x];
    } else {
      var front, last := b[..|b| - 1], b[|b| - 1];
      assert (a + b)[..|a + b| - 1] == a + front && (a + b)[|a + b| - 1] == last;
      InsertBetween(a, front, x);
      assert a + [x] + b == (a + [x] + front) + [last];
    }
  }

  lemma RipeFront(front: seq<Path>, x: Path)
    requires Ripe(front + [x])
    ensures Ripe(front) && (x.impact.CrownJewel? || x.impact.High?)
    ensures forall p :: p in front ==> p.hops <= x.hops && (p.impact.CrownJewel? || p.impact.High?)
  {
    var s := front + [x];
    assert s[|front|] == x && forall i :: 0 <= i < |front| ==> s[i] == front[i];
  }

  lemma JewelGoesBetween(a: seq<Path>, b: seq<Path>, x: Path)
    requires x.impact.CrownJewel? && (forall p :: p in b ==> p.impact.High?)
    requires forall p :: p in a ==> p.impact.CrownJewel? && p.hops <= x.hops
    ensures Insert(a + b, x, PathKey) == a + [x] + b
  {
    hide Insert;
    assert a != [] ==> a[|a| - 1] in a;
    InsertBetween(a, b, x);
  }

  lemma OtherGoesLast(s: seq<Path>, x: Path)
    requires x.impact.High? && forall p :: p in s ==> (p.impact.CrownJewel? || p.impact.High?) && p.hops <= x.hops
    ensures Insert(s, x, PathKey) == s + [x]
  {
    assert s != [] ==> s[|s| - 1] in s;
  }

  lemma RankedInsert(front: seq<Path>, x: Path)
    requires Ripe(front + [x])
    ensures Insert(Jewels(front) + Others(front), x, PathKey) == Jewels(front + [x]) + Others(front + [x])
  {
    RipeFront(front, x);
    SplitMembers(front);
    SplitOne(front, x);
    hide Ripe, Jewels, Others, Insert, PathKey;
    var a, b := Jewels(front), Others(front);
    if x.impact.CrownJewel? {
      JewelGoesBetween(a, b, x);
    } else {
      OtherGoesLast(a + b, x);
      assert a + b + [x] == a + (b + [x]);
    }
  }

  lemma SplitOne(front: seq<Path>, x: Path)
    ensures Jewels(front + [x]) == if x.impact.CrownJewel? then Jewels(front) + [x] else Jewels(front)
    ensures Others(front + [x]) == if x.impact.CrownJewel? then Others(front) else Others(front) + [x]
  {
    assert (front + [x])[..|front|] == front;
  }

  /** Targets met nearest first are ranked by moving the jewels to the front, all else staying in order. */
  lemma {:induction false} RankingSplits(s: seq<Path>)
    requires Ripe(s)
    ensures Sort(s, PathKey) == Jewels(s) + Others(s)
  {
    if s != [] {
      hide Ripe, Insert, Jewels, Others;
      var front, x := s[..|s| - 1], s[|s| - 1];
      assert s == front + [x];
      RipeFront(front, x);
      RankingSplits(front);
      RankedInsert(front, x);
    } else {
      assert Jewels(s) == [] && Others(s) == [];
    }
  }

  lemma TargetsAreRipe(nodes: Nodes, adj: Adjacency, start: Uuid, h: nat)
    ensures Ripe(AllTargets(nodes, adj, start, h))
  {
    var all := AllTargets(nodes, adj, start, h);
    hide AllTargets, End, Upto, Steps, AtDistance, StoredStep;
    AllTargetsOrdered(nodes, adj, start, h);
    forall i | 0 <= i < |all| ensures all[i].impact.CrownJewel? || all[i].impact.High? {
      TargetIsAttackPath(nodes, adj, start, h, all[i]);
    }
  }

  lemma RipePrefix(s: seq<Path>, n: nat)
    requires Ripe(s) && n <= |s|
    ensures Ripe(s[..n])
  {
  }

  /** Nothing is cut, enough jewels were met before the cut, or no jewel comes after it. */
  ghost predicate CutIsHarmless(all: seq<Path>, limit: nat) {
    || |all| <= 3 * limit
    || |Jewels(all[..3 * limit])| >= limit
    || forall i :: 3 * limit <= i < |all| ==> !all[i].impact.CrownJewel?
  }

  /**
   * Jewels `jp` and others `op` of a prefix, `jr` and `oth` of the rest: trimming the ranking of the prefix gives the
   * trimmed ranking of all iff the prefix has jewels enough or the rest has none.
   */
  lemma TrimAgreesIff(jp: seq<Path>, op: seq<Path>, jr: seq<Path>, oth: seq<Path>, limit: nat)
    requires |jp| + |op| >= limit
    requires (forall p :: p in jr ==> p.impact.CrownJewel?) && forall p :: p in op ==> !p.impact.CrownJewel?
    ensures Trim(jp + op, limit) == Trim((jp + jr) + (op + oth), limit) <==> |jp| >= limit || jr == []
  {
    var cut, whole := jp + op, (jp + jr) + (op + oth);
    assert Trim(cut, limit) == cut[..limit] && Trim(whole, limit) == whole[..limit];
    if |jp| >= limit {
      assert cut[..limit] == jp[..limit] == whole[..limit];
    } else if jr == [] {
      assert whole == cut + oth;
      assert cut[..limit] == whole[..limit];
    } else {
      assert op[0] in op && jr[0] in jr;
      assert cut[..limit][|jp|] == op[0] && whole[..limit][|jp|] == jr[0];
    }
  }

  lemma NoLaterJewel(all: seq<Path>, n: nat)
    requires n <= |all|
    ensures Jewels(all[n..]) == [] <==> forall i :: n <= i < |all| ==> !all[i].impact.CrownJewel?
  {
    var rest := all[n..];
    SplitMembers(rest);
    hide Jewels, Others;
    if Jewels(rest) == [] {
      forall i | n <= i < |all| ensures !all[i].impact.CrownJewel? {
        assert rest[i - n] == all[i];
      }
    } else {
      assert Jewels(rest)[0] in Jewels(rest);
      var i :| 0 <= i < |rest| && rest[i] == Jewels(rest)[0];
      assert all[n + i] == rest[i];
    }
  }

  /** Trimming the ranking of a prefix that is long enough, against trimming the ranking of all. */
  lemma PrefixRanking(all: seq<Path>, limit: nat)
    requires |all| > 3 * limit
    ensures var p := all[..3 * limit];
      Trim(Jewels(p) + Others(p), limit) == Trim(Jewels(all) + Others(all), limit) <==> CutIsHarmless(all, limit)
  {
    var p, rest := all[..3 * limit], all[3 * limit..];
    assert all == p + rest;
    SplitConcat(p, rest);
    SplitMembers(p);
    SplitMembers(rest);
    NoLaterJewel(all, 3 * limit);
    hide Jewels, Others, Trim;
    TrimAgreesIff(Jewels(p), Others(p), Jewels(rest), Others(rest), limit);
  }

  /** The result is the best of ALL targets, not only of those gathered, iff the cut is harmless. */
  lemma RankedIsBestOfAll(nodes: Nodes, adj: Adjacency, start: Uuid, h: nat, limit: nat)
    ensures Ranked(nodes, adj, start, h, limit) == BestOfAll(nodes, adj, start, h, limit)
      <==> CutIsHarmless(AllTargets(nodes, adj, start, h), limit)
  {
    var all := AllTargets(nodes, adj, start, h);
    TargetsAreRipe(nodes, adj, start, h);
    SortProperties(Gathered(nodes, adj, start, h, limit), PathKey);
    SortProperties(all, PathKey);
    hide AllTargets, Sort, Jewels, Others, Ripe, PathKey;
    if |all| > 3 * limit && limit > 0 {
      RipePrefix(all, 3 * limit);
      RankingSplits(all);
      RankingSplits(all[..3 * limit]);
      assert Gathered(nodes, adj, start, h, limit) == all[..3 * limit];
      PrefixRanking(all, limit);
      hide CutIsHarmless;
    } else if limit > 0 {
      assert Gathered(nodes, adj, start, h, limit) == all;
    } else {
      assert all[..0] == [];
    }
  }

  // ----- the cut-off really loses crown jewels -----

  function Grant(start: Uuid, x: Uuid): Edge { Edge(start, x, BindsTo, 1.0, false) }

  function Data(x: Uuid, c: Criticality): Node { Node(x, NIL_UUID, Resource, "", c, NoLevel) }

  /** One hop over `es`, all to unseen distinct ids, finds their ends in order. */
  lemma {:induction false} FanOut(cur: Trail, es: seq<Edge>, seen: set<Uuid>)
    requires forall e :: e in es ==> Follows(Capability, e) && e.dst !in seen
    requires forall i, j :: 0 <= i < j < |es| ==> es[i].dst != es[j].dst
    ensures ScanEdges(Capability, cur, es, seen) == seq(|es|, i requires 0 <= i < |es| => Extend(cur, es[i]))
  {
    if es != [] {
      FanOut(cur, es[..|es| - 1], seen);
    }
  }

  /**
   * With limit 1 the search stops at three targets: three high-criticality grants listed before a grant on
   * a crown jewel, all one hop away, hide it, although the blast radius reports it.
   */
  lemma CutOffLosesJewel(nodes: Nodes, adj: Adjacency, br: BlastRadius)
    requires nodes == map[Uuid(2) := Data(Uuid(2), High), Uuid(3) := Data(Uuid(3), High),
                          Uuid(4) := Data(Uuid(4), High), Uuid(5) := Data(Uuid(5), CrownJewel)]
    requires adj == map[Uuid(1) := [Grant(Uuid(1), Uuid(2)), Grant(Uuid(1), Uuid(3)), Grant(Uuid(1), Uuid(4)),
                                    Grant(Uuid(1), Uuid(5))]]
    requires RollsUp(nodes, Reach.ReachMap(adj, Uuid(1), 1), br)
    ensures br.crownJewelCount > 0
    ensures forall p :: p in Ranked(nodes, adj, Uuid(1), 1, 1) ==> p.impact.High?
  {
    hide AllTargets, Ranked, RollsUp, Reach.ReachMap, JewelFourth;
    CutOffTargets(nodes, adj);
    FourthIsHidden(nodes, adj, Uuid(1), 1, br);
  }

  /** Three targets of high impact, then one crown-jewel resource. */
  ghost predicate JewelFourth(nodes: Nodes, all: seq<Path>) {
    && |all| == 4 && all[0].impact.High? && all[1].impact.High? && all[2].impact.High?
    && IsCrownJewel(nodes, End(all[3]))
  }

  lemma FourthIsHidden(nodes: Nodes, adj: Adjacency, start: Uuid, h: nat, br: BlastRadius)
    requires JewelFourth(nodes, AllTargets(nodes, adj, start, h)) && RollsUp(nodes, Reach.ReachMap(adj, start, h), br)
    ensures br.crownJewelCount > 0
    ensures forall p :: p in Ranked(nodes, adj, start, h, 1) ==> p.impact.High?
  {
    hide AllTargets, Ranked, RollsUp, IsCrownJewel, Reach.ReachMap, End;
    var all := AllTargets(nodes, adj, start, h);
    assert all[3] in all;
    JewelIsCounted(nodes, adj, start, h, br, all[3]);
    FirstThreeOnly(nodes, adj, start, h);
  }

  lemma JewelIsCounted(nodes: Nodes, adj: Adjacency, start: Uuid, h: nat, br: BlastRadius, p: Path)
    requires RollsUp(nodes, Reach.ReachMap(adj, start, h), br)
    requires p in AllTargets(nodes, adj, start, h) && IsCrownJewel(nodes, End(p))
    ensures br.crownJewelCount > 0
  {
    hide AllTargets, Reach.ReachMap, End;
    TargetIsReached(nodes, adj, start, h, p);
    assert End(p) in Reached(nodes, Reach.ReachMap(adj, start, h), JewelResource);
  }

  /** With limit 1 only the first three targets can be returned. */
  lemma FirstThreeOnly(nodes: Nodes, adj: Adjacency, start: Uuid, h: nat)
    ensures var all := AllTargets(nodes, adj, start, h);
      |all| >= 3 ==> forall p :: p in Ranked(nodes, adj, start, h, 1) ==> p == all[0] || p == all[1] || p == all[2]
  {
    hide AllTargets, Ranked;
    var all := AllTargets(nodes, adj, start, h);
    if |all| >= 3 {
      forall p | p in Ranked(nodes, adj, start, h, 1) ensures p == all[0] || p == all[1] || p == all[2] {
        RankedAreGathered(nodes, adj, start, h, 1, p);
        assert Gathered(nodes, adj, start, h, 1) == all[..3];
      }
    }
  }

  lemma CutOffTargets(nodes: Nodes, adj: Adjacency)
    requires nodes == map[Uuid(2) := Data(Uuid(2), High), Uuid(3) := Data(Uuid(3), High),
                          Uuid(4) := Data(Uuid(4), High), Uuid(5) := Data(Uuid(5), CrownJewel)]
    requires adj == map[Uuid(1) := [Grant(Uuid(1), Uuid(2)), Grant(Uuid(1), Uuid(3)), Grant(Uuid(1), Uuid(4)),
                                    Grant(Uuid(1), Uuid(5))]]
    ensures JewelFourth(nodes, AllTargets(nodes, adj, Uuid(1), 1))
  {
    hide ScanEdges, Targets, Upto;
    var start := Uuid(1);
    var es, o := adj[start], Origin(start);
    FanOut(o, es, {start});
    var found := ScanEdges(Capability, o, es, {start});
    assert found == [Extend(o, es[0]), Extend(o, es[1]), Extend(o, es[2]), Extend(o, es[3])];
    OneLayer(adj, start, found);
    NoTarget(nodes, start, o);
    TargetsConcat(nodes, start, [o], found);
    FourTargets(nodes, start, found);
  }

  lemma NoTarget(nodes: Nodes, start: Uuid, t: Trail)
    requires t.id == start
    ensures Targets(nodes, start, [t]) == []
  {
  }

  lemma OneLayer(adj: Adjacency, start: Uuid, found: seq<Trail>)
    requires found == ScanEdges(Capability, Origin(start), EdgesOf(adj, start), {start})
    ensures Upto(adj, Capability, start, 1) == [Origin(start)] + found
  {
    hide ScanEdges;
    var o := Origin(start);
    assert Upto(adj, Capability, start, 0) == [o] && Ids([o]) == {start} by {
      assert o in [o];
    }
    assert [o][..0] == [] && Ids([]) == {} && {start} + {} == {start};
    assert ScanLayer(adj, Capability, [], {start}) == [];
    assert ScanLayer(adj, Capability, [o], {start}) == [] + found;
  }

  lemma FourTargets(nodes: Nodes, start: Uuid, found: seq<Trail>)
    requires |found| == 4
    ensures Targets(nodes, start, found)
         == Report(nodes, start, found[0]) + Report(nodes, start, found[1]) + Report(nodes, start, found[2])
             + Report(nodes, start, found[3])
  {
    hide Report;
    assert found[..3][..2] == found[..2] && found[..2][..1] == found[..1] && found[..1][..0] == [];
    assert Targets(nodes, start, []) == [];
    assert Targets(nodes, start, found[..1]) == Report(nodes, start, found[0]);
    assert Targets(nodes, start, found[..2]) == Targets(nodes, start, found[..1]) + Report(nodes, start, found[1]);
    assert Targets(nodes, start, found[..3]) == Targets(nodes, start, found[..2]) + Report(nodes, start, found[2]);
  }
}
