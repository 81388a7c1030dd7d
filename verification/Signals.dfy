/** What each factor score means, signal by signal, with every threshold of score.go written out. */
module Signals {
  import opened Prelude
  import opened Risk

  /** The nearest number from 0 to 100. */
  ghost predicate IsBounded(score: int, points: int) {
    0 <= score <= 100 && (0 <= points <= 100 ==> score == points) && (points < 0 ==> score == 0)
    && (points > 100 ==> score == 100)
  }

  /** A weight or a signal that is not configured counts for nothing. */
  lemma MissingCountsNothing(w: Weights, f: Factor, s: Signal)
    ensures w.W(f) == (if f in w.weights then w.weights[f] else 0.0)
    ensures w.Sig(s) == (if s in w.points then w.points[s] else 0)
  {
  }

  // ----- privilege -----

  /** The greatest of `points` that the cap admits; a cap of zero or less is none. */
  ghost predicate IsCapped(capped: int, points: int, cap: int) {
    && capped <= points && (capped == points || capped == cap)
    && (cap > 0 ==> capped <= cap) && (cap <= 0 ==> capped == points)
  }

  lemma PrivilegeMeans(w: Weights, v: Facts, acts: int, resources: int)
    requires IsCapped(acts, WildActions(v.roles) * w.Sig(WildcardAction), w.Sig(WildcardActionCap))
    requires IsCapped(resources, WildResources(v.roles) * w.Sig(WildcardResource), w.Sig(WildcardResourceCap))
    ensures IsBounded(FactorScores(w, v).privilege,
              (if exists r :: r in v.roles && (r.level.Admin? || r.level.Privileged?) then w.Sig(AdminOrStar) else 0)
              + (if WildActions(v.roles) > 0 then acts else 0)
              + (if WildResources(v.roles) > 0 then resources else 0)
              + (if exists r :: r in v.roles && r.escalates then w.Sig(PrivEscalationAction) else 0)
              + (if exists b, a :: b in v.bindings && a in b.actions && b.effect == "allow" && b.criticality.CrownJewel?
                                   && a in {"*", "s3:*", "s3:PutObject", "s3:DeleteObject", "write", "*:*"}
                 then w.Sig(WriteCrownJewel) else 0)
              + (if 0 < v.peerPermissionP90 < TotalPerms(v.roles) then w.Sig(PrivilegeCreepP90) else 0))
  {
    assert acts == CapPts(WildActions(v.roles) * w.Sig(WildcardAction), w.Sig(WildcardActionCap));
    assert resources == CapPts(WildResources(v.roles) * w.Sig(WildcardResource), w.Sig(WildcardResourceCap));
    hide CapPts, IsCapped, WildActions, WildResources, TotalPerms;
    hide ExposureScore, FreshnessScore, UsageScore, TrustScore, BlastScore;
    CrownWriters(v.bindings);
    hide SomeWritesCrown;
  }

  lemma CrownWriters(bindings: seq<BindingGrant>)
    ensures SomeWritesCrown(bindings)
      <==> exists b, a :: b in bindings && a in b.actions && b.effect == "allow" && b.criticality.CrownJewel?
                          && a in {"*", "s3:*", "s3:PutObject", "s3:DeleteObject", "write", "*:*"}
  {
  }

  /** The sums over roles are those of their columns. */
  lemma {:induction false} RoleSums(front: seq<RoleGrant>, r: RoleGrant)
    ensures WildActions([]) == WildResources([]) == TotalPerms([]) == 0
    ensures WildActions(front + [r]) == WildActions(front) + r.wildActions
    ensures WildResources(front + [r]) == WildResources(front) + r.wildResources
    ensures TotalPerms(front + [r]) == TotalPerms(front) + r.permissionCount
  {
    assert (front + [r])[..|front|] == front;
  }

  // ----- exposure -----

  lemma ExposureMeans(w: Weights, v: Facts)
    ensures IsBounded(FactorScores(w, v).exposure,
              (if exists e :: e in v.exposures && (e.pattern == "public" || e.path == "public") then w.Sig(PublicRepo)
               else if v.exposures != [] then w.Sig(PrivateRepoOrCI) else 0)
              + (if exists e :: e in v.exposures && e.verified then w.Sig(VerifiedLive) else 0)
              + (if exists c :: c in v.creds && c.expiresAt.None?
                                && c.credType in {"aws_access_key", "gcp_sa_key", "api_key"}
                 then w.Sig(StaticKeyNoExpiry) else 0)
              + (if exists c :: c in v.creds && c.createdAt.Some? && v.now - c.createdAt.value > 365 * 24
                 then w.Sig(CredOverMaxAge) else 0))
  {
    hide PrivilegeScore, FreshnessScore, UsageScore, TrustScore, BlastScore;
    StaticKeys(v.creds);
    hide SomeStatic;
  }

  lemma StaticKeys(creds: seq<Credential>)
    ensures SomeStatic(creds)
      <==> exists c :: c in creds && c.expiresAt.None? && c.credType in {"aws_access_key", "gcp_sa_key", "api_key"}
  {
  }

  // ----- freshness -----

  predicate SeenLately(v: Facts) { v.subject.lastSeen.Some? && v.now - v.subject.lastSeen.value <= 90 * 24 }

  predicate RotatedLately(v: Facts) { v.subject.lastRotated.Some? && v.now - v.subject.lastRotated.value <= 180 * 24 }

  /** Never seen, and created more than 30 days ago. */
  predicate NeverUsed(v: Facts) {
    v.subject.lastSeen.None? && v.subject.createdAt.Some? && v.now - v.subject.createdAt.value > 30 * 24
  }

  /**
   * An identity seen within 90 days and rotated within 180 is fresh. One last seen before that, or never seen though
   * created more than 30 days ago, gets the matching points, and so does one that was rotated earlier or never.
   */
  lemma FreshnessMeans(w: Weights, v: Facts)
    ensures var s := v.subject;
      IsBounded(FactorScores(w, v).freshness,
        (if SeenLately(v) || (s.lastSeen.None? && !NeverUsed(v)) then 0
         else if s.lastSeen.Some? then w.Sig(UnusedStaleWindow) else w.Sig(NeverUsedAged))
        + (if RotatedLately(v) then 0 else if s.lastRotated.Some? then w.Sig(NotRotated) else w.Sig(RotationUnmanaged)))
    ensures SeenLately(v) && RotatedLately(v) ==> FactorScores(w, v).freshness == 0
  {
    hide PrivilegeScore, ExposureScore, UsageScore, TrustScore, BlastScore;
  }

  predicate NoLater(a: Option<int>, b: Option<int>) { a == b || (a.Some? && b.Some? && a.value <= b.value) }

  /** Moving the last use or the last rotation back never lowers freshness points. */
  lemma FreshnessAges(w: Weights, v: Facts, u: Facts)
    requires w.Sig(UnusedStaleWindow) >= 0 && w.Sig(NotRotated) >= 0 && u.now == v.now
    requires u.subject.createdAt == v.subject.createdAt
    requires NoLater(u.subject.lastSeen, v.subject.lastSeen) && NoLater(u.subject.lastRotated, v.subject.lastRotated)
    ensures FactorScores(w, v).freshness <= FactorScores(w, u).freshness
  {
    FreshnessMeans(w, v);
    FreshnessMeans(w, u);
    hide FactorScores;
  }

  // ----- usage -----

  function Only(s: Signal): Anomalies {
    Anomalies(s.ImpossibleTravel?, s.NewRegion?, s.NewASNOrRuntime?, s.UsageSpike?, s.FirstUseSensitive?,
              s.OffHoursBurst?)
  }

  lemma UsageMeans(w: Weights, v: Facts)
    ensures var a := v.anomalies;
      IsBounded(FactorScores(w, v).usage,
        (if a.impossibleTravel then w.Sig(ImpossibleTravel) else 0) + (if a.newRegion then w.Sig(NewRegion) else 0)
        + (if a.newASNOrRuntime then w.Sig(NewASNOrRuntime) else 0) + (if a.usageSpike then w.Sig(UsageSpike) else 0)
        + (if a.firstUseSensitive then w.Sig(FirstUseSensitive) else 0)
        + (if a.offHoursBurst then w.Sig(OffHoursBurst) else 0))
  {
    hide PrivilegeScore, ExposureScore, FreshnessScore, TrustScore, BlastScore;
  }

  /** One anomaly alone scores its own points. */
  lemma OneAnomaly(w: Weights, v: Facts, s: Signal)
    requires v.anomalies == Only(s)
    ensures if s.ImpossibleTravel? || s.NewRegion? || s.NewASNOrRuntime? || s.UsageSpike? || s.FirstUseSensitive?
               || s.OffHoursBurst?
            then IsBounded(FactorScores(w, v).usage, w.Sig(s)) else FactorScores(w, v).usage == 0
  {
    UsageMeans(w, v);
    hide FactorScores;
  }

  /** `b` has every anomaly of `a`. */
  predicate AllOf(a: Anomalies, b: Anomalies) {
    && (a.impossibleTravel ==> b.impossibleTravel) && (a.newRegion ==> b.newRegion)
    && (a.newASNOrRuntime ==> b.newASNOrRuntime) && (a.usageSpike ==> b.usageSpike)
    && (a.firstUseSensitive ==> b.firstUseSensitive) && (a.offHoursBurst ==> b.offHoursBurst)
  }

  /** More anomalies never lower usage points. */
  lemma UsageGrows(w: Weights, v: Facts, u: Facts)
    requires AllOf(v.anomalies, u.anomalies)
    requires w.Sig(ImpossibleTravel) >= 0 && w.Sig(NewRegion) >= 0 && w.Sig(NewASNOrRuntime) >= 0
    requires w.Sig(UsageSpike) >= 0 && w.Sig(FirstUseSensitive) >= 0 && w.Sig(OffHoursBurst) >= 0
    ensures FactorScores(w, v).usage <= FactorScores(w, u).usage
  {
    UsageMeans(w, v);
    UsageMeans(w, u);
    hide FactorScores;
  }

  // ----- trust -----

  predicate Guarded(c: Condition) {
    "guards" in c && match c["guards"] case List(items) => items != [] case _ => false
  }

  predicate Says(c: Condition, key: string) { key in c && c[key] == Flag(true) }

  /** Every trust edge adds the points of what it is; a chain of two pivots or more adds its own. */
  lemma TrustMeans(w: Weights, front: seq<TrustEdge>, t: TrustEdge, depth: int)
    ensures IsBounded(TrustScore(w, front, depth),
                      TrustPoints(w, front) + (if depth >= 2 then w.Sig(ChainDepth2Plus) else 0))
    ensures TrustPoints(w, []) == 0
    ensures TrustPoints(w, front + [t]) == TrustPoints(w, front)
      + (if t.edgeType.CanAssume? && !Guarded(t.condition) then w.Sig(ConditionlessAssume) else 0)
      + (if Says(t.condition, "cross_account") then w.Sig(CrossAccount) else 0)
      + (if Says(t.condition, "wildcard_principal") then w.Sig(WildcardExternal) else 0)
      + (if t.edgeType.CanMintToken? || t.edgeType.CanImpersonate? then w.Sig(CanMintOrImpersonate) else 0)
  {
    assert (front + [t])[..|front|] == front;
  }

  // ----- blast radius -----

  lemma BlastMeans(w: Weights, v: Facts, high: int)
    requires IsCapped(high, v.blast.highCritCount * w.Sig(HighCritEach), w.Sig(HighCritCap))
    ensures IsBounded(FactorScores(w, v).blast,
              (if v.blast.crownJewelCount <= 0 then 0
               else if v.blast.nearestCrownJewel <= 1 then w.Sig(CrownJewel1Hop) else w.Sig(CrownJewelChain))
              + (if v.blast.highCritCount > 0 then high else 0)
              + (if 0 < v.peerReachableP90 < v.blast.reachableResources then w.Sig(ReachableOverP90) else 0)
              + (if v.blast.reachesAdmin then w.Sig(EscalateToAdmin) else 0))
  {
    assert high == CapPts(v.blast.highCritCount * w.Sig(HighCritEach), w.Sig(HighCritCap));
    hide CapPts, IsCapped, PrivilegeScore, ExposureScore, FreshnessScore, UsageScore, TrustScore;
  }

  // ----- the composite -----

  /** `c` is `sum`, bounded and rounded to the nearest integer, halves up. */
  ghost predicate IsRounded(c: int, sum: real) {
    && 0 <= c <= 100
    && (0.0 <= sum < 100.5 ==> c as real - 0.5 <= sum < c as real + 0.5)
    && (sum < 0.0 ==> c == 0) && (sum >= 100.5 ==> c == 100)
  }

  lemma RoundsNearest(sum: real)
    ensures IsRounded(Clamp(Truncate(sum + 0.5)), sum)
  {
    var c := Truncate(sum + 0.5);
    if sum + 0.5 >= 0.0 {
      assert c as real <= sum + 0.5 < c as real + 1.0;
    } else {
      assert (-(sum + 0.5)).Floor >= 0;
    }
  }

  /** The composite is the weighted sum of the factors, bounded and rounded. */
  lemma CompositeMeans(w: Weights, s: Scores, sum: real)
    requires sum == w.W(Privilege) * s.privilege as real + w.W(ExposureFactor) * s.exposure as real
                    + w.W(Freshness) * s.freshness as real + w.W(Usage) * s.usage as real
                    + w.W(TrustFactor) * s.trust as real + w.W(BlastFactor) * s.blast as real
    ensures IsRounded(CompositeOf(w, s), sum)
  {
    assert sum == WeightedSum(w, s);
    RoundsNearest(sum);
    hide IsRounded, Clamp, Truncate, WeightedSum;
  }
}
