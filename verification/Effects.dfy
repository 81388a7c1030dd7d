/** What each remediation leaves of each factor, exactly. */
module Effects {
  import opened Risk
  import opened Remediation
  import opened Signals

  /** Two identities score the same in the given factors. */
  ghost predicate SameFactors(w: Weights, v: Facts, u: Facts, factors: set<Factor>) {
    forall f :: f in factors ==> FactorScore(w, v, f) == FactorScore(w, u, f)
  }

  /** No remediation touches freshness, usage, the baselines or the clock. */
  lemma TouchesFourOnly(w: Weights, m: Mutation, v: Facts)
    ensures SameFactors(w, v, Remedied(m, v), {Freshness, Usage})
    ensures var u := Remedied(m, v);
      && u.subject == v.subject && u.anomalies == v.anomalies && u.now == v.now
      && u.trustChainDepth == v.trustChainDepth
      && u.peerPermissionP90 == v.peerPermissionP90 && u.peerReachableP90 == v.peerReachableP90
  {
    UntouchedScores(w, m, v);
    hide FactorScores;
  }

  lemma NoGrants(w: Weights, u: Facts)
    requires u.roles == [] && u.bindings == []
    ensures FactorScores(w, u).privilege == 0
  {
    NoRoles();
    hide ExposureScore, FreshnessScore, UsageScore, TrustScore, BlastScore;
  }

  lemma NoBlastLeft(w: Weights, u: Facts)
    requires u.blast == NO_BLAST
    ensures FactorScores(w, u).blast == 0
  {
    hide PrivilegeScore, ExposureScore, FreshnessScore, UsageScore, TrustScore;
  }

  lemma TrustTotal(w: Weights, u: Facts)
    ensures IsBounded(FactorScores(w, u).trust,
              TrustPoints(w, u.trust) + (if u.trustChainDepth >= 2 then w.Sig(ChainDepth2Plus) else 0))
  {
    hide TrustPoints, PrivilegeScore, ExposureScore, FreshnessScore, UsageScore, BlastScore;
  }

  lemma NoTrust(w: Weights, u: Facts)
    requires u.trust == []
    ensures IsBounded(FactorScores(w, u).trust, if u.trustChainDepth >= 2 then w.Sig(ChainDepth2Plus) else 0)
  {
    TrustTotal(w, u);
    hide FactorScores;
  }

  /** Privilege without dangerous roles, wildcards or writes to crown jewels. */
  lemma KeptPrivilege(w: Weights, u: Facts)
    requires !SomeDangerous(u.roles) && WildActions(u.roles) == 0 && WildResources(u.roles) == 0
    requires !SomeWritesCrown(u.bindings)
    ensures IsBounded(FactorScores(w, u).privilege,
              (if SomeEscalates(u.roles) then w.Sig(PrivEscalationAction) else 0)
              + (if 0 < u.peerPermissionP90 < TotalPerms(u.roles) then w.Sig(PrivilegeCreepP90) else 0))
  {
    hide SomeDangerous, SomeEscalates, SomeWritesCrown, WildActions, WildResources, TotalPerms, CapPts;
    hide ExposureScore, FreshnessScore, UsageScore, TrustScore, BlastScore;
  }

  /** Without credentials what is left of the exposure is what the repositories show. */
  lemma ClearKeysLeaves(w: Weights, v: Facts)
    ensures var u := Remedied(ClearKeys, v);
      && u.creds == [] && u.exposures == v.exposures
      && SameFactors(w, v, u, {Privilege, TrustFactor, BlastFactor})
      && IsBounded(FactorScores(w, u).exposure,
           (if exists e :: e in v.exposures && (e.pattern == "public" || e.path == "public") then w.Sig(PublicRepo)
            else if v.exposures != [] then w.Sig(PrivateRepoOrCI) else 0)
           + (if exists e :: e in v.exposures && e.verified then w.Sig(VerifiedLive) else 0))
  {
    var u := Remedied(ClearKeys, v);
    ExposureMeans(w, u);
    AlikeScores(w, v, u, Privilege);
    AlikeScores(w, v, u, TrustFactor);
    AlikeScores(w, v, u, BlastFactor);
    hide FactorScore, FactorScores;
  }

  lemma ClearExposuresAndKeysLeaves(w: Weights, v: Facts)
    ensures var u := Remedied(ClearExposuresAndKeys, v);
      && u.creds == [] && u.exposures == [] && FactorScores(w, u).exposure == 0
      && SameFactors(w, v, u, {Privilege, TrustFactor, BlastFactor})
  {
    var u := Remedied(ClearExposuresAndKeys, v);
    ExposureMeans(w, u);
    AlikeScores(w, v, u, Privilege);
    AlikeScores(w, v, u, TrustFactor);
    AlikeScores(w, v, u, BlastFactor);
    hide FactorScore, FactorScores;
  }

  /** Of a decommissioned identity nothing is left but the depth of the chain it began. */
  lemma DecommissionLeaves(w: Weights, v: Facts)
    ensures var u := Remedied(Decommission, v);
      && u.roles == [] && u.bindings == [] && u.creds == [] && u.exposures == [] && u.trust == []
      && FactorScores(w, u).privilege == FactorScores(w, u).exposure == FactorScores(w, u).blast == 0
      && IsBounded(FactorScores(w, u).trust, if v.trustChainDepth >= 2 then w.Sig(ChainDepth2Plus) else 0)
  {
    var u := Remedied(Decommission, v);
    ExposureMeans(w, u);
    NoRoles();
    NoGrants(w, u);
    NoBlastLeft(w, u);
    NoTrust(w, u);
    hide FactorScores;
  }

  /** A role kept under least privilege is neither admin nor privileged, and has lost its wildcards only. */
  lemma {:induction false} LeastPrivilegeKeeps(roles: seq<RoleGrant>, r: RoleGrant)
    ensures r in KeptRoles(roles) <==>
      && r.wildActions == 0 && r.wildResources == 0
      && exists q :: q in roles && !q.level.Admin? && !q.level.Privileged?
                     && q.level == r.level && q.permissionCount == r.permissionCount && q.escalates == r.escalates
  {
    if roles != [] {
      var front, last := roles[..|roles| - 1], roles[|roles| - 1];
      assert roles == front + [last];
      LeastPrivilegeKeeps(front, r);
    }
  }

  /** The permissions of the kept roles are those they had. */
  function KeptPermissions(roles: seq<RoleGrant>): int {
    if roles == [] then 0 else
      var r := roles[|roles| - 1];
      KeptPermissions(roles[..|roles| - 1]) + (if r.level.Admin? || r.level.Privileged? then 0 else r.permissionCount)
  }

  lemma {:induction false} KeptTotals(roles: seq<RoleGrant>)
    ensures TotalPerms(KeptRoles(roles)) == KeptPermissions(roles)
    ensures WildActions(KeptRoles(roles)) == 0 && WildResources(KeptRoles(roles)) == 0
  {
    if roles != [] {
      var front, r := roles[..|roles| - 1], roles[|roles| - 1];
      KeptTotals(front);
      if !r.level.Admin? && !r.level.Privileged? {
        RoleSums(KeptRoles(front), r.(wildActions := 0, wildResources := 0));
      } else {
        assert KeptRoles(front) + [] == KeptRoles(front);
      }
    }
  }

  /** The kept bindings are those on no crown jewel. */
  lemma {:induction false} LeastPrivilegeBinds(bindings: seq<BindingGrant>, b: BindingGrant)
    ensures b in KeptBindings(bindings) <==> b in bindings && !b.criticality.CrownJewel?
  {
    if bindings != [] {
      var front, last := bindings[..|bindings| - 1], bindings[|bindings| - 1];
      assert bindings == front + [last];
      LeastPrivilegeBinds(front, b);
    }
  }

  ghost predicate SomeKeptEscalates(roles: seq<RoleGrant>) {
    exists r :: r in roles && !r.level.Admin? && !r.level.Privileged? && r.escalates
  }

  /** What is left of the privilege is what the other roles can escalate and hold. */
  lemma LeastPrivilegeScore(w: Weights, v: Facts)
    ensures IsBounded(FactorScores(w, Remedied(LeastPrivilege, v)).privilege,
              (if SomeKeptEscalates(v.roles) then w.Sig(PrivEscalationAction) else 0)
              + (if 0 < v.peerPermissionP90 < KeptPermissions(v.roles) then w.Sig(PrivilegeCreepP90) else 0))
  {
    var u := Remedied(LeastPrivilege, v);
    assert u.roles == KeptRoles(v.roles) && u.bindings == KeptBindings(v.bindings);
    hide KeptRoles, KeptBindings, FactorScores, TotalPerms, WildActions, WildResources, SomeEscalates, SomeDangerous,
         SomeWritesCrown, KeptPermissions, SomeKeptEscalates, IsBounded;
    KeptTotals(v.roles);
    KeptBindingsNeverWriteCrown(v.bindings);
    KeptRolesMember(v.roles);
    KeptEscalates(v.roles);
    KeptPrivilege(w, u);
  }

  /** Exposure and trust stay as they are, and the blast radius counts as cut. */
  lemma LeastPrivilegeLeaves(w: Weights, v: Facts)
    ensures var u := Remedied(LeastPrivilege, v);
      && u.exposures == v.exposures && u.creds == v.creds && u.trust == v.trust
      && SameFactors(w, v, u, {ExposureFactor, TrustFactor}) && FactorScores(w, u).blast == 0
  {
    var u := Remedied(LeastPrivilege, v);
    assert Alike(v, u, ExposureFactor) && Alike(v, u, TrustFactor) && u.blast == NO_BLAST;
    hide KeptRoles, KeptBindings, Alike, FactorScore, FactorScores;
    NoBlastLeft(w, u);
    AlikeScores(w, v, u, ExposureFactor);
    AlikeScores(w, v, u, TrustFactor);
  }

  lemma KeptEscalates(roles: seq<RoleGrant>)
    ensures SomeEscalates(KeptRoles(roles)) <==> SomeKeptEscalates(roles)
  {
    hide KeptRoles;
    if r :| r in roles && !r.level.Admin? && !r.level.Privileged? && r.escalates {
      LeastPrivilegeKeeps(roles, r.(wildActions := 0, wildResources := 0));
      assert r.(wildActions := 0, wildResources := 0) in KeptRoles(roles);
    }
    if k :| k in KeptRoles(roles) && k.escalates {
      LeastPrivilegeKeeps(roles, k);
    }
  }

  /** Guarding keeps every edge, its type and its other conditions, and leaves none without a guard. */
  lemma {:induction false} GuardTrustKeeps(trust: seq<TrustEdge>)
    ensures |GuardedTrust(trust)| == |trust|
    ensures forall i :: 0 <= i < |trust| ==>
      var g, t := GuardedTrust(trust)[i], trust[i];
      && g.edgeType == t.edgeType && Signals.Guarded(g.condition)
      && g.condition.Keys == t.condition.Keys + {"guards"}
      && g.condition["guards"] == List(["mfa", "external_id"])
      && forall k :: k in t.condition && k != "guards" ==> g.condition[k] == t.condition[k]
  {
    if trust != [] {
      GuardTrustKeeps(trust[..|trust| - 1]);
    }
  }

  /** So the points of the trust factor are those of the other signals. */
  function UnconditionedPoints(w: Weights, trust: seq<TrustEdge>): int {
    if trust == [] then 0 else
      var t := trust[|trust| - 1];
      UnconditionedPoints(w, trust[..|trust| - 1])
      + (if Says(t.condition, "cross_account") then w.Sig(CrossAccount) else 0)
      + (if Says(t.condition, "wildcard_principal") then w.Sig(WildcardExternal) else 0)
      + (if t.edgeType.CanMintToken? || t.edgeType.CanImpersonate? then w.Sig(CanMintOrImpersonate) else 0)
  }

  lemma {:induction false} GuardedPoints(w: Weights, trust: seq<TrustEdge>)
    ensures TrustPoints(w, GuardedTrust(trust)) == UnconditionedPoints(w, trust)
  {
    if trust != [] {
      var front, t := trust[..|trust| - 1], trust[|trust| - 1];
      GuardedPoints(w, front);
      TrustMeans(w, GuardedTrust(front), Remediation.Guarded(t), 0);
      assert GuardedTrust(trust) == GuardedTrust(front) + [Remediation.Guarded(t)];
      hide TrustPoints, GuardedTrust;
    }
  }

  lemma GuardTrustLeaves(w: Weights, v: Facts)
    ensures var u := Remedied(GuardTrust, v);
      && u.roles == v.roles && u.bindings == v.bindings && u.exposures == v.exposures && u.creds == v.creds
      && SameFactors(w, v, u, {Privilege, ExposureFactor, BlastFactor})
      && IsBounded(FactorScores(w, u).trust,
           UnconditionedPoints(w, v.trust) + (if v.trustChainDepth >= 2 then w.Sig(ChainDepth2Plus) else 0))
  {
    var u := Remedied(GuardTrust, v);
    assert Alike(v, u, Privilege) && Alike(v, u, ExposureFactor) && Alike(v, u, BlastFactor);
    hide Alike, FactorScore, FactorScores, TrustPoints, GuardedTrust, IsBounded;
    GuardedPoints(w, v.trust);
    TrustTotal(w, u);
    AlikeScores(w, v, u, Privilege);
    AlikeScores(w, v, u, ExposureFactor);
    AlikeScores(w, v, u, BlastFactor);
  }

  lemma BreakTrustLeaves(w: Weights, v: Facts)
    ensures var u := Remedied(BreakTrust, v);
      && u.roles == v.roles && u.bindings == v.bindings && u.exposures == v.exposures && u.creds == v.creds
      && u.trust == [] && SameFactors(w, v, u, {Privilege, ExposureFactor}) && FactorScores(w, u).blast == 0
      && IsBounded(FactorScores(w, u).trust, if v.trustChainDepth >= 2 then w.Sig(ChainDepth2Plus) else 0)
  {
    var u := Remedied(BreakTrust, v);
    NoTrust(w, u);
    NoBlastLeft(w, u);
    AlikeScores(w, v, u, Privilege);
    AlikeScores(w, v, u, ExposureFactor);
    hide FactorScore, FactorScores;
  }
}
