/** What each remediation of remediate.go does to the facts, and why none can raise the composite. */
module Remediation {
  import opened Prelude
  import opened Impact
  import opened Risk

  datatype Mutation = ClearExposuresAndKeys | ClearKeys | Decommission | LeastPrivilege | GuardTrust | BreakTrust

  const NO_BLAST := BlastRadius(0, 0, 0, 0, false)

  /** Drops dangerous roles and strips the wildcards of the others. */
  function KeptRoles(roles: seq<RoleGrant>): seq<RoleGrant> {
    if roles == [] then [] else
      var r := roles[|roles| - 1];
      KeptRoles(roles[..|roles| - 1]) + (if IsDangerous(r) then [] else [r.(wildActions := 0, wildResources := 0)])
  }

  function KeptBindings(bindings: seq<BindingGrant>): seq<BindingGrant> {
    if bindings == [] then [] else
      var b := bindings[|bindings| - 1];
      KeptBindings(bindings[..|bindings| - 1]) + (if b.criticality.CrownJewel? then [] else [b])
  }

  function Guarded(t: TrustEdge): TrustEdge {
    t.(condition := t.condition["guards" := List(["mfa", "external_id"])])
  }

  function GuardedTrust(trust: seq<TrustEdge>): seq<TrustEdge> {
    if trust == [] then [] else GuardedTrust(trust[..|trust| - 1]) + [Guarded(trust[|trust| - 1])]
  }

  /** The facts after the remediation has been performed. */
  function Remedied(m: Mutation, v: Facts): Facts {
    match m
    case ClearExposuresAndKeys => v.(exposures := [], creds := [])
    case ClearKeys => v.(creds := [])
    case Decommission => v.(roles := [], bindings := [], creds := [], exposures := [], trust := [], blast := NO_BLAST)
    case LeastPrivilege => v.(roles := KeptRoles(v.roles), bindings := KeptBindings(v.bindings), blast := NO_BLAST)
    case GuardTrust => v.(trust := GuardedTrust(v.trust))
    case BreakTrust => v.(trust := [], blast := NO_BLAST)
  }

  /** Counts are counts. */
  ghost predicate CountsOk(v: Facts) {
    CountedRoles(v.roles)
  }

  /** The factor a signal counts in. */
  function FactorOf(s: Signal): Factor {
    match s
    case AdminOrStar | WildcardAction | WildcardActionCap | WildcardResource | WildcardResourceCap => Privilege
    case PrivEscalationAction | WriteCrownJewel | PrivilegeCreepP90 => Privilege
    case PublicRepo | PrivateRepoOrCI | VerifiedLive | StaticKeyNoExpiry | CredOverMaxAge => ExposureFactor
    case NeverUsedAged | UnusedStaleWindow | RotationUnmanaged | NotRotated => Freshness
    case ImpossibleTravel | NewRegion | NewASNOrRuntime | UsageSpike | FirstUseSensitive | OffHoursBurst => Usage
    case ConditionlessAssume | CrossAccount | WildcardExternal | CanMintOrImpersonate | ChainDepth2Plus => TrustFactor
    case CrownJewel1Hop | CrownJewelChain | HighCritEach | HighCritCap | ReachableOverP90 | EscalateToAdmin =>
        BlastFactor
  }

  /** Some remediation removes the signal. Caps, the chain depth, freshness and usage stay. */
  predicate Removable(s: Signal) {
    && FactorOf(s) !in {Freshness, Usage}
    && s !in {WildcardActionCap, WildcardResourceCap, HighCritCap, ChainDepth2Plus}
  }

  /** No removable signal has negative points. */
  ghost predicate PointsOk(w: Weights) {
    forall s :: Removable(s) ==> w.Sig(s) >= 0
  }

  /** The factor has a removable signal that is worth points. */
  ghost predicate CanFall(w: Weights, f: Factor) {
    exists s :: Removable(s) && FactorOf(s) == f && w.Sig(s) > 0
  }

  /** Every factor that a remediation can lower has a weight that is not negative. */
  ghost predicate WeightsOk(w: Weights) {
    forall f :: CanFall(w, f) ==> w.W(f) >= 0.0
  }

  // ----- each factor can only fall -----

  lemma CapGrows(x: int, y: int, pts: int, cap: int)
    requires 0 <= x <= y && pts >= 0
    ensures 0 <= If(x > 0, CapPts(x * pts, cap)) <= If(y > 0, CapPts(y * pts, cap))
  {
  }

  lemma PrivilegeGrows(w: Weights, d: bool, a: int, r: int, e: bool, c: bool, p: bool, d': bool, a': int, r': int,
                       e': bool, c': bool, p': bool)
    requires PointsOk(w) && 0 <= a <= a' && 0 <= r <= r'
    requires (d ==> d') && (e ==> e') && (c ==> c') && (p ==> p')
    ensures PrivilegeOf(w, d, a, r, e, c, p) <= PrivilegeOf(w, d', a', r', e', c', p')
  {
    CapGrows(a, a', w.Sig(WildcardAction), w.Sig(WildcardActionCap));
    CapGrows(r, r', w.Sig(WildcardResource), w.Sig(WildcardResourceCap));
    hide CapPts;
  }

  ghost predicate CountedRoles(roles: seq<RoleGrant>) {
    forall r :: r in roles ==> r.permissionCount >= 0 && r.wildActions >= 0 && r.wildResources >= 0
  }

  lemma {:induction false} KeptRolesMember(roles: seq<RoleGrant>)
    ensures !SomeDangerous(KeptRoles(roles)) && (SomeEscalates(KeptRoles(roles)) ==> SomeEscalates(roles))
  {
    if roles != [] {
      var front, r := roles[..|roles| - 1], roles[|roles| - 1];
      KeptRolesMember(front);
      assert r in roles && forall x :: x in front ==> x in roles;
    }
  }

  lemma {:induction false} KeptRolesAreFewer(roles: seq<RoleGrant>)
    requires CountedRoles(roles)
    ensures var k := KeptRoles(roles);
            WildActions(k) == 0 && WildResources(k) == 0 && 0 <= TotalPerms(k) <= TotalPerms(roles)
    ensures WildActions(roles) >= 0 && WildResources(roles) >= 0
  {
    if roles != [] {
      var front, r := roles[..|roles| - 1], roles[|roles| - 1];
      assert r in roles && CountedRoles(front);
      KeptRolesAreFewer(front);
      var k := KeptRoles(front);
      if !IsDangerous(r) {
        assert (k + [r.(wildActions := 0, wildResources := 0)])[..|k|] == k;
      } else {
        assert KeptRoles(roles) == k;
      }
    }
  }

  lemma {:induction false} KeptBindingsNeverWriteCrown(bindings: seq<BindingGrant>)
    ensures !SomeWritesCrown(KeptBindings(bindings))
  {
    if bindings != [] {
      KeptBindingsNeverWriteCrown(bindings[..|bindings| - 1]);
    }
  }

  lemma PrivilegeFalls(w: Weights, m: Mutation, v: Facts)
    requires PointsOk(w) && CountsOk(v)
    ensures PrivilegeScore(w, Remedied(Decommission, v)) <= PrivilegeScore(w, Remedied(m, v)) <= PrivilegeScore(w, v)
  {
    KeptRolesAreFewer(v.roles);
    KeptRolesMember(v.roles);
    KeptBindingsNeverWriteCrown(v.bindings);
    NoRoles();
    hide PrivilegeOf, KeptRoles, KeptBindings, WildActions, WildResources, TotalPerms, SomeDangerous, SomeEscalates,
        SomeWritesCrown;
    var k := KeptRoles(v.roles);
    var creeps := v.peerPermissionP90 > 0 && TotalPerms(v.roles) > v.peerPermissionP90;
    var creeps' := v.peerPermissionP90 > 0 && TotalPerms(k) > v.peerPermissionP90;
    PrivilegeGrows(w, false, 0, 0, false, false, false,
                   SomeDangerous(v.roles), WildActions(v.roles), WildResources(v.roles), SomeEscalates(v.roles),
                   SomeWritesCrown(v.bindings), creeps);
    PrivilegeGrows(w, false, 0, 0, false, false, false, false, 0, 0, SomeEscalates(k), false, creeps');
    PrivilegeGrows(w, false, 0, 0, SomeEscalates(k), false, creeps',
                   SomeDangerous(v.roles), WildActions(v.roles), WildResources(v.roles), SomeEscalates(v.roles),
                   SomeWritesCrown(v.bindings), creeps);
  }

  lemma NoRoles()
    ensures !SomeDangerous([]) && WildActions([]) == 0 && WildResources([]) == 0 && TotalPerms([]) == 0
        && !SomeEscalates([])
    ensures !SomeWritesCrown([])
  {
  }

  lemma ExposureFalls(w: Weights, m: Mutation, v: Facts)
    requires PointsOk(w)
    ensures ExposureScore(w, Remedied(Decommission, v)) <= ExposureScore(w, Remedied(m, v)) <= ExposureScore(w, v)
  {
  }

  function TrustOf(w: Weights, v: Facts): int { TrustScore(w, v.trust, v.trustChainDepth) }

  function BlastOf(w: Weights, v: Facts): int { BlastScore(w, v.blast, v.peerReachableP90) }

  /** Guarding an edge adds a guard and changes nothing else that is read of its condition. */
  lemma GuardedReads(t: TrustEdge)
    ensures HasGuard(Guarded(t).condition) && Guarded(t).edgeType == t.edgeType
    ensures IsOn(Guarded(t).condition, "cross_account") == IsOn(t.condition, "cross_account")
    ensures IsOn(Guarded(t).condition, "wildcard_principal") == IsOn(t.condition, "wildcard_principal")
  {
  }

  lemma GuardingLowers(w: Weights, t: TrustEdge)
    requires PointsOk(w)
    ensures 0 <= EdgePoints(w, Guarded(t)) <= EdgePoints(w, t)
  {
    hide HasGuard, IsOn, Guarded;
    GuardedReads(t);
  }

  lemma {:induction false} GuardedTrustLowers(w: Weights, trust: seq<TrustEdge>)
    requires PointsOk(w)
    ensures 0 <= TrustPoints(w, GuardedTrust(trust)) <= TrustPoints(w, trust)
  {
    hide EdgePoints, Guarded;
    if trust != [] {
      var front, t := trust[..|trust| - 1], trust[|trust| - 1];
      GuardedTrustLowers(w, front);
      GuardingLowers(w, t);
      assert (GuardedTrust(front) + [Guarded(t)])[..|GuardedTrust(front)|] == GuardedTrust(front);
    }
  }

  lemma TrustFalls(w: Weights, m: Mutation, v: Facts)
    requires PointsOk(w)
    ensures TrustOf(w, Remedied(Decommission, v)) <= TrustOf(w, Remedied(m, v)) <= TrustOf(w, v)
  {
    GuardedTrustLowers(w, v.trust);
    hide EdgePoints, GuardedTrust, KeptRoles, KeptBindings;
    assert TrustPoints(w, []) == 0;
  }

  lemma BlastFalls(w: Weights, m: Mutation, v: Facts)
    requires PointsOk(w)
    ensures BlastOf(w, Remedied(Decommission, v)) <= BlastOf(w, Remedied(m, v)) <= BlastOf(w, v)
  {
  }

  // ----- a factor without removable points stays -----

  lemma NoPoints(w: Weights, f: Factor, s: Signal)
    requires PointsOk(w) && !CanFall(w, f) && Removable(s) && FactorOf(s) == f
    ensures w.Sig(s) == 0
  {
  }

  lemma NothingTimes(x: int, cap: int)
    ensures CapPts(x * 0, cap) == 0
  {
  }

  lemma PrivilegeStays(w: Weights, m: Mutation, v: Facts)
    requires PointsOk(w) && !CanFall(w, Privilege)
    ensures PrivilegeScore(w, Remedied(m, v)) == PrivilegeScore(w, v)
  {
    NoPrivilege(w, v);
    NoPrivilege(w, Remedied(m, v));
    hide PrivilegeScore, Remedied, PointsOk, CanFall;
  }

  lemma NoPrivilege(w: Weights, v: Facts)
    requires PointsOk(w) && !CanFall(w, Privilege)
    ensures PrivilegeScore(w, v) == 0
  {
    hide PointsOk, CanFall, SomeDangerous, SomeEscalates, SomeWritesCrown, WildActions, WildResources, TotalPerms,
        CapPts;
    NoPoints(w, Privilege, AdminOrStar);
    NoPoints(w, Privilege, WildcardAction);
    NoPoints(w, Privilege, WildcardResource);
    NoPoints(w, Privilege, PrivEscalationAction);
    NoPoints(w, Privilege, WriteCrownJewel);
    NoPoints(w, Privilege, PrivilegeCreepP90);
    NothingTimes(WildActions(v.roles), w.Sig(WildcardActionCap));
    NothingTimes(WildResources(v.roles), w.Sig(WildcardResourceCap));
  }

  lemma ExposureStays(w: Weights, m: Mutation, v: Facts)
    requires PointsOk(w) && !CanFall(w, ExposureFactor)
    ensures ExposureScore(w, Remedied(m, v)) == ExposureScore(w, v)
  {
    hide PointsOk, CanFall, Remedied, SomePublic, SomeVerified, SomeStatic, SomeOverAge;
    NoPoints(w, ExposureFactor, PublicRepo);
    NoPoints(w, ExposureFactor, PrivateRepoOrCI);
    NoPoints(w, ExposureFactor, VerifiedLive);
    NoPoints(w, ExposureFactor, StaticKeyNoExpiry);
    NoPoints(w, ExposureFactor, CredOverMaxAge);
  }

  lemma NoEdgePoints(w: Weights, t: TrustEdge)
    requires PointsOk(w) && !CanFall(w, TrustFactor)
    ensures EdgePoints(w, t) == 0
  {
    hide PointsOk, CanFall, HasGuard, IsOn;
    NoPoints(w, TrustFactor, ConditionlessAssume);
    NoPoints(w, TrustFactor, CrossAccount);
    NoPoints(w, TrustFactor, WildcardExternal);
    NoPoints(w, TrustFactor, CanMintOrImpersonate);
  }

  lemma {:induction false} NoTrustPoints(w: Weights, trust: seq<TrustEdge>)
    requires PointsOk(w) && !CanFall(w, TrustFactor)
    ensures TrustPoints(w, trust) == 0
  {
    if trust != [] {
      hide PointsOk, CanFall, EdgePoints;
      NoTrustPoints(w, trust[..|trust| - 1]);
      NoEdgePoints(w, trust[|trust| - 1]);
    }
  }

  lemma TrustStays(w: Weights, m: Mutation, v: Facts)
    requires PointsOk(w) && !CanFall(w, TrustFactor)
    ensures TrustOf(w, Remedied(m, v)) == TrustOf(w, v)
  {
    NoTrustPoints(w, v.trust);
    NoTrustPoints(w, Remedied(m, v).trust);
    hide TrustPoints, PointsOk, CanFall;
  }

  lemma BlastStays(w: Weights, m: Mutation, v: Facts)
    requires PointsOk(w) && !CanFall(w, BlastFactor)
    ensures BlastOf(w, Remedied(m, v)) == BlastOf(w, v)
  {
    NoBlast(w, v);
    NoBlast(w, Remedied(m, v));
    hide BlastOf, Remedied, PointsOk, CanFall;
  }

  lemma NoBlast(w: Weights, v: Facts)
    requires PointsOk(w) && !CanFall(w, BlastFactor)
    ensures BlastOf(w, v) == 0
  {
    hide PointsOk, CanFall, CapPts;
    NoPoints(w, BlastFactor, CrownJewel1Hop);
    NoPoints(w, BlastFactor, CrownJewelChain);
    NoPoints(w, BlastFactor, HighCritEach);
    NoPoints(w, BlastFactor, ReachableOverP90);
    NoPoints(w, BlastFactor, EscalateToAdmin);
    NothingTimes(v.blast.highCritCount, w.Sig(HighCritCap));
  }

  // ----- the plan theorem -----

  lemma Untouched(m: Mutation, v: Facts)
    ensures Remedied(m, v).subject == v.subject && Remedied(m, v).anomalies == v.anomalies
        && Remedied(m, v).now == v.now
  {
  }

  lemma UntouchedScores(w: Weights, m: Mutation, v: Facts)
    ensures FactorScores(w, Remedied(m, v)).freshness == FactorScores(w, v).freshness
    ensures FactorScores(w, Remedied(m, v)).usage == FactorScores(w, v).usage
  {
    Untouched(m, v);
    hide Remedied, PrivilegeScore, ExposureScore, FreshnessScore, UsageScore, TrustScore, BlastScore;
  }

  function FactorScore(w: Weights, v: Facts, f: Factor): int { ScoreOf(FactorScores(w, v), f) }

  lemma FactorFalls(w: Weights, m: Mutation, v: Facts, f: Factor)
    requires PointsOk(w) && CountsOk(v)
    ensures FactorScore(w, Remedied(Decommission, v), f) <= FactorScore(w, Remedied(m, v), f) <= FactorScore(w, v, f)
  {
    hide PrivilegeScore, ExposureScore, FreshnessScore, UsageScore, TrustScore, BlastScore, Remedied, PointsOk,
        CountsOk;
    match f {
      case Privilege => PrivilegeFalls(w, m, v);
      case ExposureFactor => ExposureFalls(w, m, v);
      case TrustFactor => TrustFalls(w, m, v);
      case BlastFactor => BlastFalls(w, m, v);
      case _ =>
        UntouchedScores(w, m, v);
        UntouchedScores(w, Decommission, v);
    }
  }

  /** A factor without removable points stays as it is. */
  lemma FactorStays(w: Weights, m: Mutation, v: Facts, f: Factor)
    requires PointsOk(w) && !CanFall(w, f)
    ensures FactorScore(w, Remedied(m, v), f) == FactorScore(w, v, f)
  {
    hide PrivilegeScore, ExposureScore, FreshnessScore, UsageScore, TrustScore, BlastScore, Remedied, PointsOk, CanFall;
    match f {
      case Privilege => PrivilegeStays(w, m, v);
      case ExposureFactor => ExposureStays(w, m, v);
      case TrustFactor => TrustStays(w, m, v);
      case BlastFactor => BlastStays(w, m, v);
      case _ => UntouchedScores(w, m, v);
    }
  }

  /** What a remediation leaves is what there was with removable factors lowered, and decommissioning leaves least. */
  lemma RemedyFalls(w: Weights, m: Mutation, v: Facts)
    requires PointsOk(w) && WeightsOk(w) && CountsOk(v)
    ensures RaisedFrom(w, FactorScores(w, Remedied(m, v)), FactorScores(w, v))
    ensures RaisedFrom(w, FactorScores(w, Remedied(Decommission, v)), FactorScores(w, Remedied(m, v)))
  {
    hide FactorScores, ScoreOf, Remedied, PointsOk, CountsOk, CanFall;
    var lo, mid, hi := FactorScores(w, Remedied(Decommission, v)), FactorScores(w, Remedied(m, v)), FactorScores(w, v);
    forall f
      ensures w.W(f) >= 0.0 || ScoreOf(lo, f) == ScoreOf(mid, f) == ScoreOf(hi, f)
      ensures ScoreOf(lo, f) <= ScoreOf(mid, f) <= ScoreOf(hi, f)
    {
      FactorFalls(w, m, v, f);
      if !CanFall(w, f) {
        FactorStays(w, m, v, f);
        FactorStays(w, Decommission, v, f);
      }
    }
  }

  function RiskSum(w: Weights, v: Facts): real { WeightedSum(w, FactorScores(w, v)) }

  /**
   * No remediation raises the weighted sum or the composite, and decommissioning lowers both at least as far as any
   * other.
   */
  lemma RemedyLowers(w: Weights, m: Mutation, v: Facts)
    requires PointsOk(w) && WeightsOk(w) && CountsOk(v)
    ensures RiskSum(w, Remedied(Decommission, v)) <= RiskSum(w, Remedied(m, v)) <= RiskSum(w, v)
    ensures Composite(w, Remedied(Decommission, v)) <= Composite(w, Remedied(m, v)) <= Composite(w, v)
  {
    RemedyFalls(w, m, v);
    hide FactorScores, WeightedSum, CompositeOf, Remedied, RaisedFrom;
    CompositeGrows(w, FactorScores(w, Remedied(Decommission, v)), FactorScores(w, Remedied(m, v)));
    CompositeGrows(w, FactorScores(w, Remedied(m, v)), FactorScores(w, v));
  }

  // ----- the sign condition is exact -----

  const CALM := Anomalies(false, false, false, false, false, false)
  const BARE := Facts(Subject(None, None, None), [], [], [], [], [], CALM, NO_BLAST, 0, 0, 0, 0)

  /** An identity whose only removable signals are `s` and, for a leaked secret, where it leaked. */
  function Witness(s: Signal): Facts {
    match s
    case AdminOrStar => BARE.(roles := [RoleGrant(Admin, 0, 0, 0, false)])
    case WildcardAction => BARE.(roles := [RoleGrant(NoLevel, 0, 1, 0, false)])
    case WildcardResource => BARE.(roles := [RoleGrant(NoLevel, 0, 0, 1, false)])
    case PrivEscalationAction => BARE.(roles := [RoleGrant(NoLevel, 0, 0, 0, true)])
    case WriteCrownJewel => BARE.(bindings := [BindingGrant("allow", CrownJewel, ["*"])])
    case PrivilegeCreepP90 => BARE.(roles := [RoleGrant(NoLevel, 2, 0, 0, false)], peerPermissionP90 := 1)
    case PublicRepo => BARE.(exposures := [Exposure(false, "public", "")])
    case PrivateRepoOrCI => BARE.(exposures := [Exposure(false, "", "")])
    case VerifiedLive => BARE.(exposures := [Exposure(true, "", "")])
    case StaticKeyNoExpiry => BARE.(creds := [Credential("api_key", None, None)])
    case CredOverMaxAge => BARE.(creds := [Credential("", Some(0), Some(0))], now := CRED_MAX_AGE + 1)
    case ConditionlessAssume => BARE.(trust := [TrustEdge(CanAssume, map[])])
    case CrossAccount => BARE.(trust := [TrustEdge(OtherTrust(""), map["cross_account" := Flag(true)])])
    case WildcardExternal => BARE.(trust := [TrustEdge(OtherTrust(""), map["wildcard_principal" := Flag(true)])])
    case CanMintOrImpersonate => BARE.(trust := [TrustEdge(CanMintToken, map[])])
    case CrownJewel1Hop => BARE.(blast := BlastRadius(0, 0, 1, 1, false))
    case CrownJewelChain => BARE.(blast := BlastRadius(0, 0, 1, 2, false))
    case HighCritEach => BARE.(blast := BlastRadius(0, 1, 0, 0, false))
    case ReachableOverP90 => BARE.(blast := BlastRadius(2, 0, 0, 0, false), peerReachableP90 := 1)
    case EscalateToAdmin => BARE.(blast := BlastRadius(0, 0, 0, 0, true))
    case _ => BARE
  }

  /** Decommissioning lowers the score of `f` and no other. */
  ghost predicate LosesOnly(w: Weights, v: Facts, f: Factor) {
    && FactorScore(w, Remedied(Decommission, v), f) < FactorScore(w, v, f)
    && forall g :: g != f ==> FactorScore(w, Remedied(Decommission, v), g) == FactorScore(w, v, g)
  }

  lemma OneRole(r: RoleGrant)
    ensures SomeDangerous([r]) == IsDangerous(r) && SomeEscalates([r]) == r.escalates
    ensures WildActions([r]) == r.wildActions && WildResources([r]) == r.wildResources
        && TotalPerms([r]) == r.permissionCount
  {
    assert r in [r] && [r][..0] == [];
    NoRoles();
  }

  lemma PrivilegeWitness(w: Weights, s: Signal)
    requires PointsOk(w) && Removable(s) && FactorOf(s).Privilege? && w.Sig(s) > 0
    ensures PrivilegeScore(w, Witness(s)) > 0 && PrivilegeScore(w, Remedied(Decommission, Witness(s))) == 0
  {
    NoRoles();
    var v := Witness(s);
    if s.WriteCrownJewel? {
      assert "*" in ["*"] && v.bindings[0] in v.bindings;
    } else {
      OneRole(v.roles[0]);
    }
    hide PointsOk, SomeDangerous, SomeEscalates, WildActions, WildResources, TotalPerms;
  }

  lemma ExposureWitness(w: Weights, s: Signal)
    requires PointsOk(w) && Removable(s) && FactorOf(s).ExposureFactor? && w.Sig(s) > 0
    ensures ExposureScore(w, Witness(s)) > 0 && ExposureScore(w, Remedied(Decommission, Witness(s))) == 0
  {
    var v := Witness(s);
    if v.exposures != [] {
      assert v.exposures[0] in v.exposures;
    } else {
      assert v.creds[0] in v.creds;
    }
    hide PointsOk;
  }

  lemma TrustWitness(w: Weights, s: Signal)
    requires PointsOk(w) && Removable(s) && FactorOf(s).TrustFactor? && w.Sig(s) > 0
    ensures TrustOf(w, Witness(s)) > 0 && TrustOf(w, Remedied(Decommission, Witness(s))) == 0
  {
    var v := Witness(s);
    assert v.trust[..0] == [];
    assert TrustPoints(w, v.trust) == EdgePoints(w, v.trust[0]);
    hide PrivilegeScore, ExposureScore, FreshnessScore, UsageScore, BlastScore;
  }

  lemma BlastWitness(w: Weights, s: Signal)
    requires PointsOk(w) && Removable(s) && FactorOf(s).BlastFactor? && w.Sig(s) > 0
    ensures BlastOf(w, Witness(s)) > 0 && BlastOf(w, Remedied(Decommission, Witness(s))) == 0
  {
    hide PrivilegeScore, ExposureScore, FreshnessScore, UsageScore, TrustScore;
  }

  lemma WitnessLoses(w: Weights, s: Signal)
    requires PointsOk(w) && Removable(s) && w.Sig(s) > 0
    ensures FactorScore(w, Remedied(Decommission, Witness(s)), FactorOf(s)) < FactorScore(w, Witness(s), FactorOf(s))
  {
    hide PrivilegeScore, ExposureScore, FreshnessScore, UsageScore, TrustScore, BlastScore, PointsOk, Witness, Remedied;
    match FactorOf(s) {
      case Privilege => PrivilegeWitness(w, s);
      case ExposureFactor => ExposureWitness(w, s);
      case TrustFactor => TrustWitness(w, s);
      case BlastFactor => BlastWitness(w, s);
    }
  }

  /** The two identities agree in what the factor reads. */
  ghost predicate Alike(v: Facts, u: Facts, g: Factor) {
    match g
    case Privilege => v.roles == u.roles && v.bindings == u.bindings && v.peerPermissionP90 == u.peerPermissionP90
    case ExposureFactor => v.exposures == u.exposures && v.creds == u.creds && v.now == u.now
    case TrustFactor => v.trust == u.trust && v.trustChainDepth == u.trustChainDepth
    case BlastFactor => v.blast == u.blast && v.peerReachableP90 == u.peerReachableP90
    case _ => v.subject == u.subject && v.anomalies == u.anomalies && v.now == u.now
  }

  lemma AlikeScores(w: Weights, v: Facts, u: Facts, g: Factor)
    requires Alike(v, u, g)
    ensures FactorScore(w, v, g) == FactorScore(w, u, g)
  {
    hide PrivilegeOf, ExposureOf, FreshnessScore, UsageScore, TrustScore, BlastScore;
    hide SomeDangerous, SomeEscalates, SomeWritesCrown, WildActions, WildResources, TotalPerms;
    hide SomePublic, SomeVerified, SomeStatic, SomeOverAge;
  }

  /** The facts behind the other factors are bare, so decommissioning leaves them alone. */
  lemma WitnessAlike(s: Signal, g: Factor)
    requires Removable(s) && g != FactorOf(s)
    ensures Alike(Remedied(Decommission, Witness(s)), Witness(s), g)
  {
  }

  lemma NegativeShareRises(a: real, x: int, y: int)
    requires a < 0.0 && x < y
    ensures Share(a, x) > Share(a, y)
  {
  }

  lemma LossRaisesSum(w: Weights, v: Facts, f: Factor)
    requires LosesOnly(w, v, f) && w.W(f) < 0.0
    ensures RiskSum(w, Remedied(Decommission, v)) > RiskSum(w, v)
  {
    hide FactorScores, Remedied, Share;
    var u := Remedied(Decommission, v);
    NegativeShareRises(w.W(f), FactorScore(w, u, f), FactorScore(w, v, f));
    assert f.Privilege? || FactorScore(w, u, Privilege) == FactorScore(w, v, Privilege);
    assert f.ExposureFactor? || FactorScore(w, u, ExposureFactor) == FactorScore(w, v, ExposureFactor);
    assert f.Freshness? || FactorScore(w, u, Freshness) == FactorScore(w, v, Freshness);
    assert f.Usage? || FactorScore(w, u, Usage) == FactorScore(w, v, Usage);
    assert f.TrustFactor? || FactorScore(w, u, TrustFactor) == FactorScore(w, v, TrustFactor);
    assert f.BlastFactor? || FactorScore(w, u, BlastFactor) == FactorScore(w, v, BlastFactor);
  }

  /** No remediation raises any identity's weighted sum. */
  ghost predicate NeverRaises(w: Weights) {
    forall m, v :: CountsOk(v) ==> RiskSum(w, Remedied(m, v)) <= RiskSum(w, v)
  }

  /** The sum never rises for any identity iff no factor that a remediation can lower has a negative weight. */
  lemma NeverRaisesIff(w: Weights)
    requires PointsOk(w)
    ensures NeverRaises(w) <==> WeightsOk(w)
  {
    hide RiskSum, Remedied, PointsOk, CanFall, CountsOk, Witness, FactorScore, Alike;
    if WeightsOk(w) {
      forall m, v | CountsOk(v) ensures RiskSum(w, Remedied(m, v)) <= RiskSum(w, v) {
        RemedyLowers(w, m, v);
      }
    } else {
      var f :| CanFall(w, f) && w.W(f) < 0.0;
      var s := PositiveSignal(w, f);
      forall g | g != f ensures FactorScore(w, Remedied(Decommission, Witness(s)), g) == FactorScore(w, Witness(s), g) {
        WitnessAlike(s, g);
        AlikeScores(w, Remedied(Decommission, Witness(s)), Witness(s), g);
      }
      WitnessLoses(w, s);
      LossRaisesSum(w, Witness(s), f);
      WitnessCounts(s);
    }
  }

  lemma PositiveSignal(w: Weights, f: Factor) returns (s: Signal)
    requires CanFall(w, f)
    ensures Removable(s) && FactorOf(s) == f && w.Sig(s) > 0
  {
    s :| Removable(s) && FactorOf(s) == f && w.Sig(s) > 0;
  }

  lemma WitnessCounts(s: Signal)
    ensures CountsOk(Witness(s))
  {
  }

  // ----- rounding -----

  /** Exposure moves the sum by too little to reach a rounding edge. */
  ghost predicate TinyNegative(w: Weights) {
    && w.weights.Keys == {Privilege, ExposureFactor, Freshness, Usage, TrustFactor, BlastFactor}
    && w.W(Privilege) == 1.0 && w.W(ExposureFactor) == -0.001
    && w.W(Freshness) == w.W(Usage) == w.W(TrustFactor) == w.W(BlastFactor) == 0.0
  }

  lemma RoundsToPrivilege(w: Weights, s: Scores)
    requires TinyNegative(w)
    requires 0 <= s.privilege <= 100 && 0 <= s.exposure <= 100
    ensures CompositeOf(w, s) == s.privilege
  {
    assert WeightedSum(w, s) == s.privilege as real - 0.001 * s.exposure as real;
    assert s.privilege as real + 0.4 <= WeightedSum(w, s) + 0.5 <= s.privilege as real + 0.5;
  }

  lemma RoundedFalls(w: Weights, m: Mutation, v: Facts)
    requires TinyNegative(w) && PointsOk(w) && CountsOk(v)
    ensures Composite(w, Remedied(m, v)) <= Composite(w, v)
  {
    hide PointsOk, CountsOk, Remedied, PrivilegeOf, ExposureOf, FreshnessScore, UsageScore, TrustScore, BlastScore,
        CompositeOf;
    PrivilegeFalls(w, m, v);
    InRange(w, v);
    InRange(w, Remedied(m, v));
    RoundsToPrivilege(w, FactorScores(w, v));
    RoundsToPrivilege(w, FactorScores(w, Remedied(m, v)));
  }

  /**
   * For the rounded composite the condition is not exact: these accepted weights break it, yet the composite,
   * unlike the sum, never rises.
   */
  lemma RoundingHidesNegative(w: Weights)
    requires TinyNegative(w) && PointsOk(w) && CanFall(w, ExposureFactor)
    ensures Accepted(w) && !WeightsOk(w) && !NeverRaises(w)
    ensures forall m, v :: CountsOk(v) ==> Composite(w, Remedied(m, v)) <= Composite(w, v)
  {
    NeverRaisesIff(w);
    hide NeverRaises, PointsOk, CanFall, CountsOk, Remedied, Composite;
    forall m, v | CountsOk(v) ensures Composite(w, Remedied(m, v)) <= Composite(w, v) {
      RoundedFalls(w, m, v);
    }
  }

  lemma InRange(w: Weights, v: Facts)
    ensures 0 <= FactorScores(w, v).privilege <= 100 && 0 <= FactorScores(w, v).exposure <= 100
  {
  }
}
