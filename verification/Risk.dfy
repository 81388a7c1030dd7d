/** The six clamped risk factors of score.go and their weighted composite, over exact rationals. */
module Risk {
  import opened Prelude
  import opened Impact

  // ----- what the scorer reads -----

  /** Instants and durations, in hours. */
  const STALE_WINDOW := 90 * 24
  const NEVER_USED_AGE := 30 * 24
  const ROTATION_MAX_AGE := 180 * 24
  const CRED_MAX_AGE := 365 * 24

  datatype Subject = Subject(createdAt: Option<int>, lastSeen: Option<int>, lastRotated: Option<int>)

  datatype Credential = Credential(credType: string, createdAt: Option<int>, expiresAt: Option<int>)

  /** `escalates` is the "has_priv_escalation" entry of the policy document, false when absent. */
  datatype RoleGrant = RoleGrant(level: PrivilegeLevel, permissionCount: int, wildActions: int, wildResources: int,
                                 escalates: bool)

  datatype BindingGrant = BindingGrant(effect: string, criticality: Criticality, actions: seq<string>)

  datatype Exposure = Exposure(verified: bool, pattern: string, path: string)

  /** A condition value: a flag, a list of strings, or anything else. */
  datatype Value = Flag(on: bool) | List(items: seq<string>) | OtherValue(text: string)

  type Condition = map<string, Value>

  datatype TrustType = CanAssume | CanMintToken | CanImpersonate | OtherTrust(name: string)

  datatype TrustEdge = TrustEdge(edgeType: TrustType, condition: Condition)

  datatype Anomalies = Anomalies(impossibleTravel: bool, newRegion: bool, newASNOrRuntime: bool, usageSpike: bool,
                                 firstUseSensitive: bool, offHoursBurst: bool)

  /** Everything `Score` depends on. */
  datatype Facts = Facts(subject: Subject, creds: seq<Credential>, roles: seq<RoleGrant>, bindings: seq<BindingGrant>,
                         trust: seq<TrustEdge>, exposures: seq<Exposure>, anomalies: Anomalies, blast: BlastRadius,
                         peerPermissionP90: int, peerReachableP90: int, trustChainDepth: int, now: int)

  // ----- weights and signal points -----

  datatype Factor = Privilege | ExposureFactor | Freshness | Usage | TrustFactor | BlastFactor

  datatype Signal =
    | AdminOrStar | WildcardAction | WildcardActionCap | WildcardResource | WildcardResourceCap
    | PrivEscalationAction | WriteCrownJewel | PrivilegeCreepP90
    | PublicRepo | PrivateRepoOrCI | VerifiedLive | StaticKeyNoExpiry | CredOverMaxAge
    | NeverUsedAged | UnusedStaleWindow | RotationUnmanaged | NotRotated
    | ImpossibleTravel | NewRegion | NewASNOrRuntime | UsageSpike | FirstUseSensitive | OffHoursBurst
    | ConditionlessAssume | CrossAccount | WildcardExternal | CanMintOrImpersonate | ChainDepth2Plus
    | CrownJewel1Hop | CrownJewelChain | HighCritEach | HighCritCap | ReachableOverP90 | EscalateToAdmin

  /** A missing weight or signal counts as zero. */
  datatype Weights = Weights(weights: map<Factor, real>, points: map<Signal, int>) {
    function W(f: Factor): real { if f in weights then weights[f] else 0.0 }

    function Sig(s: Signal): int { if s in points then points[s] else 0 }
  }

  /** What validation asks of weights: all six factors, and a sum near one. */
  predicate Accepted(w: Weights) {
    && w.weights.Keys == {Privilege, ExposureFactor, Freshness, Usage, TrustFactor, BlastFactor}
    && 0.95 <= w.W(Privilege) + w.W(ExposureFactor) + w.W(Freshness) + w.W(Usage) + w.W(TrustFactor)
        + w.W(BlastFactor) <= 1.05
  }

  function Clamp(v: int): int { if v < 0 then 0 else if v > 100 then 100 else v }

  function CapPts(v: int, cap: int): int { if cap > 0 && v > cap then cap else v }

  /** Conversion to an integer drops the fraction. */
  function Truncate(x: real): int { if x >= 0.0 then x.Floor else -((-x).Floor) }

  function If(c: bool, pts: int): int { if c then pts else 0 }

  // ----- the factors -----

  predicate IsDangerous(r: RoleGrant) { r.level.Admin? || r.level.Privileged? }

  predicate HasWrite(actions: seq<string>) {
    exists a :: a in actions && a in {"*", "s3:*", "s3:PutObject", "s3:DeleteObject", "write", "*:*"}
  }

  predicate WritesCrown(b: BindingGrant) {
    b.effect == "allow" && b.criticality.CrownJewel? && HasWrite(b.actions)
  }

  function WildActions(roles: seq<RoleGrant>): int {
    if roles == [] then 0 else WildActions(roles[..|roles| - 1]) + roles[|roles| - 1].wildActions
  }

  function WildResources(roles: seq<RoleGrant>): int {
    if roles == [] then 0 else WildResources(roles[..|roles| - 1]) + roles[|roles| - 1].wildResources
  }

  function TotalPerms(roles: seq<RoleGrant>): int {
    if roles == [] then 0 else TotalPerms(roles[..|roles| - 1]) + roles[|roles| - 1].permissionCount
  }

  predicate SomeDangerous(roles: seq<RoleGrant>) { exists r :: r in roles && IsDangerous(r) }

  predicate SomeEscalates(roles: seq<RoleGrant>) { exists r :: r in roles && r.escalates }

  predicate SomeWritesCrown(bindings: seq<BindingGrant>) { exists b :: b in bindings && WritesCrown(b) }

  function PrivilegeOf(w: Weights, dangerous: bool, wildAct: int, wildRes: int, escalates: bool, writesCrown: bool,
                       creeps: bool): int {
    Clamp(If(dangerous, w.Sig(AdminOrStar))
          + If(wildAct > 0, CapPts(wildAct * w.Sig(WildcardAction), w.Sig(WildcardActionCap)))
          + If(wildRes > 0, CapPts(wildRes * w.Sig(WildcardResource), w.Sig(WildcardResourceCap)))
          + If(escalates, w.Sig(PrivEscalationAction))
          + If(writesCrown, w.Sig(WriteCrownJewel))
          + If(creeps, w.Sig(PrivilegeCreepP90)))
  }

  function PrivilegeScore(w: Weights, v: Facts): int {
    PrivilegeOf(w, SomeDangerous(v.roles), WildActions(v.roles), WildResources(v.roles), SomeEscalates(v.roles),
                SomeWritesCrown(v.bindings), v.peerPermissionP90 > 0 && TotalPerms(v.roles) > v.peerPermissionP90)
  }

  predicate IsPublic(e: Exposure) { e.pattern == "public" || e.path == "public" }

  predicate SomePublic(es: seq<Exposure>) { exists e :: e in es && IsPublic(e) }

  predicate SomeVerified(es: seq<Exposure>) { exists e :: e in es && e.verified }

  predicate IsStaticKey(c: Credential) {
    c.expiresAt.None? && (c.credType == "aws_access_key" || c.credType == "gcp_sa_key" || c.credType == "api_key")
  }

  predicate IsOverAge(c: Credential, now: int) { c.createdAt.Some? && now - c.createdAt.value > CRED_MAX_AGE }

  predicate SomeStatic(cs: seq<Credential>) { exists c :: c in cs && IsStaticKey(c) }

  predicate SomeOverAge(cs: seq<Credential>, now: int) { exists c :: c in cs && IsOverAge(c, now) }

  function ExposureOf(w: Weights, pub: bool, priv: bool, verified: bool, static_: bool, overAge: bool): int {
    Clamp((if pub then w.Sig(PublicRepo) else If(priv, w.Sig(PrivateRepoOrCI)))
          + If(verified, w.Sig(VerifiedLive)) + If(static_, w.Sig(StaticKeyNoExpiry))
          + If(overAge, w.Sig(CredOverMaxAge)))
  }

  function ExposureScore(w: Weights, v: Facts): int {
    ExposureOf(w, SomePublic(v.exposures), v.exposures != [], SomeVerified(v.exposures), SomeStatic(v.creds),
               SomeOverAge(v.creds, v.now))
  }

  function FreshnessScore(w: Weights, s: Subject, now: int): int {
    Clamp((if s.lastSeen.None?
           then If(s.createdAt.Some? && now - s.createdAt.value > NEVER_USED_AGE, w.Sig(NeverUsedAged))
           else If(now - s.lastSeen.value > STALE_WINDOW, w.Sig(UnusedStaleWindow)))
          + (if s.lastRotated.None? then w.Sig(RotationUnmanaged)
             else If(now - s.lastRotated.value > ROTATION_MAX_AGE, w.Sig(NotRotated))))
  }

  function UsageScore(w: Weights, a: Anomalies): int {
    Clamp(If(a.impossibleTravel, w.Sig(ImpossibleTravel)) + If(a.newRegion, w.Sig(NewRegion))
          + If(a.newASNOrRuntime, w.Sig(NewASNOrRuntime))
          + If(a.usageSpike, w.Sig(UsageSpike)) + If(a.firstUseSensitive, w.Sig(FirstUseSensitive))
          + If(a.offHoursBurst, w.Sig(OffHoursBurst)))
  }

  /** A condition carries a guard when "guards" is a non-empty list. */
  predicate HasGuard(c: Condition) {
    "guards" in c && c["guards"].List? && |c["guards"].items| > 0
  }

  predicate IsOn(c: Condition, key: string) {
    key in c && c[key].Flag? && c[key].on
  }

  function EdgePoints(w: Weights, t: TrustEdge): int {
    If(t.edgeType.CanAssume? && !HasGuard(t.condition), w.Sig(ConditionlessAssume))
    + If(IsOn(t.condition, "cross_account"), w.Sig(CrossAccount))
    + If(IsOn(t.condition, "wildcard_principal"), w.Sig(WildcardExternal))
    + If(t.edgeType.CanMintToken? || t.edgeType.CanImpersonate?, w.Sig(CanMintOrImpersonate))
  }

  function TrustPoints(w: Weights, trust: seq<TrustEdge>): int {
    if trust == [] then 0 else TrustPoints(w, trust[..|trust| - 1]) + EdgePoints(w, trust[|trust| - 1])
  }

  function TrustScore(w: Weights, trust: seq<TrustEdge>, depth: int): int {
    Clamp(TrustPoints(w, trust) + If(depth >= 2, w.Sig(ChainDepth2Plus)))
  }

  function BlastScore(w: Weights, br: BlastRadius, peerReachableP90: int): int {
    Clamp(If(br.crownJewelCount > 0,
             if br.nearestCrownJewel <= 1 then w.Sig(CrownJewel1Hop) else w.Sig(CrownJewelChain))
          + If(br.highCritCount > 0, CapPts(br.highCritCount * w.Sig(HighCritEach), w.Sig(HighCritCap)))
          + If(peerReachableP90 > 0 && br.reachableResources > peerReachableP90, w.Sig(ReachableOverP90))
          + If(br.reachesAdmin, w.Sig(EscalateToAdmin)))
  }

  /** The factor scores of an identity. */
  datatype Scores = Scores(privilege: int, exposure: int, freshness: int, usage: int, trust: int, blast: int)

  function FactorScores(w: Weights, v: Facts): Scores {
    Scores(PrivilegeScore(w, v), ExposureScore(w, v), FreshnessScore(w, v.subject, v.now), UsageScore(w, v.anomalies),
           TrustScore(w, v.trust, v.trustChainDepth), BlastScore(w, v.blast, v.peerReachableP90))
  }

  function Share(weight: real, score: int): real { weight * score as real }

  function WeightedSum(w: Weights, s: Scores): real {
    Share(w.W(Privilege), s.privilege) + Share(w.W(ExposureFactor), s.exposure) + Share(w.W(Freshness), s.freshness)
    + Share(w.W(Usage), s.usage) + Share(w.W(TrustFactor), s.trust) + Share(w.W(BlastFactor), s.blast)
  }

  function CompositeOf(w: Weights, s: Scores): int { Clamp(Truncate(WeightedSum(w, s) + 0.5)) }

  function Composite(w: Weights, v: Facts): int { CompositeOf(w, FactorScores(w, v)) }

  // ----- monotonicity -----

  lemma ShareGrows(a: real, x: int, y: int)
    requires a >= 0.0 && x <= y
    ensures Share(a, x) <= Share(a, y)
  {
  }

  lemma TruncateGrows(x: real, y: real)
    requires x <= y
    ensures Truncate(x) <= Truncate(y)
  {
  }

  function ScoreOf(s: Scores, f: Factor): int {
    match f
    case Privilege => s.privilege
    case ExposureFactor => s.exposure
    case Freshness => s.freshness
    case Usage => s.usage
    case TrustFactor => s.trust
    case BlastFactor => s.blast
  }

  /** `t` is `s` with some factors of non-negative weight raised. */
  ghost predicate RaisedFrom(w: Weights, s: Scores, t: Scores) {
    forall f :: ScoreOf(s, f) == ScoreOf(t, f) || (ScoreOf(s, f) < ScoreOf(t, f) && w.W(f) >= 0.0)
  }

  lemma RaisedShare(w: Weights, s: Scores, t: Scores, f: Factor)
    requires RaisedFrom(w, s, t)
    ensures Share(w.W(f), ScoreOf(s, f)) <= Share(w.W(f), ScoreOf(t, f))
  {
    if ScoreOf(s, f) != ScoreOf(t, f) {
      ShareGrows(w.W(f), ScoreOf(s, f), ScoreOf(t, f));
    }
  }

  /** Raising factors of non-negative weight lowers neither the weighted sum nor the composite. */
  lemma CompositeGrows(w: Weights, s: Scores, t: Scores)
    requires RaisedFrom(w, s, t)
    ensures WeightedSum(w, s) <= WeightedSum(w, t) && CompositeOf(w, s) <= CompositeOf(w, t)
  {
    RaisedShare(w, s, t, Privilege);
    RaisedShare(w, s, t, ExposureFactor);
    RaisedShare(w, s, t, Freshness);
    RaisedShare(w, s, t, Usage);
    RaisedShare(w, s, t, TrustFactor);
    RaisedShare(w, s, t, BlastFactor);
    hide Truncate, Share;
    TruncateGrows(WeightedSum(w, s) + 0.5, WeightedSum(w, t) + 0.5);
  }
}
