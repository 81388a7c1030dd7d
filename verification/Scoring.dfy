/** The scorer and the remediation planner as they run: over slices and condition maps that are shared objects. */
module Scoring {
  import opened Prelude
  import opened Impact
  import opened Risk
  import opened Remediation

  class ConditionMap {
    var entries: Condition

    constructor (entries: Condition)
      ensures this.entries == entries
    {
      this.entries := entries;
    }
  }

  /** A trust edge as stored; its condition map may be missing. */
  datatype StoredEdge = StoredEdge(edgeType: TrustType, condition: ConditionMap?)

  function Entries(c: ConditionMap?): Condition
    reads c
  {
    if c == null then map[] else c.entries
  }

  function Maps(trust: seq<StoredEdge>): set<ConditionMap> {
    set e | e in trust && e.condition != null :: e.condition
  }

  function Seen(trust: seq<StoredEdge>): seq<TrustEdge>
    reads Maps(trust)
  {
    if trust == [] then [] else
      var e := trust[|trust| - 1];
      assert e in trust;
      Seen(trust[..|trust| - 1]) + [TrustEdge(e.edgeType, Entries(e.condition))]
  }

  class Input {
    var subject: Subject
    var creds: array<Credential>
    var roles: array<RoleGrant>
    var bindings: array<BindingGrant>
    var trust: array<StoredEdge>
    var exposures: array<Exposure>
    var anomalies: Anomalies
    var blast: BlastRadius
    const peerPermissionP90: int
    const peerReachableP90: int
    const trustChainDepth: int
    const now: int

    /** The facts this input holds. */
    ghost function View(): Facts
      reads this, creds, roles, bindings, trust, exposures, Maps(trust[..])
    {
      Facts(subject, creds[..], roles[..], bindings[..], Seen(trust[..]), exposures[..], anomalies, blast,
            peerPermissionP90, peerReachableP90, trustChainDepth, now)
    }

    /** `cloneInput`: fresh slices, shared condition maps. */
    constructor Clone(from: Input)
      ensures View() == from.View()
      ensures fresh(creds) && fresh(roles) && fresh(bindings) && fresh(trust) && fresh(exposures)
    {
      var cs := CopyOf(from.creds);
      var rs := CopyOf(from.roles);
      var bs := CopyOf(from.bindings);
      var ts := CopyOf(from.trust);
      var es := CopyOf(from.exposures);
      subject, anomalies, blast := from.subject, from.anomalies, from.blast;
      creds, roles, bindings, trust, exposures := cs, rs, bs, ts, es;
      peerPermissionP90, peerReachableP90 := from.peerPermissionP90, from.peerReachableP90;
      trustChainDepth, now := from.trustChainDepth, from.now;
    }
  }

  method CopyOf<T>(a: array<T>) returns (b: array<T>)
    ensures fresh(b) && b[..] == a[..]
  {
    b := SliceOf(a[..]);
  }

  method SliceOf<T>(s: seq<T>) returns (b: array<T>)
    ensures fresh(b) && b[..] == s
  {
    b := new T[|s|](i requires 0 <= i < |s| => s[i]);
  }

  /** Unchanged condition maps are seen as before. */
  twostate lemma {:induction false} SeenKept(trust: seq<StoredEdge>)
    requires forall e :: e in trust && e.condition != null ==> unchanged(e.condition)
    ensures Seen(trust) == old(Seen(trust))
  {
    if trust != [] {
      var e := trust[|trust| - 1];
      assert e in trust && forall x :: x in trust[..|trust| - 1] ==> x in trust;
      SeenKept(trust[..|trust| - 1]);
    }
  }

  // ----- Score -----

  lemma RolesAppend(front: seq<RoleGrant>, r: RoleGrant)
    ensures SomeDangerous(front + [r]) == (SomeDangerous(front) || IsDangerous(r))
    ensures SomeEscalates(front + [r]) == (SomeEscalates(front) || r.escalates)
    ensures WildActions(front + [r]) == WildActions(front) + r.wildActions
    ensures WildResources(front + [r]) == WildResources(front) + r.wildResources
    ensures TotalPerms(front + [r]) == TotalPerms(front) + r.permissionCount
  {
    hide IsDangerous;
    assert (front + [r])[..|front|] == front;
  }

  /** The loop over the roles. */
  method RoleTotals(roles: array<RoleGrant>) returns (hasAdmin: bool, escal: bool, wildAct: int, wildRes: int,
                                                      perms: int)
    ensures hasAdmin == SomeDangerous(roles[..]) && escal == SomeEscalates(roles[..])
    ensures wildAct == WildActions(roles[..]) && wildRes == WildResources(roles[..]) && perms == TotalPerms(roles[..])
  {
    NoRoles();
    hide IsDangerous, SomeDangerous, SomeEscalates, WildActions, WildResources, TotalPerms;
    hasAdmin, escal, wildAct, wildRes, perms := false, false, 0, 0, 0;
    assert roles[..0] == [];
    for i := 0 to roles.Length
      invariant hasAdmin == SomeDangerous(roles[..i]) && escal == SomeEscalates(roles[..i])
      invariant wildAct == WildActions(roles[..i]) && wildRes == WildResources(roles[..i])
          && perms == TotalPerms(roles[..i])
    {
      var r := roles[i];
      RolesAppend(roles[..i], r);
      assert roles[..i + 1] == roles[..i] + [r];
      if IsDangerous(r) {
        hasAdmin := true;
      }
      wildAct := wildAct + r.wildActions;
      wildRes := wildRes + r.wildResources;
      perms := perms + r.permissionCount;
      if r.escalates {
        escal := true;
      }
    }
    assert roles[..roles.Length] == roles[..];
  }

  /** The loop over the bindings. */
  method CrownWrites(bindings: array<BindingGrant>) returns (writeCrown: bool)
    ensures writeCrown == SomeWritesCrown(bindings[..])
  {
    hide WritesCrown;
    writeCrown := false;
    for i := 0 to bindings.Length
      invariant writeCrown == SomeWritesCrown(bindings[..i])
    {
      assert bindings[..i + 1] == bindings[..i] + [bindings[i]];
      if WritesCrown(bindings[i]) {
        writeCrown := true;
      }
    }
    assert bindings[..bindings.Length] == bindings[..];
  }

  method ScorePrivilege(w: Weights, roles: array<RoleGrant>, bindings: array<BindingGrant>, peerP90: int)
      returns (score: int)
    ensures score == PrivilegeOf(w, SomeDangerous(roles[..]), WildActions(roles[..]), WildResources(roles[..]),
                                 SomeEscalates(roles[..]), SomeWritesCrown(bindings[..]),
                                 peerP90 > 0 && TotalPerms(roles[..]) > peerP90)
  {
    hide SomeWritesCrown, SomeDangerous, SomeEscalates, WildActions, WildResources, TotalPerms, CapPts;
    var hasAdmin, escal, wildAct, wildRes, perms := RoleTotals(roles);
    var writeCrown := CrownWrites(bindings);
    score := 0;
    if hasAdmin {
      score := score + w.Sig(AdminOrStar);
    }
    ghost var wild, wildest := CapPts(wildAct * w.Sig(WildcardAction), w.Sig(WildcardActionCap)),
      CapPts(wildRes * w.Sig(WildcardResource), w.Sig(WildcardResourceCap));
    if wildAct > 0 {
      score := score + CapPts(wildAct * w.Sig(WildcardAction), w.Sig(WildcardActionCap));
    }
    if wildRes > 0 {
      score := score + CapPts(wildRes * w.Sig(WildcardResource), w.Sig(WildcardResourceCap));
    }
    assert score == If(hasAdmin, w.Sig(AdminOrStar)) + If(wildAct > 0, wild) + If(wildRes > 0, wildest);
    if escal {
      score := score + w.Sig(PrivEscalationAction);
    }
    if writeCrown {
      score := score + w.Sig(WriteCrownJewel);
    }
    if peerP90 > 0 && perms > peerP90 {
      score := score + w.Sig(PrivilegeCreepP90);
    }
    score := Clamp(score);
  }

  method ScoreExposure(w: Weights, exposures: array<Exposure>, creds: array<Credential>, now: int) returns (score: int)
    ensures score == ExposureOf(w, SomePublic(exposures[..]), exposures[..] != [], SomeVerified(exposures[..]),
                                SomeStatic(creds[..]), SomeOverAge(creds[..], now))
  {
    hide IsPublic, SomeStatic, SomeOverAge;
    var pub, priv, verified := false, false, false;
    for i := 0 to exposures.Length
      invariant priv == (i > 0) && pub == SomePublic(exposures[..i]) && verified == SomeVerified(exposures[..i])
    {
      var ex := exposures[i];
      assert exposures[..i + 1] == exposures[..i] + [ex];
      priv := true;
      if ex.verified {
        verified := true;
      }
      if IsPublic(ex) {
        pub := true;
      }
    }
    assert exposures[..exposures.Length] == exposures[..];
    score := 0;
    if pub {
      score := score + w.Sig(PublicRepo);
    } else if priv {
      score := score + w.Sig(PrivateRepoOrCI);
    }
    if verified {
      score := score + w.Sig(VerifiedLive);
    }
    var static_, overAge := FirstKeys(creds, now);
    if static_ {
      score := score + w.Sig(StaticKeyNoExpiry);
    }
    if overAge {
      score := score + w.Sig(CredOverMaxAge);
    }
    score := Clamp(score);
  }

  /** The two loops that stop at the first static key and at the first key past the age limit. */
  method FirstKeys(creds: array<Credential>, now: int) returns (static_: bool, overAge: bool)
    ensures static_ == SomeStatic(creds[..]) && overAge == SomeOverAge(creds[..], now)
  {
    hide IsStaticKey, IsOverAge;
    static_, overAge := false, false;
    for i := 0 to creds.Length
      invariant !static_ && !SomeStatic(creds[..i])
    {
      assert creds[..i + 1] == creds[..i] + [creds[i]];
      if IsStaticKey(creds[i]) {
        static_ := true;
        assert creds[i] in creds[..];
        break;
      }
    }
    assert creds[..creds.Length] == creds[..];
    for i := 0 to creds.Length
      invariant !overAge && !SomeOverAge(creds[..i], now)
    {
      assert creds[..i + 1] == creds[..i] + [creds[i]];
      if IsOverAge(creds[i], now) {
        overAge := true;
        assert creds[i] in creds[..];
        break;
      }
    }
  }

  /** The points of one trust edge. */
  method EdgeTotal(w: Weights, t: TrustEdge) returns (points: int)
    ensures points == EdgePoints(w, t)
  {
    hide HasGuard, IsOn;
    points := 0;
    if t.edgeType.CanAssume? && !HasGuard(t.condition) {
      points := points + w.Sig(ConditionlessAssume);
    }
    if IsOn(t.condition, "cross_account") {
      points := points + w.Sig(CrossAccount);
    }
    if IsOn(t.condition, "wildcard_principal") {
      points := points + w.Sig(WildcardExternal);
    }
    if t.edgeType.CanMintToken? || t.edgeType.CanImpersonate? {
      points := points + w.Sig(CanMintOrImpersonate);
    }
  }

  lemma SeenStep(trust: seq<StoredEdge>, w: Weights)
    requires trust != []
    ensures var e := trust[|trust| - 1];
            Seen(trust) == Seen(trust[..|trust| - 1]) + [TrustEdge(e.edgeType, Entries(e.condition))]
    ensures var e := trust[|trust| - 1];
            TrustPoints(w, Seen(trust)) == TrustPoints(w, Seen(trust[..|trust| - 1]))
                + EdgePoints(w, TrustEdge(e.edgeType, Entries(e.condition)))
  {
  }

  method ScoreTrust(w: Weights, trust: array<StoredEdge>, depth: int) returns (score: int)
    ensures score == TrustScore(w, Seen(trust[..]), depth)
  {
    hide EdgePoints, Seen, TrustPoints;
    score := 0;
    NoneSeen(w);
    assert trust[..0] == [];
    for i := 0 to trust.Length
      invariant score == TrustPoints(w, Seen(trust[..i]))
    {
      label turn:
      var t := trust[i];
      var points := EdgeTotal(w, TrustEdge(t.edgeType, Entries(t.condition)));
      SeenKept@turn(trust[..i]);
      assert trust[..i + 1][..i] == trust[..i];
      SeenStep(trust[..i + 1], w);
      score := score + points;
    }
    assert trust[..trust.Length] == trust[..];
    if depth >= 2 {
      score := score + w.Sig(ChainDepth2Plus);
    }
    score := Clamp(score);
  }

  method ScoreFreshness(w: Weights, subject: Subject, now: int) returns (score: int)
    ensures score == FreshnessScore(w, subject, now)
  {
    score := 0;
    if subject.lastSeen.None? {
      if subject.createdAt.Some? && now - subject.createdAt.value > NEVER_USED_AGE {
        score := score + w.Sig(NeverUsedAged);
      }
    } else if now - subject.lastSeen.value > STALE_WINDOW {
      score := score + w.Sig(UnusedStaleWindow);
    }
    if subject.lastRotated.None? {
      score := score + w.Sig(RotationUnmanaged);
    } else if now - subject.lastRotated.value > ROTATION_MAX_AGE {
      score := score + w.Sig(NotRotated);
    }
    score := Clamp(score);
  }

  method ScoreUsage(w: Weights, a: Anomalies) returns (score: int)
    ensures score == UsageScore(w, a)
  {
    score := 0;
    if a.impossibleTravel {
      score := score + w.Sig(ImpossibleTravel);
    }
    if a.newRegion {
      score := score + w.Sig(NewRegion);
    }
    if a.newASNOrRuntime {
      score := score + w.Sig(NewASNOrRuntime);
    }
    assert score == If(a.impossibleTravel, w.Sig(ImpossibleTravel)) + If(a.newRegion, w.Sig(NewRegion))
                    + If(a.newASNOrRuntime, w.Sig(NewASNOrRuntime));
    if a.usageSpike {
      score := score + w.Sig(UsageSpike);
    }
    if a.firstUseSensitive {
      score := score + w.Sig(FirstUseSensitive);
    }
    if a.offHoursBurst {
      score := score + w.Sig(OffHoursBurst);
    }
    score := Clamp(score);
  }

  method ScoreBlast(w: Weights, br: BlastRadius, peerReachableP90: int) returns (score: int)
    ensures score == BlastScore(w, br, peerReachableP90)
  {
    hide CapPts;
    score := 0;
    if br.crownJewelCount > 0 {
      if br.nearestCrownJewel <= 1 {
        score := score + w.Sig(CrownJewel1Hop);
      } else {
        score := score + w.Sig(CrownJewelChain);
      }
    }
    if br.highCritCount > 0 {
      score := score + CapPts(br.highCritCount * w.Sig(HighCritEach), w.Sig(HighCritCap));
    }
    if peerReachableP90 > 0 && br.reachableResources > peerReachableP90 {
      score := score + w.Sig(ReachableOverP90);
    }
    if br.reachesAdmin {
      score := score + w.Sig(EscalateToAdmin);
    }
    score := Clamp(score);
  }

  method Score(w: Weights, input: Input) returns (composite: int, factors: Scores)
    ensures factors == FactorScores(w, input.View())
    ensures composite == CompositeOf(w, factors) == Composite(w, input.View())
  {
    hide PrivilegeOf, ExposureOf, TrustScore, FreshnessScore, UsageScore, BlastScore, Seen, CompositeOf;
    var privilege := ScorePrivilege(w, input.roles, input.bindings, input.peerPermissionP90);
    var exposure := ScoreExposure(w, input.exposures, input.creds, input.now);
    var freshness := ScoreFreshness(w, input.subject, input.now);
    var use := ScoreUsage(w, input.anomalies);
    var trust := ScoreTrust(w, input.trust, input.trustChainDepth);
    label trusted:
    var blast := ScoreBlast(w, input.blast, input.peerReachableP90);
    SeenKept@trusted(input.trust[..]);
    factors := Scores(privilege, exposure, freshness, use, trust, blast);
    composite := CompositeOf(w, factors);
  }

  // ----- the mutations -----

  method KeepRoles(roles: array<RoleGrant>) returns (kept: array<RoleGrant>)
    ensures fresh(kept) && kept[..] == KeptRoles(roles[..])
  {
    var s: seq<RoleGrant> := [];
    for i := 0 to roles.Length
      invariant s == KeptRoles(roles[..i])
    {
      var r := roles[i];
      assert roles[..i + 1][..i] == roles[..i];
      if IsDangerous(r) {
        assert s + [] == s;
        continue;
      }
      s := s + [r.(wildActions := 0, wildResources := 0)];
    }
    assert roles[..roles.Length] == roles[..];
    kept := SliceOf(s);
  }

  method KeepBindings(bindings: array<BindingGrant>) returns (kept: array<BindingGrant>)
    ensures fresh(kept) && kept[..] == KeptBindings(bindings[..])
  {
    var s: seq<BindingGrant> := [];
    for i := 0 to bindings.Length
      invariant s == KeptBindings(bindings[..i])
    {
      var b := bindings[i];
      assert bindings[..i + 1][..i] == bindings[..i];
      if b.criticality.CrownJewel? {
        assert s + [] == s;
        continue;
      }
      s := s + [b];
    }
    assert bindings[..bindings.Length] == bindings[..];
    kept := SliceOf(s);
  }

  /** A new condition map: the two guards, then every other entry of the old one, in any order. */
  method GuardedMap(c: ConditionMap?) returns (g: ConditionMap)
    ensures fresh(g) && g.entries == Entries(c)["guards" := List(["mfa", "external_id"])]
  {
    var from := Entries(c);
    var cond: Condition := map["guards" := List(["mfa", "external_id"])];
    var todo := from.Keys;
    while todo != {}
      invariant todo <= from.Keys
      invariant cond.Keys == {"guards"} + (from.Keys - todo)
      invariant forall k :: k in cond && k != "guards" ==> cond[k] == from[k]
      invariant cond["guards"] == List(["mfa", "external_id"])
      decreases todo
    {
      var k :| k in todo;
      todo := todo - {k};
      if k != "guards" {
        cond := cond[k := from[k]];
      }
    }
    assert cond == from["guards" := List(["mfa", "external_id"])];
    g := new ConditionMap(cond);
  }

  lemma GuardStep(trust: seq<TrustEdge>, t: TrustEdge)
    ensures GuardedTrust(trust + [t]) == GuardedTrust(trust) + [Guarded(t)]
  {
  }

  method GuardEdges(ghost w: Weights, trust: array<StoredEdge>) returns (guarded: array<StoredEdge>)
    ensures fresh(guarded) && Seen(guarded[..]) == GuardedTrust(Seen(trust[..]))
    ensures forall e :: e in guarded[..] ==> e.condition != null && fresh(e.condition)
  {
    hide Seen, GuardedTrust;
    var s: seq<StoredEdge> := [];
    NoneSeen(w);
    assert trust[..0] == [];
    for i := 0 to trust.Length
      invariant Seen(s) == GuardedTrust(Seen(trust[..i]))
      invariant forall e :: e in s ==> e.condition != null && fresh(e.condition)
    {
      label turn:
      var t := trust[i];
      var cond := GuardedMap(t.condition);
      SeenKept@turn(trust[..i]);
      SeenKept@turn(s);
      assert trust[..i + 1][..i] == trust[..i];
      SeenStep(trust[..i + 1], w);
      GuardStep(Seen(trust[..i]), TrustEdge(t.edgeType, Entries(t.condition)));
      ghost var front := s;
      s := s + [StoredEdge(t.edgeType, cond)];
      assert s[..|front|] == front;
      SeenStep(s, w);
    }
    assert trust[..trust.Length] == trust[..];
    label built:
    guarded := SliceOf(s);
    SeenKept@built(s);
    SeenKept@built(trust[..]);
  }

  // Each remediation assigns fields of the input it is given, and nothing else.

  method ClearExposuresAndKeysOf(input: Input)
    modifies input
    ensures input.View() == Remedied(ClearExposuresAndKeys, old(input.View()))
  {
    hide Seen;
    input.exposures := SliceOf([]);
    input.creds := SliceOf([]);
    SeenKept(input.trust[..]);
  }

  method ClearKeysOf(input: Input)
    modifies input
    ensures input.View() == Remedied(ClearKeys, old(input.View()))
  {
    hide Seen;
    input.creds := SliceOf([]);
    SeenKept(input.trust[..]);
  }

  method DecommissionOf(input: Input)
    modifies input
    ensures input.View() == Remedied(Decommission, old(input.View()))
  {
    hide Seen, KeptRoles, KeptBindings, GuardedTrust, TrustPoints;
    var roles: array<RoleGrant> := SliceOf([]);
    var bindings: array<BindingGrant> := SliceOf([]);
    var creds: array<Credential> := SliceOf([]);
    var exposures: array<Exposure> := SliceOf([]);
    var trust: array<StoredEdge> := SliceOf([]);
    input.roles, input.bindings, input.creds, input.exposures, input.trust := roles, bindings, creds, exposures, trust;
    input.blast := NO_BLAST;
    NoneSeen(Weights(map[], map[]));
  }

  method LeastPrivilegeOf(input: Input)
    modifies input
    ensures input.View() == Remedied(LeastPrivilege, old(input.View()))
  {
    hide Seen, KeptRoles, KeptBindings;
    input.roles := KeepRoles(input.roles);
    input.bindings := KeepBindings(input.bindings);
    input.blast := NO_BLAST;
    SeenKept(input.trust[..]);
  }

  method GuardTrustOf(input: Input)
    modifies input
    ensures input.View() == Remedied(GuardTrust, old(input.View()))
  {
    hide Seen, GuardedTrust;
    var guarded := GuardEdges(Weights(map[], map[]), input.trust);
    SeenKept(input.trust[..]);
    label built:
    input.trust := guarded;
    SeenKept@built(guarded[..]);
  }

  method BreakTrustOf(input: Input)
    modifies input
    ensures input.View() == Remedied(BreakTrust, old(input.View()))
  {
    hide Seen;
    input.trust := SliceOf([]);
    input.blast := NO_BLAST;
    NoneSeen(Weights(map[], map[]));
  }

  method Mutate(m: Mutation, input: Input)
    modifies input
    ensures input.View() == Remedied(m, old(input.View()))
  {
    hide Remedied;
    match m {
      case ClearExposuresAndKeys => ClearExposuresAndKeysOf(input);
      case ClearKeys => ClearKeysOf(input);
      case Decommission => DecommissionOf(input);
      case LeastPrivilege => LeastPrivilegeOf(input);
      case GuardTrust => GuardTrustOf(input);
      case BreakTrust => BreakTrustOf(input);
    }
  }

  lemma NoneSeen(w: Weights)
    ensures Seen([]) == [] && TrustPoints(w, []) == 0 && GuardedTrust([]) == []
  {
  }

  // ----- Recommend -----

  datatype Plan = Plan(action: string, riskAfter: int, riskDelta: int)

  datatype Recommendation = Recommendation(action: string, mutation: Option<Mutation>)

  /** The remediation options of a detector, in order of preference. */
  function Catalog(detector: string): Option<seq<Recommendation>> {
    if detector == "secret_exposed_in_repo" then
      Some([Recommendation("rotate", Some(ClearExposuresAndKeys)), Recommendation("revoke", Some(ClearKeys))])
    else if detector == "stale_access_key" then
      Some([Recommendation("disable_key", Some(ClearKeys)), Recommendation("revoke", Some(ClearKeys))])
    else if detector == "stale_identity" || detector == "orphaned_identity" then
      Some([Recommendation("remove_identity", Some(Decommission))])
    else if detector == "over_privileged_sa" || detector == "privilege_creep" then
      Some([Recommendation("reduce_scope", Some(LeastPrivilege))])
    else if detector == "conditionless_assume_role" then
      Some([Recommendation("add_condition", Some(GuardTrust)), Recommendation("break_trust", Some(BreakTrust))])
    else if detector == "wildcard_trust" then
      Some([Recommendation("break_trust", Some(BreakTrust)), Recommendation("add_condition", Some(GuardTrust))])
    else if detector == "high_blast_radius" then
      Some([Recommendation("reduce_scope", Some(LeastPrivilege)), Recommendation("break_trust", Some(BreakTrust))])
    else if detector == "ai_agent_overscoped" then
      Some([Recommendation("reduce_scope", Some(LeastPrivilege)), Recommendation("shorten_ttl", None)])
    else if detector in {"impossible_travel", "unusual_geo", "first_use_sensitive_action", "usage_spike"} then
      Some([Recommendation("require_mfa", None)])
    else None
  }

  /** The actions offered against a finding, the preferred one first. */
  function Offered(detector: string): seq<string> {
    var recs := Catalog(detector);
    if recs.None? then [] else seq(|recs.value|, i requires 0 <= i < |recs.value| => recs.value[i].action)
  }

  lemma CatalogOffers(detector: string)
    ensures Offered(detector) ==
            if detector == "secret_exposed_in_repo" then ["rotate", "revoke"]
            else if detector == "stale_access_key" then ["disable_key", "revoke"]
            else if detector in {"stale_identity", "orphaned_identity"} then ["remove_identity"]
            else if detector in {"over_privileged_sa", "privilege_creep"} then ["reduce_scope"]
            else if detector == "conditionless_assume_role" then ["add_condition", "break_trust"]
            else if detector == "wildcard_trust" then ["break_trust", "add_condition"]
            else if detector == "high_blast_radius" then ["reduce_scope", "break_trust"]
            else if detector == "ai_agent_overscoped" then ["reduce_scope", "shorten_ttl"]
            else if detector in {"impossible_travel", "unusual_geo", "first_use_sensitive_action", "usage_spike"}
            then ["require_mfa"]
            else []
  {
  }

  /** The change that performing an action simulates, if any. */
  function Simulated(action: string): Option<Mutation> {
    match action
    case "rotate" => Some(ClearExposuresAndKeys)
    case "revoke" => Some(ClearKeys)
    case "disable_key" => Some(ClearKeys)
    case "remove_identity" => Some(Decommission)
    case "reduce_scope" => Some(LeastPrivilege)
    case "add_condition" => Some(GuardTrust)
    case "break_trust" => Some(BreakTrust)
    case _ => None
  }

  lemma SimulatedByName()
    ensures Simulated("rotate") == Some(ClearExposuresAndKeys) && Simulated("remove_identity") == Some(Decommission)
    ensures Simulated("revoke") == Simulated("disable_key") == Some(ClearKeys)
    ensures Simulated("reduce_scope") == Some(LeastPrivilege) && Simulated("add_condition") == Some(GuardTrust)
    ensures Simulated("break_trust") == Some(BreakTrust)
    ensures Simulated("shorten_ttl") == Simulated("require_mfa") == None
  {
  }

  /** Whatever finding it is offered against, an action simulates one and the same change. */
  lemma ActionMeans(detector: string)
    ensures Catalog(detector).Some? ==>
      var recs := Catalog(detector).value;
      forall i :: 0 <= i < |recs| ==> recs[i].mutation == Simulated(recs[i].action)
  {
    SimulatedByName();
    hide Simulated;
  }

  lemma {:induction false} AllGuarded(trust: seq<TrustEdge>)
    ensures forall t :: t in GuardedTrust(trust) ==> HasGuard(t.condition)
  {
    if trust != [] {
      AllGuarded(trust[..|trust| - 1]);
    }
  }

  /** What each remediation clears. */
  lemma Clears(m: Mutation, v: Facts)
    ensures var u := Remedied(m, v);
      && (m.ClearExposuresAndKeys? ==> u.exposures == [] && u.creds == [])
      && (m.ClearKeys? ==> u.creds == [])
      && (m.Decommission? ==> u.roles == [] && u.bindings == [] && u.creds == [] && u.exposures == [] && u.trust == [])
      && (m.LeastPrivilege? ==> !SomeDangerous(u.roles) && u.blast == NO_BLAST)
      && (m.GuardTrust? ==> forall t :: t in u.trust ==> HasGuard(t.condition))
      && (m.BreakTrust? ==> u.trust == [] && u.blast == NO_BLAST)
  {
    KeptRolesMember(v.roles);
    AllGuarded(v.trust);
    hide SomeDangerous, KeptRoles, KeptBindings, GuardedTrust, HasGuard;
  }

  /** The facts after the remediation that a detector's catalog prefers. */
  function Preferred(detector: string, v: Facts): Facts {
    if Catalog(detector).Some? && Catalog(detector).value != [] && Catalog(detector).value[0].mutation.Some?
    then Remedied(Catalog(detector).value[0].mutation.value, v) else v
  }

  /** The preferred remediation leaves nothing of the credentials, grants or identity that the detector flags. */
  lemma PreferredCuresGrants(v: Facts)
    ensures Preferred("secret_exposed_in_repo", v).exposures == [] && Preferred("secret_exposed_in_repo", v).creds == []
    ensures Preferred("stale_access_key", v).creds == []
    ensures Preferred("stale_identity", v) == Preferred("orphaned_identity", v) == Remedied(Decommission, v)
    ensures !SomeDangerous(Preferred("over_privileged_sa", v).roles)
    ensures !SomeDangerous(Preferred("privilege_creep", v).roles)
    ensures !SomeDangerous(Preferred("ai_agent_overscoped", v).roles)
  {
    Clears(ClearExposuresAndKeys, v);
    Clears(ClearKeys, v);
    Clears(LeastPrivilege, v);
    hide Remedied, SomeDangerous;
  }

  /** Nor of the trust or the blast radius. */
  lemma PreferredCuresTrust(v: Facts)
    ensures forall t :: t in Preferred("conditionless_assume_role", v).trust ==> HasGuard(t.condition)
    ensures Preferred("wildcard_trust", v).trust == []
  {
    Clears(GuardTrust, v);
    Clears(BreakTrust, v);
    hide Remedied, HasGuard;
  }

  lemma PreferredCuresBlast(v: Facts)
    ensures Preferred("high_blast_radius", v).blast == NO_BLAST
  {
    Clears(LeastPrivilege, v);
    hide Remedied;
  }

  /** An anomaly is met by asking for more at sign-in, which changes no fact. */
  lemma AnomaliesStay(detector: string, v: Facts)
    requires detector in {"impossible_travel", "unusual_geo", "first_use_sensitive_action", "usage_spike"}
    ensures Catalog(detector) == Some([Recommendation("require_mfa", None)]) && Preferred(detector, v) == v
  {
  }

  function PlanFor(rec: Recommendation, w: Weights, v: Facts, current: int): Plan {
    var after := if rec.mutation.Some? then Composite(w, Remedied(rec.mutation.value, v)) else current;
    Plan(rec.action, after, Max(current - after, 0))
  }

  function Plans(recs: seq<Recommendation>, w: Weights, v: Facts, current: int): seq<Plan> {
    if recs == [] then [] else Plans(recs[..|recs| - 1], w, v, current) + [PlanFor(recs[|recs| - 1], w, v, current)]
  }

  function PlansFor(detector: string, w: Weights, v: Facts, current: int): seq<Plan> {
    if Catalog(detector).None? then [] else Plans(Catalog(detector).value, w, v, current)
  }

  /** Plans for a finding. Nothing that existed before the call is modified: there is no `modifies` clause. */
  method Recommend(detector: string, input: Input, w: Weights, current: int) returns (plans: seq<Plan>)
    ensures plans == PlansFor(detector, w, input.View(), current)
    ensures unchanged(input) && unchanged(input.creds) && unchanged(input.roles) && unchanged(input.bindings)
         && unchanged(input.trust) && unchanged(input.exposures) && unchanged(Maps(input.trust[..]))
  {
    hide Catalog, Composite, Remedied, Seen;
    var recs := Catalog(detector);
    if recs.None? {
      return [];
    }
    ghost var v := input.View();
    plans := [];
    for i := 0 to |recs.value|
      invariant plans == Plans(recs.value[..i], w, v, current)
    {
      var rec := recs.value[i];
      assert recs.value[..i + 1][..i] == recs.value[..i];
      var after := current;
      if rec.mutation.Some? {
        var cp := new Input.Clone(input);
        SeenKept(input.trust[..]);
        assert cp.View() == v;
        Mutate(rec.mutation.value, cp);
        label mutated:
        var factors;
        after, factors := Score(w, cp);
        SeenKept@mutated(cp.trust[..]);
      }
      var delta := current - after;
      if delta < 0 {
        delta := 0;
      }
      plans := plans + [Plan(rec.action, after, delta)];
    }
    assert recs.value[..|recs.value|] == recs.value;
    SeenKept(input.trust[..]);
  }

  lemma {:induction false} PlansMember(recs: seq<Recommendation>, w: Weights, v: Facts, current: int, p: Plan)
    requires p in Plans(recs, w, v, current)
    ensures exists rec :: rec in recs && p == PlanFor(rec, w, v, current)
  {
    hide PlanFor;
    var front, last := recs[..|recs| - 1], recs[|recs| - 1];
    assert recs == front + [last];
    if p != PlanFor(last, w, v, current) {
      PlansMember(front, w, v, current, p);
    }
  }

  /**
   * Every plan accounts for the whole present risk: what is left plus what is saved is the current score,
   * nothing is lost to the floor on the delta, and no plan saves more than decommissioning would.
   */
  lemma PlansAccountForRisk(detector: string, w: Weights, v: Facts, current: int, p: Plan)
    requires PointsOk(w) && WeightsOk(w) && CountsOk(v) && current == Composite(w, v)
    requires p in PlansFor(detector, w, v, current)
    ensures p.riskAfter + p.riskDelta == current && 0 <= p.riskAfter <= current <= 100
    ensures p.riskDelta <= current - Composite(w, Remedied(Decommission, v))
  {
    hide Catalog, Remedied, FactorScores, WeightedSum, Truncate;
    PlansMember(Catalog(detector).value, w, v, current, p);
    var rec :| rec in Catalog(detector).value && p == PlanFor(rec, w, v, current);
    RemedyLowers(w, if rec.mutation.Some? then rec.mutation.value else ClearKeys, v);
  }

  /**
   * Without the sign condition the accounting fails, for weights that validation accepts: with exposure
   * weighing -0.5, clearing an exposure raises the composite from 68 to 90 and the floor hides it.
   */
  lemma NegativeWeightBreaksAccounting(v: Facts, w: Weights)
    requires w.weights == map[Privilege := 1.5, ExposureFactor := -0.5, Freshness := 0.0, Usage := 0.0,
                              TrustFactor := 0.0, BlastFactor := 0.0]
    requires w.points == map[AdminOrStar := 60, PrivateRepoOrCI := 45]
    requires v == BARE.(roles := [RoleGrant(Admin, 0, 0, 0, false)], exposures := [Exposure(false, "", "")])
    ensures Accepted(w) && Composite(w, v) == 68
    ensures PlanFor(Recommendation("rotate", Some(ClearExposuresAndKeys)), w, v, Composite(w, v))
        == Plan("rotate", 90, 0)
  {
    var u := v.(exposures := [], creds := []);
    OneAdmin(w, v);
    OneAdmin(w, u);
    OneExposure(w, v);
    NoExposure(w, u);
    NothingElse(w, v);
    NothingElse(w, u);
    HandAccepted(w);
    hide PrivilegeScore, ExposureScore, FreshnessScore, UsageScore, TrustScore, BlastScore, CompositeOf, Accepted;
    assert FactorScores(w, v) == Scores(60, 45, 0, 0, 0, 0) && FactorScores(w, u) == Scores(60, 0, 0, 0, 0, 0);
    HandSums(w);
  }

  lemma HandAccepted(w: Weights)
    requires w.weights == map[Privilege := 1.5, ExposureFactor := -0.5, Freshness := 0.0, Usage := 0.0,
                              TrustFactor := 0.0, BlastFactor := 0.0]
    ensures Accepted(w)
  {
  }

  lemma HandSums(w: Weights)
    requires w.W(Privilege) == 1.5 && w.W(ExposureFactor) == -0.5
    ensures CompositeOf(w, Scores(60, 45, 0, 0, 0, 0)) == 68 && CompositeOf(w, Scores(60, 0, 0, 0, 0, 0)) == 90
  {
  }

  lemma OneAdmin(w: Weights, v: Facts)
    requires v.roles == [RoleGrant(Admin, 0, 0, 0, false)] && v.bindings == [] && v.peerPermissionP90 == 0
        && w.Sig(AdminOrStar) == 60
    ensures PrivilegeScore(w, v) == 60
  {
    assert RoleGrant(Admin, 0, 0, 0, false) in v.roles && v.roles[..0] == [];
    NoRoles();
    assert SomeDangerous(v.roles) && !SomeEscalates(v.roles) && WildActions(v.roles) == 0
        && WildResources(v.roles) == 0;
  }

  lemma OneExposure(w: Weights, v: Facts)
    requires v.exposures == [Exposure(false, "", "")] && v.creds == [] && w.Sig(PrivateRepoOrCI) == 45
    ensures ExposureScore(w, v) == 45
  {
  }

  lemma NoExposure(w: Weights, v: Facts)
    requires v.exposures == [] && v.creds == []
    ensures ExposureScore(w, v) == 0
  {
  }

  lemma NothingElse(w: Weights, v: Facts)
    requires w.points.Keys == {AdminOrStar, PrivateRepoOrCI} && v.trust == [] && v.trustChainDepth == 0
        && v.blast == NO_BLAST && v.peerReachableP90 == 0
    ensures FreshnessScore(w, v.subject, v.now) == 0 && UsageScore(w, v.anomalies) == 0
    ensures TrustScore(w, v.trust, v.trustChainDepth) == 0 && BlastScore(w, v.blast, v.peerReachableP90) == 0
  {
  }
}
