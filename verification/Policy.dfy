/** The policy analysis of policy.go, on already decoded statements. */
module Policy {
  import opened Prelude
  import opened Strings
  import opened Resolver

  datatype Statement = Statement(effect: string, actions: seq<string>, resources: seq<string>)

  /** A decoded document, or None for one that does not decode. */
  type Document = Option<seq<Statement>>

  datatype Binding = Binding(urn: string, actions: seq<string>, effect: string, criticality: Criticality)

  datatype Level = ReadLevel | WriteLevel | PrivilegedLevel | AdminLevel

  datatype Analysis = Analysis(permissionCount: nat, wildcardActionCount: nat, wildcardResourceCount: nat,
                               hasPrivEscalation: bool, level: Level, bindings: seq<Binding>)

  // ----- actions -----

  const ESCALATIONS: set<string> := {
    "iam:createaccesskey", "iam:createloginprofile", "iam:updateloginprofile", "iam:attachuserpolicy",
    "iam:attachgrouppolicy", "iam:attachrolepolicy", "iam:putuserpolicy", "iam:putgrouppolicy", "iam:putrolepolicy",
    "iam:createpolicyversion", "iam:setdefaultpolicyversion", "iam:passrole", "iam:updateassumerolepolicy",
    "sts:assumerole", "lambda:createfunction", "lambda:updatefunctioncode", "lambda:invokefunction",
    "glue:createdevendpoint", "cloudformation:createstack", "datapipeline:createpipeline", "ec2:runinstances"}

  const DATA_SERVICES: set<string> := {"s3", "dynamodb", "rds", "kms", "secretsmanager", "ssm", "redshift", "es"}

  const WRITE_VERBS: set<string> := {":put", ":create", ":delete", ":update", ":write", ":modify", ":attach", ":set",
                                     ":remove", ":terminate"}

  predicate IsEscalation(la: string) { la in ESCALATIONS }

  predicate IsDataService(svc: string) { svc in DATA_SERVICES }

  predicate IsWriteAction(la: string) {
    || la == "*" || la == "*:*" || HasSuffix(la, ":*")
    || exists verb :: verb in WRITE_VERBS && Contains(la, verb)
  }

  predicate IsWildcardAction(act: string) {
    act == "*" || HasSuffix(act, ":*")
  }

  predicate IsAdminAction(act: string) {
    act == "*" || act == "*:*" || ToLower(act) == "iam:*"
  }

  predicate Escalates(act: string) { IsEscalation(ToLower(act)) }

  predicate Writes(act: string) { IsWriteAction(ToLower(act)) }

  /** What an action says about its resources; never more than high. */
  function ActionCriticality(action: string, resources: seq<string>): (c: Criticality)
    ensures !c.CrownJewel? && !c.Unlisted?
  {
    var svc := ServiceOf(action);
    if action == "*" || action == "*:*" || action == "iam:*" then High
    else if "*" in resources && IsDataService(svc) then High
    else if IsDataService(svc) && IsWriteAction(action) then Medium
    else Low
  }

  // ----- lists -----

  function NonEmpty(s: seq<string>): seq<string> {
    if s == [] then [] else
      var v := s[|s| - 1];
      NonEmpty(s[..|s| - 1]) + (if v != "" then [v] else [])
  }

  lemma {:induction false} NonEmptyMember(s: seq<string>, v: string)
    ensures v in NonEmpty(s) <==> v in s && v != ""
  {
    if s != [] {
      NonEmptyMember(s[..|s| - 1], v);
      assert s == s[..|s| - 1] + [s[|s| - 1]];
    }
  }

  /** Drops empty and repeated strings, keeping the first of each. Case is not changed. */
  function Dedupe(s: seq<string>): seq<string> {
    if s == [] then [] else
      var front, v := Dedupe(s[..|s| - 1]), s[|s| - 1];
      if v == "" || v in front then front else front + [v]
  }

  /** Deduplication keeps exactly the non-empty strings, each once. */
  lemma {:induction false} DedupeKeepsEach(s: seq<string>)
    ensures forall v :: v in Dedupe(s) <==> v in s && v != ""
    ensures forall i, j :: 0 <= i < j < |Dedupe(s)| ==> Dedupe(s)[i] != Dedupe(s)[j]
  {
    if s != [] {
      DedupeKeepsEach(s[..|s| - 1]);
      assert s == s[..|s| - 1] + [s[|s| - 1]];
    }
  }

  method DedupeActions(s: seq<string>) returns (out: seq<string>)
    ensures out == Dedupe(s)
  {
    out := [];
    var seen: set<string> := {};
    for i := 0 to |s|
      invariant out == Dedupe(s[..i]) && forall v :: v in seen <==> v in out
    {
      assert s[..i + 1][..i] == s[..i];
      if s[i] == "" || s[i] in seen {
        continue;
      }
      seen := seen + {s[i]};
      out := out + [s[i]];
    }
    assert s[..|s|] == s;
  }

  method KeepNonEmpty(s: seq<string>) returns (out: seq<string>)
    ensures out == NonEmpty(s)
  {
    out := [];
    for i := 0 to |s|
      invariant out == NonEmpty(s[..i])
    {
      assert s[..i + 1][..i] == s[..i];
      if s[i] != "" {
        out := out + [s[i]];
      } else {
        assert out + [] == out;
      }
    }
    assert s[..|s|] == s;
  }

  function Higher(a: Criticality, b: Criticality): Criticality {
    if CriticalityRank(b) > CriticalityRank(a) then b else a
  }

  function ActionsCriticality(actions: seq<string>, resources: seq<string>): (c: Criticality)
    ensures !c.CrownJewel? && !c.Unlisted?
  {
    if actions == [] then Low
    else Higher(ActionsCriticality(actions[..|actions| - 1], resources),
                ActionCriticality(ToLower(actions[|actions| - 1]), resources))
  }

  /** An action that controls everything, or a data service's action over every resource. */
  predicate ImpliesHigh(action: string, resources: seq<string>) {
    action in {"*", "*:*", "iam:*"} || ("*" in resources && IsDataService(ServiceOf(action)))
  }

  /** An action that writes to a data service. */
  predicate ImpliesMedium(action: string) {
    IsDataService(ServiceOf(action)) && IsWriteAction(action)
  }

  ghost predicate SomeHigh(actions: seq<string>, resources: seq<string>) {
    exists a :: a in actions && ImpliesHigh(ToLower(a), resources)
  }

  ghost predicate SomeMedium(actions: seq<string>) {
    exists a :: a in actions && ImpliesMedium(ToLower(a))
  }

  lemma SomeAppend(front: seq<string>, last: string, resources: seq<string>)
    ensures SomeHigh(front + [last], resources) <==> SomeHigh(front, resources) || ImpliesHigh(ToLower(last), resources)
    ensures SomeMedium(front + [last]) <==> SomeMedium(front) || ImpliesMedium(ToLower(last))
  {
    hide ToLower, ImpliesHigh, ImpliesMedium;
    assert last in front + [last];
  }

  /**
   * A statement's actions are high iff one of them implies it, medium iff none does and one writes to a data
   * service, and low otherwise: the order of the actions does not matter and no action implies a crown jewel.
   */
  lemma {:induction false} ActionsLevel(actions: seq<string>, resources: seq<string>)
    ensures ActionsCriticality(actions, resources)
      == if SomeHigh(actions, resources) then High else if SomeMedium(actions) then Medium else Low
  {
    if actions != [] {
      var front, last := actions[..|actions| - 1], actions[|actions| - 1];
      assert actions == front + [last];
      ActionsLevel(front, resources);
      ActionLevel(ToLower(last), resources);
      SomeAppend(front, last, resources);
      hide ActionCriticality, ImpliesHigh, ImpliesMedium, ToLower, SomeHigh, SomeMedium;
    }
  }

  lemma ActionLevel(action: string, resources: seq<string>)
    ensures ActionCriticality(action, resources)
      == if ImpliesHigh(action, resources) then High else if ImpliesMedium(action) then Medium else Low
  {
  }

  predicate IsStar(urn: string) { urn == "*" }

  function CountIf(s: seq<string>, p: string -> bool): nat {
    if s == [] then 0 else CountIf(s[..|s| - 1], p) + (if p(s[|s| - 1]) then 1 else 0)
  }

  // ----- what an analysis is -----

  predicate Allows(st: Statement) { ToLower(st.effect) == "allow" }

  function Allowed(sts: seq<Statement>): seq<Statement> {
    if sts == [] then [] else
      var st := sts[|sts| - 1];
      Allowed(sts[..|sts| - 1]) + (if Allows(st) then [st] else [])
  }

  /** The allow statements of the documents that decode, in order. */
  function Statements(docs: seq<Document>): seq<Statement> {
    if docs == [] then [] else
      var d := docs[|docs| - 1];
      Statements(docs[..|docs| - 1]) + (if d.Some? then Allowed(d.value) else [])
  }

  ghost function BindingFor(tags: Tags, st: Statement, urn: string): Binding {
    Binding(urn, Dedupe(st.actions), "allow",
            Higher(ActionsCriticality(st.actions, st.resources), Highest(tags, urn, st.actions)))
  }

  ghost function StatementBindings(tags: Tags, st: Statement, urns: seq<string>): seq<Binding> {
    seq(|urns|, i requires 0 <= i < |urns| => BindingFor(tags, st, urns[i]))
  }

  /** Running totals over allow statements. */
  datatype Totals = Totals(permissions: nat, wildActions: nat, wildResources: nat,
                           escalates: bool, admin: bool, write: bool, bindings: seq<Binding>)

  ghost predicate SomeAction(actions: seq<string>, p: string -> bool) {
    exists a :: a in actions && p(a)
  }

  ghost function AddStatement(tags: Tags, t: Totals, st: Statement): Totals {
    Totals(
      t.permissions + |st.actions|,
      t.wildActions + CountIf(st.actions, IsWildcardAction),
      t.wildResources + CountIf(NonEmpty(st.resources), IsStar),
      t.escalates || SomeAction(st.actions, Escalates),
      t.admin || SomeAction(st.actions, IsAdminAction),
      t.write || SomeAction(st.actions, Writes),
      t.bindings + StatementBindings(tags, st, NonEmpty(st.resources)))
  }

  ghost function Sum(tags: Tags, sts: seq<Statement>): Totals {
    if sts == [] then Totals(0, 0, 0, false, false, false, [])
    else AddStatement(tags, Sum(tags, sts[..|sts| - 1]), sts[|sts| - 1])
  }

  function Grade(t: Totals): Analysis {
    Analysis(t.permissions, t.wildActions, t.wildResources, t.escalates,
             if t.admin then AdminLevel else if t.escalates then PrivilegedLevel
             else if t.write then WriteLevel else ReadLevel,
             t.bindings)
  }

  /** The binding `b` is the one statement `st` gives for its resource `urn`. */
  ghost predicate Gives(tags: Tags, st: Statement, urn: string, b: Binding) {
    urn in st.resources && urn != "" && b == BindingFor(tags, st, urn)
  }

  lemma StatementGives(tags: Tags, st: Statement, b: Binding)
    ensures b in StatementBindings(tags, st, NonEmpty(st.resources)) <==> exists urn :: Gives(tags, st, urn, b)
  {
    hide BindingFor, NonEmpty;
    var urns := NonEmpty(st.resources);
    var more := StatementBindings(tags, st, urns);
    if b in more {
      var i :| 0 <= i < |more| && more[i] == b;
      NonEmptyMember(st.resources, urns[i]);
      assert Gives(tags, st, urns[i], b);
    }
    if urn :| Gives(tags, st, urn, b) {
      NonEmptyMember(st.resources, urn);
      var i :| 0 <= i < |urns| && urns[i] == urn;
      assert more[i] == b;
    }
  }

  lemma SumBindings(tags: Tags, sts: seq<Statement>)
    requires sts != []
    ensures var st := sts[|sts| - 1];
            Sum(tags, sts).bindings == Sum(tags, sts[..|sts| - 1]).bindings
                + StatementBindings(tags, st, NonEmpty(st.resources))
  {
  }

  /** The bindings are one per allow statement and non-empty resource. */
  lemma {:induction false} BindingComesFrom(tags: Tags, sts: seq<Statement>, b: Binding)
    ensures b in Sum(tags, sts).bindings <==> exists st, urn :: st in sts && Gives(tags, st, urn, b)
  {
    hide Gives, StatementBindings;
    if sts != [] {
      var front, st := sts[..|sts| - 1], sts[|sts| - 1];
      SumBindings(tags, sts);
      hide Sum;
      BindingComesFrom(tags, front, b);
      StatementGives(tags, st, b);
      assert sts == front + [st];
    }
  }

  lemma EmptyActionCoversNothing(svc: string)
    requires svc != ""
    ensures ToLower("") != "*" && ToLower("") != "*:*" && ServiceOf(ToLower("")) != svc
  {
  }

  /** A binding keeps its statement's actions but for repeats and empty ones, which reach nothing. */
  lemma DedupeCoversSame(actions: seq<string>, svc: string)
    ensures ActionsCoverService(Dedupe(actions), svc) <==> ActionsCoverService(actions, svc)
  {
    hide Dedupe, ServiceOf, ToLower;
    DedupeKeepsEach(actions);
    if svc != "" {
      EmptyActionCoversNothing(svc);
    }
  }

  lemma DedupeTagsSame(tags: Tags, urn: string, actions: seq<string>, c: Criticality)
    ensures Tagged(tags, urn, Dedupe(actions), c) <==> Tagged(tags, urn, actions, c)
  {
    hide Dedupe, ActionsCoverService, ServiceOfARN, ResourceReaches;
    forall arn | arn in tags ensures Acts(urn, Dedupe(actions), arn) <==> Acts(urn, actions, arn) {
      DedupeCoversSame(actions, ServiceOfARN(arn));
    }
  }

  /** A binding is a crown jewel iff it can act on a resource tagged one: actions alone never make it so. */
  lemma CrownJewelOnlyByTag(tags: Tags, sts: seq<Statement>, b: Binding)
    requires b in Sum(tags, sts).bindings
    ensures b.criticality.CrownJewel? <==> Tagged(tags, b.urn, b.actions, CrownJewel)
  {
    hide Tagged, Sum, Dedupe, ActionsCriticality;
    BindingComesFrom(tags, sts, b);
    var st, urn :| st in sts && Gives(tags, st, urn, b);
    DedupeTagsSame(tags, urn, st.actions, CrownJewel);
    var base := ActionsCriticality(st.actions, st.resources);
    assert CriticalityRank(base) <= 2;
  }

  /**
   * A binding's level is the higher of what its statement's actions imply and what a tag within its reach declares;
   * it holds the URN as it stands, the statement's actions, and always the effect "allow".
   */
  lemma BindingLevel(tags: Tags, st: Statement, urn: string)
    ensures var b := BindingFor(tags, st, urn);
      && b.urn == urn && b.effect == "allow" && b.actions == Dedupe(st.actions)
      && (b.criticality.CrownJewel? <==> Tagged(tags, urn, st.actions, CrownJewel))
      && (b.criticality.High? <==>
          !b.criticality.CrownJewel? && (Tagged(tags, urn, st.actions, High) || SomeHigh(st.actions, st.resources)))
      && (b.criticality.Medium? <==>
          !b.criticality.CrownJewel? && !b.criticality.High?
          && (Tagged(tags, urn, st.actions, Medium) || SomeMedium(st.actions)))
      && (b.criticality.Low? <==> !b.criticality.CrownJewel? && !b.criticality.High? && !b.criticality.Medium?)
  {
    ActionsLevel(st.actions, st.resources);
    hide Tagged, SomeHigh, SomeMedium, ActionsCriticality, Dedupe;
  }

  /** More tags never lower the criticality of a binding, nor change anything else about it. */
  lemma BindingIsMonotone(small: Tags, big: Tags, st: Statement, urn: string)
    requires forall arn :: arn in small ==> arn in big && CriticalityRank(small[arn]) <= CriticalityRank(big[arn])
    ensures var b, c := BindingFor(small, st, urn), BindingFor(big, st, urn);
            CriticalityRank(b.criticality) <= CriticalityRank(c.criticality) && b.(criticality := c.criticality) == c
  {
    hide Highest;
    HighestIsMonotone(small, big, urn, st.actions);
  }

  // ----- level and counts, over the documents -----

  /** The actions of the allow statements, in order. */
  function ActionsIn(sts: seq<Statement>): seq<string> {
    if sts == [] then [] else
      var st := sts[|sts| - 1];
      ActionsIn(sts[..|sts| - 1]) + (if ToLower(st.effect) == "allow" then st.actions else [])
  }

  /** The actions of the allow statements of the documents that decode, in order. */
  function AllowedActions(docs: seq<Document>): seq<string> {
    if docs == [] then [] else
      var d := docs[|docs| - 1];
      AllowedActions(docs[..|docs| - 1]) + (if d.Some? then ActionsIn(d.value) else [])
  }

  /** Their resources, likewise. */
  function ResourcesIn(sts: seq<Statement>): seq<string> {
    if sts == [] then [] else
      var st := sts[|sts| - 1];
      ResourcesIn(sts[..|sts| - 1]) + (if ToLower(st.effect) == "allow" then st.resources else [])
  }

  function AllowedResources(docs: seq<Document>): seq<string> {
    if docs == [] then [] else
      var d := docs[|docs| - 1];
      AllowedResources(docs[..|docs| - 1]) + (if d.Some? then ResourcesIn(d.value) else [])
  }

  /** The count is the number of the places `w` where the predicate holds. */
  lemma {:induction false} CountIsSize(s: seq<string>, p: string -> bool, w: set<int>)
    requires forall i :: i in w <==> 0 <= i < |s| && p(s[i])
    ensures CountIf(s, p) == |w|
  {
    if s == [] {
      assert forall i :: i in w ==> 0 <= i < |s|;
      assert w <= {};
    } else {
      var last := |s| - 1;
      var v := w - {last};
      forall i ensures i in v <==> 0 <= i < last && p(s[..last][i]) {
        assert i in v <==> i in w && i != last;
      }
      CountIsSize(s[..last], p, v);
      assert last in w <==> p(s[last]);
      assert w == if p(s[last]) then v + {last} else v;
    }
  }

  lemma {:induction false} CountConcat(s: seq<string>, t: seq<string>, p: string -> bool)
    ensures CountIf(s + t, p) == CountIf(s, p) + CountIf(t, p)
  {
    if t == [] {
      assert s + t == s;
    } else {
      assert (s + t)[..|s + t| - 1] == s + t[..|t| - 1];
      CountConcat(s, t[..|t| - 1], p);
    }
  }

  lemma SomeConcat(s: seq<string>, t: seq<string>, p: string -> bool)
    ensures SomeAction(s + t, p) <==> SomeAction(s, p) || SomeAction(t, p)
  {
  }

  /** An empty resource is no star. */
  lemma {:induction false} StarsAreNonEmpty(s: seq<string>)
    ensures CountIf(NonEmpty(s), IsStar) == CountIf(s, IsStar)
  {
    if s != [] {
      StarsAreNonEmpty(s[..|s| - 1]);
      CountConcat(NonEmpty(s[..|s| - 1]), if s[|s| - 1] != "" then [s[|s| - 1]] else [], IsStar);
    }
  }

  /** The totals say what they count. */
  ghost predicate Totalled(t: Totals, actions: seq<string>, resources: seq<string>) {
    && t.permissions == |actions| && t.wildActions == CountIf(actions, IsWildcardAction)
    && t.wildResources == CountIf(resources, IsStar)
    && t.escalates == SomeAction(actions, Escalates) && t.admin == SomeAction(actions, IsAdminAction)
    && t.write == SomeAction(actions, Writes)
  }

  lemma AddTotalled(tags: Tags, t: Totals, st: Statement, actions: seq<string>, resources: seq<string>)
    requires Totalled(t, actions, resources)
    ensures Totalled(AddStatement(tags, t, st), actions + st.actions, resources + st.resources)
  {
    CountConcat(actions, st.actions, IsWildcardAction);
    CountConcat(resources, st.resources, IsStar);
    StarsAreNonEmpty(st.resources);
    SomeConcat(actions, st.actions, Escalates);
    SomeConcat(actions, st.actions, IsAdminAction);
    SomeConcat(actions, st.actions, Writes);
    hide CountIf, SomeAction, NonEmpty, StatementBindings;
  }

  function ActionsOf(sts: seq<Statement>): seq<string> {
    if sts == [] then [] else ActionsOf(sts[..|sts| - 1]) + sts[|sts| - 1].actions
  }

  function ResourcesOf(sts: seq<Statement>): seq<string> {
    if sts == [] then [] else ResourcesOf(sts[..|sts| - 1]) + sts[|sts| - 1].resources
  }

  lemma {:induction false} ActionsConcat(s: seq<Statement>, u: seq<Statement>)
    ensures ActionsOf(s + u) == ActionsOf(s) + ActionsOf(u)
  {
    if u == [] {
      assert s + u == s;
    } else {
      var front, st := u[..|u| - 1], u[|u| - 1];
      ActionsConcat(s, front);
      assert (s + u)[..|s + u| - 1] == s + front && (s + u)[|s + u| - 1] == st;
      assert ActionsOf(s) + (ActionsOf(front) + st.actions) == ActionsOf(s) + ActionsOf(front) + st.actions;
    }
  }

  lemma {:induction false} ResourcesConcat(s: seq<Statement>, u: seq<Statement>)
    ensures ResourcesOf(s + u) == ResourcesOf(s) + ResourcesOf(u)
  {
    if u == [] {
      assert s + u == s;
    } else {
      var front, st := u[..|u| - 1], u[|u| - 1];
      ResourcesConcat(s, front);
      assert (s + u)[..|s + u| - 1] == s + front && (s + u)[|s + u| - 1] == st;
      assert ResourcesOf(s) + (ResourcesOf(front) + st.resources) == ResourcesOf(s) + ResourcesOf(front) + st.resources;
    }
  }

  lemma {:induction false} OfAllowed(sts: seq<Statement>)
    ensures ActionsOf(Allowed(sts)) == ActionsIn(sts) && ResourcesOf(Allowed(sts)) == ResourcesIn(sts)
  {
    if sts != [] {
      var front, st := sts[..|sts| - 1], sts[|sts| - 1];
      OfAllowed(front);
      ActionsConcat(Allowed(front), if Allows(st) then [st] else []);
      ResourcesConcat(Allowed(front), if Allows(st) then [st] else []);
    }
  }

  lemma {:induction false} OfDocuments(docs: seq<Document>)
    ensures ActionsOf(Statements(docs)) == AllowedActions(docs)
    ensures ResourcesOf(Statements(docs)) == AllowedResources(docs)
  {
    hide Allowed, ActionsIn, ResourcesIn;
    if docs != [] {
      var front, d := docs[..|docs| - 1], docs[|docs| - 1];
      OfDocuments(front);
      ActionsConcat(Statements(front), if d.Some? then Allowed(d.value) else []);
      ResourcesConcat(Statements(front), if d.Some? then Allowed(d.value) else []);
      if d.Some? {
        OfAllowed(d.value);
      }
    }
  }

  lemma {:induction false} SumTotalled(tags: Tags, sts: seq<Statement>)
    ensures Totalled(Sum(tags, sts), ActionsOf(sts), ResourcesOf(sts))
  {
    hide AddStatement, Totalled;
    if sts == [] {
      NothingTotalled();
    } else {
      var front, st := sts[..|sts| - 1], sts[|sts| - 1];
      SumTotalled(tags, front);
      AddTotalled(tags, Sum(tags, front), st, ActionsOf(front), ResourcesOf(front));
    }
  }

  lemma DocumentsTotalled(tags: Tags, docs: seq<Document>)
    ensures Totalled(Sum(tags, Statements(docs)), AllowedActions(docs), AllowedResources(docs))
  {
    hide Sum, Totalled;
    SumTotalled(tags, Statements(docs));
    OfDocuments(docs);
  }

  lemma NothingTotalled()
    ensures Totalled(Totals(0, 0, 0, false, false, false, []), [], [])
  {
  }

  /** Controls the account: everything, or all of its identities. */
  ghost predicate Rules(act: string) { act == "*" || act == "*:*" || ToLower(act) == "iam:*" }

  /** Lets a principal widen its own grants. */
  ghost predicate Climbs(act: string) { ToLower(act) in ESCALATIONS }

  ghost predicate Holds(la: string, verb: string) { exists front, back :: la == front + verb + back }

  /** Changes something: all actions of a service, or a name with a verb of change at some place. */
  ghost predicate Changes(act: string) {
    var la := ToLower(act);
    || la == "*" || (|la| >= 2 && la[|la| - 2..] == ":*")
    || exists verb :: verb in WRITE_VERBS && Holds(la, verb)
  }

  ghost predicate Wild(act: string) { act == "*" || (|act| >= 2 && act[|act| - 2..] == ":*") }

  lemma ContainsHolds(la: string, verb: string)
    ensures Contains(la, verb) <==> Holds(la, verb)
  {
    if i :| 0 <= i <= |la| && StandsAt(la, verb, i) {
      assert la == la[..i] + verb + la[i + |verb|..];
    }
    if front, back :| la == front + verb + back {
      assert StandsAt(la, verb, |front|);
    }
  }

  lemma WritesChanges(act: string)
    ensures Writes(act) <==> Changes(act)
  {
    hide ToLower, Contains, Holds;
    forall verb ensures Contains(ToLower(act), verb) <==> Holds(ToLower(act), verb) {
      ContainsHolds(ToLower(act), verb);
    }
  }

  /** What the analysis says of actions and resources. */
  ghost predicate Describes(a: Analysis, actions: seq<string>, resources: seq<string>) {
    && a.permissionCount == |actions|
    && a.wildcardActionCount == |set i | 0 <= i < |actions| && Wild(actions[i])|
    && a.wildcardResourceCount == |set i | 0 <= i < |resources| && resources[i] == "*"|
    && (a.hasPrivEscalation <==> exists act :: act in actions && Climbs(act))
    && (a.level.AdminLevel? <==> exists act :: act in actions && Rules(act))
    && (a.level.PrivilegedLevel? <==> !a.level.AdminLevel? && exists act :: act in actions && Climbs(act))
    && (a.level.WriteLevel? <==> !a.level.AdminLevel? && !a.level.PrivilegedLevel?
                                 && exists act :: act in actions && Changes(act))
  }

  lemma WildCount(actions: seq<string>)
    ensures CountIf(actions, IsWildcardAction) == |set i | 0 <= i < |actions| && Wild(actions[i])|
  {
    CountIsSize(actions, IsWildcardAction, set i | 0 <= i < |actions| && Wild(actions[i]));
  }

  lemma StarCount(resources: seq<string>)
    ensures CountIf(resources, IsStar) == |set i | 0 <= i < |resources| && resources[i] == "*"|
  {
    CountIsSize(resources, IsStar, set i | 0 <= i < |resources| && resources[i] == "*");
  }

  lemma SomeMeans(actions: seq<string>)
    ensures SomeAction(actions, Escalates) <==> exists act :: act in actions && Climbs(act)
    ensures SomeAction(actions, IsAdminAction) <==> exists act :: act in actions && Rules(act)
    ensures SomeAction(actions, Writes) <==> exists act :: act in actions && Changes(act)
  {
    hide ToLower;
    forall act ensures Writes(act) <==> Changes(act) {
      WritesChanges(act);
    }
    assert forall act :: Escalates(act) <==> Climbs(act);
    assert forall act :: IsAdminAction(act) <==> Rules(act);
    hide Writes, Changes, Escalates, Climbs, IsAdminAction, Rules;
  }

  lemma GradeDescribes(t: Totals, actions: seq<string>, resources: seq<string>)
    requires Totalled(t, actions, resources)
    ensures Describes(Grade(t), actions, resources)
  {
    WildCount(actions);
    StarCount(resources);
    SomeMeans(actions);
    hide CountIf, SomeAction, Climbs, Rules, Changes, Wild;
  }

  // ----- the analysis itself -----

  method AnalyzePolicies(docs: seq<Document>, resolver: CritResolver?) returns (a: Analysis)
    ensures a == Grade(Sum(TagsOf(resolver), Statements(docs)))
    ensures Describes(a, AllowedActions(docs), AllowedResources(docs))
  {
    hide Sum, Allowed, Describes, Totalled, Grade, AllowedActions, AllowedResources;
    NothingYet(TagsOf(resolver));
    var t := Totals(0, 0, 0, false, false, false, []);
    for i := 0 to |docs|
      invariant t == Sum(TagsOf(resolver), Statements(docs[..i]))
    {
      assert docs[..i + 1][..i] == docs[..i];
      if docs[i].None? {
        assert Statements(docs[..i]) + [] == Statements(docs[..i]);
        continue;
      }
      t := TallyDocument(resolver, t, docs[i].value, Statements(docs[..i]));
    }
    assert docs[..|docs|] == docs;
    a := Grade(t);
    DocumentsTotalled(TagsOf(resolver), docs);
    GradeDescribes(t, AllowedActions(docs), AllowedResources(docs));
  }

  lemma NothingYet(tags: Tags)
    ensures Sum(tags, []) == Totals(0, 0, 0, false, false, false, [])
  {
  }

  lemma SumAppend(tags: Tags, done: seq<Statement>, st: Statement)
    ensures Sum(tags, done + [st]) == AddStatement(tags, Sum(tags, done), st)
  {
    hide AddStatement;
    assert (done + [st])[..|done|] == done;
  }

  lemma AllowedAppend(sts: seq<Statement>, j: nat)
    requires j < |sts|
    ensures Allowed(sts[..j + 1]) == Allowed(sts[..j]) + if Allows(sts[j]) then [sts[j]] else []
  {
    hide Allows;
    assert sts[..j + 1][..j] == sts[..j];
  }

  /** The loop over the statements of a document. */
  method TallyDocument(resolver: CritResolver?, t0: Totals, sts: seq<Statement>, ghost before: seq<Statement>)
      returns (t: Totals)
    requires t0 == Sum(TagsOf(resolver), before)
    ensures t == Sum(TagsOf(resolver), before + Allowed(sts))
  {
    assert Allowed(sts[..0]) == [];
    hide AddStatement, Sum, Allowed, Allows;
    t := t0;
    assert before + [] == before;
    for j := 0 to |sts|
      invariant t == Sum(TagsOf(resolver), before + Allowed(sts[..j]))
    {
      AllowedAppend(sts, j);
      ghost var done := before + Allowed(sts[..j]);
      if !Allows(sts[j]) {
        assert Allowed(sts[..j]) + [] == Allowed(sts[..j]);
        continue;
      }
      assert before + Allowed(sts[..j + 1]) == done + [sts[j]];
      SumAppend(TagsOf(resolver), done, sts[j]);
      t := TallyStatement(resolver, t, sts[j]);
    }
    assert sts[..|sts|] == sts;
  }

  /** The body of the statement loop. */
  method TallyStatement(resolver: CritResolver?, t0: Totals, st: Statement) returns (t: Totals)
    ensures t == AddStatement(TagsOf(resolver), t0, st)
  {
    hide Highest, CountIf, SomeAction, ActionsCriticality, IsWildcardAction, IsAdminAction;
    ghost var tags := TagsOf(resolver);
    var urns := KeepNonEmpty(st.resources);
    var wildResources := CountStars(urns);
    var wildActions, admin, escalates, write, crit := ScanActions(st);
    var bindings: seq<Binding> := [];
    for i := 0 to |urns|
      invariant bindings == StatementBindings(tags, st, urns[..i])
    {
      var bindCrit := crit;
      var tagCrit := CriticalityFor(resolver, urns[i], st.actions);
      if CriticalityRank(tagCrit) > CriticalityRank(bindCrit) {
        bindCrit := tagCrit;
      }
      var actions := DedupeActions(st.actions);
      bindings := bindings + [Binding(urns[i], actions, "allow", bindCrit)];
    }
    assert urns[..|urns|] == urns;
    t := Totals(t0.permissions + |st.actions|, t0.wildActions + wildActions, t0.wildResources + wildResources,
                t0.escalates || escalates, t0.admin || admin, t0.write || write, t0.bindings + bindings);
  }

  method CountStars(urns: seq<string>) returns (n: nat)
    ensures n == CountIf(urns, IsStar)
  {
    n := 0;
    for i := 0 to |urns|
      invariant n == CountIf(urns[..i], IsStar)
    {
      assert urns[..i + 1][..i] == urns[..i];
      if urns[i] == "*" {
        n := n + 1;
      }
    }
    assert urns[..|urns|] == urns;
  }

  /** The loop over a statement's actions. */
  method ScanActions(st: Statement) returns (wild: nat, admin: bool, escalates: bool, write: bool, crit: Criticality)
    ensures wild == CountIf(st.actions, IsWildcardAction) && crit == ActionsCriticality(st.actions, st.resources)
    ensures admin == SomeAction(st.actions, IsAdminAction)
    ensures escalates == SomeAction(st.actions, Escalates)
    ensures write == SomeAction(st.actions, Writes)
  {
    hide Escalates, Writes, IsAdminAction, IsWildcardAction, ActionCriticality, SomeAction;
    wild, admin, escalates, write, crit := 0, false, false, false, Low;
    NoActions();
    for i := 0 to |st.actions|
      invariant wild == CountIf(st.actions[..i], IsWildcardAction)
          && crit == ActionsCriticality(st.actions[..i], st.resources)
      invariant admin == SomeAction(st.actions[..i], IsAdminAction)
      invariant escalates == SomeAction(st.actions[..i], Escalates)
      invariant write == SomeAction(st.actions[..i], Writes)
    {
      var act := st.actions[i];
      assert st.actions[..i + 1] == st.actions[..i] + [act] && st.actions[..i + 1][..i] == st.actions[..i];
      OneMoreAction(st.actions[..i], act, IsAdminAction);
      OneMoreAction(st.actions[..i], act, Escalates);
      OneMoreAction(st.actions[..i], act, Writes);
      if IsWildcardAction(act) {
        wild := wild + 1;
      }
      if IsAdminAction(act) {
        admin := true;
      }
      if Escalates(act) {
        escalates := true;
      }
      if Writes(act) {
        write := true;
      }
      var c := ActionCriticality(ToLower(act), st.resources);
      if CriticalityRank(c) > CriticalityRank(crit) {
        crit := c;
      }
    }
    assert st.actions[..|st.actions|] == st.actions;
  }

  lemma NoActions()
    ensures forall p :: !SomeAction([], p)
  {
  }

  lemma OneMoreAction(actions: seq<string>, act: string, p: string -> bool)
    ensures SomeAction(actions + [act], p) <==> SomeAction(actions, p) || p(act)
  {
  }
}
