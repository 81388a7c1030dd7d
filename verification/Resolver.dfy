/** Which tagged resources a policy binding reaches, and the criticality that gives it (tags.go). */
module Resolver {
  import opened Prelude
  import opened Strings
  import opened Glob

  // ----- resourceReaches -----

  /** The pattern up to its first wildcard. */
  function Literal(p: string): string {
    p[..Min(IndexFrom(p, '*', 0), IndexFrom(p, '?', 0))]
  }

  predicate ResourceReaches(policyResource: string, taggedARN: string) {
    && policyResource != "" && taggedARN != ""
    && (Answer(policyResource, taggedARN)
        || (Literal(policyResource) != "" && taggedARN + "/" <= Literal(policyResource)))
  }

  /** Replaces `*` by nothing and `?` by `c`: a subject the pattern matches. */
  function Instance(p: string, c: char): string {
    if p == "" then "" else (if p[0] == '*' then "" else if p[0] == '?' then [c] else [p[0]]) + Instance(p[1..], c)
  }

  lemma {:induction false} InstanceMatches(p: string, c: char)
    ensures Matches(p, Instance(p, c))
  {
    if p != "" {
      InstanceMatches(p[1..], c);
      if p[0] != '*' {
        assert Instance(p, c)[1..] == Instance(p[1..], c);
      } else {
        assert Instance(p, c) == Instance(p[1..], c);
      }
    }
  }

  /** Everything a pattern matches starts with the pattern's literal part. */
  lemma {:induction false} MatchesStartWithLiteral(lit: string, rest: string, s: string)
    requires (forall i :: 0 <= i < |lit| ==> lit[i] != '*' && lit[i] != '?') && Matches(lit + rest, s)
    ensures lit <= s && Matches(rest, s[|lit|..])
  {
    if lit == "" {
      assert lit + rest == rest && s[0..] == s;
    } else {
      assert (lit + rest)[1..] == lit[1..] + rest;
      MatchesStartWithLiteral(lit[1..], rest, s[1..]);
      assert s == [s[0]] + s[1..];
      assert s[1..][|lit| - 1..] == s[|lit|..];
    }
  }

  lemma {:induction false} LiteralThen(lit: string, rest: string, s: string)
    requires (forall i :: 0 <= i < |lit| ==> lit[i] != '*' && lit[i] != '?') && Matches(rest, s)
    ensures Matches(lit + rest, lit + s)
  {
    if lit == "" {
      assert lit + rest == rest && lit + s == s;
    } else {
      LiteralThen(lit[1..], rest, s);
      assert (lit + rest)[1..] == lit[1..] + rest && (lit + s)[1..] == lit[1..] + s;
    }
  }

  lemma LiteralSplits(p: string)
    ensures var lit := Literal(p);
            p == lit + p[|lit|..] && (forall i :: 0 <= i < |lit| ==> lit[i] != '*' && lit[i] != '?')
    ensures var lit := Literal(p); |lit| < |p| ==> p[|lit|] == '*' || p[|lit|] == '?'
  {
  }

  /** A wildcard can match any given next character. */
  lemma WildcardTakes(rest: string, c: char) returns (s: string)
    requires rest != "" && (rest[0] == '*' || rest[0] == '?')
    ensures s != "" && s[0] == c && Matches(rest, s)
  {
    InstanceMatches(rest[1..], 'x');
    s := [c] + Instance(rest[1..], 'x');
    assert s[1..] == Instance(rest[1..], 'x');
    if rest[0] == '*' {
      assert s[1..] == Instance(rest[1..], 'x');
      StarTakes(rest, s[1..]);
    }
  }

  lemma StarTakes(rest: string, s: string)
    requires rest != "" && rest[0] == '*' && Matches(rest[1..], s)
    ensures Matches(rest, s)
  {
  }

  ghost predicate OnlyUnder(p: string, prefix: string) {
    forall s :: Matches(p, s) ==> prefix <= s
  }

  /** Everything the pattern matches lies under `prefix` exactly when its literal part does. */
  lemma UnderIffLiteral(p: string, prefix: string)
    ensures OnlyUnder(p, prefix) <==> prefix <= Literal(p)
  {
    var lit := Literal(p);
    var rest := p[|lit|..];
    LiteralSplits(p);
    if prefix <= lit {
      forall s | Matches(p, s) ensures prefix <= s {
        MatchesStartWithLiteral(lit, rest, s);
      }
    } else {
      var s := EscapesPrefix(p, prefix);
    }
  }

  /** A pattern whose literal part is not under `prefix` matches something that is not. */
  lemma EscapesPrefix(p: string, prefix: string) returns (s: string)
    requires !(prefix <= Literal(p))
    ensures Matches(p, s) && !(prefix <= s)
  {
    var lit := Literal(p);
    var rest := p[|lit|..];
    LiteralSplits(p);
    if rest == "" {
      s := lit;
      LiteralThen(lit, "", "");
      assert lit + "" == lit && p == lit + rest;
    } else {
      var c := if |lit| < |prefix| && prefix[|lit|] == 'a' then 'b' else 'a';
      var t := WildcardTakes(rest, c);
      s := lit + t;
      LiteralThen(lit, rest, t);
      assert s[|lit|] == c && s[..|lit|] == lit;
    }
  }

  /**
   * What reaching a tagged resource means: the pattern matches it, or everything the pattern matches is a child of it.
   */
  ghost predicate Reaches(p: string, t: string) {
    p != "" && t != "" && (Matches(p, t) || OnlyUnder(p, t + "/"))
  }

  lemma ReachesMeans(p: string, t: string)
    requires '*' !in t
    ensures ResourceReaches(p, t) <==> Reaches(p, t)
  {
    AnswerIsMeaning(p, t);
    UnderIffLiteral(p, t + "/");
    hide Matches, Answer, OnlyUnder;
  }

  lemma LiteralStops(p: string, k: nat)
    requires k < |p| && p[k] == '*'
    ensures |Literal(p)| <= k
  {
  }

  /** Every pattern is judged rightly against a tagged resource iff its name holds no star. */
  lemma SafeTags(t: string)
    ensures (forall p :: ResourceReaches(p, t) <==> Reaches(p, t)) <==> '*' !in t
  {
    hide Matches, Answer, OnlyUnder, Literal;
    if '*' in t {
      var p := StarredSubjectFails(t);
      var k :| 0 <= k < |t| && k < |p| && p[k] == '*';
      LiteralStops(p, k);
      assert Reaches(p, t) && !ResourceReaches(p, t);
    } else {
      forall p ensures ResourceReaches(p, t) <==> Reaches(p, t) {
        ReachesMeans(p, t);
      }
    }
  }

  // ----- services -----

  /** The third colon-separated field of an ARN, lower-cased; "" when there are fewer. */
  function ServiceOfARN(arn: string): string {
    if arn == "*" then "*" else
      var a := IndexFrom(arn, ':', 0);
      if a == |arn| then "" else
        var b := IndexFrom(arn, ':', a + 1);
        if b == |arn| then "" else ToLower(arn[b + 1..IndexFrom(arn, ':', b + 1)])
  }

  /** The part of an action before its first colon, lower-cased; "" when it has none. */
  function ServiceOf(action: string): string {
    var i := IndexFrom(action, ':', 0);
    if 0 < i < |action| then ToLower(action[..i]) else ""
  }

  predicate ActionsCoverService(actions: seq<string>, svc: string) {
    svc == "" || svc == "*"
    || exists a :: a in actions && (ToLower(a) == "*" || ToLower(a) == "*:*" || ServiceOf(ToLower(a)) == svc)
  }

  lemma FirstAt(s: string, c: char, from: nat, i: nat)
    requires from <= i <= |s| && (i < |s| ==> s[i] == c) && forall j :: from <= j < i ==> s[j] != c
    ensures IndexFrom(s, c, from) == i
  {
  }

  predicate ColonFree(s: string, lo: nat, hi: nat) { forall j :: lo <= j < hi && j < |s| ==> s[j] != ':' }

  lemma JoinedColons(front: string, field: string, back: string)
    requires ':' !in field
    ensures var s := front + ":" + field + back;
      s[|front|] == ':' && ColonFree(s, |front| + 1, |front| + 1 + |field|)
      && s[|front| + 1..|front| + 1 + |field|] == field
  {
    var s := front + ":" + field + back;
    assert forall i :: 0 <= i < |field| ==> field[i] in field && s[|front| + 1 + i] == field[i];
  }

  /** The third field lies between the second colon, at `m`, and the next one or the end, at `k`. */
  lemma ServiceBetween(arn: string, n: nat, m: nat, k: nat)
    requires n < m < k <= |arn| && arn[n] == ':' && arn[m] == ':' && (k < |arn| ==> arn[k] == ':')
    requires ColonFree(arn, 0, n) && ColonFree(arn, n + 1, m) && ColonFree(arn, m + 1, k)
    ensures ServiceOfARN(arn) == ToLower(arn[m + 1..k])
  {
    FirstAt(arn, ':', 0, n);
    FirstAt(arn, ':', n + 1, m);
    FirstAt(arn, ':', m + 1, k);
    hide IndexFrom, ToLower;
  }

  /** An ARN's service is its third field, whether another follows or not. */
  lemma ServiceIsThirdField(a: string, b: string, svc: string, rest: string)
    requires ':' !in a && ':' !in b && ':' !in svc && (rest == "" || rest[0] == ':')
    ensures ServiceOfARN(a + ":" + b + ":" + svc + rest) == ToLower(svc)
  {
    var arn := a + ":" + b + ":" + svc + rest;
    FirstTwoFields(a, b, svc, rest);
    JoinedColons(a + ":" + b, svc, rest);
    hide ServiceOfARN, ToLower, ColonFree;
    ServiceBetween(arn, |a|, |a| + 1 + |b|, |a| + 1 + |b| + 1 + |svc|);
  }

  lemma FirstTwoFields(a: string, b: string, svc: string, rest: string)
    requires ':' !in a && ':' !in b
    ensures var arn := a + ":" + b + ":" + svc + rest;
      arn[|a|] == ':' && ColonFree(arn, 0, |a|) && ColonFree(arn, |a| + 1, |a| + 1 + |b|)
  {
    var arn := a + ":" + b + ":" + svc + rest;
    assert arn == a + ":" + b + (":" + svc + rest);
    JoinedColons(a, b, ":" + svc + rest);
    forall i | 0 <= i < |a| ensures arn[i] != ':' {
      assert a[i] in a && arn[i] == a[i];
    }
  }

  /** With fewer fields there is none, but a lone star is any service. */
  lemma NoThirdField(a: string, b: string)
    requires ':' !in a && ':' !in b
    ensures ServiceOfARN(a) == if a == "*" then "*" else ""
    ensures ServiceOfARN(a + ":" + b) == ""
  {
    var two := a + ":" + b;
    assert forall i :: 0 <= i < |a| ==> a[i] in a && two[i] == a[i];
    assert two == a + ":" + b + "";
    JoinedColons(a, b, "");
    FirstAt(a, ':', 0, |a|);
    FirstAt(two, ':', 0, |a|);
    FirstAt(two, ':', |a| + 1, |two|);
    hide IndexFrom, ToLower;
  }

  /** An action's service is what stands before its first colon. */
  lemma ServiceIsPrefix(svc: string, rest: string)
    requires ':' !in svc
    ensures ServiceOf(svc) == "" && ServiceOf(svc + ":" + rest) == ToLower(svc)
  {
    forall i ensures 0 <= i < |svc| ==> svc[i] != ':' {
      assert 0 <= i < |svc| ==> svc[i] in svc;
    }
    FirstAt(svc, ':', 0, |svc|);
    FirstAt(svc + ":" + rest, ':', 0, |svc|);
    assert (svc + ":" + rest)[..|svc|] == svc;
  }

  /** Which actions apply to a service: all actions, or one whose lower-cased prefix is that service. */
  lemma CoversMeans(actions: seq<string>, svc: string)
    ensures ActionsCoverService(actions, svc) <==>
      || svc in {"", "*"}
      || exists a :: a in actions && (ToLower(a) in {"*", "*:*"} || ServiceOf(ToLower(a)) == svc)
  {
  }

  // ----- criticalityFor -----

  type Tags = map<string, Criticality>

  /** The tagged resource is one the binding can act on. */
  predicate Acts(urn: string, actions: seq<string>, arn: string) {
    ActionsCoverService(actions, ServiceOfARN(arn)) && ResourceReaches(urn, arn)
  }

  ghost predicate Tagged(tags: Tags, urn: string, actions: seq<string>, c: Criticality) {
    exists arn :: arn in tags && tags[arn] == c && Acts(urn, actions, arn)
  }

  /** The highest declared criticality the binding can act on, low when there is none. */
  ghost function Highest(tags: Tags, urn: string, actions: seq<string>): Criticality {
    if Tagged(tags, urn, actions, CrownJewel) then CrownJewel
    else if Tagged(tags, urn, actions, High) then High
    else if Tagged(tags, urn, actions, Medium) then Medium
    else Low
  }

  /** `c` is low, or the declared level of a resource the binding acts on, and no such level ranks above it. */
  ghost predicate IsMaximum(tags: Tags, urn: string, actions: seq<string>, c: Criticality) {
    && (c == Low || (Tagged(tags, urn, actions, c) && CriticalityRank(c) > 0))
    && forall arn :: arn in tags && Acts(urn, actions, arn) ==> CriticalityRank(tags[arn]) <= CriticalityRank(c)
  }

  /** The maximum exists, is unique and is `Highest`: no iteration order can change it. */
  lemma MaximumIsHighest(tags: Tags, urn: string, actions: seq<string>, c: Criticality)
    ensures IsMaximum(tags, urn, actions, c) <==> c == Highest(tags, urn, actions)
  {
  }

  /** Tagging more resources, or tagging them higher, never lowers a binding's criticality. */
  lemma HighestIsMonotone(small: Tags, big: Tags, urn: string, actions: seq<string>)
    requires forall arn :: arn in small ==> arn in big && CriticalityRank(small[arn]) <= CriticalityRank(big[arn])
    ensures CriticalityRank(Highest(small, urn, actions)) <= CriticalityRank(Highest(big, urn, actions))
  {
  }

  /** The resolver object: tagged ARNs and their declared levels. */
  class CritResolver {
    var tagged: Tags

    constructor ()
      ensures tagged == map[]
    {
      tagged := map[];
    }

    /** Records a tag; a second tag for an ARN only counts if it ranks higher. */
    method Set(arn: string, c: Criticality)
      modifies this
      ensures tagged == if arn == "" || (arn in old(tagged) && CriticalityRank(c) <= CriticalityRank(old(tagged)[arn]))
                        then old(tagged) else old(tagged)[arn := c]
      ensures forall a :: a in old(tagged) ==>
        a in tagged && CriticalityRank(old(tagged)[a]) <= CriticalityRank(tagged[a])
    {
      if arn == "" {
        return;
      }
      if arn !in tagged || CriticalityRank(c) > CriticalityRank(tagged[arn]) {
        tagged := tagged[arn := c];
      }
    }
  }

  function TagsOf(r: CritResolver?): Tags
    reads r
  {
    if r == null then map[] else r.tagged
  }

  /** Looks for the highest reachable tag, over the map in any order; a missing resolver elevates nothing. */
  method CriticalityFor(r: CritResolver?, urn: string, actions: seq<string>) returns (best: Criticality)
    ensures best == Highest(TagsOf(r), urn, actions)
    ensures best == Low || exists arn :: arn in TagsOf(r) && TagsOf(r)[arn] == best && ResourceReaches(urn, arn)
                                         && ActionsCoverService(actions, ServiceOfARN(arn))
    ensures forall arn :: arn in TagsOf(r) && ResourceReaches(urn, arn) ==>
      ActionsCoverService(actions, ServiceOfARN(arn)) ==> CriticalityRank(TagsOf(r)[arn]) <= CriticalityRank(best)
  {
    hide Acts, ResourceReaches, ActionsCoverService;
    best := Low;
    ghost var tags := TagsOf(r);
    ghost var seen: set<string> := {};
    if r != null && |r.tagged| != 0 {
      var todo := r.tagged.Keys;
      while todo != {}
        invariant todo <= tags.Keys && seen == tags.Keys - todo
        invariant best == Low || (Tagged(tags, urn, actions, best) && CriticalityRank(best) > 0)
        invariant forall arn :: arn in seen && Acts(urn, actions, arn) ==>
          CriticalityRank(tags[arn]) <= CriticalityRank(best)
        decreases todo
      {
        var arn :| arn in todo;
        todo := todo - {arn};
        seen := seen + {arn};
        var crit := r.tagged[arn];
        ActsMeans(urn, actions, arn);
        if CriticalityRank(crit) <= CriticalityRank(best) {
          continue;
        }
        if !ActionsCoverService(actions, ServiceOfARN(arn)) {
          continue;
        }
        if ResourceReaches(urn, arn) {
          best := crit;
        }
      }
    }
    assert IsMaximum(tags, urn, actions, best);
    MaximumIsHighest(tags, urn, actions, best);
    MaximumMeans(tags, urn, actions, best);
  }

  lemma MaximumMeans(tags: Tags, urn: string, actions: seq<string>, best: Criticality)
    requires IsMaximum(tags, urn, actions, best)
    ensures best == Low || exists arn :: arn in tags && tags[arn] == best && ResourceReaches(urn, arn)
                                         && ActionsCoverService(actions, ServiceOfARN(arn))
    ensures forall arn :: arn in tags && ResourceReaches(urn, arn) ==>
      ActionsCoverService(actions, ServiceOfARN(arn)) ==> CriticalityRank(tags[arn]) <= CriticalityRank(best)
  {
    hide ResourceReaches, ActionsCoverService;
    forall arn ensures Acts(urn, actions, arn) <==>
                       ResourceReaches(urn, arn) && ActionsCoverService(actions, ServiceOfARN(arn)) {
      ActsMeans(urn, actions, arn);
    }
  }

  lemma ActsMeans(urn: string, actions: seq<string>, arn: string)
    ensures Acts(urn, actions, arn) <==> ActionsCoverService(actions, ServiceOfARN(arn)) && ResourceReaches(urn, arn)
  {
  }
}
