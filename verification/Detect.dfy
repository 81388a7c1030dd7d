/** The detection engine's merge of detector outputs (detect.go). */
module Detect {
  import opened Prelude
  import opened StableSort

  datatype Severity = Critical | High | Medium | Low | OtherSeverity(name: string)

  function SevRank(s: Severity): int {
    match s
    case Critical => 4
    case High => 3
    case Medium => 2
    case Low => 1
    case OtherSeverity(_) => 0
  }

  /** A detector's finding; `firstSeen` is None while unset, and `body` stands for the descriptive fields. */
  datatype Finding = Finding(detector: string, identity: Option<Uuid>, severity: Severity, fingerprint: string,
                             firstSeen: Option<int>, lastSeen: Option<int>, body: string)

  /** The hash that fingerprints a detector and an identity; any function will do. */
  type Hash = (string, Option<Uuid>) -> string

  function Complete(f: Finding, hash: Hash, now: int): Finding {
    f.(fingerprint := if f.fingerprint == "" then hash(f.detector, f.identity) else f.fingerprint,
       firstSeen := if f.firstSeen.None? then Some(now) else f.firstSeen,
       lastSeen := Some(now))
  }

  function CompleteAll(fs: seq<Finding>, hash: Hash, now: int): seq<Finding> {
    if fs == [] then [] else CompleteAll(fs[..|fs| - 1], hash, now) + [Complete(fs[|fs| - 1], hash, now)]
  }

  /** All findings in detector order, completed. */
  function Produced(outputs: seq<seq<Finding>>, hash: Hash, now: int): seq<Finding> {
    if outputs == [] then []
    else Produced(outputs[..|outputs| - 1], hash, now) + CompleteAll(outputs[|outputs| - 1], hash, now)
  }

  predicate HasPrint(fs: seq<Finding>, fingerprint: string) {
    exists f :: f in fs && f.fingerprint == fingerprint
  }

  /** Keeps the first finding of each fingerprint. */
  function Firsts(fs: seq<Finding>): seq<Finding> {
    if fs == [] then [] else
      var front, f := fs[..|fs| - 1], fs[|fs| - 1];
      Firsts(front) + (if HasPrint(front, f.fingerprint) then [] else [f])
  }

  function BySeverity(f: Finding): Key { Key(-SevRank(f.severity), 0) }

  function Print(f: Finding): string { f.fingerprint }

  function Merged(outputs: seq<seq<Finding>>, hash: Hash, now: int): seq<Finding> {
    Sort(Firsts(Produced(outputs, hash, now)), BySeverity)
  }

  /** Finding `i` is the first with its fingerprint. */
  ghost predicate IsFirst(fs: seq<Finding>, i: nat) {
    i < |fs| && forall j :: 0 <= j < i ==> fs[j].fingerprint != fs[i].fingerprint
  }

  /** `f` is the first finding with its fingerprint. */
  ghost predicate Leads(fs: seq<Finding>, f: Finding) {
    exists i: nat :: IsFirst(fs, i) && fs[i] == f
  }

  lemma LeadsStep(fs: seq<Finding>, last: Finding, f: Finding)
    ensures Leads(fs + [last], f) <==> Leads(fs, f) || (f == last && !HasPrint(fs, last.fingerprint))
  {
    var all := fs + [last];
    assert forall j :: 0 <= j < |fs| ==> all[j] == fs[j];
    if i: nat :| IsFirst(all, i) && all[i] == f {
      if i < |fs| {
        assert IsFirst(fs, i);
      }
    }
    if i: nat :| IsFirst(fs, i) && fs[i] == f {
      assert IsFirst(all, i) && all[i] == f;
    }
    if f == last && !HasPrint(fs, last.fingerprint) {
      assert forall j :: 0 <= j < |fs| ==> all[j] in fs;
      assert IsFirst(all, |fs|);
    }
  }

  lemma {:induction false} FirstsAreFirsts(fs: seq<Finding>, f: Finding)
    ensures f in Firsts(fs) <==> Leads(fs, f)
  {
    if fs != [] {
      hide Leads;
      var front, last := fs[..|fs| - 1], fs[|fs| - 1];
      assert fs == front + [last];
      FirstsAreFirsts(front, f);
      LeadsStep(front, last, f);
    }
  }

  lemma PrintConcat(a: seq<Finding>, b: seq<Finding>, fingerprint: string)
    ensures HasPrint(a + b, fingerprint) <==> HasPrint(a, fingerprint) || HasPrint(b, fingerprint)
  {
  }

  lemma {:induction false} FirstsKeepPrint(fs: seq<Finding>, fingerprint: string)
    ensures HasPrint(Firsts(fs), fingerprint) <==> HasPrint(fs, fingerprint)
  {
    if fs != [] {
      var n := |fs| - 1;
      FirstsKeepPrint(fs[..n], fingerprint);
      assert fs == fs[..n] + [fs[n]];
      PrintConcat(fs[..n], [fs[n]], fingerprint);
      PrintConcat(Firsts(fs[..n]), if HasPrint(fs[..n], fs[n].fingerprint) then [] else [fs[n]], fingerprint);
      assert fs[n] in [fs[n]];
    }
  }

  lemma {:induction false} FirstsDistinct(fs: seq<Finding>)
    ensures Distinct(Firsts(fs), Print)
  {
    if fs != [] {
      var front, last := fs[..|fs| - 1], fs[|fs| - 1];
      FirstsDistinct(front);
      FirstsKeepPrint(front, last.fingerprint);
      assert forall i :: 0 <= i < |Firsts(front)| ==> Firsts(front)[i] in Firsts(front);
    }
  }

  /**
   * The merge returns exactly the first finding of each fingerprint, none twice, most severe first, and
   * findings of one severity in the order the detectors gave them.
   */
  lemma MergedIsRight(outputs: seq<seq<Finding>>, hash: Hash, now: int, f: Finding)
    ensures var all, r := Produced(outputs, hash, now), Merged(outputs, hash, now);
            && (f in r <==> Leads(all, f))
            && Distinct(r, Print) && Sorted(r, BySeverity) && SameClasses(Firsts(all), r, BySeverity)
  {
    hide Produced, Firsts, Sort, SameClasses, Leads;
    var firsts := Firsts(Produced(outputs, hash, now));
    FirstsAreFirsts(Produced(outputs, hash, now), f);
    FirstsDistinct(Produced(outputs, hash, now));
    SortProperties(firsts, BySeverity);
    SortKeepsDistinct(firsts, BySeverity, Print);
    assert f in multiset(Sort(firsts, BySeverity)) <==> f in multiset(firsts);
  }

  // ----- severity and completion, written out -----

  /** Critical before high before medium before low before anything else. */
  ghost predicate Outranks(a: Severity, b: Severity) {
    || (a.Critical? && !b.Critical?)
    || (a.High? && (b.Medium? || b.Low? || b.OtherSeverity?))
    || (a.Medium? && (b.Low? || b.OtherSeverity?))
    || (a.Low? && b.OtherSeverity?)
  }

  /** The findings that neither outrank `s` nor are outranked by it, in order. */
  ghost function Peers(fs: seq<Finding>, s: Severity): seq<Finding> {
    if fs == [] then []
    else (if Outranks(fs[0].severity, s) || Outranks(s, fs[0].severity) then [] else [fs[0]]) + Peers(fs[1..], s)
  }

  lemma {:induction false} PeersAreSelected(fs: seq<Finding>, s: Severity)
    ensures Peers(fs, s) == Select(fs, BySeverity, Key(-SevRank(s), 0))
  {
    if fs != [] {
      PeersAreSelected(fs[1..], s);
    }
  }

  /** Every finding is completed: fingerprinted, seen now, and first seen then if it was not before. */
  ghost predicate IsCompleted(f: Finding, g: Finding, hash: Hash, now: int) {
    && g.fingerprint == (if f.fingerprint == "" then hash(f.detector, f.identity) else f.fingerprint)
    && g.lastSeen == Some(now) && g.firstSeen == (if f.firstSeen.Some? then f.firstSeen else Some(now))
    && g.detector == f.detector && g.identity == f.identity && g.severity == f.severity && g.body == f.body
  }

  lemma {:induction false} AllCompleted(fs: seq<Finding>, hash: Hash, now: int)
    ensures |CompleteAll(fs, hash, now)| == |fs|
    ensures forall i :: 0 <= i < |fs| ==> IsCompleted(fs[i], CompleteAll(fs, hash, now)[i], hash, now)
  {
    if fs != [] {
      AllCompleted(fs[..|fs| - 1], hash, now);
    }
  }

  /** `Engine.Run` on what its detectors return. */
  method Run(outputs: seq<seq<Finding>>, hash: Hash, now: int) returns (out: seq<Finding>)
    ensures out == Merged(outputs, hash, now)
    ensures forall i, j :: 0 <= i < j < |out| ==>
      !Outranks(out[j].severity, out[i].severity) && out[i].fingerprint != out[j].fingerprint
    ensures forall s :: Peers(out, s) == Peers(Firsts(Produced(outputs, hash, now)), s)
  {
    hide Complete, Outranks, Peers;
    out := [];
    var seen: set<string> := {};
    for d := 0 to |outputs|
      invariant out == Firsts(Produced(outputs[..d], hash, now))
      invariant forall p :: p in seen <==> HasPrint(Produced(outputs[..d], hash, now), p)
    {
      var fs := outputs[d];
      ghost var before := Produced(outputs[..d], hash, now);
      assert before + CompleteAll(fs[..0], hash, now) == before;
      for i := 0 to |fs|
        invariant out == Firsts(before + CompleteAll(fs[..i], hash, now))
        invariant forall p :: p in seen <==> HasPrint(before + CompleteAll(fs[..i], hash, now), p)
      {
        var f := Complete(fs[i], hash, now);
        ghost var all := before + CompleteAll(fs[..i], hash, now);
        assert fs[..i + 1][..i] == fs[..i];
        assert before + CompleteAll(fs[..i + 1], hash, now) == all + [f];
        FirstsStep(all, f);
        if f.fingerprint in seen {
          continue;
        }
        seen := seen + {f.fingerprint};
        out := out + [f];
      }
      assert fs[..|fs|] == fs && outputs[..d + 1][..d] == outputs[..d];
    }
    assert outputs[..|outputs|] == outputs;
    out := Sort(out, BySeverity);
    MergedInOrder(outputs, hash, now);
  }

  lemma MergedInOrder(outputs: seq<seq<Finding>>, hash: Hash, now: int)
    ensures var out := Merged(outputs, hash, now);
      && (forall i, j :: 0 <= i < j < |out| ==>
            !Outranks(out[j].severity, out[i].severity) && out[i].fingerprint != out[j].fingerprint)
      && forall s :: Peers(out, s) == Peers(Firsts(Produced(outputs, hash, now)), s)
  {
    var all := Produced(outputs, hash, now);
    var out := Merged(outputs, hash, now);
    FirstsDistinct(all);
    SortProperties(Firsts(all), BySeverity);
    SortKeepsDistinct(Firsts(all), BySeverity, Print);
    hide Produced, Firsts, Sort;
    forall i, j | 0 <= i < j < |out|
      ensures !Outranks(out[j].severity, out[i].severity) && out[i].fingerprint != out[j].fingerprint
    {
      assert !Before(BySeverity(out[j]), BySeverity(out[i])) && Print(out[i]) != Print(out[j]);
    }
    hide Outranks, Before;
    forall s ensures Peers(out, s) == Peers(Firsts(all), s) {
      PeersAreSelected(out, s);
      PeersAreSelected(Firsts(all), s);
    }
  }

  lemma FirstsStep(all: seq<Finding>, f: Finding)
    ensures Firsts(all + [f]) == if HasPrint(all, f.fingerprint) then Firsts(all) else Firsts(all) + [f]
    ensures forall p :: HasPrint(all + [f], p) <==> HasPrint(all, p) || p == f.fingerprint
  {
  }
}
