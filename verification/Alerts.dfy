/** The alert protocol of alerts.go: claim, send, mark, with detectors and analysts acting in between. */
module Alerts {
  import opened Prelude
  import opened Findings

  /** The limit `runAlerts` passes. */
  const BATCH := 100

  /** Where the one sequential sweeper stands. */
  datatype Worker = Idle | Claimed(batch: seq<Uuid>) | Sent(batch: seq<Uuid>)

  /** `sends` logs every batch the notifier took, `failedMarks` every batch whose stamping then failed. */
  datatype System = System(table: Table, clock: nat, worker: Worker, sends: seq<seq<Uuid>>, failedMarks: seq<seq<Uuid>>)

  const START := System(map[], 0, Idle, [], [])

  datatype Event =
    | Upsert(f: Finding, id: Uuid, now: nat)
    | UpdateStatus(id: Uuid, status: Status, assignee: string, notes: string)
    | Claim(batch: seq<Uuid>)
    | SendFails
    | SendSucceeds
    | MarkFails
    | MarkSucceeds(now: nat)

  ghost predicate Enabled(severities: set<string>, s: System, e: Event) {
    match e
    case Upsert(f, id, now) => LandsOn(s.table, f, id) && now > s.clock
    case UpdateStatus(_, _, _, _) => true
    case Claim(batch) => s.worker.Idle? && IsClaim(s.table, severities, BATCH, batch)
    case SendFails => s.worker.Claimed?
    case SendSucceeds => s.worker.Claimed?
    case MarkFails => s.worker.Sent?
    case MarkSucceeds(now) => s.worker.Sent? && now > s.clock
  }

  function Apply(s: System, e: Event): System {
    match e
    case Upsert(f, id, now) => s.(table := Put(s.table, f, id, now), clock := now)
    case UpdateStatus(id, status, assignee, notes) => s.(table := Restate(s.table, id, status, assignee, notes))
    case Claim(batch) => if batch == [] then s else s.(worker := Claimed(batch))
    case SendFails => s.(worker := Idle)
    case SendSucceeds =>
      if s.worker.Claimed? then s.(worker := Sent(s.worker.batch), sends := s.sends + [s.worker.batch]) else s
    case MarkFails => if s.worker.Sent? then s.(worker := Idle, failedMarks := s.failedMarks + [s.worker.batch]) else s
    case MarkSucceeds(now) =>
      if s.worker.Sent? then s.(table := Stamp(s.table, s.worker.batch, now), clock := now, worker := Idle) else s
  }

  ghost predicate Legal(severities: set<string>, s: System, run: seq<Event>)
    decreases |run|
  {
    run == [] || (Enabled(severities, s, run[0]) && Legal(severities, Apply(s, run[0]), run[1..]))
  }

  function After(s: System, run: seq<Event>): System
    decreases |run|
  {
    if run == [] then s else After(Apply(s, run[0]), run[1..])
  }

  /** In how many of the logged batches a row is. */
  function Times(log: seq<seq<Uuid>>, id: Uuid): nat {
    if log == [] then 0 else Times(log[..|log| - 1], id) + (if id in log[|log| - 1] then 1 else 0)
  }

  lemma TimesAppend(log: seq<seq<Uuid>>, batch: seq<Uuid>, id: Uuid)
    ensures Times(log + [batch], id) == Times(log, id) + (if id in batch then 1 else 0)
  {
  }

  // ----- what every step keeps -----

  predicate Stamped(s: System, id: Uuid) {
    id in s.table && s.table[id].alertedAt.Some?
  }

  /** The row's batch was sent and its stamp is still to come. */
  predicate AwaitsStamp(s: System, id: Uuid) {
    s.worker.Sent? && id in s.worker.batch
  }

  ghost predicate InFlightOk(s: System) {
    !s.worker.Idle? ==> s.worker.batch != [] && forall id :: id in s.worker.batch ==> id in s.table && !Stamped(s, id)
  }

  /** Sends are conserved: each is paid for by a failed mark, the stamp, or the stamp to come. */
  ghost predicate Conserved(s: System, id: Uuid) {
    Times(s.sends, id) == Times(s.failedMarks, id) + (if Stamped(s, id) || AwaitsStamp(s, id) then 1 else 0)
  }

  ghost predicate Inv(s: System) {
    && OneOpen(s.table) && InFlightOk(s)
    && (forall id :: Conserved(s, id))
    && (forall id :: id in s.table ==> s.table[id].firstSeen <= s.clock)
  }

  lemma PutKeepsOneOpen(t: Table, f: Finding, id: Uuid, now: nat)
    requires OneOpen(t) && LandsOn(t, f, id)
    ensures OneOpen(Put(t, f, id, now))
  {
    var u := Put(t, f, id, now);
    forall i, j | i in u && j in u && OpenWith(u, i, u[j].finding.fingerprint) && u[j].status.Open? ensures i == j {
      if id in t {
        assert u[i].finding.fingerprint == t[i].finding.fingerprint && u[i].status == t[i].status;
        assert u[j].finding.fingerprint == t[j].finding.fingerprint && u[j].status == t[j].status;
        assert OpenWith(t, i, t[j].finding.fingerprint);
      } else {
        assert !OpenWith(t, i, f.fingerprint) && !OpenWith(t, j, f.fingerprint);
        assert i != id ==> u[i] == t[i];
        assert j != id ==> u[j] == t[j];
        if i != id && j != id {
          assert OpenWith(t, i, t[j].finding.fingerprint);
        }
      }
    }
  }

  lemma RestateKeepsOneOpen(t: Table, id: Uuid, status: Status, assignee: string, notes: string)
    requires OneOpen(t)
    ensures OneOpen(Restate(t, id, status, assignee, notes))
  {
  }

  lemma StampKeepsOneOpen(t: Table, ids: seq<Uuid>, now: nat)
    requires OneOpen(t)
    ensures OneOpen(Stamp(t, ids, now))
  {
  }

  /** No step removes a row or changes when it was first seen, how severe it is, or takes a stamp away. */
  ghost predicate Persists(t: Table, u: Table) {
    forall id :: id in t ==>
      id in u && u[id].firstSeen == t[id].firstSeen && u[id].finding.severity == t[id].finding.severity
      && (t[id].alertedAt.Some? ==> u[id].alertedAt.Some?)
  }

  lemma StepPersists(severities: set<string>, s: System, e: Event)
    requires Enabled(severities, s, e)
    ensures Persists(s.table, Apply(s, e).table)
    ensures forall id :: id in Apply(s, e).table && id !in s.table ==>
      e.Upsert? && Apply(s, e).table[id].firstSeen == e.now && Apply(s, e).table[id].alertedAt.None?
    ensures s.clock <= Apply(s, e).clock && (e.Upsert? ==> s.clock < e.now == Apply(s, e).clock)
  {
    hide IsClaim, LandsOn, Clashes;
  }

  /** Only a successful mark stamps, and it stamps its batch. */
  lemma StepStamps(severities: set<string>, s: System, e: Event, id: Uuid)
    requires Enabled(severities, s, e)
    ensures Stamped(Apply(s, e), id) <==> Stamped(s, id) || (e.MarkSucceeds? && id in s.table && id in s.worker.batch)
  {
  }

  lemma StepKeepsOneOpen(severities: set<string>, s: System, e: Event)
    requires OneOpen(s.table) && Enabled(severities, s, e)
    ensures OneOpen(Apply(s, e).table)
  {
    hide IsClaim, OneOpen, LandsOn, Put, Restate, Stamp;
    match e
    case Upsert(f, id, now) => PutKeepsOneOpen(s.table, f, id, now);
    case UpdateStatus(id, status, assignee, notes) => RestateKeepsOneOpen(s.table, id, status, assignee, notes);
    case MarkSucceeds(now) => StampKeepsOneOpen(s.table, s.worker.batch, now);
    case _ =>
  }

  /**
   * Only a successful send counts a batch as sent, only a failed mark logs one, and a mark of either kind ends the
   * wait.
   */
  lemma StepCounts(severities: set<string>, s: System, e: Event, id: Uuid)
    requires Enabled(severities, s, e)
    ensures Times(Apply(s, e).sends, id) == Times(s.sends, id)
        + (if e.SendSucceeds? && id in s.worker.batch then 1 else 0)
    ensures Times(Apply(s, e).failedMarks, id) == Times(s.failedMarks, id)
        + (if e.MarkFails? && id in s.worker.batch then 1 else 0)
    ensures AwaitsStamp(Apply(s, e), id)
      <==> (e.SendSucceeds? && id in s.worker.batch) || (AwaitsStamp(s, id) && !e.MarkFails? && !e.MarkSucceeds?)
  {
    if e.SendSucceeds? {
      TimesAppend(s.sends, s.worker.batch, id);
    } else if e.MarkFails? {
      TimesAppend(s.failedMarks, s.worker.batch, id);
    }
    hide Times, Put, Restate, Stamp, LandsOn, IsClaim;
  }

  lemma StepKeepsConserved(severities: set<string>, s: System, e: Event, id: Uuid)
    requires Inv(s) && Enabled(severities, s, e)
    ensures Conserved(Apply(s, e), id)
  {
    StepStamps(severities, s, e, id);
    StepCounts(severities, s, e, id);
    assert Conserved(s, id) && InFlightOk(s);
    assert !s.worker.Idle? && id in s.worker.batch ==> id in s.table && !Stamped(s, id);
    hide Apply, Inv, InFlightOk, Stamped, IsClaim, LandsOn, Times;
  }

  lemma StepKeepsInFlight(severities: set<string>, s: System, e: Event)
    requires InFlightOk(s) && Enabled(severities, s, e)
    ensures InFlightOk(Apply(s, e))
  {
  }

  lemma StepKeepsInv(severities: set<string>, s: System, e: Event)
    requires Inv(s) && Enabled(severities, s, e)
    ensures Inv(Apply(s, e))
  {
    hide Conserved, InFlightOk, OneOpen, Enabled, Apply;
    StepKeepsOneOpen(severities, s, e);
    StepKeepsInFlight(severities, s, e);
    StepPersists(severities, s, e);
    forall id ensures Conserved(Apply(s, e), id) {
      StepKeepsConserved(severities, s, e, id);
    }
  }

  lemma {:induction false} RunKeepsInv(severities: set<string>, s: System, run: seq<Event>)
    requires Inv(s) && Legal(severities, s, run)
    ensures Inv(After(s, run))
    decreases |run|
  {
    hide Inv, Enabled, Apply;
    if run != [] {
      StepKeepsInv(severities, s, run[0]);
      RunKeepsInv(severities, Apply(s, run[0]), run[1..]);
    }
  }

  /**
   * Over every run from the empty table: one open row per fingerprint; a stamped row was sent; and a row
   * is sent exactly once per failed mark of its batches, plus once more if it is stamped or about to be.
   */
  lemma RunIsSafe(severities: set<string>, run: seq<Event>, id: Uuid)
    requires Legal(severities, START, run)
    ensures var s := After(START, run);
            && OneOpen(s.table)
            && (Stamped(s, id) ==> Times(s.sends, id) >= 1)
            && Times(s.failedMarks, id) <= Times(s.sends, id) <= Times(s.failedMarks, id) + 1
            && (Times(s.sends, id) == Times(s.failedMarks, id) + 1 <==> Stamped(s, id) || AwaitsStamp(s, id))
  {
    hide Legal, After;
    assert Inv(START);
    RunKeepsInv(severities, START, run);
    assert Conserved(After(START, run), id);
  }

  // ----- no row starves -----

  /** The other unalerted rows of an eligible severity that are no newer than `id`, whatever their status. */
  function Ahead(t: Table, severities: set<string>, id: Uuid): set<Uuid> {
    set x | x in t && x != id && t[x].alertedAt.None? && t[x].finding.severity in severities
        && t[x].firstSeen <= FirstSeen(t, id)
  }

  /** The sweeps of the run whose send and mark both succeed. */
  function GoodSweeps(run: seq<Event>): nat {
    if run == [] then 0 else (if run[0].MarkSucceeds? then 1 else 0) + GoodSweeps(run[1..])
  }

  predicate StaysOpen(s: System, run: seq<Event>, id: Uuid)
    decreases |run|
  {
    id in s.table && s.table[id].status.Open? && (run != [] ==> StaysOpen(Apply(s, run[0]), run[1..], id))
  }

  /** `id` waits unalerted; a batch under way without it is a full one from the rows ahead of it. */
  ghost predicate Waiting(severities: set<string>, s: System, id: Uuid) {
    && id in s.table && s.table[id].alertedAt.None? && s.table[id].finding.severity in severities
    && s.table[id].firstSeen <= s.clock && !AwaitsStamp(s, id)
    && (!s.worker.Idle? && id !in s.worker.batch ==> FullFrom(s.worker.batch, Ahead(s.table, severities, id)))
  }

  ghost predicate FullFrom(batch: seq<Uuid>, rows: set<Uuid>) {
    && |batch| == BATCH && (forall i, j :: 0 <= i < j < |batch| ==> batch[i] != batch[j])
    && forall x :: x in batch ==> x in rows
  }

  lemma {:induction false} DistinctCount(batch: seq<Uuid>)
    requires forall i, j :: 0 <= i < j < |batch| ==> batch[i] != batch[j]
    ensures |set x | x in batch| == |batch|
  {
    if batch != [] {
      var front, last := batch[..|batch| - 1], batch[|batch| - 1];
      DistinctCount(front);
      assert (set x | x in batch) == (set x | x in front) + {last};
    }
  }

  /** A claim that leaves an open waiting row out is a full batch of rows ahead of it. */
  lemma ClaimLeavesOut(severities: set<string>, s: System, id: Uuid, batch: seq<Uuid>)
    requires Waiting(severities, s, id) && s.table[id].status.Open?
    requires IsClaim(s.table, severities, BATCH, batch) && id !in batch
    ensures FullFrom(batch, Ahead(s.table, severities, id))
  {
  }

  /** Upserts and status changes do not move anything ahead of a row: what is inserted is strictly newer. */
  lemma AheadUnchanged(severities: set<string>, s: System, e: Event, id: Uuid)
    requires Enabled(severities, s, e) && !e.MarkSucceeds? && id in s.table && s.table[id].firstSeen <= s.clock
    ensures Ahead(Apply(s, e).table, severities, id) == Ahead(s.table, severities, id)
  {
    StepPersists(severities, s, e);
    forall x ensures Stamped(Apply(s, e), x) <==> Stamped(s, x) {
      StepStamps(severities, s, e, x);
    }
    var t, u := s.table, Apply(s, e).table;
    hide Apply, Enabled;
    forall x ensures x in Ahead(u, severities, id) <==> x in Ahead(t, severities, id) {
      assert x in t ==> x in u && u[x].firstSeen == t[x].firstSeen && u[x].finding.severity == t[x].finding.severity;
      assert Stamped(Apply(s, e), x) <==> Stamped(s, x);
    }
  }

  lemma MarkShrinksAhead(severities: set<string>, s: System, now: nat, id: Uuid)
    requires s.worker.Sent? && id in s.table && FullFrom(s.worker.batch, Ahead(s.table, severities, id))
    ensures var u := Stamp(s.table, s.worker.batch, now);
            |Ahead(u, severities, id)| == |Ahead(s.table, severities, id)| - BATCH
  {
    var batch, before := (set x | x in s.worker.batch), Ahead(s.table, severities, id);
    DistinctCount(s.worker.batch);
    assert Ahead(Stamp(s.table, s.worker.batch, now), severities, id) == before - batch;
    assert batch <= before;
  }

  /**
   * Until a batch with the row is sent, every step keeps it waiting, and every good sweep clears a full batch ahead of
   * it.
   */
  lemma StepTowards(severities: set<string>, s: System, e: Event, id: Uuid)
    requires Waiting(severities, s, id) && s.table[id].status.Open? && Enabled(severities, s, e)
    requires e.SendSucceeds? ==> id !in s.worker.batch
    ensures Waiting(severities, Apply(s, e), id)
        && Apply(s, e).sends == s.sends + (if e.SendSucceeds? then [s.worker.batch] else [])
    ensures |Ahead(Apply(s, e).table, severities, id)|
        == |Ahead(s.table, severities, id)| - (if e.MarkSucceeds? then BATCH else 0)
  {
    StepPersists(severities, s, e);
    StepStamps(severities, s, e, id);
    if e.MarkSucceeds? {
      MarkShrinksAhead(severities, s, e.now, id);
    } else {
      AheadUnchanged(severities, s, e, id);
    }
    if e.Claim? && id !in e.batch {
      ClaimLeavesOut(severities, s, id, e.batch);
    }
    hide Ahead, FullFrom, IsClaim, LandsOn, Clashes, Eligible;
    assert s.sends + [] == s.sends;
  }

  lemma {:induction false} SendsOnlyGrow(s: System, run: seq<Event>, id: Uuid)
    ensures Times(After(s, run).sends, id) >= Times(s.sends, id)
    decreases |run|
  {
    if run != [] {
      var t := Apply(s, run[0]);
      assert t.sends == s.sends || t.sends == s.sends + [s.worker.batch];
      if s.worker.Claimed? {
        TimesAppend(s.sends, s.worker.batch, id);
      }
      SendsOnlyGrow(t, run[1..], id);
    }
  }

  /** A waiting row that stays open and has `k` rows ahead of it is sent within `k / 100 + 1` good sweeps. */
  lemma {:induction false} WaitingIsSent(severities: set<string>, s: System, run: seq<Event>, id: Uuid)
    requires Waiting(severities, s, id) && Legal(severities, s, run) && StaysOpen(s, run, id)
    requires GoodSweeps(run) >= |Ahead(s.table, severities, id)| / BATCH + 1
    ensures Times(After(s, run).sends, id) > Times(s.sends, id)
    decreases |run|
  {
    var e, rest := run[0], run[1..];
    var t := Apply(s, e);
    assert e.SendSucceeds? ==> s.worker.Claimed?;
    hide Ahead, Waiting, Enabled, Apply;
    if e.SendSucceeds? && id in s.worker.batch {
      LoneSend(s, id);
      SendsOnlyGrow(t, rest, id);
    } else {
      StepTowards(severities, s, e, id);
      if e.SendSucceeds? {
        TimesAppend(s.sends, s.worker.batch, id);
      }
      assert s.sends + [] == s.sends;
      WaitingIsSent(severities, t, rest, id);
    }
  }

  /** A batch is under way without the row: it was inserted, reopened or passed over after the claim. */
  predicate Missed(s: System, id: Uuid) {
    !s.worker.Idle? && id !in s.worker.batch
  }

  /** An unalerted row of an eligible severity. */
  predicate Unalerted(severities: set<string>, s: System, id: Uuid) {
    && id in s.table && s.table[id].alertedAt.None? && s.table[id].finding.severity in severities
    && s.table[id].firstSeen <= s.clock
  }

  /** No step moves a row ahead of one that is there already. */
  lemma AheadShrinks(severities: set<string>, s: System, e: Event, id: Uuid)
    requires Enabled(severities, s, e) && id in s.table && s.table[id].firstSeen <= s.clock
    ensures |Ahead(Apply(s, e).table, severities, id)| <= |Ahead(s.table, severities, id)|
  {
    if e.MarkSucceeds? {
      var t, u := s.table, Stamp(s.table, s.worker.batch, e.now);
      assert Ahead(u, severities, id) <= Ahead(t, severities, id);
      SubsetCount(Ahead(u, severities, id), Ahead(t, severities, id));
    } else {
      AheadUnchanged(severities, s, e, id);
    }
  }

  lemma SubsetCount(a: set<Uuid>, b: set<Uuid>)
    requires a <= b
    ensures |a| <= |b|
  {
    assert b == a + (b - a);
  }

  /** While a batch without the row is under way, a step either keeps it so or ends it, and sends nothing of the row. */
  lemma MissedStep(severities: set<string>, s: System, e: Event, id: Uuid)
    requires Unalerted(severities, s, id) && Missed(s, id) && Enabled(severities, s, e)
    ensures Unalerted(severities, Apply(s, e), id) && !AwaitsStamp(Apply(s, e), id)
    ensures Missed(Apply(s, e), id) || Apply(s, e).worker.Idle?
    ensures e.MarkSucceeds? ==> Apply(s, e).worker.Idle?
    ensures Times(Apply(s, e).sends, id) == Times(s.sends, id)
  {
    StepPersists(severities, s, e);
    StepStamps(severities, s, e, id);
    if e.SendSucceeds? {
      TimesAppend(s.sends, s.worker.batch, id);
    }
    hide Put, Restate, Stamp, LandsOn, IsClaim, Clashes, Times;
  }

  /** Between sweeps, or in a batch claimed or to be claimed, an unalerted row is waiting. */
  lemma UnalertedWaits(severities: set<string>, s: System, id: Uuid)
    requires Unalerted(severities, s, id) && !Missed(s, id) && !AwaitsStamp(s, id)
    ensures Waiting(severities, s, id)
  {
  }

  lemma {:induction false} UnalertedIsSent(severities: set<string>, s: System, run: seq<Event>, id: Uuid)
    requires Unalerted(severities, s, id) && !AwaitsStamp(s, id) && Legal(severities, s, run) && StaysOpen(s, run, id)
    requires GoodSweeps(run) >= |Ahead(s.table, severities, id)| / BATCH + 1 + (if Missed(s, id) then 1 else 0)
    ensures Times(After(s, run).sends, id) > Times(s.sends, id)
    decreases |run|
  {
    hide Ahead, Waiting, Enabled, Apply, Unalerted, Missed, AwaitsStamp;
    if Missed(s, id) {
      var e, rest := run[0], run[1..];
      MissedStep(severities, s, e, id);
      AheadShrinks(severities, s, e, id) by {
        UnalertedSeen(severities, s, id);
      }
      IdleMissesNothing(Apply(s, e), id);
      UnalertedIsSent(severities, Apply(s, e), rest, id);
    } else {
      UnalertedWaits(severities, s, id);
      WaitingIsSent(severities, s, run, id);
    }
  }

  lemma UnalertedSeen(severities: set<string>, s: System, id: Uuid)
    requires Unalerted(severities, s, id)
    ensures id in s.table && s.table[id].firstSeen <= s.clock
  {
  }

  lemma IdleMissesNothing(s: System, id: Uuid)
    ensures s.worker.Idle? ==> !Missed(s, id)
  {
  }

  /**
   * No starvation, from every state that a run can reach: an unalerted row of an eligible severity that stays open,
   * with `k` rows ahead of it, has been sent or is in a batch sent within any run, however interleaved, that holds
   * `k / 100 + 1` sweeps whose send and mark succeed, or one more when a batch without it is already under way.
   */
  lemma NoStarvation(severities: set<string>, past: seq<Event>, run: seq<Event>, id: Uuid)
    requires Legal(severities, START, past) && Legal(severities, After(START, past), run)
    requires var s := After(START, past);
      && StaysOpen(s, run, id) && !Stamped(s, id) && s.table[id].finding.severity in severities
      && GoodSweeps(run) >= |Ahead(s.table, severities, id)| / BATCH + 1 + (if Missed(s, id) then 1 else 0)
    ensures var s := After(START, past); AwaitsStamp(s, id) || Times(After(s, run).sends, id) > Times(s.sends, id)
  {
    var s := After(START, past);
    assert Inv(START);
    RunKeepsInv(severities, START, past);
    assert Unalerted(severities, s, id);
    hide Legal, After, StaysOpen, Ahead, Inv;
    if !AwaitsStamp(s, id) {
      UnalertedIsSent(severities, s, run, id);
    }
  }

  lemma LoneSend(s: System, id: Uuid)
    requires s.worker.Claimed?
    ensures Apply(s, SendSucceeds).sends == s.sends + [s.worker.batch]
    ensures Times(Apply(s, SendSucceeds).sends, id) == Times(s.sends, id) + (if id in s.worker.batch then 1 else 0)
  {
  }

  // ----- delivery is at least once, not at most once -----

  lemma TwoSteps(severities: set<string>, s: System, e: Event, f: Event)
    requires Enabled(severities, s, e) && Enabled(severities, Apply(s, e), f)
    ensures Legal(severities, s, [e, f]) && After(s, [e, f]) == Apply(Apply(s, e), f)
  {
    hide Enabled, Apply;
    assert [e, f][1..] == [f] && [f][1..] == [];
    assert After(Apply(s, e), [f]) == After(Apply(Apply(s, e), f), []);
    assert Legal(severities, Apply(s, e), [f]);
  }

  lemma ThreeSteps(severities: set<string>, s: System, e: Event, f: Event, g: Event)
    requires Enabled(severities, s, e) && Enabled(severities, Apply(s, e), f)
        && Enabled(severities, Apply(Apply(s, e), f), g)
    ensures Legal(severities, s, [e, f, g]) && After(s, [e, f, g]) == Apply(Apply(Apply(s, e), f), g)
  {
    hide Enabled, Apply;
    TwoSteps(severities, Apply(s, e), f, g);
    assert [e, f, g][1..] == [f, g];
  }

  /** Rows that were in a batch are in the table and of an eligible severity. */
  ghost predicate BatchesEligible(severities: set<string>, s: System) {
    && (!s.worker.Idle? ==> forall id :: id in s.worker.batch ==> OfSeverity(severities, s.table, id))
    && forall id :: Times(s.failedMarks, id) > 0 ==> OfSeverity(severities, s.table, id)
  }

  predicate OfSeverity(severities: set<string>, t: Table, id: Uuid) {
    id in t && t[id].finding.severity in severities
  }

  lemma StepKeepsEligible(severities: set<string>, s: System, e: Event)
    requires BatchesEligible(severities, s) && Enabled(severities, s, e)
    ensures BatchesEligible(severities, Apply(s, e))
  {
    StepPersists(severities, s, e);
    forall id ensures Times(Apply(s, e).failedMarks, id) > 0 ==> OfSeverity(severities, Apply(s, e).table, id) {
      StepCounts(severities, s, e, id);
    }
    hide Times, Put, Restate, Stamp, LandsOn, Clashes;
  }

  lemma {:induction false} RunKeepsEligible(severities: set<string>, s: System, run: seq<Event>)
    requires BatchesEligible(severities, s) && Legal(severities, s, run)
    ensures BatchesEligible(severities, After(s, run))
    decreases |run|
  {
    hide BatchesEligible, Enabled, Apply;
    if run != [] {
      StepKeepsEligible(severities, s, run[0]);
      RunKeepsEligible(severities, Apply(s, run[0]), run[1..]);
    }
  }

  /** `u` is `t` with the rows `todo` closed. */
  ghost predicate ClosedOnly(t: Table, u: Table, todo: set<Uuid>) {
    && u.Keys == t.Keys
    && forall x :: x in t ==> if x in todo then !u[x].status.Open? else u[x] == t[x]
  }

  /** Analysts can close any rows one by one, which changes nothing else. */
  lemma {:induction false} CloseAll(severities: set<string>, s: System, todo: set<Uuid>) returns (run: seq<Event>)
    requires todo <= s.table.Keys
    ensures Legal(severities, s, run) && ClosedOnly(s.table, After(s, run).table, todo)
    ensures After(s, run) == s.(table := After(s, run).table)
    decreases todo
  {
    run := [];
    if todo != {} {
      var x :| x in todo;
      var e := UpdateStatus(x, OtherStatus("closed"), "", "");
      var rest := CloseAll(severities, Apply(s, e), todo - {x});
      run := [e] + rest;
      assert run[1..] == rest;
    }
  }

  /** A run of the sweeper alone to where it is idle, without a failed mark. */
  lemma FinishSweep(severities: set<string>, s: System, id: Uuid) returns (run: seq<Event>)
    requires Unalerted(severities, s, id) && (Missed(s, id) || s.worker.Idle?)
    ensures Legal(severities, s, run) && After(s, run).worker.Idle? && Unalerted(severities, After(s, run), id)
    ensures Times(After(s, run).sends, id) == Times(s.sends, id)
    ensures After(s, run).failedMarks == s.failedMarks
  {
    if s.worker.Idle? {
      run := [];
    } else {
      var e := if s.worker.Claimed? then SendFails else MarkSucceeds(s.clock + 1);
      run := [e];
      MissedStep(severities, s, e, id);
      assert run[1..] == [] && After(Apply(s, e), []) == Apply(s, e);
      hide Stamp, Times;
    }
  }

  /** Once every other row is closed, reopening the row, claiming and sending sends it alone. */
  lemma SendAlone(severities: set<string>, s: System, id: Uuid) returns (run: seq<Event>)
    requires s.worker.Idle? && Unalerted(severities, s, id)
    requires forall x :: x in s.table && x != id ==> !s.table[x].status.Open?
    ensures Legal(severities, s, run) && After(s, run).sends == s.sends + [[id]]
    ensures After(s, run).failedMarks == s.failedMarks
  {
    var e, f := UpdateStatus(id, Open, "", ""), Claim([id]);
    run := [e, f, SendSucceeds];
    var t := Apply(s, e);
    assert !Clashes(s.table, id, Open);
    assert t.table == s.table[id := s.table[id].(status := Open, assignee := "", notes := "")];
    assert forall x :: Eligible(t.table, severities, x) <==> x == id;
    assert IsClaim(t.table, severities, BATCH, [id]);
    ThreeSteps(severities, s, e, f, SendSucceeds);
  }

  /** From every reachable state an unalerted row that no sent batch holds can be sent, with no mark failing. */
  lemma CanBeSent(severities: set<string>, s: System, id: Uuid) returns (run: seq<Event>)
    requires Unalerted(severities, s, id) && !AwaitsStamp(s, id)
    ensures Legal(severities, s, run) && Times(After(s, run).sends, id) == Times(s.sends, id) + 1
    ensures After(s, run).failedMarks == s.failedMarks
  {
    if s.worker.Claimed? && id in s.worker.batch {
      run := [SendSucceeds];
      LoneSend(s, id);
      assert run[1..] == [] && After(Apply(s, SendSucceeds), []) == Apply(s, SendSucceeds);
    } else {
      var a := FinishSweep(severities, s, id);
      var s1 := After(s, a);
      hide Legal, After;
      UnalertedSeen(severities, s1, id);
      var b := CloseAll(severities, s1, s1.table.Keys - {id});
      var s2 := After(s1, b);
      var c := SendAlone(severities, s2, id);
      LegalConcat(severities, s1, b, c);
      LegalConcat(severities, s, a, b + c);
      run := a + (b + c);
      TimesAppend(s2.sends, [id], id);
    }
  }

  /** No mark of a batch with the row fails in the run. */
  predicate NoFailedMark(s: System, run: seq<Event>, id: Uuid) {
    Times(After(s, run).failedMarks, id) == Times(s.failedMarks, id)
  }

  /**
   * From a reachable state, every continuation in which no mark of the row fails keeps it at one send at most iff
   * no mark of it has failed so far: one failed mark is enough, whatever came of it, for a second send to follow.
   */
  lemma AtMostOnceIff(severities: set<string>, past: seq<Event>, id: Uuid)
    requires Legal(severities, START, past)
    ensures var s := After(START, past);
      (forall run :: Legal(severities, s, run) && NoFailedMark(s, run, id) ==> Times(After(s, run).sends, id) <= 1)
      <==> Times(s.failedMarks, id) == 0
  {
    var s := After(START, past);
    assert Inv(START) && BatchesEligible(severities, START);
    RunKeepsInv(severities, START, past);
    RunKeepsEligible(severities, START, past);
    if Times(s.failedMarks, id) == 0 {
      forall run | Legal(severities, s, run) && NoFailedMark(s, run, id) ensures Times(After(s, run).sends, id) <= 1 {
        RunKeepsInv(severities, s, run);
        assert Conserved(After(s, run), id);
      }
    } else {
      var run := SecondSend(severities, s, id);
    }
  }

  lemma SecondSend(severities: set<string>, s: System, id: Uuid) returns (run: seq<Event>)
    requires Inv(s) && BatchesEligible(severities, s) && Times(s.failedMarks, id) > 0
    ensures Legal(severities, s, run) && NoFailedMark(s, run, id) && Times(After(s, run).sends, id) > 1
  {
    assert Conserved(s, id) && OfSeverity(severities, s.table, id);
    if Stamped(s, id) || AwaitsStamp(s, id) {
      run := [];
    } else {
      assert Unalerted(severities, s, id);
      hide Inv, BatchesEligible, Unalerted, AwaitsStamp, Stamped, Legal, After;
      run := CanBeSent(severities, s, id);
    }
  }

  /** One failed mark is enough for the same row to be sent twice. */
  lemma SentTwice(severities: set<string>, f: Finding, id: Uuid) returns (run: seq<Event>)
    requires f.severity in severities
    ensures Legal(severities, START, run) && Times(After(START, run).sends, id) == 2
  {
    var s1 := Apply(START, Upsert(f, id, 1));
    assert Enabled(severities, START, Upsert(f, id, 1));
    assert s1.table == map[id := Fresh(f, 1)];
    var sweep := [Claim([id]), SendSucceeds, MarkFails];
    OneSweep(severities, s1, id);
    var s2 := After(s1, sweep);
    OneSweep(severities, s2, id);
    run := [Upsert(f, id, 1)] + (sweep + sweep);
    LegalConcat(severities, s1, sweep, sweep);
    assert run[1..] == sweep + sweep;
    assert Times([[id], [id]], id) == Times([[id]], id) + 1 by {
      TimesAppend([[id]], [id], id);
    }
    assert Times([[id]], id) == 1 by {
      TimesAppend([], [id], id);
    }
  }

  /** A sweep of a lone eligible row whose send succeeds and whose mark fails leaves the table as it was. */
  lemma OneSweep(severities: set<string>, s: System, id: Uuid)
    requires s.worker.Idle? && s.table.Keys == {id} && Eligible(s.table, severities, id)
    ensures var sweep := [Claim([id]), SendSucceeds, MarkFails];
            Legal(severities, s, sweep)
            && After(s, sweep) == s.(sends := s.sends + [[id]], failedMarks := s.failedMarks + [[id]])
  {
    var sweep := [Claim([id]), SendSucceeds, MarkFails];
    assert sweep[1..] == [SendSucceeds, MarkFails] && sweep[1..][1..] == [MarkFails] && sweep[1..][1..][1..] == [];
    assert IsClaim(s.table, severities, BATCH, [id]);
    var a := Apply(s, Claim([id]));
    var b := Apply(a, SendSucceeds);
    var c := Apply(b, MarkFails);
    assert After(c, []) == c;
    assert After(b, [MarkFails]) == c;
    assert After(a, [SendSucceeds, MarkFails]) == c;
    assert Legal(severities, b, [MarkFails]);
    assert Legal(severities, a, [SendSucceeds, MarkFails]);
  }

  lemma {:induction false} LegalConcat(severities: set<string>, s: System, a: seq<Event>, b: seq<Event>)
    requires Legal(severities, s, a) && Legal(severities, After(s, a), b)
    ensures Legal(severities, s, a + b) && After(s, a + b) == After(After(s, a), b)
    decreases |a|
  {
    hide Enabled, Apply;
    if a == [] {
      assert a + b == b;
    } else {
      assert (a + b)[1..] == a[1..] + b;
      LegalConcat(severities, Apply(s, a[0]), a[1..], b);
    }
  }

  // ----- the sweep itself -----

  /** One sweep, with no step of others in between: `sendOk` and `markOk` say how the notifier and the stamp fare. */
  method RunAlerts(repo: FindingRepo, severities: set<string>, claimOk: bool, sendOk: bool, markOk: bool, clock: nat,
                   now: nat)
      returns (failed: bool, ghost run: seq<Event>)
    requires now > clock
    modifies repo
    ensures var s := System(old(repo.rows), clock, Idle, [], []);
            && Legal(severities, s, run) && repo.rows == After(s, run).table && After(s, run).worker.Idle?
            && failed == (!claimOk || (run != [] && run[0].Claim? && run[0].batch != [] && !sendOk))
            && (forall id :: Times(After(s, run).sends, id) == 1 <==>
                  claimOk && sendOk && run != [] && run[0].Claim? && id in run[0].batch)
            && (repo.rows != old(repo.rows) ==> claimOk && sendOk && markOk)
  {
    hide IsClaim;
    ghost var s := System(repo.rows, clock, Idle, [], []);
    run := [];
    if !claimOk {
      return true, run;
    }
    var rows := repo.ClaimUnalerted(severities, 100);
    ghost var a := Apply(s, Claim(rows));
    if |rows| == 0 {
      run := [Claim(rows)];
      assert run[1..] == [] && After(a, []) == a;
      return false, run;
    }
    var ids: seq<Uuid> := [];
    for i := 0 to |rows|
      invariant ids == rows[..i]
    {
      ids := ids + [rows[i]];
    }
    assert ids == rows;
    if !sendOk {
      run := [Claim(rows), SendFails];
      TwoSteps(severities, s, Claim(rows), SendFails);
      return true, run;
    }
    ghost var b := Apply(a, SendSucceeds);
    assert b.sends == [] + [rows];
    forall id ensures Times(b.sends, id) == if id in rows then 1 else 0 {
      TimesAppend([], rows, id);
    }
    if markOk {
      repo.MarkAlerted(ids, now);
      run := [Claim(rows), SendSucceeds, MarkSucceeds(now)];
      ThreeSteps(severities, s, Claim(rows), SendSucceeds, MarkSucceeds(now));
    } else {
      run := [Claim(rows), SendSucceeds, MarkFails];
      ThreeSteps(severities, s, Claim(rows), SendSucceeds, MarkFails);
    }
    failed := false;
  }
}
