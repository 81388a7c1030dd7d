/** The findings table of findings.go and the statements that change it. */
module Findings {
  import opened Prelude

  datatype Status = Open | OtherStatus(name: string)

  /** What a detector hands over; the evidence map is kept as one opaque value. */
  datatype Finding = Finding(detector: string, category: string, severity: string, confidence: int,
                             identity: Option<Uuid>, title: string, narrative: string, evidence: string,
                             fingerprint: string,
                             riskContribution: int, snapshot: Option<Uuid>)

  datatype Row = Row(finding: Finding, status: Status, assignee: string, notes: string,
                     firstSeen: nat, lastSeen: nat, alertedAt: Option<nat>)

  type Table = map<Uuid, Row>

  predicate OpenWith(t: Table, id: Uuid, fingerprint: string) {
    id in t && t[id].status.Open? && t[id].finding.fingerprint == fingerprint
  }

  /** The partial unique index: one open row per fingerprint. */
  ghost predicate OneOpen(t: Table) {
    forall i, j :: i in t && j in t && OpenWith(t, i, t[j].finding.fingerprint) && t[j].status.Open? ==> i == j
  }

  // ----- upsert -----

  function Fresh(f: Finding, now: nat): Row {
    Row(f, Open, "", "", now, now, None)
  }

  /** A repeated finding refreshes narrative, evidence, confidence and snapshot; the rest of the row is kept. */
  function Refresh(r: Row, f: Finding, now: nat): Row {
    r.(finding := r.finding.(narrative := f.narrative, evidence := f.evidence, confidence := f.confidence,
                             snapshot := f.snapshot),
       lastSeen := now)
  }

  /** The upsert lands on the open row with the fingerprint, or on a new row when there is none. */
  ghost predicate LandsOn(t: Table, f: Finding, id: Uuid) {
    OpenWith(t, id, f.fingerprint) || (id !in t && forall i :: !OpenWith(t, i, f.fingerprint))
  }

  function Put(t: Table, f: Finding, id: Uuid, now: nat): Table {
    t[id := if id in t then Refresh(t[id], f, now) else Fresh(f, now)]
  }

  // ----- status changes -----

  /** Reopening a row while another open row has its fingerprint violates the index, and changes nothing. */
  predicate Clashes(t: Table, id: Uuid, status: Status) {
    id in t && status.Open? && exists i :: i in t && i != id && OpenWith(t, i, t[id].finding.fingerprint)
  }

  function Restate(t: Table, id: Uuid, status: Status, assignee: string, notes: string): Table {
    if id !in t || Clashes(t, id, status) then t
    else t[id := t[id].(status := status, assignee := assignee, notes := notes)]
  }

  // ----- claim and mark -----

  predicate Eligible(t: Table, severities: set<string>, id: Uuid) {
    id in t && t[id].status.Open? && t[id].alertedAt.None? && t[id].finding.severity in severities
  }

  function FirstSeen(t: Table, id: Uuid): nat {
    if id in t then t[id].firstSeen else 0
  }

  /** The `limit` oldest eligible rows, oldest first; rows of equal age may come in any order. */
  ghost predicate IsClaim(t: Table, severities: set<string>, limit: nat, batch: seq<Uuid>) {
    && |batch| <= limit
    && (forall i, j :: 0 <= i < j < |batch| ==> batch[i] != batch[j])
    && (forall id :: id in batch ==> Eligible(t, severities, id))
    && (forall i, j :: 0 <= i < j < |batch| ==> FirstSeen(t, batch[i]) <= FirstSeen(t, batch[j]))
    && (forall id :: Eligible(t, severities, id) && id !in batch ==>
          |batch| == limit && forall i :: 0 <= i < |batch| ==> FirstSeen(t, batch[i]) <= FirstSeen(t, id))
  }

  /** Out-of-range limits fall back to 100. */
  function ClaimLimit(limit: int): nat {
    if limit <= 0 || limit > 500 then 100 else limit
  }

  function Stamp(t: Table, ids: seq<Uuid>, now: nat): Table {
    map id | id in t :: if id in ids then t[id].(alertedAt := Some(now)) else t[id]
  }

  // ----- the same, column by column -----

  /** What a repeated finding refreshes, and what it leaves alone. */
  ghost predicate IsRefreshed(was: Row, is_: Row, f: Finding, now: nat) {
    && is_.finding.narrative == f.narrative && is_.finding.evidence == f.evidence
    && is_.finding.confidence == f.confidence && is_.finding.snapshot == f.snapshot && is_.lastSeen == now
    && is_.finding.detector == was.finding.detector && is_.finding.category == was.finding.category
    && is_.finding.severity == was.finding.severity && is_.finding.identity == was.finding.identity
    && is_.finding.title == was.finding.title && is_.finding.fingerprint == was.finding.fingerprint
    && is_.finding.riskContribution == was.finding.riskContribution
    && is_.status == was.status && is_.assignee == was.assignee && is_.notes == was.notes
    && is_.firstSeen == was.firstSeen && is_.alertedAt == was.alertedAt
  }

  /** A new row holds the finding, open, unassigned and not yet alerted. */
  ghost predicate IsOpened(is_: Row, f: Finding, now: nat) {
    && is_.finding == f && is_.status.Open? && is_.assignee == "" && is_.notes == ""
    && is_.firstSeen == now && is_.lastSeen == now && is_.alertedAt.None?
  }

  /** `u` is `t` but for the row `id`. */
  ghost predicate ChangedOnly(t: Table, u: Table, id: Uuid) {
    u.Keys == t.Keys + {id} && forall x :: x in t && x != id ==> u[x] == t[x]
  }

  /** `batch` lists `n` open unalerted rows of the severities, or all if fewer, oldest first; none left out is older. */
  ghost predicate AreOldest(t: Table, severities: set<string>, n: nat, batch: seq<Uuid>) {
    && |batch| <= n
    && (forall id :: id in batch ==>
          id in t && t[id].status.Open? && t[id].alertedAt.None? && t[id].finding.severity in severities)
    && (forall i, j :: 0 <= i < j < |batch| ==>
          batch[i] != batch[j] && t[batch[i]].firstSeen <= t[batch[j]].firstSeen)
    && forall id :: id in t && t[id].status.Open? && t[id].alertedAt.None? && t[id].finding.severity in severities ==>
         id in batch || (|batch| == n && forall i :: 0 <= i < |batch| ==> t[batch[i]].firstSeen <= t[id].firstSeen)
  }

  lemma ClaimIsOldest(t: Table, severities: set<string>, n: nat, batch: seq<Uuid>)
    requires IsClaim(t, severities, n, batch)
    ensures AreOldest(t, severities, n, batch)
  {
  }

  // ----- the repository object -----

  class FindingRepo {
    var rows: Table

    method Upsert(f: Finding, newId: Uuid, now: nat) returns (id: Uuid)
      requires OneOpen(rows) && newId !in rows
      modifies this
      ensures OneOpen(rows) && LandsOn(old(rows), f, id) && (id == newId || id in old(rows))
      ensures rows == Put(old(rows), f, id, now)
      ensures ChangedOnly(old(rows), rows, id)
      ensures id in old(rows) ==>
        && old(rows)[id].status.Open? && old(rows)[id].finding.fingerprint == f.fingerprint
        && IsRefreshed(old(rows)[id], rows[id], f, now)
      ensures id !in old(rows) ==>
        && id == newId && IsOpened(rows[id], f, now)
        && forall x :: x in old(rows) && old(rows)[x].status.Open? ==> old(rows)[x].finding.fingerprint != f.fingerprint
    {
      if i :| i in rows && OpenWith(rows, i, f.fingerprint) {
        id := i;
        rows := rows[i := Refresh(rows[i], f, now)];
      } else {
        id := newId;
        rows := rows[newId := Fresh(f, now)];
      }
    }

    method UpdateStatus(id: Uuid, status: Status, assignee: string, notes: string) returns (ok: bool)
      requires OneOpen(rows)
      modifies this
      ensures OneOpen(rows) && rows == Restate(old(rows), id, status, assignee, notes)
      ensures ok == !Clashes(old(rows), id, status)
      ensures ok <==> !(id in old(rows) && status.Open? && exists x ::
        && x in old(rows) && x != id && old(rows)[x].status.Open?
        && old(rows)[x].finding.fingerprint == old(rows)[id].finding.fingerprint)
      ensures !ok || id !in old(rows) ==> rows == old(rows)
      ensures ok && id in old(rows) ==>
        && ChangedOnly(old(rows), rows, id)
        && rows[id].status == status && rows[id].assignee == assignee && rows[id].notes == notes
        && rows[id].finding == old(rows)[id].finding && rows[id].firstSeen == old(rows)[id].firstSeen
        && rows[id].lastSeen == old(rows)[id].lastSeen && rows[id].alertedAt == old(rows)[id].alertedAt
    {
      ok := !Clashes(rows, id, status);
      if ok && id in rows {
        rows := rows[id := rows[id].(status := status, assignee := assignee, notes := notes)];
      }
    }

    method ClaimUnalerted(severities: set<string>, limit: int) returns (batch: seq<Uuid>)
      ensures IsClaim(rows, severities, ClaimLimit(limit), batch)
      ensures AreOldest(rows, severities, if 0 < limit <= 500 then limit else 100, batch)
    {
      hide AreOldest;
      batch := [];
      var todo := set id | id in rows && Eligible(rows, severities, id);
      while todo != {} && |batch| < ClaimLimit(limit)
        invariant |batch| <= ClaimLimit(limit)
        invariant forall id :: Eligible(rows, severities, id) <==> id in todo || id in batch
        invariant forall id :: id in batch ==> id !in todo
        invariant forall i, j :: 0 <= i < j < |batch| ==>
          batch[i] != batch[j] && FirstSeen(rows, batch[i]) <= FirstSeen(rows, batch[j])
        invariant forall i, id :: 0 <= i < |batch| && id in todo ==> FirstSeen(rows, batch[i]) <= FirstSeen(rows, id)
        decreases todo
      {
        var oldest := Oldest(rows, todo);
        batch := batch + [oldest];
        todo := todo - {oldest};
      }
      ClaimIsOldest(rows, severities, ClaimLimit(limit), batch);
    }

    method MarkAlerted(ids: seq<Uuid>, now: nat)
      modifies this
      ensures rows == Stamp(old(rows), ids, now)
      ensures rows.Keys == old(rows).Keys
      ensures forall id :: id in rows && id !in ids ==> rows[id] == old(rows)[id]
      ensures forall id :: id in rows && id in ids ==>
        rows[id].alertedAt == Some(now) && rows[id].(alertedAt := None) == old(rows)[id].(alertedAt := None)
    {
      if |ids| == 0 {
        return;
      }
      rows := Stamp(rows, ids, now);
    }
  }

  method Oldest(t: Table, ids: set<Uuid>) returns (oldest: Uuid)
    requires ids != {} && ids <= t.Keys
    ensures oldest in ids && forall id :: id in ids ==> t[oldest].firstSeen <= t[id].firstSeen
  {
    oldest :| oldest in ids;
    var rest := ids - {oldest};
    while rest != {}
      invariant rest <= ids && oldest in ids
      invariant forall id :: id in ids && id !in rest ==> t[oldest].firstSeen <= t[id].firstSeen
      decreases rest
    {
      var x :| x in rest;
      rest := rest - {x};
      if t[x].firstSeen < t[oldest].firstSeen {
        oldest := x;
      }
    }
  }
}
