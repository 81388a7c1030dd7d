/** Keyed upserts: what `INSERT ... ON CONFLICT (key) DO UPDATE` keeps, refreshes and refuses. */
module Upserts {
  import opened Prelude

  /** A stored row: its id and frozen columns never change; its data and stamp follow the last write. */
  datatype Row<F, D> = Row(id: Uuid, frozen: F, data: D, stamp: int)

  type Table<K, F, D> = map<K, Row<F, D>>

  /** A record to store. `id` is the one it would be inserted under; `stamp` stands for timestamps and run ids. */
  datatype Record<K, F, D> = Record(key: K, id: Uuid, frozen: F, data: D, stamp: int)

  /** The primary key: another row already has this id. */
  predicate IdTaken<K, F, D>(t: Table<K, F, D>, id: Uuid) {
    exists k :: k in t && t[k].id == id
  }

  /** An insert under a taken id violates the primary key. */
  predicate Refused<K, F, D>(t: Table<K, F, D>, r: Record<K, F, D>) {
    r.key !in t && IdTaken(t, r.id)
  }

  function Put<K, F, D>(t: Table<K, F, D>, r: Record<K, F, D>): Table<K, F, D> {
    if r.key in t then t[r.key := t[r.key].(data := r.data, stamp := r.stamp)]
    else if IdTaken(t, r.id) then t
    else t[r.key := Row(r.id, r.frozen, r.data, r.stamp)]
  }

  /** The collector logs a refused record and goes on. */
  function PutAll<K, F, D>(t: Table<K, F, D>, rs: seq<Record<K, F, D>>): Table<K, F, D> {
    if rs == [] then t else Put(PutAll(t, rs[..|rs| - 1]), rs[|rs| - 1])
  }

  function Stored<K, F, D>(t: Table<K, F, D>, rs: seq<Record<K, F, D>>): (n: nat)
    ensures n <= |rs|
  {
    if rs == [] then 0 else
      var front, r := rs[..|rs| - 1], rs[|rs| - 1];
      Stored(t, front) + (if Refused(PutAll(t, front), r) then 0 else 1)
  }

  method UpsertAll<K(==), F, D>(t: Table<K, F, D>, rs: seq<Record<K, F, D>>) returns (u: Table<K, F, D>, upserted: nat)
    ensures u == PutAll(t, rs) && upserted == Stored(t, rs)
  {
    u, upserted := t, 0;
    for i := 0 to |rs|
      invariant u == PutAll(t, rs[..i]) && upserted == Stored(t, rs[..i])
    {
      assert rs[..i + 1][..i] == rs[..i];
      if !Refused(u, rs[i]) {
        upserted := upserted + 1;
      }
      u := Put(u, rs[i]);
    }
    assert rs[..|rs|] == rs;
  }

  // ----- rows persist -----

  /** Every row of `t` is still in `u` with its id and frozen columns. */
  ghost predicate Persists<K, F, D>(t: Table<K, F, D>, u: Table<K, F, D>) {
    forall k :: k in t ==> k in u && u[k].id == t[k].id && u[k].frozen == t[k].frozen
  }

  lemma {:induction false} RowsPersist<K, F, D>(t: Table<K, F, D>, rs: seq<Record<K, F, D>>)
    ensures Persists(t, PutAll(t, rs))
  {
    if rs != [] {
      RowsPersist(t, rs[..|rs| - 1]);
    }
  }

  lemma TakenStays<K, F, D>(t: Table<K, F, D>, u: Table<K, F, D>, id: Uuid)
    requires Persists(t, u) && IdTaken(t, id)
    ensures IdTaken(u, id)
  {
  }

  lemma {:induction false} PutAllConcat<K, F, D>(t: Table<K, F, D>, a: seq<Record<K, F, D>>, b: seq<Record<K, F, D>>)
    ensures PutAll(t, a + b) == PutAll(PutAll(t, a), b)
  {
    hide Put;
    if b == [] {
      assert a + b == a;
    } else {
      assert (a + b)[..|a + b| - 1] == a + b[..|b| - 1];
      PutAllConcat(t, a, b[..|b| - 1]);
    }
  }

  // ----- the last write wins, the first write stays -----

  ghost predicate IsLast<K, F, D>(rs: seq<Record<K, F, D>>, i: nat, k: K) {
    i < |rs| && rs[i].key == k && forall j :: i < j < |rs| ==> rs[j].key != k
  }

  /** After the last record of its key, a stored row holds that record's data. */
  lemma {:induction false} LastWriteWins<K, F, D>(t: Table<K, F, D>, rs: seq<Record<K, F, D>>, i: nat, k: K)
    requires IsLast(rs, i, k) && k in PutAll(t, rs)
    ensures PutAll(t, rs)[k].data == rs[i].data && PutAll(t, rs)[k].stamp == rs[i].stamp
    decreases |rs|
  {
    if i < |rs| - 1 {
      LastWriteWins(t, rs[..|rs| - 1], i, k);
    }
  }

  // ----- exactly when nothing is refused -----

  /** The record is the first of its key, and the key has no row yet. */
  ghost predicate IsNew<K, F, D>(t: Table<K, F, D>, rs: seq<Record<K, F, D>>, i: int) {
    0 <= i < |rs| && rs[i].key !in t && forall j :: 0 <= j < i ==> rs[j].key != rs[i].key
  }

  /** The records that open a row have ids of their own, none of them taken before. */
  ghost predicate NewIdsFree<K, F, D>(t: Table<K, F, D>, rs: seq<Record<K, F, D>>) {
    && (forall i :: IsNew(t, rs, i) ==> !IdTaken(t, rs[i].id))
    && (forall i, j :: IsNew(t, rs, i) && IsNew(t, rs, j) && rs[i].id == rs[j].id ==> i == j)
  }

  ghost function KeysOf<K, F, D>(rs: seq<Record<K, F, D>>): set<K> {
    set r | r in rs :: r.key
  }

  lemma KeysAppend<K, F, D>(front: seq<Record<K, F, D>>, r: Record<K, F, D>)
    ensures KeysOf(front + [r]) == KeysOf(front) + {r.key}
  {
  }

  lemma KeysIndexed<K, F, D>(rs: seq<Record<K, F, D>>, k: K)
    ensures k in KeysOf(rs) <==> exists i :: 0 <= i < |rs| && rs[i].key == k
  {
  }

  /** One more record changes nothing about those before it, and is new iff its key is. */
  lemma NewAppend<K, F, D>(t: Table<K, F, D>, front: seq<Record<K, F, D>>, r: Record<K, F, D>, i: int)
    ensures i < |front| ==> (IsNew(t, front + [r], i) <==> IsNew(t, front, i))
    ensures IsNew(t, front + [r], |front|) <==> r.key !in t && r.key !in KeysOf(front)
  {
    var rs := front + [r];
    assert forall j :: 0 <= j < |front| ==> rs[j] == front[j];
    KeysIndexed(front, r.key);
  }

  /** The row of `k` is an old one or the one that its first record opened. */
  ghost predicate RowOpened<K, F, D>(t: Table<K, F, D>, rs: seq<Record<K, F, D>>, k: K, row: Row<F, D>) {
    || (k in t && row.id == t[k].id && row.frozen == t[k].frozen)
    || exists i :: IsNew(t, rs, i) && rs[i].key == k && rs[i].id == row.id && rs[i].frozen == row.frozen
  }

  /** While nothing is refused, every key has its row, opened by its first record. */
  ghost predicate AllOpened<K, F, D>(t: Table<K, F, D>, rs: seq<Record<K, F, D>>, u: Table<K, F, D>) {
    && u.Keys == t.Keys + KeysOf(rs)
    && forall k :: k in u ==> RowOpened(t, rs, k, u[k])
  }

  lemma OpenedAppend<K, F, D>(t: Table<K, F, D>, front: seq<Record<K, F, D>>, r: Record<K, F, D>, k: K, row: Row<F, D>)
    requires RowOpened(t, front, k, row)
    ensures RowOpened(t, front + [r], k, row)
  {
    if !(k in t && row.id == t[k].id && row.frozen == t[k].frozen) {
      var i :| IsNew(t, front, i) && front[i].key == k && front[i].id == row.id && front[i].frozen == row.frozen;
      NewAppend(t, front, r, i);
      assert (front + [r])[i] == front[i];
    }
  }

  lemma PutOpens<K, F, D>(t: Table<K, F, D>, front: seq<Record<K, F, D>>, u: Table<K, F, D>, r: Record<K, F, D>)
    requires AllOpened(t, front, u) && !Refused(u, r)
    ensures AllOpened(t, front + [r], Put(u, r))
  {
    var rs, v := front + [r], Put(u, r);
    KeysAppend(front, r);
    NewAppend(t, front, r, 0);
    hide KeysOf, IsNew;
    forall k | k in v ensures RowOpened(t, rs, k, v[k]) {
      if k in u {
        OpenedAppend(t, front, r, k, u[k]);
        assert v[k].id == u[k].id && v[k].frozen == u[k].frozen;
      } else {
        assert k == r.key && rs[|front|] == r && IsNew(t, rs, |front|);
      }
    }
  }

  /** While nothing was refused, the taken ids are the old ones and those of the records that opened a row. */
  lemma TakenIds<K, F, D>(t: Table<K, F, D>, rs: seq<Record<K, F, D>>, id: Uuid)
    requires AllOpened(t, rs, PutAll(t, rs))
    ensures IdTaken(PutAll(t, rs), id) ==> IdTaken(t, id) || exists i :: IsNew(t, rs, i) && rs[i].id == id
  {
    hide PutAll, IsNew, KeysOf;
    var u := PutAll(t, rs);
    if IdTaken(u, id) {
      var k :| k in u && u[k].id == id;
      assert RowOpened(t, rs, k, u[k]);
    }
  }

  /** The id of a record that opened a row stays taken. */
  lemma {:induction false} OpenedTakes<K, F, D>(t: Table<K, F, D>, rs: seq<Record<K, F, D>>, i: int)
    requires IsNew(t, rs, i)
    ensures IdTaken(PutAll(t, rs), rs[i].id)
  {
    var front, r := rs[..|rs| - 1], rs[|rs| - 1];
    assert rs == front + [r];
    if i < |front| {
      NewAppend(t, front, r, i);
      OpenedTakes(t, front, i);
      assert Persists(PutAll(t, front), PutAll(t, rs));
      TakenStays(PutAll(t, front), PutAll(t, rs), front[i].id);
    } else {
      NotOpened(t, front, r.key);
      var u := PutAll(t, front);
      assert PutAll(t, rs) == Put(u, r);
      if !IdTaken(u, r.id) {
        assert r.key in Put(u, r) && Put(u, r)[r.key].id == r.id;
      }
    }
  }

  lemma {:induction false} NotOpened<K, F, D>(t: Table<K, F, D>, rs: seq<Record<K, F, D>>, k: K)
    requires k !in t && forall j :: 0 <= j < |rs| ==> rs[j].key != k
    ensures k !in PutAll(t, rs)
  {
    if rs != [] {
      NotOpened(t, rs[..|rs| - 1], k);
    }
  }

  /** One more record keeps the new ids free iff it opens no row or opens one under a free id. */
  lemma FreeAppend<K, F, D>(t: Table<K, F, D>, front: seq<Record<K, F, D>>, r: Record<K, F, D>)
    ensures var rs := front + [r];
      NewIdsFree(t, rs) <==>
      NewIdsFree(t, front)
      && (IsNew(t, rs, |front|) ==> !IdTaken(t, r.id) && forall i :: IsNew(t, front, i) ==> front[i].id != r.id)
  {
    var rs := front + [r];
    forall i | 0 <= i < |front| ensures rs[i] == front[i] && (IsNew(t, rs, i) <==> IsNew(t, front, i)) {
      NewAppend(t, front, r, i);
    }
    assert rs[|front|] == r;
    assert forall i :: IsNew(t, front, i) ==> 0 <= i < |front|;
    assert forall i :: IsNew(t, rs, i) ==> 0 <= i <= |front|;
    hide IsNew, IdTaken;
  }

  lemma RefusedIff<K, F, D>(t: Table<K, F, D>, front: seq<Record<K, F, D>>, r: Record<K, F, D>)
    requires AllOpened(t, front, PutAll(t, front))
    ensures !Refused(PutAll(t, front), r)
      <==> (IsNew(t, front + [r], |front|) ==>
              !IdTaken(t, r.id) && forall i :: IsNew(t, front, i) ==> front[i].id != r.id)
  {
    NewAppend(t, front, r, 0);
    TakenIds(t, front, r.id);
    forall i | IsNew(t, front, i) ensures IdTaken(PutAll(t, front), front[i].id) {
      OpenedTakes(t, front, i);
    }
    if IdTaken(t, r.id) {
      RowsPersist(t, front);
      TakenStays(t, PutAll(t, front), r.id);
    }
    hide IsNew, IdTaken, PutAll, KeysOf;
  }

  /**
   * Nothing is refused iff the records that open a row have ids of their own, none taken before; then all keys have
   * rows.
   */
  lemma {:induction false} NothingRefusedIff<K, F, D>(t: Table<K, F, D>, rs: seq<Record<K, F, D>>)
    ensures Stored(t, rs) == |rs| <==> NewIdsFree(t, rs)
    ensures Stored(t, rs) == |rs| ==> AllOpened(t, rs, PutAll(t, rs))
  {
    if rs == [] {
      assert KeysOf(rs) == {};
    } else {
      var front, r := rs[..|rs| - 1], rs[|rs| - 1];
      assert rs == front + [r];
      NothingRefusedIff(t, front);
      FreeAppend(t, front, r);
      hide NewIdsFree, AllOpened, Refused, Put, IsNew, IdTaken;
      if Stored(t, front) == |front| {
        RefusedIff(t, front, r);
        if !Refused(PutAll(t, front), r) {
          PutOpens(t, front, PutAll(t, front), r);
        }
      }
    }
  }

  /** When nothing is refused, every key ever seen has exactly one row, whatever repeats the records hold. */
  lemma KeysEverSeen<K, F, D>(t: Table<K, F, D>, rs: seq<Record<K, F, D>>)
    requires NewIdsFree(t, rs)
    ensures PutAll(t, rs).Keys == t.Keys + KeysOf(rs) && |PutAll(t, rs)| == |t.Keys + KeysOf(rs)|
  {
    hide PutAll, KeysOf, NewIdsFree, Stored, RowOpened;
    NothingRefusedIff(t, rs);
    assert |PutAll(t, rs)| == |PutAll(t, rs).Keys|;
  }

  /** Then a new row keeps the id and the frozen columns of the first record of its key. */
  lemma FirstWriteStays<K, F, D>(t: Table<K, F, D>, rs: seq<Record<K, F, D>>, i: nat)
    requires NewIdsFree(t, rs) && IsNew(t, rs, i)
    ensures var k := rs[i].key;
      k in PutAll(t, rs) && PutAll(t, rs)[k].id == rs[i].id && PutAll(t, rs)[k].frozen == rs[i].frozen
  {
    NothingRefusedIff(t, rs);
    var k := rs[i].key;
    assert rs[i] in rs;
    assert k in KeysOf(rs);
    assert RowOpened(t, rs, k, PutAll(t, rs)[k]);
    hide PutAll;
    var j :| IsNew(t, rs, j) && rs[j].key == k && rs[j].id == PutAll(t, rs)[k].id
        && rs[j].frozen == PutAll(t, rs)[k].frozen;
    assert i == j;
  }

  // ----- replay -----

  /** Equal up to stamps. */
  ghost predicate Same<K, F, D>(t: Table<K, F, D>, u: Table<K, F, D>) {
    t.Keys == u.Keys && forall k :: k in t ==>
      t[k].id == u[k].id && t[k].frozen == u[k].frozen && t[k].data == u[k].data
  }

  /** The same records collected again: new stamps, and a new candidate id only where the database draws ids. */
  ghost predicate Again<K, F, D>(rs: seq<Record<K, F, D>>, ss: seq<Record<K, F, D>>, kept: Table<K, F, D>) {
    && |rs| == |ss|
    && forall i :: 0 <= i < |rs| ==>
         ss[i].key == rs[i].key && ss[i].data == rs[i].data && (ss[i].id == rs[i].id || rs[i].key in kept)
  }

  /** A record whose key has no row once all are written was refused, and would be again. */
  lemma {:induction false} LostStaysLost<K, F, D>(t: Table<K, F, D>, rs: seq<Record<K, F, D>>, i: nat)
    requires i < |rs| && rs[i].key !in PutAll(t, rs)
    ensures IdTaken(PutAll(t, rs), rs[i].id)
  {
    var upto := rs[..i];
    assert rs == upto + rs[i..] && rs[i..] == [rs[i]] + rs[i + 1..];
    var u, v := PutAll(t, upto), PutAll(t, rs[..i + 1]);
    assert rs[..i + 1] == upto + [rs[i]] && rs == rs[..i + 1] + rs[i + 1..] && rs[..i + 1][..i] == upto;
    PutAllConcat(t, rs[..i + 1], rs[i + 1..]);
    RowsPersist(v, rs[i + 1..]);
    assert v == Put(u, rs[i]);
    assert IdTaken(v, rs[i].id);
    TakenStays(v, PutAll(t, rs), rs[i].id);
  }

  /** Replaying the first `n` records changes no key, id or frozen column, and gives each replayed key its last data. */
  ghost predicate ReplayedTo<K, F, D>(u: Table<K, F, D>, ss: seq<Record<K, F, D>>, v: Table<K, F, D>) {
    && v.Keys == u.Keys && Persists(u, v)
    && forall k :: k in v && k !in KeysOf(ss) ==> v[k].data == u[k].data
  }

  lemma {:induction false} ReplayStep<K, F, D>(u: Table<K, F, D>, ss: seq<Record<K, F, D>>)
    requires forall i :: 0 <= i < |ss| ==> ss[i].key in u || IdTaken(u, ss[i].id)
    ensures ReplayedTo(u, ss, PutAll(u, ss))
  {
    if ss != [] {
      var front, r := ss[..|ss| - 1], ss[|ss| - 1];
      assert forall i :: 0 <= i < |front| ==> front[i] == ss[i];
      ReplayStep(u, front);
      var v := PutAll(u, front);
      assert ss == front + [r];
      assert KeysOf(ss) == KeysOf(front) + {r.key};
      if r.key !in u {
        TakenStays(u, v, r.id);
      }
    }
  }

  lemma {:induction false} SomeLast<K, F, D>(rs: seq<Record<K, F, D>>, k: K) returns (i: nat)
    requires k in KeysOf(rs)
    ensures IsLast(rs, i, k)
  {
    var front, r := rs[..|rs| - 1], rs[|rs| - 1];
    if r.key == k {
      i := |rs| - 1;
    } else {
      assert rs == front + [r];
      i := SomeLast(front, k);
    }
  }

  /**
   * Replaying a collection is idempotent up to stamps: with repeated keys inside it, with refused records,
   * and with fresh candidate ids for the rows it already made.
   */
  lemma ReplayIsIdempotent<K, F, D>(t: Table<K, F, D>, rs: seq<Record<K, F, D>>, ss: seq<Record<K, F, D>>)
    requires Again(rs, ss, PutAll(t, rs))
    ensures Same(PutAll(t, rs), PutAll(PutAll(t, rs), ss))
  {
    var u := PutAll(t, rs);
    forall i | 0 <= i < |ss| ensures ss[i].key in u || IdTaken(u, ss[i].id) {
      if rs[i].key !in u {
        LostStaysLost(t, rs, i);
      }
    }
    ReplayStep(u, ss);
    var v := PutAll(u, ss);
    forall k | k in u ensures v[k].data == u[k].data {
      if k in KeysOf(ss) {
        var i := SomeLast(ss, k);
        assert IsLast(rs, i, k);
        LastWriteWins(t, rs, i, k);
        LastWriteWins(u, ss, i, k);
      }
    }
  }
}
