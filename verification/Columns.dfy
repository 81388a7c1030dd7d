/** Which rows and columns collected records end up in, table by table. */
module Columns {
  import opened Prelude
  import opened Upserts
  import opened Collector

  /** Records share a row iff they agree in the natural key of their table. */
  lemma NaturalKeys(r: Result, p: Pass, i: nat, j: nat)
    ensures i < |r.identities| && j < |r.identities| ==>
      (IdentityRecords(r.identities, p)[i].key == IdentityRecords(r.identities, p)[j].key
       <==> r.identities[i].provider == r.identities[j].provider
            && r.identities[i].externalId == r.identities[j].externalId)
    ensures i < |r.credentials| && j < |r.credentials| ==>
      (CredentialRecords(r.credentials, p)[i].key == CredentialRecords(r.credentials, p)[j].key
       <==> r.credentials[i].credType == r.credentials[j].credType
            && r.credentials[i].externalId == r.credentials[j].externalId)
    ensures i < |r.secrets| && j < |r.secrets| ==>
      (SecretRecords(r.secrets, p)[i].key == SecretRecords(r.secrets, p)[j].key
       <==> r.secrets[i].store == r.secrets[j].store && r.secrets[i].externalId == r.secrets[j].externalId)
    ensures i < |r.roles| && j < |r.roles| ==>
      (RoleRecords(r.roles, p)[i].key == RoleRecords(r.roles, p)[j].key
       <==> r.roles[i].provider == r.roles[j].provider && r.roles[i].externalId == r.roles[j].externalId)
    ensures i < |r.workloads| && j < |r.workloads| ==>
      (WorkloadRecords(r.workloads, p)[i].key == WorkloadRecords(r.workloads, p)[j].key
       <==> r.workloads[i].kind == r.workloads[j].kind && r.workloads[i].externalId == r.workloads[j].externalId)
    ensures i < |r.repositories| && j < |r.repositories| ==>
      (RepositoryRecords(r.repositories, p)[i].key == RepositoryRecords(r.repositories, p)[j].key
       <==> r.repositories[i].provider == r.repositories[j].provider
            && r.repositories[i].externalId == r.repositories[j].externalId)
    ensures i < |r.exposures| && j < |r.exposures| ==>
      (ExposureRecords(r.exposures, p)[i].key == ExposureRecords(r.exposures, p)[j].key
       <==> r.exposures[i].fingerprint == r.exposures[j].fingerprint)
  {
  }

  /** Edges and bindings share a row iff all their ends agree, missing ends included, and their type or effect does. */
  lemma NaturalEnds(r: Result, p: Pass, i: nat, j: nat)
    ensures i < |r.trustEdges| && j < |r.trustEdges| ==>
      (TrustRecords(r.trustEdges, p)[i].key == TrustRecords(r.trustEdges, p)[j].key
       <==> var a, b := r.trustEdges[i].key, r.trustEdges[j].key;
            a.srcIdentity == b.srcIdentity && a.srcRole == b.srcRole && a.dstIdentity == b.dstIdentity
            && a.dstRole == b.dstRole && a.edgeType == b.edgeType)
    ensures i < |r.bindings| && j < |r.bindings| ==>
      (BindingRecords(r.bindings, p)[i].key == BindingRecords(r.bindings, p)[j].key
       <==> var a, b := r.bindings[i].key, r.bindings[j].key;
            a.identity == b.identity && a.role == b.role && a.urn == b.urn && a.effect == b.effect)
  {
  }

  // ----- refreshed columns: those of the last record of the key -----

  lemma IdentityRefreshed(t: Tables, r: Result, p: Pass, i: nat)
    requires i < |r.identities|
    requires forall j :: i < j < |r.identities| ==>
      r.identities[j].provider != r.identities[i].provider || r.identities[j].externalId != r.identities[i].externalId
    ensures var k, rows := (r.identities[i].provider, r.identities[i].externalId), Collect(t, r, p).identities;
      k in rows ==> rows[k].data == r.identities[i].data && rows[k].stamp == p.stamp
  {
    var k := (r.identities[i].provider, r.identities[i].externalId);
    if k in Collect(t, r, p).identities {
      LastWriteWins(t.identities, IdentityRecords(r.identities, p), i, k);
    }
  }

  lemma TrustEdgeRefreshed(t: Tables, r: Result, p: Pass, i: nat)
    requires i < |r.trustEdges| && forall j :: i < j < |r.trustEdges| ==> r.trustEdges[j].key != r.trustEdges[i].key
    ensures var e, rows := r.trustEdges[i], Collect(t, r, p).trustEdges;
      e.key in rows ==>
        && rows[e.key].data.condition == e.condition && rows[e.key].data.observed == e.observed
        && rows[e.key].data.source == p.source && rows[e.key].data.accountRef == e.accountRef
        && rows[e.key].stamp == p.stamp
  {
    if r.trustEdges[i].key in Collect(t, r, p).trustEdges {
      LastWriteWins(t.trustEdges, TrustRecords(r.trustEdges, p), i, r.trustEdges[i].key);
    }
  }

  lemma BindingRefreshed(t: Tables, r: Result, p: Pass, i: nat)
    requires i < |r.bindings| && forall j :: i < j < |r.bindings| ==> r.bindings[j].key != r.bindings[i].key
    ensures var b, rows := r.bindings[i], Collect(t, r, p).bindings;
      b.key in rows ==>
        && rows[b.key].data.kind == b.kind && rows[b.key].data.criticality == b.criticality
        && rows[b.key].data.actions == b.actions && rows[b.key].data.source == p.source
        && rows[b.key].data.accountRef == b.accountRef && rows[b.key].stamp == p.stamp
  {
    if r.bindings[i].key in Collect(t, r, p).bindings {
      LastWriteWins(t.bindings, BindingRecords(r.bindings, p), i, r.bindings[i].key);
    }
  }

  /** The other tables refresh the columns of `data` as a whole. */
  lemma DataRefreshed(t: Tables, r: Result, p: Pass, i: nat)
    ensures i < |r.credentials| && IsLast(CredentialRecords(r.credentials, p), i, CredentialKey(r.credentials[i])) ==>
      var k, rows := CredentialKey(r.credentials[i]), Collect(t, r, p).credentials;
      k in rows ==> rows[k].data == r.credentials[i].data
    ensures i < |r.secrets| && IsLast(SecretRecords(r.secrets, p), i, (r.secrets[i].store, r.secrets[i].externalId)) ==>
      var k, rows := (r.secrets[i].store, r.secrets[i].externalId), Collect(t, r, p).secrets;
      k in rows ==> rows[k].data == r.secrets[i].data
    ensures i < |r.roles| && IsLast(RoleRecords(r.roles, p), i, (r.roles[i].provider, r.roles[i].externalId)) ==>
      var k, rows := (r.roles[i].provider, r.roles[i].externalId), Collect(t, r, p).roles;
      k in rows ==> rows[k].data == r.roles[i].data
    ensures i < |r.workloads| && IsLast(WorkloadRecords(r.workloads, p), i, WorkloadKey(r.workloads[i])) ==>
      var k, rows := WorkloadKey(r.workloads[i]), Collect(t, r, p).workloads;
      k in rows ==> rows[k].data == r.workloads[i].data
    ensures i < |r.repositories|
            && IsLast(RepositoryRecords(r.repositories, p), i, RepositoryKey(r.repositories[i])) ==>
      var k, rows := RepositoryKey(r.repositories[i]), Collect(t, r, p).repositories;
      k in rows ==> rows[k].data == r.repositories[i].data
  {
    hide PutAll, IsLast;
    LastData(t.credentials, CredentialRecords(r.credentials, p), i);
    LastData(t.secrets, SecretRecords(r.secrets, p), i);
    LastData(t.roles, RoleRecords(r.roles, p), i);
    LastData(t.workloads, WorkloadRecords(r.workloads, p), i);
    LastData(t.repositories, RepositoryRecords(r.repositories, p), i);
  }

  lemma LastData<K, F, D>(t: Table<K, F, D>, rs: seq<Record<K, F, D>>, i: nat)
    ensures i < |rs| && IsLast(rs, i, rs[i].key) && rs[i].key in PutAll(t, rs) ==>
      PutAll(t, rs)[rs[i].key].data == rs[i].data
  {
    if i < |rs| && IsLast(rs, i, rs[i].key) && rs[i].key in PutAll(t, rs) {
      LastWriteWins(t, rs, i, rs[i].key);
    }
  }

  function CredentialKey(c: Credential): (string, string) { (c.credType, c.externalId) }

  function WorkloadKey(w: Workload): (string, string) { (w.kind, w.externalId) }

  function RepositoryKey(x: Repository): (string, string) { (x.provider, x.externalId) }

  // ----- frozen columns: those of the first record of a new key -----

  lemma IdentityFrozenColumns(t: Tables, r: Result, p: Pass, i: nat)
    requires NewIdsFree(t.identities, IdentityRecords(r.identities, p))
    requires IsNew(t.identities, IdentityRecords(r.identities, p), i)
    ensures var x, rows := r.identities[i], Collect(t, r, p).identities;
      && (x.provider, x.externalId) in rows
      && var row := rows[(x.provider, x.externalId)];
      && row.id == (if x.id == NIL_UUID then p.named(x.kind, x.externalId) else x.id)
      && row.frozen.kind == x.kind && row.frozen.accountRef == x.accountRef && row.frozen.createdAt == x.createdAt
      && row.frozen.source == p.source
  {
    FirstWriteStays(t.identities, IdentityRecords(r.identities, p), i);
  }

  lemma CredentialFrozenColumns(t: Tables, r: Result, p: Pass, i: nat)
    requires NewIdsFree(t.credentials, CredentialRecords(r.credentials, p))
    requires IsNew(t.credentials, CredentialRecords(r.credentials, p), i)
    ensures var x, rows := r.credentials[i], Collect(t, r, p).credentials;
      && (x.credType, x.externalId) in rows
      && var row := rows[(x.credType, x.externalId)];
      && row.frozen.identity == x.identity && row.frozen.createdAt == x.createdAt
      && row.frozen.accountRef == x.accountRef && row.frozen.source == p.source
  {
    FirstWriteStays(t.credentials, CredentialRecords(r.credentials, p), i);
  }

  lemma SecretFrozenColumns(t: Tables, r: Result, p: Pass, i: nat)
    requires NewIdsFree(t.secrets, SecretRecords(r.secrets, p)) && IsNew(t.secrets, SecretRecords(r.secrets, p), i)
    ensures var x, rows := r.secrets[i], Collect(t, r, p).secrets;
      && (x.store, x.externalId) in rows
      && var row := rows[(x.store, x.externalId)];
      row.frozen.accountRef == x.accountRef && row.frozen.name == x.name && row.frozen.source == p.source
  {
    FirstWriteStays(t.secrets, SecretRecords(r.secrets, p), i);
  }

  lemma RoleFrozenColumns(t: Tables, r: Result, p: Pass, i: nat)
    requires NewIdsFree(t.roles, RoleRecords(r.roles, p)) && IsNew(t.roles, RoleRecords(r.roles, p), i)
    ensures var x, rows := r.roles[i], Collect(t, r, p).roles;
      && (x.provider, x.externalId) in rows
      && var row := rows[(x.provider, x.externalId)];
      && row.id == (if x.id == NIL_UUID then p.named("role", x.externalId) else x.id)
      && row.frozen.accountRef == x.accountRef && row.frozen.source == p.source
  {
    FirstWriteStays(t.roles, RoleRecords(r.roles, p), i);
  }

  lemma WorkloadFrozenColumns(t: Tables, r: Result, p: Pass, i: nat)
    requires NewIdsFree(t.workloads, WorkloadRecords(r.workloads, p))
    requires IsNew(t.workloads, WorkloadRecords(r.workloads, p), i)
    ensures var x, rows := r.workloads[i], Collect(t, r, p).workloads;
      && (x.kind, x.externalId) in rows
      && var row := rows[(x.kind, x.externalId)];
      row.frozen.accountRef == x.accountRef && row.frozen.source == p.source
  {
    FirstWriteStays(t.workloads, WorkloadRecords(r.workloads, p), i);
  }

  lemma RepositoryFrozenColumns(t: Tables, r: Result, p: Pass, i: nat)
    requires NewIdsFree(t.repositories, RepositoryRecords(r.repositories, p))
    requires IsNew(t.repositories, RepositoryRecords(r.repositories, p), i)
    ensures var x, rows := r.repositories[i], Collect(t, r, p).repositories;
      && (x.provider, x.externalId) in rows
      && var row := rows[(x.provider, x.externalId)];
      && row.id == (if x.id == NIL_UUID then p.named("repository", x.provider + ":" + x.externalId) else x.id)
      && row.frozen.org == x.org && row.frozen.name == x.name && row.frozen.source == p.source
  {
    FirstWriteStays(t.repositories, RepositoryRecords(r.repositories, p), i);
    var x := r.repositories[i];
    assert Joined(x.provider, x.externalId) == x.provider + ":" + x.externalId;
  }

  lemma ExposureFrozenColumns(t: Tables, r: Result, p: Pass, i: nat)
    requires NewIdsFree(t.exposures, ExposureRecords(r.exposures, p))
    requires IsNew(t.exposures, ExposureRecords(r.exposures, p), i)
    ensures var x, rows := r.exposures[i], Collect(t, r, p).exposures;
      && x.fingerprint in rows
      && var f := rows[x.fingerprint].frozen;
      && f.repository == x.repository && f.identity == x.identity && f.secret == x.secret && f.path == x.path
      && f.commitSHA == x.commitSHA && f.line == x.line && f.pattern == x.pattern && f.verified == x.verified
      && f.source == p.source && f.collectedAt == p.stamp
  {
    FirstWriteStays(t.exposures, ExposureRecords(r.exposures, p), i);
  }
}
