/** The collection harness of collector.go over the tables of store/misc.go and store/identity.go. */
module Collector {
  import opened Prelude
  import opened Upserts

  type Time = Option<int>

  // Each entity lists its key columns, then its frozen columns; `data` groups the columns a conflict refreshes.

  datatype IdentityData = IdentityData(name: string, arnOrEmail: string, state: string, owner: Option<Uuid>,
                                       lastSeen: Time, lastRotated: Time, isAIAgent: bool, aiMeta: string,
                                       attributes: string, rawHash: string)
  datatype Identity = Identity(id: Uuid, provider: string, externalId: string,
                               kind: string, accountRef: string, createdAt: Time, data: IdentityData)
  datatype IdentityFrozen = IdentityFrozen(kind: string, accountRef: string, createdAt: Time, source: string)

  datatype CredentialData = CredentialData(status: string, lastUsed: Time, region: string, service: string,
                                           expiresAt: Time)
  datatype Credential = Credential(credType: string, externalId: string, identity: Uuid, createdAt: Time,
                                   accountRef: string, data: CredentialData)
  datatype CredentialFrozen = CredentialFrozen(identity: Uuid, createdAt: Time, accountRef: string, source: string)

  datatype SecretData = SecretData(lastRotated: Time, rotationEnabled: bool, versionCount: int,
                                   materialFingerprint: string, referencedBy: int, lastAccessed: Time)
  datatype Secret = Secret(store: string, externalId: string, accountRef: string, name: string, data: SecretData)
  datatype SecretFrozen = SecretFrozen(accountRef: string, name: string, source: string)

  datatype RoleData = RoleData(name: string, policy: string, trust: string, level: string, assumable: bool,
                               permissions: int, wildActions: int, wildResources: int, owner: Option<Uuid>)
  datatype Role = Role(id: Uuid, provider: string, externalId: string, accountRef: string, data: RoleData)
  datatype RoleFrozen = RoleFrozen(accountRef: string, source: string)

  /** Half of the ends are null; null ends equal each other. */
  datatype TrustKey = TrustKey(srcIdentity: Option<Uuid>, srcRole: Option<Uuid>, dstIdentity: Option<Uuid>,
                               dstRole: Option<Uuid>, edgeType: string)
  datatype TrustData = TrustData(condition: string, observed: bool, source: string, accountRef: string)
  datatype TrustEdge = TrustEdge(key: TrustKey, condition: string, observed: bool, accountRef: string)

  datatype BindingKey = BindingKey(identity: Option<Uuid>, role: Option<Uuid>, urn: string, effect: string)
  datatype BindingData = BindingData(kind: string, criticality: Criticality, actions: seq<string>, source: string,
                                     accountRef: string)
  datatype Binding = Binding(key: BindingKey, kind: string, criticality: Criticality, actions: seq<string>,
                             accountRef: string)

  datatype WorkloadData = WorkloadData(name: string, environment: string, identity: Option<Uuid>, attributes: string)
  datatype Workload = Workload(kind: string, externalId: string, accountRef: string, data: WorkloadData)
  datatype WorkloadFrozen = WorkloadFrozen(accountRef: string, source: string)

  datatype RepositoryData = RepositoryData(visibility: string, defaultBranch: string)
  datatype Repository = Repository(id: Uuid, provider: string, externalId: string, org: string, name: string,
                                   data: RepositoryData)
  datatype RepositoryFrozen = RepositoryFrozen(org: string, name: string, source: string)

  /** A conflicting exposure is left alone: every column is frozen. */
  datatype ExposureFrozen = ExposureFrozen(repository: Option<Uuid>, identity: Option<Uuid>, secret: Option<Uuid>,
                                           path: string, commitSHA: string, line: int, pattern: string,
                                           verified: bool, source: string, collectedAt: int)
  datatype Exposure = Exposure(fingerprint: string, repository: Option<Uuid>, identity: Option<Uuid>,
                               secret: Option<Uuid>, path: string, commitSHA: string, line: int,
                               pattern: string, verified: bool)

  datatype Result = Result(identities: seq<Identity>, credentials: seq<Credential>, secrets: seq<Secret>,
                           roles: seq<Role>,
                           trustEdges: seq<TrustEdge>, bindings: seq<Binding>, workloads: seq<Workload>,
                           repositories: seq<Repository>, exposures: seq<Exposure>)

  datatype Tables = Tables(
    identities: Table<(string, string), IdentityFrozen, IdentityData>,
    credentials: Table<(string, string), CredentialFrozen, CredentialData>,
    secrets: Table<(string, string), SecretFrozen, SecretData>,
    roles: Table<(string, string), RoleFrozen, RoleData>,
    trustEdges: Table<TrustKey, (), TrustData>,
    bindings: Table<BindingKey, (), BindingData>,
    workloads: Table<(string, string), WorkloadFrozen, WorkloadData>,
    repositories: Table<(string, string), RepositoryFrozen, RepositoryData>,
    exposures: Table<string, ExposureFrozen, ()>)

  /** The name-based id of a kind and an external id. */
  type Namer = (string, string) -> Uuid

  /**
   * One run: who collects, how ids are named, which ids the database draws for record `i` of a table, and the stamp.
   */
  datatype Pass = Pass(source: string, named: Namer, drawn: nat -> Uuid, stamp: int)

  function IdentityRecords(xs: seq<Identity>, p: Pass): seq<Record<(string, string), IdentityFrozen, IdentityData>> {
    seq(|xs|, i requires 0 <= i < |xs| =>
      Record((xs[i].provider, xs[i].externalId),
             if xs[i].id == NIL_UUID then p.named(xs[i].kind, xs[i].externalId) else xs[i].id,
             IdentityFrozen(xs[i].kind, xs[i].accountRef, xs[i].createdAt, p.source), xs[i].data, p.stamp))
  }

  function CredentialRecords(xs: seq<Credential>, p: Pass)
    : seq<Record<(string, string), CredentialFrozen, CredentialData>>
  {
    seq(|xs|, i requires 0 <= i < |xs| =>
      Record((xs[i].credType, xs[i].externalId), p.drawn(i),
             CredentialFrozen(xs[i].identity, xs[i].createdAt, xs[i].accountRef, p.source), xs[i].data, p.stamp))
  }

  function SecretRecords(xs: seq<Secret>, p: Pass): seq<Record<(string, string), SecretFrozen, SecretData>> {
    seq(|xs|, i requires 0 <= i < |xs| =>
      Record((xs[i].store, xs[i].externalId), p.drawn(i), SecretFrozen(xs[i].accountRef, xs[i].name, p.source),
             xs[i].data, p.stamp))
  }

  function RoleRecords(xs: seq<Role>, p: Pass): seq<Record<(string, string), RoleFrozen, RoleData>> {
    seq(|xs|, i requires 0 <= i < |xs| =>
      Record((xs[i].provider, xs[i].externalId),
             if xs[i].id == NIL_UUID then p.named("role", xs[i].externalId) else xs[i].id,
             RoleFrozen(xs[i].accountRef, p.source), xs[i].data, p.stamp))
  }

  function TrustRecords(xs: seq<TrustEdge>, p: Pass): seq<Record<TrustKey, (), TrustData>> {
    seq(|xs|, i requires 0 <= i < |xs| =>
      Record(xs[i].key, p.drawn(i), (), TrustData(xs[i].condition, xs[i].observed, p.source, xs[i].accountRef),
             p.stamp))
  }

  function BindingRecords(xs: seq<Binding>, p: Pass): seq<Record<BindingKey, (), BindingData>> {
    seq(|xs|, i requires 0 <= i < |xs| =>
      Record(xs[i].key, p.drawn(i), (),
             BindingData(xs[i].kind, xs[i].criticality, xs[i].actions, p.source, xs[i].accountRef), p.stamp))
  }

  function WorkloadRecords(xs: seq<Workload>, p: Pass): seq<Record<(string, string), WorkloadFrozen, WorkloadData>> {
    seq(|xs|, i requires 0 <= i < |xs| =>
      Record((xs[i].kind, xs[i].externalId), p.drawn(i), WorkloadFrozen(xs[i].accountRef, p.source), xs[i].data,
             p.stamp))
  }

  function Joined(provider: string, externalId: string): string { provider + ":" + externalId }

  function RepositoryRecords(xs: seq<Repository>, p: Pass)
    : seq<Record<(string, string), RepositoryFrozen, RepositoryData>>
  {
    seq(|xs|, i requires 0 <= i < |xs| =>
      Record((xs[i].provider, xs[i].externalId),
             if xs[i].id == NIL_UUID then p.named("repository", Joined(xs[i].provider, xs[i].externalId)) else xs[i].id,
             RepositoryFrozen(xs[i].org, xs[i].name, p.source), xs[i].data, p.stamp))
  }

  function ExposureRecords(xs: seq<Exposure>, p: Pass): seq<Record<string, ExposureFrozen, ()>> {
    seq(|xs|, i requires 0 <= i < |xs| =>
      Record(xs[i].fingerprint, p.drawn(i),
             ExposureFrozen(xs[i].repository, xs[i].identity, xs[i].secret, xs[i].path, xs[i].commitSHA, xs[i].line,
                            xs[i].pattern, xs[i].verified, p.source, p.stamp), (), 0))
  }

  /** The tables after a pass has stored its result. */
  function Collect(t: Tables, r: Result, p: Pass): Tables {
    Tables(PutAll(t.identities, IdentityRecords(r.identities, p)),
           PutAll(t.credentials, CredentialRecords(r.credentials, p)),
           PutAll(t.secrets, SecretRecords(r.secrets, p)), PutAll(t.roles, RoleRecords(r.roles, p)),
           PutAll(t.trustEdges, TrustRecords(r.trustEdges, p)), PutAll(t.bindings, BindingRecords(r.bindings, p)),
           PutAll(t.workloads, WorkloadRecords(r.workloads, p)),
           PutAll(t.repositories, RepositoryRecords(r.repositories, p)),
           PutAll(t.exposures, ExposureRecords(r.exposures, p)))
  }

  /** How many records of the result are stored. */
  function Count(t: Tables, r: Result, p: Pass): nat {
    Stored(t.identities, IdentityRecords(r.identities, p)) + Stored(t.credentials, CredentialRecords(r.credentials, p))
    + Stored(t.secrets, SecretRecords(r.secrets, p)) + Stored(t.roles, RoleRecords(r.roles, p))
    + Stored(t.trustEdges, TrustRecords(r.trustEdges, p)) + Stored(t.bindings, BindingRecords(r.bindings, p))
    + Stored(t.workloads, WorkloadRecords(r.workloads, p))
    + Stored(t.repositories, RepositoryRecords(r.repositories, p))
    + Stored(t.exposures, ExposureRecords(r.exposures, p))
  }

  class Store {
    var tables: Tables

    /** Upserts every record of a result, table by table, and counts those stored. */
    method Run(r: Result, p: Pass) returns (upserted: nat)
      modifies this
      ensures tables == Collect(old(tables), r, p) && upserted == Count(old(tables), r, p)
    {
      hide IdentityRecords, CredentialRecords, SecretRecords, RoleRecords, TrustRecords, BindingRecords,
           WorkloadRecords, RepositoryRecords, ExposureRecords, PutAll, Stored;
      var n: nat;
      var identities, credentials := tables.identities, tables.credentials;
      var secrets, roles := tables.secrets, tables.roles;
      var trustEdges, bindings, workloads := tables.trustEdges, tables.bindings, tables.workloads;
      var repositories, exposures := tables.repositories, tables.exposures;
      identities, upserted := UpsertAll(identities, IdentityRecords(r.identities, p));
      credentials, n := UpsertAll(credentials, CredentialRecords(r.credentials, p));
      upserted := upserted + n;
      secrets, n := UpsertAll(secrets, SecretRecords(r.secrets, p));
      upserted := upserted + n;
      roles, n := UpsertAll(roles, RoleRecords(r.roles, p));
      upserted := upserted + n;
      trustEdges, n := UpsertAll(trustEdges, TrustRecords(r.trustEdges, p));
      upserted := upserted + n;
      bindings, n := UpsertAll(bindings, BindingRecords(r.bindings, p));
      upserted := upserted + n;
      workloads, n := UpsertAll(workloads, WorkloadRecords(r.workloads, p));
      upserted := upserted + n;
      repositories, n := UpsertAll(repositories, RepositoryRecords(r.repositories, p));
      upserted := upserted + n;
      exposures, n := UpsertAll(exposures, ExposureRecords(r.exposures, p));
      upserted := upserted + n;
      tables := Tables(identities, credentials, secrets, roles, trustEdges, bindings, workloads, repositories,
                       exposures);
    }
  }

  // ----- replaying a result -----

  /** Drawn ids are all different and new to the table. */
  ghost predicate DrawsFresh<K, F, D>(t: Table<K, F, D>, drawn: nat -> Uuid) {
    (forall i, j :: drawn(i) == drawn(j) ==> i == j) && forall k, i :: k in t ==> t[k].id != drawn(i)
  }

  ghost predicate AllDrawsFresh(t: Tables, p: Pass) {
    && DrawsFresh(t.credentials, p.drawn) && DrawsFresh(t.secrets, p.drawn) && DrawsFresh(t.trustEdges, p.drawn)
    && DrawsFresh(t.bindings, p.drawn) && DrawsFresh(t.workloads, p.drawn) && DrawsFresh(t.exposures, p.drawn)
  }

  ghost predicate SameTables(t: Tables, u: Tables) {
    && Same(t.identities, u.identities) && Same(t.credentials, u.credentials) && Same(t.secrets, u.secrets)
    && Same(t.roles, u.roles) && Same(t.trustEdges, u.trustEdges) && Same(t.bindings, u.bindings)
    && Same(t.workloads, u.workloads) && Same(t.repositories, u.repositories) && Same(t.exposures, u.exposures)
  }

  /** A table whose ids are drawn loses nothing, so its records can be replayed under other drawn ids. */
  lemma DrawnReplay<K, F, D>(t: Table<K, F, D>, rs: seq<Record<K, F, D>>, ss: seq<Record<K, F, D>>, drawn: nat -> Uuid)
    requires DrawsFresh(t, drawn) && |rs| == |ss|
    requires forall i :: 0 <= i < |rs| ==> rs[i].id == drawn(i) && ss[i].key == rs[i].key && ss[i].data == rs[i].data
    ensures Same(PutAll(t, rs), PutAll(PutAll(t, rs), ss))
  {
    hide PutAll;
    assert NewIdsFree(t, rs);
    KeysEverSeen(t, rs);
    forall i | 0 <= i < |rs| ensures rs[i].key in PutAll(t, rs) {
      assert rs[i] in rs;
      assert rs[i].key in KeysOf(rs);
    }
    ReplayIsIdempotent(t, rs, ss);
  }

  /**
   * Collecting the same result twice, under any two stamps and any drawn ids, leaves every table as the first
   * pass left it up to stamps: no row is added, lost, renamed or changed.
   */
  lemma CollectingTwiceIsOnce(t: Tables, r: Result, p: Pass, q: Pass)
    requires p.source == q.source && p.named == q.named && AllDrawsFresh(t, p)
    ensures SameTables(Collect(t, r, p), Collect(Collect(t, r, p), r, q))
  {
    hide PutAll, DrawsFresh, Same, Again;
    NamedReplays(t, r, p, q);
    DrawnReplay(t.credentials, CredentialRecords(r.credentials, p), CredentialRecords(r.credentials, q), p.drawn);
    DrawnReplay(t.secrets, SecretRecords(r.secrets, p), SecretRecords(r.secrets, q), p.drawn);
    DrawnReplay(t.trustEdges, TrustRecords(r.trustEdges, p), TrustRecords(r.trustEdges, q), p.drawn);
    DrawnReplay(t.bindings, BindingRecords(r.bindings, p), BindingRecords(r.bindings, q), p.drawn);
    DrawnReplay(t.workloads, WorkloadRecords(r.workloads, p), WorkloadRecords(r.workloads, q), p.drawn);
    DrawnReplay(t.exposures, ExposureRecords(r.exposures, p), ExposureRecords(r.exposures, q), p.drawn);
  }

  lemma NamedReplays(t: Tables, r: Result, p: Pass, q: Pass)
    requires p.source == q.source && p.named == q.named
    ensures var u, v := Collect(t, r, p), Collect(Collect(t, r, p), r, q);
            Same(u.identities, v.identities) && Same(u.roles, v.roles) && Same(u.repositories, v.repositories)
  {
    hide PutAll, Same;
    ReplayIsIdempotent(t.identities, IdentityRecords(r.identities, p), IdentityRecords(r.identities, q));
    ReplayIsIdempotent(t.roles, RoleRecords(r.roles, p), RoleRecords(r.roles, q));
    ReplayIsIdempotent(t.repositories, RepositoryRecords(r.repositories, p), RepositoryRecords(r.repositories, q));
  }

  /** Records under drawn ids are never refused, so all of them are counted. */
  lemma DrawnCounted(t: Tables, r: Result, p: Pass)
    requires AllDrawsFresh(t, p)
    ensures Count(t, r, p) == |r.credentials| + |r.secrets| + |r.trustEdges| + |r.bindings| + |r.workloads|
      + |r.exposures| + Stored(t.identities, IdentityRecords(r.identities, p))
      + Stored(t.roles, RoleRecords(r.roles, p)) + Stored(t.repositories, RepositoryRecords(r.repositories, p))
  {
    hide PutAll, Stored, DrawsFresh;
    DrawnAreStored(t.credentials, CredentialRecords(r.credentials, p), p.drawn);
    DrawnAreStored(t.secrets, SecretRecords(r.secrets, p), p.drawn);
    DrawnAreStored(t.trustEdges, TrustRecords(r.trustEdges, p), p.drawn);
    DrawnAreStored(t.bindings, BindingRecords(r.bindings, p), p.drawn);
    DrawnAreStored(t.workloads, WorkloadRecords(r.workloads, p), p.drawn);
    DrawnAreStored(t.exposures, ExposureRecords(r.exposures, p), p.drawn);
  }

  lemma DrawnAreStored<K, F, D>(t: Table<K, F, D>, rs: seq<Record<K, F, D>>, drawn: nat -> Uuid)
    requires DrawsFresh(t, drawn) && forall i :: 0 <= i < |rs| ==> rs[i].id == drawn(i)
    ensures Stored(t, rs) == |rs|
  {
    hide PutAll, Stored;
    assert NewIdsFree(t, rs);
    NothingRefusedIff(t, rs);
  }

  // ----- exactly when a named id is refused -----

  /** Names tell their two parts apart. */
  ghost predicate Injective(named: Namer) {
    forall a, b, c, d :: named(a, b) == named(c, d) ==> a == c && b == d
  }

  /** What a row is named after, given its key and its frozen columns. */
  type Label<!F> = ((string, string), F) -> (string, string)

  function NameOf(named: Namer, lbl: (string, string)): Uuid { named(lbl.0, lbl.1) }

  ghost predicate LabelledRows<F, D>(t: Table<(string, string), F, D>, named: Namer, lbl: Label<F>) {
    forall k :: k in t ==> t[k].id == NameOf(named, lbl(k, t[k].frozen))
  }

  ghost predicate LabelledRecords<F, D>(rs: seq<Record<(string, string), F, D>>, named: Namer, lbl: Label<F>) {
    forall i :: 0 <= i < |rs| ==> rs[i].id == NameOf(named, lbl(rs[i].key, rs[i].frozen))
  }

  /** The records that open a row have labels of their own, which no row has. */
  ghost predicate LabelsFree<F, D>(t: Table<(string, string), F, D>, rs: seq<Record<(string, string), F, D>>,
                                   lbl: Label<F>) {
    && (forall i, k :: IsNew(t, rs, i) && k in t ==> lbl(k, t[k].frozen) != lbl(rs[i].key, rs[i].frozen))
    && (forall i, j :: IsNew(t, rs, i) && IsNew(t, rs, j) ==>
          lbl(rs[i].key, rs[i].frozen) == lbl(rs[j].key, rs[j].frozen) ==> i == j)
  }

  /** Named ids are refused only for their labels, whatever the table already holds. */
  lemma NoneRefusedIff<F, D>(t: Table<(string, string), F, D>, rs: seq<Record<(string, string), F, D>>, named: Namer,
                             lbl: Label<F>)
    requires Injective(named) && LabelledRows(t, named, lbl) && LabelledRecords(rs, named, lbl)
    ensures Stored(t, rs) == |rs| <==> LabelsFree(t, rs, lbl)
  {
    NothingRefusedIff(t, rs);
    hide Stored, PutAll, AllOpened;
    forall i | IsNew(t, rs, i)
      ensures IdTaken(t, rs[i].id) <==> exists k :: k in t && lbl(k, t[k].frozen) == lbl(rs[i].key, rs[i].frozen)
    {
    }
    forall i, j | IsNew(t, rs, i) && IsNew(t, rs, j)
      ensures rs[i].id == rs[j].id <==> lbl(rs[i].key, rs[i].frozen) == lbl(rs[j].key, rs[j].frozen)
    {
    }
    hide IsNew, IdTaken, Injective, LabelledRows, LabelledRecords;
  }

  /** Storing keeps the rows named after their labels, so the condition can be asked of every later run. */
  lemma {:induction false} LabelsKept<F, D>(t: Table<(string, string), F, D>,
                                            rs: seq<Record<(string, string), F, D>>, named: Namer, lbl: Label<F>)
    requires LabelledRows(t, named, lbl) && LabelledRecords(rs, named, lbl)
    ensures LabelledRows(PutAll(t, rs), named, lbl)
  {
    if rs != [] {
      LabelsKept(t, rs[..|rs| - 1], named, lbl);
    }
  }

  function IdentityLabel(k: (string, string), f: IdentityFrozen): (string, string) { (f.kind, k.1) }

  function RoleLabel(k: (string, string), f: RoleFrozen): (string, string) { ("role", k.1) }

  function RepositoryLabel(k: (string, string), f: RepositoryFrozen): (string, string) {
    ("repository", Joined(k.0, k.1))
  }

  /** The identity opens a row: its key has none, and no identity before it has its key. */
  ghost predicate Opens(t: Table<(string, string), IdentityFrozen, IdentityData>, xs: seq<Identity>, i: int) {
    && 0 <= i < |xs| && (xs[i].provider, xs[i].externalId) !in t
    && forall j :: 0 <= j < i ==> xs[j].provider != xs[i].provider || xs[j].externalId != xs[i].externalId
  }

  /** No identity that opens a row has its kind and external id in common with a row or with another that opens one. */
  ghost predicate OneProvider(t: Table<(string, string), IdentityFrozen, IdentityData>, xs: seq<Identity>) {
    && (forall i, k :: Opens(t, xs, i) && k in t && k.1 == xs[i].externalId ==> t[k].frozen.kind != xs[i].kind)
    && (forall i, j :: Opens(t, xs, i) && Opens(t, xs, j) ==>
          xs[i].externalId == xs[j].externalId && xs[i].kind == xs[j].kind ==> i == j)
  }

  /** Every identity carries no id, or the one that the naming rule gives it. */
  ghost predicate ByRule(xs: seq<Identity>, named: Namer) {
    forall x :: x in xs ==> x.id == NIL_UUID || x.id == named(x.kind, x.externalId)
  }

  lemma RuleLabels(xs: seq<Identity>, p: Pass)
    requires ByRule(xs, p.named)
    ensures LabelledRecords(IdentityRecords(xs, p), p.named, IdentityLabel)
  {
  }

  lemma OpensIsNew(t: Table<(string, string), IdentityFrozen, IdentityData>, xs: seq<Identity>, p: Pass, i: int)
    ensures IsNew(t, IdentityRecords(xs, p), i) <==> Opens(t, xs, i)
  {
    assert forall j :: 0 <= j < |xs| ==> IdentityRecords(xs, p)[j].key == (xs[j].provider, xs[j].externalId);
    hide IdentityRecords;
  }

  /**
   * The name of an identity leaves its provider out. So in any run, into any table that earlier runs have made, every
   * identity is stored iff no two providers bring the same kind and external id.
   */
  lemma NoIdentityRefusedIff(t: Table<(string, string), IdentityFrozen, IdentityData>, xs: seq<Identity>, p: Pass)
    requires Injective(p.named) && LabelledRows(t, p.named, IdentityLabel) && ByRule(xs, p.named)
    ensures Stored(t, IdentityRecords(xs, p)) == |xs| <==> OneProvider(t, xs)
    ensures LabelledRows(PutAll(t, IdentityRecords(xs, p)), p.named, IdentityLabel)
  {
    var rs := IdentityRecords(xs, p);
    RuleLabels(xs, p);
    LabelsKept(t, rs, p.named, IdentityLabel);
    NoneRefusedIff(t, rs, p.named, IdentityLabel);
    forall i ensures IsNew(t, rs, i) <==> Opens(t, xs, i) {
      OpensIsNew(t, xs, p, i);
    }
    assert forall i :: 0 <= i < |xs| ==>
      rs[i].key == (xs[i].provider, xs[i].externalId) && rs[i].frozen.kind == xs[i].kind;
    assert forall i :: Opens(t, xs, i) ==> 0 <= i < |xs|;
    hide IdentityRecords, Opens, IsNew, Stored, PutAll, LabelledRows, LabelledRecords, Injective, ByRule;
  }

  /** A later run of a second provider: its identity is refused and the table stays as it was. */
  lemma SecondProviderRefused(t: Table<(string, string), IdentityFrozen, IdentityData>, b: Identity,
                              k: (string, string), p: Pass)
    requires LabelledRows(t, p.named, IdentityLabel) && ByRule([b], p.named)
    requires k in t && k.1 == b.externalId && t[k].frozen.kind == b.kind && (b.provider, b.externalId) !in t
    ensures PutAll(t, IdentityRecords([b], p)) == t && Stored(t, IdentityRecords([b], p)) == 0
  {
    var rs := IdentityRecords([b], p);
    assert b in [b] && rs[..0] == [];
    assert t[k].id == p.named(b.kind, b.externalId) == rs[0].id;
    assert Refused(t, rs[0]);
  }

  /** Roles are named after their external id alone: the provider and everything else is left out. */
  lemma NoRoleRefusedIff(t: Table<(string, string), RoleFrozen, RoleData>, xs: seq<Role>, p: Pass)
    requires Injective(p.named) && LabelledRows(t, p.named, RoleLabel)
    requires forall x :: x in xs ==> x.id == NIL_UUID || x.id == p.named("role", x.externalId)
    ensures var rs := RoleRecords(xs, p);
      Stored(t, rs) == |xs| <==>
      && (forall i, k :: IsNew(t, rs, i) && k in t ==> k.1 != xs[i].externalId)
      && (forall i, j :: IsNew(t, rs, i) && IsNew(t, rs, j) && xs[i].externalId == xs[j].externalId ==> i == j)
  {
    var rs := RoleRecords(xs, p);
    NoneRefusedIff(t, rs, p.named, RoleLabel);
    hide Stored, Injective, LabelledRows;
  }

  /**
   * Repositories are named after provider and external id joined by a colon; "a" with "b:c" joins as "a:b" with "c"
   * does.
   */
  lemma NoRepositoryRefusedIff(t: Table<(string, string), RepositoryFrozen, RepositoryData>, xs: seq<Repository>,
                               p: Pass)
    requires Injective(p.named) && LabelledRows(t, p.named, RepositoryLabel)
    requires forall x :: x in xs ==> x.id == NIL_UUID || x.id == p.named("repository", Joined(x.provider, x.externalId))
    ensures var rs := RepositoryRecords(xs, p);
      Stored(t, rs) == |xs| <==>
      && (forall i, k :: IsNew(t, rs, i) && k in t ==> Joined(k.0, k.1) != Joined(xs[i].provider, xs[i].externalId))
      && (forall i, j :: IsNew(t, rs, i) && IsNew(t, rs, j) ==>
            Joined(xs[i].provider, xs[i].externalId) == Joined(xs[j].provider, xs[j].externalId) ==> i == j)
  {
    var rs := RepositoryRecords(xs, p);
    NoneRefusedIff(t, rs, p.named, RepositoryLabel);
    hide Stored, Injective, LabelledRows;
  }
}
