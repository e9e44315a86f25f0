/** The store itself: one object, one method per transaction. A transaction works
    on a private copy `tx` of the rows it touches, and returning early is the
    rollback; the method commits by assigning `db`. The object logs its calls and
    its tables are where that run leads, so what is proved of runs holds after
    every sequence of calls (`Valid`, `Promises`). */
module PostgresFleet {
  import opened Results
  import opened FleetTables
  import opened ArtifactStore
  import opened VmStore
  import opened VolumeStore
  import opened AdmissionStore
  import opened ReplicationStore
  import opened LeaderStore
  import opened FleetRuns
  import opened FleetGraph
  import opened FleetOwnership
  import opened FleetVolumes
  import opened FleetAdmission
  import opened FleetCascades
  import opened FleetReplication
  import opened FleetGraphRuns
  import opened FleetReferences
  import opened FleetOutcomes
  import opened FleetLeases
  import Quota = FleetQuota
  import GcSafety = FleetGcSafety

  /** What every transaction keeps. */
  ghost predicate Sound(t: Tables) {
    && GraphInv(t.graph) && ReplicasAnchored(t.graph) && LeasesAnchored(t.graph) && Hosted(t)
    && StorageInv(t.storage) && SoundRows(t) && CountedOnce(t) && SoundForks(t.admission)
  }

  lemma EmptyIsSound()
    ensures Sound(EMPTY)
  {
    assert RankedBy(EMPTY.graph, map[]);
  }

  lemma StepKeepsSound(p: Policy, t: Tables, e: Event)
    requires Sound(t)
    ensures Sound(Apply(p, t, e))
  {
    GcSafety.StepKeepsInv(p, t, e);
    StepStaysAnchored(p, t, e);
    StepAnchorsLeases(p, t, e);
    StepKeepsHosted(p, t, e);
    FleetVolumes.StepKeepsInv(p, t, e);
    StepIsEpoch(p, t, e, 0);
    StepCountsOnce(p, t, e);
    StepIsForkEpoch(p, t, e);
  }

  /** In every state a run reaches all of them hold together. */
  lemma {:induction false} RunKeepsSound(p: Policy, t: Tables, run: seq<Event>)
    requires Sound(t)
    ensures Sound(Replay(p, t, run))
    decreases |run|
  {
    if run != [] {
      StepKeepsSound(p, t, run[0]);
      RunKeepsSound(p, Apply(p, t, run[0]), run[1..]);
    }
  }

  /** One more transaction on a store that a run of transactions has led to. */
  lemma Recorded(p: Policy, log: seq<Event>, t: Tables, e: Event)
    requires t == Replay(p, EMPTY, log) && Sound(t)
    ensures Apply(p, t, e) == Replay(p, EMPTY, log + [e]) && Sound(Apply(p, t, e))
  {
    ReplayAppend(p, EMPTY, log, e);
    StepKeepsSound(p, t, e);
  }

  /** What a caller sees of a transaction. */
  function Answer<S, T>(tx: Tx<S, T>): Result<T, FleetError> {
    if tx.Success? then Success(tx.value.1) else Failure(tx.error)
  }

  function Max(a: nat, b: nat): nat {
    if a >= b then a else b
  }

  /** Not one of the errors that only an inconsistent database could cause. */
  predicate NeverObstructed<T>(r: Result<T, FleetError>) {
    r.Failure? ==> r.error != MissingReference && r.error != RestrictViolation
  }

  /** Every volume without many-writer capability has readers only, or one writer. */
  ghost predicate FencedVolumes(s: Storage) {
    forall v | v in s.volumes && !s.volumes[v].spec.capabilities.readWriteMany :: ReadersOrOneWriter(s, v)
  }

  lemma SoundIsFenced(t: Tables)
    requires Sound(t)
    ensures FencedVolumes(t.storage)
  {
    forall v | v in t.storage.volumes && !t.storage.volumes[v].spec.capabilities.readWriteMany ensures ReadersOrOneWriter(t.storage, v) {
      FenceMeansReadersOrOneWriter(t.storage, v);
    }
  }

  lemma ReserveNeverExceeds(vms: map<Uuid, VmRow>, q: Admission, now: Time, owner: OwnerKey, id: Uuid, maxVms: nat, expiresAt: Time)
    ensures var tx := AdmissionStore.ReserveVmQuota(vms, q, now, owner, id, maxVms, expiresAt);
      tx.Success? ==> Usage(vms, tx.value.0.reservations, owner, now) <= Limit(maxVms)
  {
    if AdmissionStore.ReserveVmQuota(vms, q, now, owner, id, maxVms, expiresAt).Success? {
      ReservedWithinLimit(vms, q, now, owner, id, maxVms, expiresAt);
    }
  }

  lemma SlotIsTaken(vms: map<Uuid, VmRow>, q: Admission, now: Time, owner: OwnerKey, id: Uuid, maxVms: nat, expiresAt: Time)
    ensures var tx := AdmissionStore.ReserveVmQuota(vms, q, now, owner, id, maxVms, expiresAt);
      tx.Success? ==>
        && id in tx.value.0.reservations && tx.value.0.reservations[id] == Reservation(owner, expiresAt)
        && Usage(vms, tx.value.0.reservations, owner, now) == Usage(vms, q.reservations, owner, now) + One(expiresAt > now)
  {
    Quota.ReserveOutcome(vms, q, now, owner, id, maxVms, expiresAt);
    if AdmissionStore.ReserveVmQuota(vms, q, now, owner, id, maxVms, expiresAt).Success? {
      Quota.ReservationCountsOnce(vms, q, now, owner, id, maxVms, expiresAt, owner, now);
    }
  }

  lemma GrantedChildIsHeld(vms: map<Uuid, VmRow>, q: Admission, now: Time, f: ForkRequest, maxVms: nat, expiresAt: Time)
    ensures var tx := AdmissionStore.ClaimFork(vms, q, now, f, maxVms, expiresAt);
      Granted(tx) ==> f.child in vms
                      || (f.child in tx.value.0.reservations && tx.value.0.reservations[f.child] == Reservation(f.ownerKey, expiresAt))
  {
    if Granted(AdmissionStore.ClaimFork(vms, q, now, f, maxVms, expiresAt)) {
      Quota.GrantedChildHasASlot(vms, q, now, f, maxVms, expiresAt);
    }
  }

  lemma BoundAsRequested(vms: map<Uuid, VmRow>, s: Storage, requested: seq<AttachmentRecord>)
    ensures var tx := VolumeStore.BindVmVolumes(vms, s, requested); tx.Success? ==>
      forall a | a in requested :: KeyOf(a) in tx.value.0.attachments && tx.value.0.attachments[KeyOf(a)] == RowOf(a)
  {
    if VolumeStore.BindVmVolumes(vms, s, requested).Success? && requested != [] {
      SortKeepsElements(requested);
      SameElements(SortByVolume(requested), requested);
      BindAllEffect(s, SortByVolume(requested), |requested|);
    }
  }

  class PostgresFleet {
    const policy: Policy
    var db: Tables

    /** The transactions so far, rolled back ones included. */
    ghost var log: seq<Event>

    /** The tables are where that run leads, and sound. */
    ghost predicate Valid()
      reads this
    {
      db == Replay(policy, EMPTY, log) && Sound(db)
    }

    /** The call was this one transaction. */
    twostate predicate Did(e: Event)
      reads this
    {
      log == old(log) + [e] && db == Apply(policy, old(db), e)
    }

    constructor (policy: Policy)
      ensures Valid() && db == EMPTY && log == [] && this.policy == policy
    {
      this.policy := policy;
      db, log := EMPTY, [];
      EmptyIsSound();
    }

    /** So the store keeps, after any calls, what every run keeps: counts are exact,
        nothing is obstructed, the fence holds and no VM is counted twice. */
    lemma Promises(op: Op)
      requires Valid()
      ensures GraphInv(db.graph) && ReplicasAnchored(db.graph) && FencedVolumes(db.storage) && CountedOnce(db)
      ensures !GcSafety.Obstructed(policy, db, op)
    {
      SoundIsFenced(db);
      GcSafety.ConsistentIsUnobstructed(policy, db, op);
    }

    // Artifacts

    static method FirstState(policy: Policy, hosts: map<HostId, Host>, now: Time, art: ArtifactRecord) returns (state: ReplicationState)
      ensures state == InitialReplication(policy, hosts, now, art)
    {
      if art.status == Available && policy.minReplicas == 1 && policy.minDomains == 1 && Fresh(hosts, art.spec.hostId, Cutoff(now)) {
        state := Ready;
      } else if art.status == Available {
        state := Degraded;
      } else {
        state := Pending;
      }
    }

    /** The artifact row, then the row of its first copy. */
    static method StoreArtifactTx(policy: Policy, hosts: map<HostId, Host>, g: Graph, now: Time, art: ArtifactRecord) returns (r: Result<Graph, FleetError>)
      ensures r == StoreArtifact(policy, hosts, g, now, art)
    {
      var tx, spec := g, art.spec;
      var state := FirstState(policy, hosts, now, art);
      if !FitsBigint(spec) { return Failure(Config); }
      if !ChecksHold(spec) || art.id in tx.artifacts || ArtifactLocatorTaken(tx, spec.locator) { return Failure(Conflict); }
      if ReplicaLocatorTaken(tx, spec.locator) { return Failure(Database); }
      tx := tx.(artifacts := tx.artifacts[art.id := Artifact(spec, art.status, state, 0)]);
      tx := tx.(replicas := tx.replicas[ReplicaKey(art.id, spec.hostId) := PrimaryReplica(art)]);
      r := Success(tx);
    }

    static method InsertArtifactTx(policy: Policy, hosts: map<HostId, Host>, g: Graph, now: Time, art: ArtifactRecord) returns (r: Tx<Graph, ()>)
      ensures r == ArtifactStore.InsertArtifact(policy, hosts, g, now, art)
    {
      var tx, spec := g, art.spec;
      if art.refCount != 0 { return Failure(Conflict); }
      if Owned(tx, art.id, spec.ownerKey) {
        return if tx.artifacts[art.id].spec == spec then Success((tx, ())) else Failure(Conflict);
      }
      if spec.parent.Some? {
        tx :- AcquireRef(tx, spec.ownerKey, spec.parent.value, true);
      }
      tx :- StoreArtifactTx(policy, hosts, tx, now, art);
      r := Success((tx, ()));
    }

    method InsertArtifact(now: Time, art: ArtifactRecord) returns (r: Result<(), FleetError>)
      requires Valid()
      modifies this
      ensures Valid() && Did(Event(now, OnArtifacts(OpInsertArtifact(art))))
      ensures r == Answer(ArtifactStore.InsertArtifact(policy, old(db).hosts, old(db).graph, now, art))
      ensures r.Success? ==> art.id in db.graph.artifacts && db.graph.artifacts[art.id].spec == art.spec
      ensures OnlyRightlyTaken(old(db).graph, db.graph)
    {
      StepTakesRightly(policy, db, Event(now, OnArtifacts(OpInsertArtifact(art))));
      Recorded(policy, log, db, Event(now, OnArtifacts(OpInsertArtifact(art))));
      log := log + [Event(now, OnArtifacts(OpInsertArtifact(art)))];
      var tx := InsertArtifactTx(policy, db.hosts, db.graph, now, art);
      if tx.Failure? { return Failure(tx.error); }
      db := db.(graph := tx.value.0);
      r := Success(tx.value.1);
    }

    static method DeleteArtifactIfUnreferencedTx(g: Graph, owner: OwnerKey, a: Uuid) returns (r: Tx<Graph, Artifact>)
      ensures r == ArtifactStore.DeleteArtifactIfUnreferenced(g, owner, a)
    {
      var tx := g;
      if !Owned(tx, a, owner) { return Failure(NotFound); }
      var artifact := tx.artifacts[a];
      if artifact.refCount != 0 { return Failure(Conflict); }
      tx :- DeleteArtifactRow(tx, a);
      if artifact.spec.parent.Some? {
        tx :- ReleaseRef(tx, owner, artifact.spec.parent.value);
      }
      r := Success((tx, artifact));
    }

    method DeleteArtifactIfUnreferenced(owner: OwnerKey, a: Uuid, now: Time) returns (r: Result<Artifact, FleetError>)
      requires Valid()
      modifies this
      ensures Valid() && Did(Event(now, OnArtifacts(OpDeleteArtifact(owner, a))))
      ensures r == Answer(ArtifactStore.DeleteArtifactIfUnreferenced(old(db).graph, owner, a))
      ensures NeverObstructed(r)
    {
      DeleteArtifactKeepsInv(db.graph, owner, a);
      Recorded(policy, log, db, Event(now, OnArtifacts(OpDeleteArtifact(owner, a))));
      log := log + [Event(now, OnArtifacts(OpDeleteArtifact(owner, a)))];
      var tx := DeleteArtifactIfUnreferencedTx(db.graph, owner, a);
      if tx.Failure? { return Failure(tx.error); }
      db := db.(graph := tx.value.0);
      r := Success(tx.value.1);
    }

    // Branches

    static method InsertBranchTx(vms: map<Uuid, VmRow>, g: Graph, id: Uuid, branch: Branch) returns (r: Tx<Graph, Branch>)
      ensures r == ArtifactStore.InsertBranch(vms, g, id, branch)
    {
      var tx, owner := g, branch.ownerKey;
      if id in tx.branches && tx.branches[id].ownerKey == owner {
        var existing := tx.branches[id];
        return if existing.(revision := branch.revision) == branch then Success((tx, existing)) else Failure(Conflict);
      }
      if branch.sourceBranch.Some? {
        var _ :- FindBranch(tx, owner, branch.sourceBranch.value);
      }
      if branch.sourceVm.Some? && !(branch.sourceVm.value in vms && vms[branch.sourceVm.value].record.ownerKey == Some(owner)) {
        return Failure(NotFound);
      }
      tx :- AcquireRef(tx, owner, branch.head, true);
      if branch.revision > I64_MAX { return Failure(Config); }
      if branch.revision == 0 || id in tx.branches
         || (exists b | b in tx.branches :: tx.branches[b].ownerKey == owner && tx.branches[b].name == branch.name) {
        return Failure(Conflict);
      }
      tx := tx.(branches := tx.branches[id := branch]);
      r := Success((tx, branch));
    }

    method InsertBranch(id: Uuid, branch: Branch, now: Time) returns (r: Result<Branch, FleetError>)
      requires Valid()
      modifies this
      ensures Valid() && Did(Event(now, OnArtifacts(OpInsertBranch(id, branch))))
      ensures r == Answer(ArtifactStore.InsertBranch(old(db).vms, old(db).graph, id, branch))
      ensures r.Success? ==> id in db.graph.branches && db.graph.branches[id] == r.value
      ensures OnlyRightlyTaken(old(db).graph, db.graph)
    {
      StepTakesRightly(policy, db, Event(now, OnArtifacts(OpInsertBranch(id, branch))));
      Recorded(policy, log, db, Event(now, OnArtifacts(OpInsertBranch(id, branch))));
      log := log + [Event(now, OnArtifacts(OpInsertBranch(id, branch)))];
      var tx := InsertBranchTx(db.vms, db.graph, id, branch);
      if tx.Failure? { return Failure(tx.error); }
      db := db.(graph := tx.value.0);
      r := Success(tx.value.1);
    }

    static method UpdateBranchHeadTx(g: Graph, owner: OwnerKey, id: Uuid, expected: nat, newHead: Uuid) returns (r: Tx<Graph, Branch>)
      ensures r == ArtifactStore.UpdateBranchHead(g, owner, id, expected, newHead)
    {
      var tx := g;
      var current :- FindBranch(tx, owner, id);
      if current.revision != expected { return Failure(Conflict); }
      if current.head != newHead {
        tx :- AcquireRef(tx, owner, newHead, true);
      }
      if expected + 1 > I64_MAX { return Failure(Config); }
      var branch := current.(head := newHead, revision := expected + 1);
      tx := tx.(branches := tx.branches[id := branch]);
      if current.head != newHead {
        tx :- ReleaseRef(tx, owner, current.head);
      }
      r := Success((tx, branch));
    }

    method UpdateBranchHead(owner: OwnerKey, id: Uuid, expected: nat, newHead: Uuid, now: Time) returns (r: Result<Branch, FleetError>)
      requires Valid()
      modifies this
      ensures Valid() && Did(Event(now, OnArtifacts(OpUpdateBranchHead(owner, id, expected, newHead))))
      ensures r == Answer(ArtifactStore.UpdateBranchHead(old(db).graph, owner, id, expected, newHead))
      ensures NeverObstructed(r)
      ensures OnlyRightlyTaken(old(db).graph, db.graph)
    {
      StepTakesRightly(policy, db, Event(now, OnArtifacts(OpUpdateBranchHead(owner, id, expected, newHead))));
      UpdateBranchHeadKeepsInv(db.graph, owner, id, expected, newHead);
      Recorded(policy, log, db, Event(now, OnArtifacts(OpUpdateBranchHead(owner, id, expected, newHead))));
      log := log + [Event(now, OnArtifacts(OpUpdateBranchHead(owner, id, expected, newHead)))];
      var tx := UpdateBranchHeadTx(db.graph, owner, id, expected, newHead);
      if tx.Failure? { return Failure(tx.error); }
      db := db.(graph := tx.value.0);
      r := Success(tx.value.1);
    }

    static method DeleteBranchTx(g: Graph, owner: OwnerKey, id: Uuid) returns (r: Tx<Graph, Branch>)
      ensures r == ArtifactStore.DeleteBranch(g, owner, id)
    {
      var branch :- FindBranch(g, owner, id);
      var tx := DropBranch(g, id);
      tx :- ReleaseRef(tx, owner, branch.head);
      tx :- DeleteUnreferencedArtifactChain(tx, owner, branch.head);
      r := Success((tx, branch));
    }

    method DeleteBranch(owner: OwnerKey, id: Uuid, now: Time) returns (r: Result<Branch, FleetError>)
      requires Valid()
      modifies this
      ensures Valid() && Did(Event(now, OnArtifacts(OpDeleteBranch(owner, id))))
      ensures r == Answer(ArtifactStore.DeleteBranch(old(db).graph, owner, id))
      ensures NeverObstructed(r) && NoNewZero(old(db).graph, db.graph)
      ensures r.Success? ==> BranchDropped(old(db).graph, db.graph, id)
    {
      DeleteBranchOutcome(db.graph, owner, id);
      DeleteBranchKeepsInv(db.graph, owner, id);
      Recorded(policy, log, db, Event(now, OnArtifacts(OpDeleteBranch(owner, id))));
      log := log + [Event(now, OnArtifacts(OpDeleteBranch(owner, id)))];
      var tx := DeleteBranchTx(db.graph, owner, id);
      if tx.Failure? { return Failure(tx.error); }
      db := db.(graph := tx.value.0);
      r := Success(tx.value.1);
    }

    // Hibernations and VM references

    static method UpsertHibernationTx(vms: map<Uuid, VmRow>, g: Graph, rec: HibernationRecord) returns (r: Tx<Graph, ()>)
      ensures r == ArtifactStore.UpsertHibernation(vms, g, rec)
    {
      if rec.policyVm != rec.vm || rec.policyOwner != rec.ownerKey || rec.policyRevision == 0 { return Failure(Conflict); }
      var tx, previous := g, None;
      if rec.vm in tx.hibernations && tx.hibernations[rec.vm].ownerKey == rec.ownerKey {
        previous := Some(tx.hibernations[rec.vm].artifact);
      }
      if previous != Some(rec.artifact) {
        if !(rec.artifact in tx.artifacts && tx.artifacts[rec.artifact].spec.sourceVm == Some(rec.vm)) { return Failure(NotFound); }
        tx :- AcquireRef(tx, rec.ownerKey, rec.artifact, true);
      }
      if rec.policyRevision > I64_MAX { return Failure(Config); }
      if rec.vm !in vms { return Failure(Conflict); }
      if rec.vm in tx.hibernations && tx.hibernations[rec.vm].ownerKey != rec.ownerKey { return Failure(Conflict); }
      tx := tx.(hibernations := tx.hibernations[rec.vm := Hibernation(rec.ownerKey, rec.artifact, rec.policyRevision)]);
      if previous.Some? && previous.value != rec.artifact {
        tx :- ReleaseRef(tx, rec.ownerKey, previous.value);
      }
      r := Success((tx, ()));
    }

    method UpsertHibernation(rec: HibernationRecord, now: Time) returns (r: Result<(), FleetError>)
      requires Valid()
      modifies this
      ensures Valid() && Did(Event(now, OnArtifacts(OpUpsertHibernation(rec))))
      ensures r == Answer(ArtifactStore.UpsertHibernation(old(db).vms, old(db).graph, rec))
      ensures NeverObstructed(r)
      ensures OnlyRightlyTaken(old(db).graph, db.graph)
    {
      StepTakesRightly(policy, db, Event(now, OnArtifacts(OpUpsertHibernation(rec))));
      UpsertHibernationKeepsInv(db.vms, db.graph, rec);
      Recorded(policy, log, db, Event(now, OnArtifacts(OpUpsertHibernation(rec))));
      log := log + [Event(now, OnArtifacts(OpUpsertHibernation(rec)))];
      var tx := UpsertHibernationTx(db.vms, db.graph, rec);
      if tx.Failure? { return Failure(tx.error); }
      db := db.(graph := tx.value.0);
      r := Success(tx.value.1);
    }

    static method DeleteHibernationTx(g: Graph, owner: OwnerKey, vm: Uuid) returns (r: Tx<Graph, ()>)
      ensures r == ArtifactStore.DeleteHibernation(g, owner, vm)
    {
      var tx := g;
      if vm !in tx.hibernations || tx.hibernations[vm].ownerKey != owner { return Failure(NotFound); }
      var artifact := tx.hibernations[vm].artifact;
      tx := tx.(hibernations := tx.hibernations - {vm});
      tx :- ReleaseRef(tx, owner, artifact);
      tx :- DeleteUnreferencedArtifactChain(tx, owner, artifact);
      r := Success((tx, ()));
    }

    method DeleteHibernation(owner: OwnerKey, vm: Uuid, now: Time) returns (r: Result<(), FleetError>)
      requires Valid()
      modifies this
      ensures Valid() && Did(Event(now, OnArtifacts(OpDeleteHibernation(owner, vm))))
      ensures r == Answer(ArtifactStore.DeleteHibernation(old(db).graph, owner, vm))
      ensures NeverObstructed(r) && NoNewZero(old(db).graph, db.graph)
      ensures r.Success? ==> db.graph.hibernations == old(db).graph.hibernations - {vm}
    {
      DeleteHibernationOutcome(db.graph, owner, vm);
      DeleteHibernationKeepsInv(db.graph, owner, vm);
      Recorded(policy, log, db, Event(now, OnArtifacts(OpDeleteHibernation(owner, vm))));
      log := log + [Event(now, OnArtifacts(OpDeleteHibernation(owner, vm)))];
      var tx := DeleteHibernationTx(db.graph, owner, vm);
      if tx.Failure? { return Failure(tx.error); }
      db := db.(graph := tx.value.0);
      r := Success(tx.value.1);
    }

    method AcquireVmArtifactRef(vm: VmRecord, a: Uuid, now: Time) returns (r: Result<(), FleetError>)
      requires Valid()
      modifies this
      ensures Valid() && Did(Event(now, OnArtifacts(OpAcquireVmRef(vm, a))))
      ensures r == Answer(ArtifactStore.AcquireVmArtifactRef(old(db).graph, vm, a))
      ensures OnlyRightlyTaken(old(db).graph, db.graph)
    {
      StepTakesRightly(policy, db, Event(now, OnArtifacts(OpAcquireVmRef(vm, a))));
      Recorded(policy, log, db, Event(now, OnArtifacts(OpAcquireVmRef(vm, a))));
      log := log + [Event(now, OnArtifacts(OpAcquireVmRef(vm, a)))];
      if vm.ownerKey == None { return Failure(Conflict); }
      var tx, ref := db.graph, ArtifactRef(vm.ownerKey.value, a, Normalize(vm.createdAt));
      if vm.id in tx.artifactRefs {
        return if tx.artifactRefs[vm.id] == ref then Success(()) else Failure(Conflict);
      }
      tx :- AcquireRef(tx, ref.ownerKey, a, false);
      tx := tx.(artifactRefs := tx.artifactRefs[vm.id := ref]);
      db := db.(graph := tx);
      r := Success(());
    }

    /** Shared by `ReleaseVmArtifactRef` and `DeleteVm`. */
    static method ReleaseVmArtifactRefTx(g: Graph, vm: VmRecord) returns (r: Result<Graph, FleetError>)
      ensures r == ReleaseVmRef(g, vm)
    {
      var tx := g;
      if vm.id !in tx.artifactRefs { return Success(tx); }
      var ref := tx.artifactRefs[vm.id];
      if vm.ownerKey != Some(ref.ownerKey) || Normalize(vm.createdAt) != ref.vmCreatedAt { return Failure(Conflict); }
      tx := tx.(artifactRefs := tx.artifactRefs - {vm.id});
      tx :- ReleaseRef(tx, ref.ownerKey, ref.artifact);
      r := DeleteUnreferencedArtifactChain(tx, ref.ownerKey, ref.artifact);
    }

    method ReleaseVmArtifactRef(vm: VmRecord, now: Time) returns (r: Result<(), FleetError>)
      requires Valid()
      modifies this
      ensures Valid() && Did(Event(now, OnArtifacts(OpReleaseVmRef(vm))))
      ensures r == Answer(ArtifactStore.ReleaseVmArtifactRef(old(db).graph, vm))
      ensures NeverObstructed(r) && NoNewZero(old(db).graph, db.graph)
      ensures r.Success? ==> db.graph.artifactRefs == old(db).graph.artifactRefs - {vm.id}
    {
      ReleaseVmRefOutcome(db.graph, vm);
      ReleaseVmRefIsClean(db.graph, vm);
      Recorded(policy, log, db, Event(now, OnArtifacts(OpReleaseVmRef(vm))));
      log := log + [Event(now, OnArtifacts(OpReleaseVmRef(vm)))];
      var tx :- ReleaseVmArtifactRefTx(db.graph, vm);
      db := db.(graph := tx);
      r := Success(());
    }

    // VM ownership

    method UpsertVm(vm: VmRecord, now: Time) returns (r: Result<nat, FleetError>)
      requires Valid()
      modifies this
      ensures Valid() && Did(Event(now, OnVms(OpUpsertVm(vm))))
      ensures r == Answer(VmStore.UpsertVm(old(db), vm))
      ensures r.Success? ==> vm.id in db.vms && db.vms[vm.id].generation == r.value && db.vms[vm.id].record.revision >= vm.revision
    {
      Recorded(policy, log, db, Event(now, OnVms(OpUpsertVm(vm))));
      log := log + [Event(now, OnVms(OpUpsertVm(vm)))];
      if vm.revision > I64_MAX { return Failure(Config); }
      if vm.revision == 0 { return Failure(Database); }
      var stored, generation := Persisted(vm), 1;
      if vm.id in db.vms {
        var row := db.vms[vm.id];
        if row.record.hostId != stored.hostId || row.record.createdAt != stored.createdAt { return Failure(Conflict); }
        if row.record.revision >= stored.revision {
          return if row.record.revision == stored.revision && row.record != stored then Failure(Conflict) else Success(row.generation);
        }
        if row.generation + 1 > I64_MAX { return Failure(Database); }
        generation := row.generation + 1;
      }
      db := db.(vms := db.vms[vm.id := VmRow(stored, generation)]);
      if vm.ownerKey.Some? && vm.id in db.admission.reservations && db.admission.reservations[vm.id].ownerKey == vm.ownerKey.value {
        db := db.(admission := db.admission.(reservations := db.admission.reservations - {vm.id}));
      }
      r := Success(generation);
    }

    method ClaimHibernatedVm(now: Time, owner: OwnerKey, id: Uuid, target: HostId, session: Uuid, staleBefore: Time)
      returns (r: Result<VmRecord, FleetError>)
      requires Valid()
      modifies this
      ensures Valid() && Did(Event(now, OnVms(OpClaimHibernatedVm(owner, id, target, session, staleBefore))))
      ensures r == Answer(VmStore.ClaimHibernatedVm(old(db), now, owner, id, target, session, staleBefore))
      ensures r.Success? ==> id in db.vms && db.vms[id].record.hostId == target
    {
      Recorded(policy, log, db, Event(now, OnVms(OpClaimHibernatedVm(owner, id, target, session, staleBefore))));
      log := log + [Event(now, OnVms(OpClaimHibernatedVm(owner, id, target, session, staleBefore)))];
      if id !in db.vms || db.vms[id].record.ownerKey != Some(owner) { return Failure(NotFound); }
      var row := db.vms[id];
      if row.record.status != Hibernated || !CurrentSession(db.hosts, target, session, staleBefore) { return Failure(Conflict); }
      if row.record.hostId == target { return Success(row.record); }
      if Fresh(db.hosts, row.record.hostId, staleBefore) { return Failure(Conflict); }
      if row.record.revision + 1 > I64_MAX { return Failure(Config); }
      if row.generation + 1 > I64_MAX { return Failure(Database); }
      var moved := row.record.(hostId := target, revision := row.record.revision + 1, updatedAt := Normalize(now));
      db := db.(vms := db.vms[id := VmRow(moved, row.generation + 1)]);
      r := Success(moved.(updatedAt := now));
    }

    /** The VM's artifact reference, then its hibernation. */
    static method ReleaseHoldingsTx(g: Graph, vm: VmRecord) returns (r: Result<Graph, FleetError>)
      ensures r == ReleaseHoldings(g, vm)
    {
      var tx :- ReleaseVmArtifactRefTx(g, vm);
      if vm.id in tx.hibernations {
        var bound := tx.hibernations[vm.id];
        tx := tx.(hibernations := tx.hibernations - {vm.id});
        tx :- ReleaseRef(tx, bound.ownerKey, bound.artifact);
        tx :- DeleteUnreferencedArtifactChain(tx, bound.ownerKey, bound.artifact);
      }
      r := Success(tx);
    }

    method DeleteVm(vm: VmRecord, now: Time) returns (r: Result<(), FleetError>)
      requires Valid()
      modifies this
      ensures Valid() && Did(Event(now, OnVms(OpDeleteVm(vm))))
      ensures r == Answer(VmStore.DeleteVm(old(db), vm))
      ensures NeverObstructed(r) && NoNewZero(old(db).graph, db.graph)
      ensures r.Success? ==> VmDropped(old(db), db, vm.id)
    {
      DeleteVmOutcome(db, vm);
      DeleteVmKeepsInv(db, vm);
      Recorded(policy, log, db, Event(now, OnVms(OpDeleteVm(vm))));
      log := log + [Event(now, OnVms(OpDeleteVm(vm)))];
      var createdAt := Normalize(vm.createdAt);
      if vm.id in db.vms && (db.vms[vm.id].record.hostId != vm.hostId || db.vms[vm.id].record.createdAt != createdAt) {
        return Failure(Conflict);
      }
      var tx :- ReleaseHoldingsTx(db.graph, vm);
      db := db.(graph := tx);
      if vm.id in db.vms && db.vms[vm.id].record.createdAt == createdAt {
        db := DropVm(db, vm.id);
      }
      r := Success(());
    }

    // Volumes

    method InsertVolume(id: Uuid, volume: Volume, now: Time) returns (r: Result<Volume, FleetError>)
      requires Valid()
      modifies this
      ensures Valid() && Did(Event(now, OnVolumes(OpInsertVolume(id, volume))))
      ensures r == Answer(VolumeStore.InsertVolume(old(db).storage, id, volume))
    {
      Recorded(policy, log, db, Event(now, OnVolumes(OpInsertVolume(id, volume))));
      log := log + [Event(now, OnVolumes(OpInsertVolume(id, volume)))];
      var tx, spec := db.storage, volume.spec;
      if spec.ownerKey == "" || spec.name == "" || spec.provider == "" || spec.generation == 0 || volume.revision == 0 {
        return Failure(Conflict);
      }
      if spec.sizeBytes > I64_MAX || spec.generation > I64_MAX || volume.revision > I64_MAX { return Failure(Config); }
      if spec.sizeBytes == 0 { return Failure(Database); }
      var matches := Matches(tx, id, spec);
      if matches != {} {
        if matches == {id} && tx.volumes[id].spec == spec { return Success(tx.volumes[id]); }
        return if |matches| == 1 then Failure(Conflict) else Failure(Database);
      }
      db := db.(storage := tx.(volumes := tx.volumes[id := volume]));
      r := Success(volume);
    }

    method TransitionVolume(owner: OwnerKey, id: Uuid, expectedStatus: VolumeStatus, expected: nat, status: VolumeStatus,
                            lastError: Option<string>, now: Time) returns (r: Result<Volume, FleetError>)
      requires Valid()
      modifies this
      ensures Valid() && Did(Event(now, OnVolumes(OpTransitionVolume(owner, id, expectedStatus, expected, status, lastError))))
      ensures r == Answer(VolumeStore.TransitionVolume(old(db).storage, owner, id, expectedStatus, expected, status, lastError))
      ensures r.Success? ==> id in db.storage.volumes && db.storage.volumes[id] == r.value && r.value.status == status
    {
      Recorded(policy, log, db, Event(now, OnVolumes(OpTransitionVolume(owner, id, expectedStatus, expected, status, lastError))));
      log := log + [Event(now, OnVolumes(OpTransitionVolume(owner, id, expectedStatus, expected, status, lastError)))];
      if expected >= U64_MAX { return Failure(Conflict); }
      if expected + 1 > I64_MAX { return Failure(Config); }
      var current :- FindVolume(db.storage, owner, id);
      if current.status != expectedStatus || current.revision != expected { return Failure(Conflict); }
      var next := current.(status := status, revision := expected + 1, lastError := lastError);
      db := db.(storage := db.storage.(volumes := db.storage.volumes[id := next]));
      r := Success(next);
    }

    method BeginVolumeDelete(owner: OwnerKey, id: Uuid, expectedStatus: VolumeStatus, expected: nat, now: Time) returns (r: Result<Volume, FleetError>)
      requires Valid()
      modifies this
      ensures Valid() && Did(Event(now, OnVolumes(OpBeginVolumeDelete(owner, id, expectedStatus, expected))))
      ensures r == Answer(VolumeStore.BeginVolumeDelete(old(db).storage, owner, id, expectedStatus, expected))
    {
      Recorded(policy, log, db, Event(now, OnVolumes(OpBeginVolumeDelete(owner, id, expectedStatus, expected))));
      log := log + [Event(now, OnVolumes(OpBeginVolumeDelete(owner, id, expectedStatus, expected)))];
      var current :- FindVolume(db.storage, owner, id);
      if current.status != expectedStatus { return Failure(Conflict); }
      if expected > I64_MAX { return Failure(Config); }
      if current.revision != expected || Attached(db.storage, id) { return Failure(Conflict); }
      if expected + 1 > I64_MAX { return Failure(Config); }
      var next := current.(status := VolumeDeleting, revision := expected + 1, lastError := None);
      db := db.(storage := db.storage.(volumes := db.storage.volumes[id := next]));
      r := Success(next);
    }

    method DeleteVolumeMetadata(owner: OwnerKey, id: Uuid, expected: nat, now: Time) returns (r: Result<(), FleetError>)
      requires Valid()
      modifies this
      ensures Valid() && Did(Event(now, OnVolumes(OpDeleteVolumeMetadata(owner, id, expected))))
      ensures r == Answer(VolumeStore.DeleteVolumeMetadata(old(db).storage, owner, id, expected))
      ensures r.Success? ==> id !in db.storage.volumes && !Attached(old(db).storage, id)
    {
      Recorded(policy, log, db, Event(now, OnVolumes(OpDeleteVolumeMetadata(owner, id, expected))));
      log := log + [Event(now, OnVolumes(OpDeleteVolumeMetadata(owner, id, expected)))];
      if expected > I64_MAX { return Failure(Config); }
      var current :- FindVolume(db.storage, owner, id);
      if current.status != VolumeDeleting || current.revision != expected || Attached(db.storage, id) { return Failure(Conflict); }
      db := db.(storage := db.storage.(volumes := db.storage.volumes - {id}));
      r := Success(());
    }

    /** Bind in volume order, one row at a time; any refusal undoes them all. */
    method BindVmVolumes(requested: seq<AttachmentRecord>, now: Time) returns (r: Result<(), FleetError>)
      requires Valid()
      modifies this
      ensures Valid() && Did(Event(now, OnVolumes(OpBind(requested))))
      ensures r == Answer(VolumeStore.BindVmVolumes(old(db).vms, old(db).storage, requested))
      ensures FencedVolumes(db.storage)
      ensures r.Success? ==> forall a | a in requested :: KeyOf(a) in db.storage.attachments && db.storage.attachments[KeyOf(a)] == RowOf(a)
    {
      BoundAsRequested(db.vms, db.storage, requested);
      Recorded(policy, log, db, Event(now, OnVolumes(OpBind(requested))));
      log := log + [Event(now, OnVolumes(OpBind(requested)))];
      SoundIsFenced(Apply(policy, db, Event(now, OnVolumes(OpBind(requested)))));
      if |requested| > MAX_DATA_VOLUMES { return Failure(Conflict); }
      if requested == [] { return Success(()); }
      if !OneTarget(requested) { return Failure(Conflict); }
      if requested[0].vm !in db.vms { return Failure(NotFound); }
      if db.vms[requested[0].vm].record.ownerKey != Some(requested[0].ownerKey) { return Failure(Conflict); }
      var tx :- BindOrdered(db.storage, SortByVolume(requested), |requested|);
      db := db.(storage := tx);
      r := Success(());
    }

    static method BindOrdered(s: Storage, ordered: seq<AttachmentRecord>, n: nat) returns (r: Result<Storage, FleetError>)
      ensures r == BindAll(s, ordered, n)
    {
      var tx, i := s, 0;
      while i < |ordered|
        invariant i <= |ordered| && BindAll(s, ordered, n) == BindAll(tx, ordered[i..], n)
      {
        var a := ordered[i];
        assert ordered[i..][0] == a && ordered[i..][1..] == ordered[i + 1..];
        if a.ownerKey == "" || a.generation == 0 || a.device >= n { return Failure(Conflict); }
        if a.volume !in tx.volumes { return Failure(NotFound); }
        var volume := tx.volumes[a.volume];
        if volume.spec.ownerKey != a.ownerKey || volume.status != VolumeAvailable { return Failure(Conflict); }
        if a.generation > I64_MAX { return Failure(Config); }
        if volume.spec.generation != a.generation || !Grants(volume.spec.capabilities, a.mode) { return Failure(Conflict); }
        var key, row := AttachmentKey(a.vm, a.volume), Attachment(a.device, a.ownerKey, a.mode, a.generation);
        if key in tx.attachments {
          if tx.attachments[key] != row { return Failure(Conflict); }
        } else {
          if !volume.spec.capabilities.readWriteMany && Excluded(tx, a.volume, a.mode) { return Failure(Conflict); }
          if DeviceTaken(tx, a.vm, a.device) { return Failure(Database); }
          tx := tx.(attachments := tx.attachments[key := row]);
        }
        i := i + 1;
      }
      r := Success(tx);
    }

    method UnbindVmVolumes(owner: OwnerKey, vm: Uuid, now: Time) returns (r: Result<(), FleetError>)
      requires Valid()
      modifies this
      ensures Valid() && Did(Event(now, OnVolumes(OpUnbind(owner, vm)))) && r == Success(())
      ensures forall k :: k in db.storage.attachments <==>
        k in old(db).storage.attachments && !(k.vm == vm && old(db).storage.attachments[k].ownerKey == owner)
    {
      Recorded(policy, log, db, Event(now, OnVolumes(OpUnbind(owner, vm))));
      log := log + [Event(now, OnVolumes(OpUnbind(owner, vm)))];
      var attachments := db.storage.attachments;
      db := db.(storage := db.storage.(attachments :=
        map k | k in attachments && !(k.vm == vm && attachments[k].ownerKey == owner) :: attachments[k]));
      r := Success(());
    }

    // Admission

    method ReserveVmQuota(now: Time, owner: OwnerKey, id: Uuid, maxVms: nat, expiresAt: Time) returns (r: Result<(), FleetError>)
      requires Valid()
      modifies this
      ensures Valid() && Did(Event(now, OnAdmission(OpReserveQuota(owner, id, maxVms, expiresAt))))
      ensures r == Answer(AdmissionStore.ReserveVmQuota(old(db).vms, old(db).admission, now, owner, id, maxVms, expiresAt))
      ensures r.Success? ==> UsageAt(db, owner, now) <= Limit(maxVms)
      ensures r.Success? ==> id in db.admission.reservations && db.admission.reservations[id] == Reservation(owner, expiresAt)
      ensures r.Success? ==> UsageAt(db, owner, now) == UsageAt(old(db), owner, now) + One(expiresAt > now)
    {
      SlotIsTaken(db.vms, db.admission, now, owner, id, maxVms, expiresAt);
      ReserveNeverExceeds(db.vms, db.admission, now, owner, id, maxVms, expiresAt);
      Recorded(policy, log, db, Event(now, OnAdmission(OpReserveQuota(owner, id, maxVms, expiresAt))));
      log := log + [Event(now, OnAdmission(OpReserveQuota(owner, id, maxVms, expiresAt)))];
      var tx := db.admission;
      tx := tx.(reservations := PurgeExpired(tx.reservations, now));
      if id in db.vms || id in tx.forks || id in tx.reservations { return Failure(Conflict); }
      if Usage(db.vms, tx.reservations, owner, now) >= Limit(maxVms) { return Failure(QuotaExceeded); }
      tx := tx.(reservations := tx.reservations[id := Reservation(owner, expiresAt)]);
      db := db.(admission := tx);
      r := Success(());
    }

    method ReleaseVmQuota(owner: OwnerKey, id: Uuid, now: Time) returns (r: Result<(), FleetError>)
      requires Valid()
      modifies this
      ensures Valid() && Did(Event(now, OnAdmission(OpReleaseQuota(owner, id)))) && r == Success(())
    {
      Recorded(policy, log, db, Event(now, OnAdmission(OpReleaseQuota(owner, id))));
      log := log + [Event(now, OnAdmission(OpReleaseQuota(owner, id)))];
      if id in db.admission.reservations && db.admission.reservations[id].ownerKey == owner {
        db := db.(admission := db.admission.(reservations := db.admission.reservations - {id}));
      }
      r := Success(());
    }

    static method ClaimForkTx(vms: map<Uuid, VmRow>, q: Admission, now: Time, f: ForkRequest, maxVms: nat, expiresAt: Time) returns (r: Tx<Admission, ClaimOutcome>)
      ensures r == AdmissionStore.ClaimFork(vms, q, now, f, maxVms, expiresAt)
    {
      var tx := q;
      tx := tx.(reservations := PurgeExpired(tx.reservations, now));
      var outcome, restarted := ClaimNew, false;
      if f.child in tx.forks {
        var fork := tx.forks[f.child];
        if !SameFork(fork, f) { return Failure(Conflict); }
        if fork.status == Committed { return Success((tx, ClaimCommitted)); }
        restarted := fork.session != f.session;
        tx := tx.(forks := tx.forks[f.child := fork.(session := f.session)]);
        outcome := ClaimResumed;
      } else {
        if f.child in vms { return Failure(Conflict); }
        tx := tx.(forks := tx.forks[f.child := Fork(f.source, f.ownerKey, f.sourceHost, f.targetHost, f.session, Preparing, None)]);
      }
      if f.child in tx.reservations {
        if tx.reservations[f.child].ownerKey != f.ownerKey { return Failure(Conflict); }
        if outcome == ClaimResumed && !restarted {
          outcome := ClaimInProgress;
        } else {
          tx := tx.(reservations := tx.reservations[f.child := Reservation(f.ownerKey, expiresAt)]);
        }
      } else if f.child !in vms {
        if Usage(vms, tx.reservations, f.ownerKey, now) >= Limit(maxVms) { return Failure(QuotaExceeded); }
        tx := tx.(reservations := tx.reservations[f.child := Reservation(f.ownerKey, expiresAt)]);
      }
      r := Success((tx, outcome));
    }

    method ClaimFork(now: Time, f: ForkRequest, maxVms: nat, expiresAt: Time) returns (r: Result<ClaimOutcome, FleetError>)
      requires Valid()
      modifies this
      ensures Valid() && Did(Event(now, OnAdmission(OpClaimFork(f, maxVms, expiresAt))))
      ensures r == Answer(AdmissionStore.ClaimFork(old(db).vms, old(db).admission, now, f, maxVms, expiresAt))
      ensures UsageAt(db, f.ownerKey, now) <= Max(UsageAt(old(db), f.ownerKey, now), Limit(maxVms))
      ensures r == Success(ClaimNew) || r == Success(ClaimResumed) ==>
        f.child in db.vms || (f.child in db.admission.reservations && db.admission.reservations[f.child] == Reservation(f.ownerKey, expiresAt))
    {
      GrantedChildIsHeld(db.vms, db.admission, now, f, maxVms, expiresAt);
      ClaimForkWithinLimit(db.vms, db.admission, now, f, maxVms, expiresAt, f.ownerKey, Max(UsageAt(db, f.ownerKey, now), Limit(maxVms)));
      Recorded(policy, log, db, Event(now, OnAdmission(OpClaimFork(f, maxVms, expiresAt))));
      log := log + [Event(now, OnAdmission(OpClaimFork(f, maxVms, expiresAt)))];
      var tx := ClaimForkTx(db.vms, db.admission, now, f, maxVms, expiresAt);
      if tx.Failure? { return Failure(tx.error); }
      db := db.(admission := tx.value.0);
      r := Success(tx.value.1);
    }

    method CommitFork(child: Uuid, source: Uuid, owner: OwnerKey, childCreatedAt: Time, now: Time) returns (r: Result<(), FleetError>)
      requires Valid()
      modifies this
      ensures Valid() && Did(Event(now, OnAdmission(OpCommitFork(child, source, owner, childCreatedAt))))
      ensures r == Answer(AdmissionStore.CommitFork(old(db).admission, child, source, owner, childCreatedAt))
    {
      Recorded(policy, log, db, Event(now, OnAdmission(OpCommitFork(child, source, owner, childCreatedAt))));
      log := log + [Event(now, OnAdmission(OpCommitFork(child, source, owner, childCreatedAt)))];
      var tx, created := db.admission, Normalize(childCreatedAt);
      if child !in tx.forks { return Failure(Conflict); }
      var fork := tx.forks[child];
      if fork.source != source || fork.ownerKey != owner { return Failure(Conflict); }
      if fork.status == Committed && fork.childCreatedAt != Some(created) { return Failure(Conflict); }
      tx := tx.(forks := tx.forks[child := fork.(status := Committed, childCreatedAt := Some(created))]);
      db := db.(admission := tx);
      r := Success(());
    }

    // Replication

    method UpsertArtifactReplica(now: Time, rec: ReplicaRecord) returns (r: Result<ReplicationState, FleetError>)
      requires Valid()
      modifies this
      ensures Valid() && Did(Event(now, OnReplication(OpUpsertReplica(rec))))
      ensures r == Answer(ReplicationStore.UpsertArtifactReplica(policy, old(db).hosts, old(db).graph, now, rec))
      ensures r.Success? ==> rec.artifact in db.graph.artifacts && db.graph.artifacts[rec.artifact].replication == r.value
    {
      Recorded(policy, log, db, Event(now, OnReplication(OpUpsertReplica(rec))));
      log := log + [Event(now, OnReplication(OpUpsertReplica(rec)))];
      var tx, a, owner := db.graph, rec.artifact, rec.row.ownerKey;
      if !Owned(tx, a, owner) { return Failure(NotFound); }
      if !SameContent(rec.row, tx.artifacts[a].spec) { return Failure(Conflict); }
      if rec.row.status == Available && rec.row.verifiedAt == None { return Failure(Conflict); }
      tx :- StoreReplica(tx, rec);
      var live := LiveReplicas(db.hosts, tx, a, Some(owner), Cutoff(now));
      var state := Degraded;
      if live == {} {
        state := Pending;
      } else if Meets(policy, |live|, |Domains(tx, live)|) {
        state := Ready;
      }
      tx := tx.(artifacts := tx.artifacts[a := tx.artifacts[a].(replication := state)]);
      db := db.(graph := tx);
      r := Success(state);
    }

    method RefreshReplicationHealth(staleBefore: Time, now: Time) returns (r: Result<nat, FleetError>)
      requires Valid()
      modifies this
      ensures Valid() && Did(Event(now, OnReplication(OpRefresh(staleBefore))))
      ensures r == Answer(ReplicationStore.RefreshReplicationHealth(policy, old(db).hosts, old(db).graph, staleBefore))
      ensures Agrees(policy, db.hosts, db.graph, staleBefore)
    {
      RefreshAgrees(policy, db.hosts, db.graph, staleBefore);
      Recorded(policy, log, db, Event(now, OnReplication(OpRefresh(staleBefore))));
      log := log + [Event(now, OnReplication(OpRefresh(staleBefore)))];
      var tx, hosts, p := db.graph, db.hosts, policy;
      var stale := set a | a in tx.artifacts && tx.artifacts[a].replication != DesiredState(p, hosts, tx, a, staleBefore);
      db := db.(graph := tx.(artifacts :=
        map a | a in tx.artifacts :: tx.artifacts[a].(replication := DesiredState(p, hosts, tx, a, staleBefore))));
      r := Success(|stale|);
    }

    static method TryAcquireRepairLeaseTx(policy: Policy, hosts: map<HostId, Host>, g: Graph, now: Time, a: Uuid, host: HostId, session: Uuid, domain: string, token: Uuid, expiresAt: Time) returns (r: Tx<Graph, Option<Uuid>>)
      ensures r == ReplicationStore.TryAcquireRepairLease(policy, hosts, g, now, a, host, session, domain, token, expiresAt)
    {
      var tx := g;
      if !Fresh(hosts, host, Cutoff(now)) || hosts[host].bootSession != Some(session) { return Success((tx, None)); }
      if a !in tx.artifacts || tx.artifacts[a].status != Available || tx.artifacts[a].replication != Degraded { return Success((tx, None)); }
      if ReplicaKey(a, host) in tx.replicas && Verified(tx.replicas[ReplicaKey(a, host)]) { return Success((tx, None)); }
      var live := LiveReplicas(hosts, tx, a, None, Cutoff(now));
      if SameDomain(tx, live, domain) != {} && |Domains(tx, live)| < policy.minDomains { return Success((tx, None)); }
      if Meets(policy, |live|, |Domains(tx, live)|) { return Success((tx, None)); }
      if a in tx.leases && tx.leases[a].expiresAt >= now { return Success((tx, None)); }
      tx := tx.(leases := tx.leases[a := RepairLease(host, session, token, expiresAt)]);
      r := Success((tx, Some(token)));
    }

    method TryAcquireRepairLease(now: Time, a: Uuid, host: HostId, session: Uuid, domain: string, token: Uuid, expiresAt: Time)
      returns (r: Result<Option<Uuid>, FleetError>)
      requires Valid()
      modifies this
      ensures Valid() && Did(Event(now, OnReplication(OpAcquireLease(a, host, session, domain, token, expiresAt))))
      ensures r == Answer(ReplicationStore.TryAcquireRepairLease(policy, old(db).hosts, old(db).graph, now, a, host, session, domain, token, expiresAt))
      ensures r == Success(Some(token)) ==> HoldsLease(db.graph, a, host, session, token)
      ensures r == Success(Some(token)) ==> (a in old(db).graph.leases ==> old(db).graph.leases[a].expiresAt < now)
    {
      Recorded(policy, log, db, Event(now, OnReplication(OpAcquireLease(a, host, session, domain, token, expiresAt))));
      log := log + [Event(now, OnReplication(OpAcquireLease(a, host, session, domain, token, expiresAt)))];
      var tx := TryAcquireRepairLeaseTx(policy, db.hosts, db.graph, now, a, host, session, domain, token, expiresAt);
      db := db.(graph := tx.value.0);
      r := Success(tx.value.1);
    }

    method RenewRepairLease(a: Uuid, host: HostId, session: Uuid, token: Uuid, expiresAt: Time, now: Time) returns (r: Result<bool, FleetError>)
      requires Valid()
      modifies this
      ensures Valid() && Did(Event(now, OnReplication(OpRenewLease(a, host, session, token, expiresAt))))
      ensures r == Answer(ReplicationStore.RenewRepairLease(old(db).graph, a, host, session, token, expiresAt))
    {
      Recorded(policy, log, db, Event(now, OnReplication(OpRenewLease(a, host, session, token, expiresAt))));
      log := log + [Event(now, OnReplication(OpRenewLease(a, host, session, token, expiresAt)))];
      var tx := db.graph;
      if !HoldsLease(tx, a, host, session, token) { return Success(false); }
      db := db.(graph := tx.(leases := tx.leases[a := tx.leases[a].(expiresAt := expiresAt)]));
      r := Success(true);
    }

    method ReleaseRepairLease(a: Uuid, host: HostId, session: Uuid, token: Uuid, now: Time) returns (r: Result<(), FleetError>)
      requires Valid()
      modifies this
      ensures Valid() && Did(Event(now, OnReplication(OpReleaseLease(a, host, session, token)))) && r == Success(())
    {
      Recorded(policy, log, db, Event(now, OnReplication(OpReleaseLease(a, host, session, token))));
      log := log + [Event(now, OnReplication(OpReleaseLease(a, host, session, token)))];
      if HoldsLease(db.graph, a, host, session, token) {
        db := db.(graph := db.graph.(leases := db.graph.leases - {a}));
      }
      r := Success(());
    }

    // Leadership and hosts

    method TryAcquireLeader(now: Time, node: string, ttlSeconds: int) returns (r: Result<bool, FleetError>)
      requires Valid()
      modifies this
      ensures Valid() && Did(Event(now, OnFleet(OpAcquireLeader(node, ttlSeconds))))
      ensures r == Answer(LeaderStore.TryAcquireLeader(old(db).leader, now, node, ttlSeconds))
    {
      Recorded(policy, log, db, Event(now, OnFleet(OpAcquireLeader(node, ttlSeconds))));
      log := log + [Event(now, OnFleet(OpAcquireLeader(node, ttlSeconds)))];
      if db.leader.Some? && db.leader.value.node != node && db.leader.value.expiresAt >= now { return Success(false); }
      db := db.(leader := Some(Leader(node, now + ttlSeconds * NANOS_PER_SECOND)));
      r := Success(true);
    }

    method UpsertHost(id: HostId, heartbeat: Host, now: Time) returns (r: Result<(), FleetError>)
      requires Valid()
      modifies this
      ensures Valid() && Did(Event(now, OnFleet(OpUpsertHost(id, heartbeat)))) && r == Success(())
    {
      Recorded(policy, log, db, Event(now, OnFleet(OpUpsertHost(id, heartbeat))));
      log := log + [Event(now, OnFleet(OpUpsertHost(id, heartbeat)))];
      db := db.(hosts := db.hosts[id := heartbeat]);
      r := Success(());
    }
  }
}
