/** Runs: any sequence of transactions, each atomic, each at some clock time. */
module FleetRuns {
  import opened Results
  import opened FleetTables
  import opened ArtifactStore
  import opened VmStore
  import opened VolumeStore
  import opened AdmissionStore
  import opened ReplicationStore
  import opened LeaderStore

  datatype ArtifactOp =
    | OpInsertArtifact(art: ArtifactRecord)
    | OpDeleteArtifact(owner: OwnerKey, artifact: Uuid)
    | OpInsertBranch(branchId: Uuid, branch: Branch)
    | OpUpdateBranchHead(owner: OwnerKey, branchId: Uuid, expected: nat, newHead: Uuid)
    | OpDeleteBranch(owner: OwnerKey, branchId: Uuid)
    | OpUpsertHibernation(hibernation: HibernationRecord)
    | OpDeleteHibernation(owner: OwnerKey, vmId: Uuid)
    | OpAcquireVmRef(vm: VmRecord, artifact: Uuid)
    | OpReleaseVmRef(vm: VmRecord)

  datatype VmOp =
    | OpUpsertVm(vm: VmRecord)
    | OpClaimHibernatedVm(owner: OwnerKey, vmId: Uuid, target: HostId, session: Uuid, staleBefore: Time)
    | OpDeleteVm(vm: VmRecord)

  datatype VolumeOp =
    | OpInsertVolume(volumeId: Uuid, volume: Volume)
    | OpTransitionVolume(owner: OwnerKey, volumeId: Uuid, expectedStatus: VolumeStatus, expected: nat,
                         status: VolumeStatus, lastError: Option<string>)
    | OpBeginVolumeDelete(owner: OwnerKey, volumeId: Uuid, expectedStatus: VolumeStatus, expected: nat)
    | OpDeleteVolumeMetadata(owner: OwnerKey, volumeId: Uuid, expected: nat)
    | OpBind(requested: seq<AttachmentRecord>)
    | OpUnbind(owner: OwnerKey, vmId: Uuid)

  datatype AdmissionOp =
    | OpReserveQuota(owner: OwnerKey, vmId: Uuid, maxVms: nat, expiresAt: Time)
    | OpReleaseQuota(owner: OwnerKey, vmId: Uuid)
    | OpClaimFork(request: ForkRequest, maxVms: nat, expiresAt: Time)
    | OpCommitFork(child: Uuid, source: Uuid, owner: OwnerKey, childCreatedAt: Time)

  datatype ReplicationOp =
    | OpUpsertReplica(replica: ReplicaRecord)
    | OpRefresh(staleBefore: Time)
    | OpAcquireLease(artifact: Uuid, host: HostId, session: Uuid, domain: string, token: Uuid, expiresAt: Time)
    | OpRenewLease(artifact: Uuid, host: HostId, session: Uuid, token: Uuid, expiresAt: Time)
    | OpReleaseLease(artifact: Uuid, host: HostId, session: Uuid, token: Uuid)

  datatype FleetOp =
    | OpAcquireLeader(node: string, ttlSeconds: int)
    | OpUpsertHost(hostId: HostId, heartbeat: Host)

  datatype Op =
    | OnArtifacts(a: ArtifactOp)
    | OnVms(v: VmOp)
    | OnVolumes(w: VolumeOp)
    | OnAdmission(q: AdmissionOp)
    | OnReplication(r: ReplicationOp)
    | OnFleet(f: FleetOp)

  datatype Event = Event(now: Time, op: Op)

  /** The tables after a transaction: committed, or unchanged by rollback. */
  function After<S, T>(s: S, tx: Tx<S, T>): S {
    if tx.Success? then tx.value.0 else s
  }

  function ApplyArtifact(p: Policy, t: Tables, now: Time, op: ArtifactOp): Graph {
    match op
    case OpInsertArtifact(art) => After(t.graph, InsertArtifact(p, t.hosts, t.graph, now, art))
    case OpDeleteArtifact(o, a) => After(t.graph, DeleteArtifactIfUnreferenced(t.graph, o, a))
    case OpInsertBranch(id, b) => After(t.graph, InsertBranch(t.vms, t.graph, id, b))
    case OpUpdateBranchHead(o, id, rev, head) => After(t.graph, UpdateBranchHead(t.graph, o, id, rev, head))
    case OpDeleteBranch(o, id) => After(t.graph, DeleteBranch(t.graph, o, id))
    case OpUpsertHibernation(h) => After(t.graph, UpsertHibernation(t.vms, t.graph, h))
    case OpDeleteHibernation(o, id) => After(t.graph, DeleteHibernation(t.graph, o, id))
    case OpAcquireVmRef(vm, a) => After(t.graph, AcquireVmArtifactRef(t.graph, vm, a))
    case OpReleaseVmRef(vm) => After(t.graph, ReleaseVmArtifactRef(t.graph, vm))
  }

  function ApplyVm(t: Tables, now: Time, op: VmOp): Tables {
    match op
    case OpUpsertVm(vm) => After(t, UpsertVm(t, vm))
    case OpClaimHibernatedVm(o, id, target, s, stale) => After(t, ClaimHibernatedVm(t, now, o, id, target, s, stale))
    case OpDeleteVm(vm) => After(t, DeleteVm(t, vm))
  }

  function ApplyVolume(t: Tables, op: VolumeOp): Storage {
    match op
    case OpInsertVolume(id, v) => After(t.storage, InsertVolume(t.storage, id, v))
    case OpTransitionVolume(o, id, s, rev, s', err) => After(t.storage, TransitionVolume(t.storage, o, id, s, rev, s', err))
    case OpBeginVolumeDelete(o, id, s, rev) => After(t.storage, BeginVolumeDelete(t.storage, o, id, s, rev))
    case OpDeleteVolumeMetadata(o, id, rev) => After(t.storage, DeleteVolumeMetadata(t.storage, o, id, rev))
    case OpBind(requested) => After(t.storage, BindVmVolumes(t.vms, t.storage, requested))
    case OpUnbind(o, id) => After(t.storage, UnbindVmVolumes(t.storage, o, id))
  }

  function ApplyAdmission(t: Tables, now: Time, op: AdmissionOp): Admission {
    match op
    case OpReserveQuota(o, id, max, expires) => After(t.admission, ReserveVmQuota(t.vms, t.admission, now, o, id, max, expires))
    case OpReleaseQuota(o, id) => After(t.admission, ReleaseVmQuota(t.admission, o, id))
    case OpClaimFork(r, max, expires) => After(t.admission, ClaimFork(t.vms, t.admission, now, r, max, expires))
    case OpCommitFork(c, s, o, at) => After(t.admission, CommitFork(t.admission, c, s, o, at))
  }

  function ApplyReplication(p: Policy, t: Tables, now: Time, op: ReplicationOp): Graph {
    match op
    case OpUpsertReplica(r) => After(t.graph, UpsertArtifactReplica(p, t.hosts, t.graph, now, r))
    case OpRefresh(stale) => After(t.graph, RefreshReplicationHealth(p, t.hosts, t.graph, stale))
    case OpAcquireLease(a, h, s, d, token, expires) =>
      After(t.graph, TryAcquireRepairLease(p, t.hosts, t.graph, now, a, h, s, d, token, expires))
    case OpRenewLease(a, h, s, token, expires) => After(t.graph, RenewRepairLease(t.graph, a, h, s, token, expires))
    case OpReleaseLease(a, h, s, token) => After(t.graph, ReleaseRepairLease(t.graph, a, h, s, token))
  }

  function ApplyFleet(t: Tables, now: Time, op: FleetOp): Tables {
    match op
    case OpAcquireLeader(node, ttl) => t.(leader := After(t.leader, TryAcquireLeader(t.leader, now, node, ttl)))
    case OpUpsertHost(id, h) => t.(hosts := After(t.hosts, UpsertHost(t.hosts, id, h)))
  }

  function Apply(p: Policy, t: Tables, e: Event): Tables {
    match e.op
    case OnArtifacts(op) => t.(graph := ApplyArtifact(p, t, e.now, op))
    case OnVms(op) => ApplyVm(t, e.now, op)
    case OnVolumes(op) => t.(storage := ApplyVolume(t, op))
    case OnAdmission(op) => t.(admission := ApplyAdmission(t, e.now, op))
    case OnReplication(op) => t.(graph := ApplyReplication(p, t, e.now, op))
    case OnFleet(op) => ApplyFleet(t, e.now, op)
  }

  /** The tables after a whole run. */
  function Replay(p: Policy, t: Tables, run: seq<Event>): Tables
    decreases |run|
  {
    if run == [] then t else Replay(p, Apply(p, t, run[0]), run[1..])
  }

  lemma {:induction false} ReplayAppend(p: Policy, t: Tables, run: seq<Event>, e: Event)
    ensures Replay(p, t, run + [e]) == Apply(p, Replay(p, t, run), e)
    decreases |run|
  {
    if run == [] {
      assert [] + [e] == [e] && [e][1..] == [];
      assert Replay(p, Apply(p, t, e), []) == Apply(p, t, e);
    } else {
      assert (run + [e])[0] == run[0] && (run + [e])[1..] == run[1..] + [e];
      ReplayAppend(p, Apply(p, t, run[0]), run[1..], e);
    }
  }

  /** The tables before event `i` of a run. */
  function Before(p: Policy, t: Tables, run: seq<Event>, i: nat): Tables
    requires i <= |run|
  {
    Replay(p, t, run[..i])
  }

  lemma OneMore(p: Policy, t: Tables, run: seq<Event>, i: nat)
    requires i < |run|
    ensures Before(p, t, run, i + 1) == Apply(p, Before(p, t, run, i), run[i])
  {
    assert run[..i + 1] == run[..i] + [run[i]];
    ReplayAppend(p, t, run[..i], run[i]);
  }

  /** The database clock never goes back. */
  predicate Clocked(run: seq<Event>) {
    forall i, j | 0 <= i < j < |run| :: run[i].now <= run[j].now
  }
}
