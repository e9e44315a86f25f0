/** Success-or-error results, shared by every module of the project. */
module Results {
  datatype Option<+T> = None | Some(value: T)

  datatype Result<+T, +E> = Success(value: T) | Failure(error: E) {
    predicate IsFailure() { Failure? }

    function PropagateFailure<U>(): Result<U, E>
      requires Failure?
    {
      Failure(error)
    }

    function Extract(): T
      requires Success?
    {
      value
    }
  }
}

/** The fleet tables: one row type per PostgreSQL table, one map per table,
    keyed by the table's primary key. Columns that no transaction reads back
    (display columns and most `updated_at` stamps) are not kept. */
module FleetTables {
  import opened Results

  type Uuid = int
  type HostId = string
  type OwnerKey = string

  /** Nanoseconds, as chrono carries them. */
  type Time = int

  const I64_MAX: nat := 0x7fff_ffff_ffff_ffff
  const U64_MAX: nat := 0xffff_ffff_ffff_ffff
  const NANOS_PER_MICRO := 1_000
  const NANOS_PER_SECOND := 1_000_000_000

  /** Host heartbeats older than this do not count as live. */
  const FRESHNESS: Time := 15 * NANOS_PER_SECOND

  /** PostgreSQL keeps microseconds: drop the nanoseconds of a timestamp. */
  function Normalize(time: Time): Time {
    time - time % NANOS_PER_MICRO
  }

  function Cutoff(now: Time): Time {
    now - FRESHNESS
  }

  /** `MissingReference` is the conflict raised when a reference count has
      nothing to release; `RestrictViolation` is an ON DELETE RESTRICT check
      that fired; `Database` is any other error PostgreSQL reports. */
  datatype FleetError =
    | NotFound
    | Conflict
    | MissingReference
    | RestrictViolation
    | QuotaExceeded
    | Config
    | Database

  /** The outcome of a transaction on tables `S`: the tables to commit and the
      answer, or an error, which rolls back. */
  type Tx<+S, +T> = Result<(S, T), FleetError>

  // Hosts and VMs

  datatype Host = Host(bootSession: Option<Uuid>, healthy: bool, lastHeartbeat: Time)

  datatype VmStatus = Creating | Running | Paused | Suspended | Hibernated | Stopped | Error

  predicate IsActive(status: VmStatus) {
    status in {Creating, Running, Paused, Suspended}
  }

  datatype VmShape = VmShape(startupPath: Option<string>, memoryMib: nat, vcpus: nat, kernelPath: string,
                             rootfsPath: Option<string>, rootfsReadOnly: bool, cmdline: string)

  /** `nodeLocal` stands for the runtime layout, socket path and process id,
      which live on the owning node only. */
  datatype VmRecord = VmRecord(id: Uuid, hostId: HostId, ownerKey: Option<OwnerKey>, apiKeyId: Option<string>,
                               status: VmStatus, revision: nat, shape: VmShape, nodeLocal: Option<string>,
                               createdAt: Time, updatedAt: Time)

  datatype VmRow = VmRow(record: VmRecord, generation: nat)

  /** The form in which a VM record is stored and compared. */
  function Persisted(vm: VmRecord): VmRecord {
    vm.(nodeLocal := None, createdAt := Normalize(vm.createdAt), updatedAt := Normalize(vm.updatedAt))
  }

  // Artifacts and their referrers

  datatype ArtifactStatus = Staging | Available | Deleting | Corrupt

  datatype ReplicationState = Pending | Ready | Degraded

  /** The columns an artifact never changes after publication. */
  datatype ArtifactSpec = ArtifactSpec(ownerKey: OwnerKey, hostId: HostId, locator: string, kind: string,
                                       contentDigest: string, sizeBytes: nat, imageDigest: string,
                                       agentDigest: string, bootDigest: string, parent: Option<Uuid>,
                                       sourceVm: Option<Uuid>, creationRevision: nat, integrityDigest: string,
                                       chunkSize: nat, chunkCount: nat)

  datatype Artifact = Artifact(spec: ArtifactSpec, status: ArtifactStatus, replication: ReplicationState, refCount: nat)

  datatype Replica = Replica(ownerKey: OwnerKey, failureDomain: string, locator: string, status: ArtifactStatus,
                             contentDigest: string, sizeBytes: nat, integrityDigest: string,
                             verifiedAt: Option<Time>)

  datatype ReplicaKey = ReplicaKey(artifact: Uuid, host: HostId)

  datatype RepairLease = RepairLease(hostId: HostId, bootSession: Uuid, token: Uuid, expiresAt: Time)

  datatype Branch = Branch(ownerKey: OwnerKey, name: string, head: Uuid, sourceVm: Option<Uuid>,
                           sourceBranch: Option<Uuid>, revision: nat)

  datatype Hibernation = Hibernation(ownerKey: OwnerKey, artifact: Uuid, policyRevision: nat)

  datatype ArtifactRef = ArtifactRef(ownerKey: OwnerKey, artifact: Uuid, vmCreatedAt: Time)

  // Volumes

  datatype VolumeStatus = VolumeCreating | VolumeAvailable | VolumeDeleting | VolumeError

  datatype Capabilities = Capabilities(readOnlyMany: bool, readWriteOnce: bool, readWriteMany: bool,
                                       snapshots: bool, clones: bool)

  datatype VolumeSpec = VolumeSpec(ownerKey: OwnerKey, name: string, provider: string, storageClass: string,
                                   sizeBytes: nat, capabilities: Capabilities, hostId: Option<HostId>,
                                   region: Option<string>, zone: Option<string>, generation: nat)

  datatype Volume = Volume(spec: VolumeSpec, status: VolumeStatus, revision: nat, lastError: Option<string>)

  datatype AttachmentMode = ReadOnly | ReadWrite

  datatype AttachmentKey = AttachmentKey(vm: Uuid, volume: Uuid)

  datatype Attachment = Attachment(device: nat, ownerKey: OwnerKey, mode: AttachmentMode, generation: nat)

  // Admission

  datatype Reservation = Reservation(ownerKey: OwnerKey, expiresAt: Time)

  datatype ForkStatus = Preparing | Committed

  datatype Fork = Fork(source: Uuid, ownerKey: OwnerKey, sourceHost: HostId, targetHost: HostId,
                       session: Option<Uuid>, status: ForkStatus, childCreatedAt: Option<Time>)

  datatype Leader = Leader(node: string, expiresAt: Time)

  // The database

  /** Artifacts with everything that refers to them or cascades from them. */
  datatype Graph = Graph(
    artifacts: map<Uuid, Artifact>,
    branches: map<Uuid, Branch>,
    hibernations: map<Uuid, Hibernation>,
    artifactRefs: map<Uuid, ArtifactRef>,
    replicas: map<ReplicaKey, Replica>,
    leases: map<Uuid, RepairLease>)

  datatype Storage = Storage(volumes: map<Uuid, Volume>, attachments: map<AttachmentKey, Attachment>)

  datatype Admission = Admission(forks: map<Uuid, Fork>, reservations: map<Uuid, Reservation>)

  datatype Tables = Tables(
    hosts: map<HostId, Host>,
    vms: map<Uuid, VmRow>,
    graph: Graph,
    storage: Storage,
    admission: Admission,
    leader: Option<Leader>)

  const EMPTY := Tables(map[], map[], Graph(map[], map[], map[], map[], map[], map[]), Storage(map[], map[]),
                        Admission(map[], map[]), None)

  /** Replication minima; the store refuses to connect with any others. */
  datatype RawPolicy = Policy(minReplicas: nat, minDomains: nat)

  type Policy = p: RawPolicy | 1 <= p.minDomains <= p.minReplicas witness RawPolicy.Policy(1, 1)

  /** A host that is healthy and has been heard from since `cutoff`. */
  predicate Fresh(hosts: map<HostId, Host>, host: HostId, cutoff: Time) {
    host in hosts && hosts[host].healthy && hosts[host].lastHeartbeat >= cutoff
  }
}
