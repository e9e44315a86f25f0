/** VM ownership rows. */
module VmStore {
  import opened Results
  import opened FleetTables
  import opened ArtifactStore

  /** Publishing a VM consumes the reservation made for it. */
  function DropReservation(q: Admission, id: Uuid, owner: Option<OwnerKey>): Admission {
    if owner.Some? && id in q.reservations && q.reservations[id].ownerKey == owner.value
    then q.(reservations := q.reservations - {id})
    else q
  }

  function PutVm(t: Tables, row: VmRow): Tables {
    t.(vms := t.vms[row.record.id := row], admission := DropReservation(t.admission, row.record.id, row.record.ownerKey))
  }

  /** Publish a VM record: claim the id, or advance the same incarnation.
      The answer is the row's generation. */
  function UpsertVm(t: Tables, vm: VmRecord): Tx<Tables, nat> {
    var stored := Persisted(vm);
    if vm.revision > I64_MAX then Failure(Config)
    else if vm.revision == 0 then Failure(Database)
    else if vm.id !in t.vms then Success((PutVm(t, VmRow(stored, 1)), 1))
    else
      var row := t.vms[vm.id];
      if row.record.hostId != stored.hostId || row.record.createdAt != stored.createdAt then Failure(Conflict)
      else if row.record.revision < stored.revision then
        if row.generation + 1 > I64_MAX then Failure(Database)
        else Success((PutVm(t, VmRow(stored, row.generation + 1)), row.generation + 1))
      else if row.record.revision == stored.revision && row.record != stored then Failure(Conflict)
      else Success((t, row.generation))
  }

  predicate CurrentSession(hosts: map<HostId, Host>, host: HostId, session: Uuid, cutoff: Time) {
    Fresh(hosts, host, cutoff) && hosts[host].bootSession == Some(session)
  }

  /** Move a hibernated VM to `target` once its previous host has gone stale. */
  function ClaimHibernatedVm(t: Tables, now: Time, owner: OwnerKey, id: Uuid, target: HostId, session: Uuid,
                             staleBefore: Time): Tx<Tables, VmRecord> {
    if id !in t.vms || t.vms[id].record.ownerKey != Some(owner) then Failure(NotFound)
    else
      var row := t.vms[id];
      if row.record.status != Hibernated then Failure(Conflict)
      else if !CurrentSession(t.hosts, target, session, staleBefore) then Failure(Conflict)
      else if row.record.hostId == target then Success((t, row.record))
      else if Fresh(t.hosts, row.record.hostId, staleBefore) then Failure(Conflict)
      else if row.record.revision + 1 > I64_MAX then Failure(Config)
      else if row.generation + 1 > I64_MAX then Failure(Database)
      else
        var moved := row.record.(hostId := target, revision := row.record.revision + 1, updatedAt := Normalize(now));
        Success((t.(vms := t.vms[id := VmRow(moved, row.generation + 1)]), moved.(updatedAt := now)))
  }

  /** Release the hibernation binding of a VM that is being deleted. */
  function ReleaseHibernation(g: Graph, id: Uuid): Result<Graph, FleetError> {
    if id !in g.hibernations then Success(g)
    else
      var bound := g.hibernations[id];
      var released :- ReleaseRef(g.(hibernations := g.hibernations - {id}), bound.ownerKey, bound.artifact);
      CollectChain(released, bound.ownerKey, bound.artifact)
  }

  /** Release everything a VM that is being deleted refers to. */
  function ReleaseHoldings(g: Graph, vm: VmRecord): Result<Graph, FleetError> {
    var unlinked :- ReleaseVmRef(g, vm);
    ReleaseHibernation(unlinked, vm.id)
  }

  /** Delete a VM row: hibernations and volume attachments cascade. */
  function DropVm(t: Tables, id: Uuid): Tables {
    t.(vms := t.vms - {id},
       graph := t.graph.(hibernations := t.graph.hibernations - {id}),
       storage := t.storage.(attachments := map k | k in t.storage.attachments && k.vm != id :: t.storage.attachments[k]))
  }

  function DeleteVm(t: Tables, vm: VmRecord): Tx<Tables, ()> {
    var createdAt := Normalize(vm.createdAt);
    if vm.id in t.vms && (t.vms[vm.id].record.hostId != vm.hostId || t.vms[vm.id].record.createdAt != createdAt)
    then Failure(Conflict)
    else
      var graph :- ReleaseHoldings(t.graph, vm);
      if vm.id in t.vms && t.vms[vm.id].record.createdAt == createdAt
      then Success((DropVm(t.(graph := graph), vm.id), ()))
      else Success((t.(graph := graph), ()))
  }
}

/** Volumes and the fleet-wide attachment fence. */
module VolumeStore {
  import opened Results
  import opened FleetTables

  datatype AttachmentRecord = AttachmentRecord(vm: Uuid, volume: Uuid, device: nat, ownerKey: OwnerKey,
                                               mode: AttachmentMode, generation: nat)

  const MAX_DATA_VOLUMES := 15

  /** The rows that collide with a new volume, by id or by tenant-local name. */
  function Matches(s: Storage, id: Uuid, spec: VolumeSpec): (matches: set<Uuid>)
    ensures id in s.volumes ==> id in matches
  {
    set v | v in s.volumes && (v == id || (s.volumes[v].spec.ownerKey == spec.ownerKey && s.volumes[v].spec.name == spec.name))
  }

  function InsertVolume(s: Storage, id: Uuid, volume: Volume): Tx<Storage, Volume> {
    var spec := volume.spec;
    if spec.ownerKey == "" || spec.name == "" || spec.provider == "" || spec.generation == 0 || volume.revision == 0
    then Failure(Conflict)
    else if spec.sizeBytes > I64_MAX || spec.generation > I64_MAX || volume.revision > I64_MAX then Failure(Config)
    else
      var matches := Matches(s, id, spec);
      if spec.sizeBytes == 0 then Failure(Database)
      else if matches == {} then Success((s.(volumes := s.volumes[id := volume]), volume))
      else if matches == {id} && s.volumes[id].spec == spec then Success((s, s.volumes[id]))
      else if |matches| == 1 then Failure(Conflict)
      else Failure(Database)
  }

  function FindVolume(s: Storage, owner: OwnerKey, id: Uuid): Result<Volume, FleetError> {
    if id in s.volumes && s.volumes[id].spec.ownerKey == owner then Success(s.volumes[id]) else Failure(NotFound)
  }

  function TransitionVolume(s: Storage, owner: OwnerKey, id: Uuid, expectedStatus: VolumeStatus, expected: nat,
                            status: VolumeStatus, lastError: Option<string>): Tx<Storage, Volume> {
    if expected >= U64_MAX then Failure(Conflict)
    else if expected + 1 > I64_MAX then Failure(Config)
    else
      var current :- FindVolume(s, owner, id);
      if current.status != expectedStatus || current.revision != expected then Failure(Conflict)
      else
        var next := current.(status := status, revision := expected + 1, lastError := lastError);
        Success((s.(volumes := s.volumes[id := next]), next))
  }

  predicate Attached(s: Storage, volume: Uuid) {
    exists k | k in s.attachments :: k.volume == volume
  }

  function BeginVolumeDelete(s: Storage, owner: OwnerKey, id: Uuid, expectedStatus: VolumeStatus, expected: nat): Tx<Storage, Volume> {
    var current :- FindVolume(s, owner, id);
    if current.status != expectedStatus then Failure(Conflict)
    else if expected > I64_MAX then Failure(Config)
    else if current.revision != expected then Failure(Conflict)
    else if Attached(s, id) then Failure(Conflict)
    else if expected + 1 > I64_MAX then Failure(Config)
    else
      var next := current.(status := VolumeDeleting, revision := expected + 1, lastError := None);
      Success((s.(volumes := s.volumes[id := next]), next))
  }

  function DeleteVolumeMetadata(s: Storage, owner: OwnerKey, id: Uuid, expected: nat): Tx<Storage, ()> {
    if expected > I64_MAX then Failure(Config)
    else
      var current :- FindVolume(s, owner, id);
      if current.status != VolumeDeleting || current.revision != expected || Attached(s, id) then Failure(Conflict)
      else Success((s.(volumes := s.volumes - {id}), ()))
  }

  // Binding

  function InsertByVolume(a: AttachmentRecord, sorted: seq<AttachmentRecord>): seq<AttachmentRecord> {
    if sorted == [] || a.volume <= sorted[0].volume then [a] + sorted
    else [sorted[0]] + InsertByVolume(a, sorted[1..])
  }

  function SortByVolume(requested: seq<AttachmentRecord>): seq<AttachmentRecord> {
    if requested == [] then [] else InsertByVolume(requested[0], SortByVolume(requested[1..]))
  }

  predicate Grants(c: Capabilities, mode: AttachmentMode) {
    match mode
    case ReadOnly => c.readOnlyMany
    case ReadWrite => c.readWriteOnce || c.readWriteMany
  }

  /** Some attachment of the volume rules out a new one in `mode`. */
  predicate Excluded(s: Storage, volume: Uuid, mode: AttachmentMode) {
    exists k | k in s.attachments :: k.volume == volume && (mode == ReadWrite || s.attachments[k].mode == ReadWrite)
  }

  predicate DeviceTaken(s: Storage, vm: Uuid, device: nat) {
    exists k | k in s.attachments :: k.vm == vm && s.attachments[k].device == device
  }

  /** One round of the binding loop, for a request of `n` attachments. */
  function BindOne(s: Storage, a: AttachmentRecord, n: nat): Result<Storage, FleetError> {
    if a.ownerKey == "" || a.generation == 0 || a.device >= n then Failure(Conflict)
    else if a.volume !in s.volumes then Failure(NotFound)
    else
      var volume := s.volumes[a.volume];
      var row := Attachment(a.device, a.ownerKey, a.mode, a.generation);
      if volume.spec.ownerKey != a.ownerKey || volume.status != VolumeAvailable then Failure(Conflict)
      else if a.generation > I64_MAX then Failure(Config)
      else if volume.spec.generation != a.generation || !Grants(volume.spec.capabilities, a.mode) then Failure(Conflict)
      else if AttachmentKey(a.vm, a.volume) in s.attachments then
        if s.attachments[AttachmentKey(a.vm, a.volume)] == row then Success(s) else Failure(Conflict)
      else if !volume.spec.capabilities.readWriteMany && Excluded(s, a.volume, a.mode) then Failure(Conflict)
      else if DeviceTaken(s, a.vm, a.device) then Failure(Database)
      else Success(s.(attachments := s.attachments[AttachmentKey(a.vm, a.volume) := row]))
  }

  function BindAll(s: Storage, ordered: seq<AttachmentRecord>, n: nat): Result<Storage, FleetError>
    decreases |ordered|
  {
    if ordered == [] then Success(s)
    else
      var bound :- BindOne(s, ordered[0], n);
      BindAll(bound, ordered[1..], n)
  }

  predicate OneTarget(requested: seq<AttachmentRecord>) {
    forall a | a in requested :: a.vm == requested[0].vm && a.ownerKey == requested[0].ownerKey
  }

  /** Attach every requested volume to one VM, or none of them. */
  function BindVmVolumes(vms: map<Uuid, VmRow>, s: Storage, requested: seq<AttachmentRecord>): Tx<Storage, ()> {
    if |requested| > MAX_DATA_VOLUMES then Failure(Conflict)
    else if requested == [] then Success((s, ()))
    else if !OneTarget(requested) then Failure(Conflict)
    else if requested[0].vm !in vms then Failure(NotFound)
    else if vms[requested[0].vm].record.ownerKey != Some(requested[0].ownerKey) then Failure(Conflict)
    else
      var bound :- BindAll(s, SortByVolume(requested), |requested|);
      Success((bound, ()))
  }

  function UnbindVmVolumes(s: Storage, owner: OwnerKey, vm: Uuid): Tx<Storage, ()> {
    Success((s.(attachments := map k | k in s.attachments && !(k.vm == vm && s.attachments[k].ownerKey == owner)
                                 :: s.attachments[k]), ()))
  }
}

/** Tenant quota and resumable forks. */
module AdmissionStore {
  import opened Results
  import opened FleetTables

  type Reservations = map<Uuid, Reservation>

  function PurgeExpired(reservations: Reservations, now: Time): Reservations {
    map id | id in reservations && reservations[id].expiresAt > now :: reservations[id]
  }

  function ActiveVms(vms: map<Uuid, VmRow>, owner: OwnerKey): set<Uuid> {
    set id | id in vms && vms[id].record.ownerKey == Some(owner) && IsActive(vms[id].record.status)
  }

  function LiveReservations(reservations: Reservations, owner: OwnerKey, now: Time): set<Uuid> {
    set id | id in reservations && reservations[id].ownerKey == owner && reservations[id].expiresAt > now
  }

  /** What counts against a tenant's limit at time `now`. */
  function Usage(vms: map<Uuid, VmRow>, reservations: Reservations, owner: OwnerKey, now: Time): nat {
    |ActiveVms(vms, owner)| + |LiveReservations(reservations, owner, now)|
  }

  function Limit(maxVms: nat): nat {
    if maxVms > I64_MAX then I64_MAX else maxVms
  }

  /** Count and reserve one slot. */
  function TakeSlot(vms: map<Uuid, VmRow>, reservations: Reservations, now: Time, owner: OwnerKey, id: Uuid, maxVms: nat,
                    expiresAt: Time): Result<Reservations, FleetError> {
    if Usage(vms, reservations, owner, now) >= Limit(maxVms) then Failure(QuotaExceeded)
    else Success(reservations[id := Reservation(owner, expiresAt)])
  }

  function ReserveVmQuota(vms: map<Uuid, VmRow>, q: Admission, now: Time, owner: OwnerKey, id: Uuid, maxVms: nat,
                          expiresAt: Time): Tx<Admission, ()> {
    var purged := PurgeExpired(q.reservations, now);
    if id in vms || id in q.forks || id in purged then Failure(Conflict)
    else
      var reserved :- TakeSlot(vms, purged, now, owner, id, maxVms, expiresAt);
      Success((q.(reservations := reserved), ()))
  }

  function ReleaseVmQuota(q: Admission, owner: OwnerKey, id: Uuid): Tx<Admission, ()> {
    if id in q.reservations && q.reservations[id].ownerKey == owner
    then Success((q.(reservations := q.reservations - {id}), ()))
    else Success((q, ()))
  }

  datatype ForkRequest = ForkRequest(child: Uuid, source: Uuid, ownerKey: OwnerKey, sourceHost: HostId,
                                     targetHost: HostId, session: Option<Uuid>)

  datatype ClaimOutcome = ClaimNew | ClaimResumed | ClaimInProgress | ClaimCommitted

  predicate SameFork(f: Fork, r: ForkRequest) {
    f.source == r.source && f.ownerKey == r.ownerKey && f.sourceHost == r.sourceHost && f.targetHost == r.targetHost
  }

  /** Give the child its reservation, or keep the one it has. */
  function HoldChildSlot(vms: map<Uuid, VmRow>, reservations: Reservations, now: Time, r: ForkRequest, outcome: ClaimOutcome,
                         restarted: bool, maxVms: nat, expiresAt: Time): Tx<Reservations, ClaimOutcome> {
    if r.child in reservations then
      if reservations[r.child].ownerKey != r.ownerKey then Failure(Conflict)
      else if outcome == ClaimResumed && !restarted then Success((reservations, ClaimInProgress))
      else Success((reservations[r.child := Reservation(r.ownerKey, expiresAt)], outcome))
    else if r.child in vms then Success((reservations, outcome))
    else
      var reserved :- TakeSlot(vms, reservations, now, r.ownerKey, r.child, maxVms, expiresAt);
      Success((reserved, outcome))
  }

  /** Create, resume or report the fork operation of a child VM. */
  function ClaimFork(vms: map<Uuid, VmRow>, q: Admission, now: Time, r: ForkRequest, maxVms: nat, expiresAt: Time): Tx<Admission, ClaimOutcome> {
    var purged := PurgeExpired(q.reservations, now);
    var known := r.child in q.forks;
    if known && !SameFork(q.forks[r.child], r) then Failure(Conflict)
    else if known && q.forks[r.child].status == Committed then Success((q.(reservations := purged), ClaimCommitted))
    else if !known && r.child in vms then Failure(Conflict)
    else
      var fork := if known then q.forks[r.child].(session := r.session)
                  else Fork(r.source, r.ownerKey, r.sourceHost, r.targetHost, r.session, Preparing, None);
      var restarted := known && q.forks[r.child].session != r.session;
      var held :- HoldChildSlot(vms, purged, now, r, if known then ClaimResumed else ClaimNew, restarted, maxVms, expiresAt);
      Success((Admission(q.forks[r.child := fork], held.0), held.1))
  }

  function CommitFork(q: Admission, child: Uuid, source: Uuid, owner: OwnerKey, childCreatedAt: Time): Tx<Admission, ()> {
    var created := Normalize(childCreatedAt);
    if child !in q.forks || q.forks[child].source != source || q.forks[child].ownerKey != owner then Failure(Conflict)
    else if q.forks[child].status == Committed && q.forks[child].childCreatedAt != Some(created) then Failure(Conflict)
    else Success((q.(forks := q.forks[child := q.forks[child].(status := Committed, childCreatedAt := Some(created))]), ()))
  }
}

/** Physical replicas, the cached replication state and repair leases. */
module ReplicationStore {
  import opened Results
  import opened FleetTables
  import opened ArtifactStore

  predicate Verified(r: Replica) {
    r.status == Available && r.verifiedAt.Some?
  }

  /** Verified copies on fresh hosts; with an owner, only that owner's rows. */
  function LiveReplicas(hosts: map<HostId, Host>, g: Graph, a: Uuid, owner: Option<OwnerKey>, cutoff: Time): set<ReplicaKey> {
    set k | k in g.replicas && k.artifact == a && Verified(g.replicas[k]) && Fresh(hosts, k.host, cutoff)
            && (owner == None || g.replicas[k].ownerKey == owner.value)
  }

  function Domains(g: Graph, keys: set<ReplicaKey>): set<string> {
    set k | k in keys && k in g.replicas :: g.replicas[k].failureDomain
  }

  predicate Meets(p: Policy, available: nat, domains: nat) {
    available >= p.minReplicas && domains >= p.minDomains
  }

  /** The replication state that a set of live copies amounts to. */
  function StateOf(p: Policy, g: Graph, live: set<ReplicaKey>): ReplicationState {
    if live == {} then Pending else if Meets(p, |live|, |Domains(g, live)|) then Ready else Degraded
  }

  datatype ReplicaRecord = ReplicaRecord(artifact: Uuid, hostId: HostId, row: Replica)

  predicate LocatorTaken(g: Graph, key: ReplicaKey, locator: string) {
    exists k | k in g.replicas :: k != key && g.replicas[k].locator == locator
  }

  /** Insert or replace a replica row; another tenant's row is left alone. */
  function StoreReplica(g: Graph, rec: ReplicaRecord): Result<Graph, FleetError> {
    var key := ReplicaKey(rec.artifact, rec.hostId);
    if key in g.replicas && g.replicas[key].ownerKey != rec.row.ownerKey then Success(g)
    else if LocatorTaken(g, key, rec.row.locator) then Failure(Conflict)
    else Success(g.(replicas := g.replicas[key := rec.row]))
  }

  predicate SameContent(r: Replica, spec: ArtifactSpec) {
    r.contentDigest == spec.contentDigest && r.sizeBytes == spec.sizeBytes && r.integrityDigest == spec.integrityDigest
  }

  function CacheState(g: Graph, a: Uuid, state: ReplicationState): Graph {
    if a in g.artifacts then g.(artifacts := g.artifacts[a := g.artifacts[a].(replication := state)]) else g
  }

  /** Publish one physical copy and recount the artifact's state. */
  function UpsertArtifactReplica(p: Policy, hosts: map<HostId, Host>, g: Graph, now: Time, rec: ReplicaRecord): Tx<Graph, ReplicationState> {
    if !Owned(g, rec.artifact, rec.row.ownerKey) then Failure(NotFound)
    else if !SameContent(rec.row, g.artifacts[rec.artifact].spec) then Failure(Conflict)
    else if rec.row.status == Available && rec.row.verifiedAt == None then Failure(Conflict)
    else
      var stored :- StoreReplica(g, rec);
      var state := StateOf(p, stored, LiveReplicas(hosts, stored, rec.artifact, Some(rec.row.ownerKey), Cutoff(now)));
      Success((CacheState(stored, rec.artifact, state), state))
  }

  /** The state recomputed from scratch for one artifact. */
  function DesiredState(p: Policy, hosts: map<HostId, Host>, g: Graph, a: Uuid, cutoff: Time): ReplicationState
    requires a in g.artifacts
  {
    if g.artifacts[a].status != Available then Pending
    else StateOf(p, g, LiveReplicas(hosts, g, a, Some(g.artifacts[a].spec.ownerKey), cutoff))
  }

  /** Recompute every cached state; the answer is the number of rows changed. */
  function RefreshReplicationHealth(p: Policy, hosts: map<HostId, Host>, g: Graph, staleBefore: Time): Tx<Graph, nat> {
    var stale := set a | a in g.artifacts && g.artifacts[a].replication != DesiredState(p, hosts, g, a, staleBefore);
    Success((g.(artifacts := map a | a in g.artifacts :: g.artifacts[a].(replication := DesiredState(p, hosts, g, a, staleBefore))),
             |stale|))
  }

  function SameDomain(g: Graph, keys: set<ReplicaKey>, domain: string): set<ReplicaKey> {
    set k | k in keys && k in g.replicas && g.replicas[k].failureDomain == domain
  }

  /** Grant the artifact's repair lease to a host that does not hold a copy. */
  function TryAcquireRepairLease(p: Policy, hosts: map<HostId, Host>, g: Graph, now: Time, a: Uuid, host: HostId, session: Uuid, domain: string,
                                 token: Uuid, expiresAt: Time): Tx<Graph, Option<Uuid>> {
    var live := LiveReplicas(hosts, g, a, None, Cutoff(now));
    if !Fresh(hosts, host, Cutoff(now)) || hosts[host].bootSession != Some(session) then Success((g, None))
    else if a !in g.artifacts || g.artifacts[a].status != Available || g.artifacts[a].replication != Degraded
    then Success((g, None))
    else if ReplicaKey(a, host) in g.replicas && Verified(g.replicas[ReplicaKey(a, host)]) then Success((g, None))
    else if SameDomain(g, live, domain) != {} && |Domains(g, live)| < p.minDomains then Success((g, None))
    else if Meets(p, |live|, |Domains(g, live)|) then Success((g, None))
    else if a in g.leases && g.leases[a].expiresAt >= now then Success((g, None))
    else Success((g.(leases := g.leases[a := RepairLease(host, session, token, expiresAt)]), Some(token)))
  }

  predicate HoldsLease(g: Graph, a: Uuid, host: HostId, session: Uuid, token: Uuid) {
    a in g.leases && g.leases[a].hostId == host && g.leases[a].bootSession == session && g.leases[a].token == token
  }

  function RenewRepairLease(g: Graph, a: Uuid, host: HostId, session: Uuid, token: Uuid, expiresAt: Time): Tx<Graph, bool> {
    if HoldsLease(g, a, host, session, token)
    then Success((g.(leases := g.leases[a := g.leases[a].(expiresAt := expiresAt)]), true))
    else Success((g, false))
  }

  function ReleaseRepairLease(g: Graph, a: Uuid, host: HostId, session: Uuid, token: Uuid): Tx<Graph, ()> {
    if HoldsLease(g, a, host, session, token) then Success((g.(leases := g.leases - {a}), ())) else Success((g, ()))
  }
}

/** The autoscaler's leader row and host heartbeats. */
module LeaderStore {
  import opened Results
  import opened FleetTables

  function TryAcquireLeader(leader: Option<Leader>, now: Time, node: string, ttlSeconds: int): Tx<Option<Leader>, bool> {
    if leader == None || leader.value.node == node || leader.value.expiresAt < now
    then Success((Some(Leader(node, now + ttlSeconds * NANOS_PER_SECOND)), true))
    else Success((leader, false))
  }

  function UpsertHost(hosts: map<HostId, Host>, id: HostId, host: Host): Tx<map<HostId, Host>, ()> {
    Success((hosts[id := host], ()))
  }
}
