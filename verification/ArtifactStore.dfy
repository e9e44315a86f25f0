/** Artifacts, the rows that refer to them, and the transactions that move
    references. A transaction is a function from tables to tables: a `Failure`
    is a rollback and carries no tables. */
module ArtifactStore {
  import opened Results
  import opened FleetTables

  // Referrers

  /** Everything a reference count counts. */
  datatype Referrer =
    | Child(artifact: Uuid)
    | Head(branch: Uuid)
    | Bound(hibernatedVm: Uuid)
    | Lazy(runningVm: Uuid)

  predicate Holds(g: Graph, r: Referrer, a: Uuid) {
    match r
    case Child(c) => c in g.artifacts && g.artifacts[c].spec.parent == Some(a)
    case Head(b) => b in g.branches && g.branches[b].head == a
    case Bound(v) => v in g.hibernations && g.hibernations[v].artifact == a
    case Lazy(v) => v in g.artifactRefs && g.artifactRefs[v].artifact == a
  }

  ghost predicate AreHolders(g: Graph, a: Uuid, holders: set<Referrer>) {
    forall r :: r in holders <==> Holds(g, r, a)
  }

  /** The rows that refer to artifact `a`. */
  ghost function Holders(g: Graph, a: Uuid): (holders: set<Referrer>)
    ensures forall r :: r in holders <==> Holds(g, r, a)
  {
    FinitelyManyHolders(g, a);
    var holders :| AreHolders(g, a, holders);
    holders
  }

  lemma FinitelyManyHolders(g: Graph, a: Uuid)
    ensures exists holders :: AreHolders(g, a, holders)
  {
    var children := set c | c in g.artifacts && Holds(g, Child(c), a) :: Child(c);
    var heads := set b | b in g.branches && Holds(g, Head(b), a) :: Head(b);
    var bound := set v | v in g.hibernations && Holds(g, Bound(v), a) :: Bound(v);
    var lazy := set v | v in g.artifactRefs && Holds(g, Lazy(v), a) :: Lazy(v);
    var holders := children + heads + bound + lazy;
    forall r ensures r in holders <==> Holds(g, r, a) {
      match r case Child(_) => case Head(_) => case Bound(_) => case Lazy(_) =>
    }
    assert AreHolders(g, a, holders);
  }

  /** The check behind the four ON DELETE RESTRICT foreign keys. */
  predicate Referred(g: Graph, a: Uuid) {
    || (exists c | c in g.artifacts :: Holds(g, Child(c), a))
    || (exists b | b in g.branches :: Holds(g, Head(b), a))
    || (exists v | v in g.hibernations :: Holds(g, Bound(v), a))
    || (exists v | v in g.artifactRefs :: Holds(g, Lazy(v), a))
  }

  lemma ReferredIffHeld(g: Graph, a: Uuid)
    ensures Referred(g, a) <==> Holders(g, a) != {}
  {
    if Holders(g, a) != {} {
      var r :| r in Holders(g, a);
      assert Holds(g, r, a);
      match r case Child(_) => case Head(_) => case Bound(_) => case Lazy(_) =>
    }
  }

  // Statements on the artifact table

  predicate Owned(g: Graph, a: Uuid, owner: OwnerKey) {
    a in g.artifacts && g.artifacts[a].spec.ownerKey == owner
  }

  function SetCount(g: Graph, a: Uuid, count: nat): Graph
    requires a in g.artifacts
  {
    g.(artifacts := g.artifacts[a := g.artifacts[a].(refCount := count)])
  }

  function AcquireRef(g: Graph, owner: OwnerKey, a: Uuid, needReady: bool): Result<Graph, FleetError> {
    if Owned(g, a, owner) && g.artifacts[a].status == Available && (needReady ==> g.artifacts[a].replication == Ready)
    then Success(SetCount(g, a, g.artifacts[a].refCount + 1))
    else Failure(NotFound)
  }

  function ReleaseRef(g: Graph, owner: OwnerKey, a: Uuid): Result<Graph, FleetError> {
    if Owned(g, a, owner) && g.artifacts[a].refCount > 0
    then Success(SetCount(g, a, g.artifacts[a].refCount - 1))
    else Failure(MissingReference)
  }

  /** Delete one artifact row: refused while any row refers to it, and its
      replicas and repair lease go with it. */
  function DeleteArtifactRow(g: Graph, a: Uuid): Result<Graph, FleetError> {
    if Referred(g, a) then Failure(RestrictViolation)
    else Success(g.(artifacts := g.artifacts - {a},
                    replicas := map k | k in g.replicas && k.artifact != a :: g.replicas[k],
                    leases := g.leases - {a}))
  }

  // The garbage-collection walk

  /** Delete `a` if nothing counts on it, hand its own reference back to its
      parent, and go on with the parent. */
  function CollectChain(g: Graph, owner: OwnerKey, a: Uuid): Result<Graph, FleetError>
    decreases |g.artifacts|
  {
    if !Owned(g, a, owner) || g.artifacts[a].refCount != 0 then Success(g)
    else
      var parent := g.artifacts[a].spec.parent;
      var deleted :- DeleteArtifactRow(g, a);
      if parent == None then Success(deleted)
      else
        var released :- ReleaseRef(deleted, owner, parent.value);
        assert released.artifacts.Keys == g.artifacts.Keys - {a};
        assert |released.artifacts.Keys| < |g.artifacts.Keys|;
        CollectChain(released, owner, parent.value)
  }

  /** The loop that `CollectChain` specifies. */
  method DeleteUnreferencedArtifactChain(g: Graph, owner: OwnerKey, a: Uuid) returns (r: Result<Graph, FleetError>)
    ensures r == CollectChain(g, owner, a)
  {
    var tx := g;
    var candidate := Some(a);
    while candidate.Some?
      invariant CollectChain(g, owner, a) == if candidate.Some? then CollectChain(tx, owner, candidate.value) else Success(tx)
      decreases |tx.artifacts|, candidate.Some?
    {
      var current := candidate.value;
      candidate := None;
      if !Owned(tx, current, owner) { break; }
      if tx.artifacts[current].refCount != 0 { break; }
      var parent := tx.artifacts[current].spec.parent;
      ghost var before := tx;
      tx :- DeleteArtifactRow(tx, current);
      if parent.Some? {
        tx :- ReleaseRef(tx, owner, parent.value);
        candidate := parent;
      }
      assert tx.artifacts.Keys == before.artifacts.Keys - {current};
      assert |tx.artifacts.Keys| < |before.artifacts.Keys|;
    }
    r := Success(tx);
  }

  // Artifacts

  datatype ArtifactRecord = ArtifactRecord(id: Uuid, spec: ArtifactSpec, status: ArtifactStatus, refCount: nat,
                                           updatedAt: Time)

  predicate FitsBigint(spec: ArtifactSpec) {
    spec.sizeBytes <= I64_MAX && spec.creationRevision <= I64_MAX && spec.chunkSize <= I64_MAX && spec.chunkCount <= I64_MAX
  }

  predicate ChecksHold(spec: ArtifactSpec) {
    spec.creationRevision > 0 && spec.chunkSize > 0 && spec.chunkCount > 0
  }

  /** The cached replication state given to a newly published artifact. */
  function InitialReplication(p: Policy, hosts: map<HostId, Host>, now: Time, art: ArtifactRecord): ReplicationState {
    if art.status != Available then Pending
    else if p.minReplicas == 1 && p.minDomains == 1 && Fresh(hosts, art.spec.hostId, Cutoff(now)) then Ready
    else Degraded
  }

  function PrimaryReplica(art: ArtifactRecord): Replica {
    Replica(art.spec.ownerKey, art.spec.hostId, art.spec.locator, art.status, art.spec.contentDigest,
            art.spec.sizeBytes, art.spec.integrityDigest, if art.status == Available then Some(art.updatedAt) else None)
  }

  /** A new artifact takes a reference on its parent. */
  function LinkParent(g: Graph, spec: ArtifactSpec): Result<Graph, FleetError> {
    if spec.parent == None then Success(g) else AcquireRef(g, spec.ownerKey, spec.parent.value, true)
  }

  predicate ArtifactLocatorTaken(g: Graph, locator: string) {
    exists a | a in g.artifacts :: g.artifacts[a].spec.locator == locator
  }

  predicate ReplicaLocatorTaken(g: Graph, locator: string) {
    exists k | k in g.replicas :: g.replicas[k].locator == locator
  }

  /** Insert the artifact row and the replica row of its first copy. */
  function StoreArtifact(p: Policy, hosts: map<HostId, Host>, g: Graph, now: Time, art: ArtifactRecord): Result<Graph, FleetError> {
    if !FitsBigint(art.spec) then Failure(Config)
    else if !ChecksHold(art.spec) || art.id in g.artifacts || ArtifactLocatorTaken(g, art.spec.locator) then Failure(Conflict)
    else if ReplicaLocatorTaken(g, art.spec.locator) then Failure(Database)
    else
      var row := Artifact(art.spec, art.status, InitialReplication(p, hosts, now, art), 0);
      Success(g.(artifacts := g.artifacts[art.id := row],
                 replicas := g.replicas[ReplicaKey(art.id, art.spec.hostId) := PrimaryReplica(art)]))
  }

  function InsertArtifact(p: Policy, hosts: map<HostId, Host>, g: Graph, now: Time, art: ArtifactRecord): Tx<Graph, ()> {
    if art.refCount != 0 then Failure(Conflict)
    else if Owned(g, art.id, art.spec.ownerKey) then
      if g.artifacts[art.id].spec == art.spec then Success((g, ())) else Failure(Conflict)
    else
      var linked :- LinkParent(g, art.spec);
      var stored :- StoreArtifact(p, hosts, linked, now, art);
      Success((stored, ()))
  }

  function DeleteArtifactIfUnreferenced(g: Graph, owner: OwnerKey, a: Uuid): Tx<Graph, Artifact> {
    if !Owned(g, a, owner) then Failure(NotFound)
    else if g.artifacts[a].refCount != 0 then Failure(Conflict)
    else
      var artifact := g.artifacts[a];
      var deleted :- DeleteArtifactRow(g, a);
      if artifact.spec.parent == None then Success((deleted, artifact))
      else
        var released :- ReleaseRef(deleted, owner, artifact.spec.parent.value);
        Success((released, artifact))
  }

  // Branches

  function FindBranch(g: Graph, owner: OwnerKey, b: Uuid): Result<Branch, FleetError> {
    if b in g.branches && g.branches[b].ownerKey == owner then Success(g.branches[b]) else Failure(NotFound)
  }

  function InsertBranch(vms: map<Uuid, VmRow>, g: Graph, id: Uuid, branch: Branch): Tx<Graph, Branch> {
    if id in g.branches && g.branches[id].ownerKey == branch.ownerKey then
      var existing := g.branches[id];
      if existing.(revision := branch.revision) == branch then Success((g, existing)) else Failure(Conflict)
    else if branch.sourceBranch.Some? && FindBranch(g, branch.ownerKey, branch.sourceBranch.value).Failure? then Failure(NotFound)
    else if branch.sourceVm.Some? && !(branch.sourceVm.value in vms
                                       && vms[branch.sourceVm.value].record.ownerKey == Some(branch.ownerKey)) then Failure(NotFound)
    else
      var held :- AcquireRef(g, branch.ownerKey, branch.head, true);
      if branch.revision > I64_MAX then Failure(Config)
      else if branch.revision == 0 || id in held.branches
              || (exists b | b in held.branches :: held.branches[b].ownerKey == branch.ownerKey && held.branches[b].name == branch.name)
      then Failure(Conflict)
      else Success((held.(branches := held.branches[id := branch]), branch))
  }

  /** Move a branch head: the new head is acquired before the old is released. */
  function UpdateBranchHead(g: Graph, owner: OwnerKey, b: Uuid, expected: nat, newHead: Uuid): Tx<Graph, Branch> {
    var current :- FindBranch(g, owner, b);
    if current.revision != expected then Failure(Conflict)
    else
      var held :- if current.head == newHead then Success(g) else AcquireRef(g, owner, newHead, true);
      if expected + 1 > I64_MAX then Failure(Config)
      else
        var branch := current.(head := newHead, revision := expected + 1);
        var moved := held.(branches := held.branches[b := branch]);
        var released :- if current.head == newHead then Success(moved) else ReleaseRef(moved, owner, current.head);
        Success((released, branch))
  }

  /** Remove a branch row; branches forked from it forget their source. */
  function DropBranch(g: Graph, b: Uuid): Graph {
    g.(branches := map k | k in g.branches && k != b ::
      if g.branches[k].sourceBranch == Some(b) then g.branches[k].(sourceBranch := None) else g.branches[k])
  }

  function DeleteBranch(g: Graph, owner: OwnerKey, b: Uuid): Tx<Graph, Branch> {
    var branch :- FindBranch(g, owner, b);
    var released :- ReleaseRef(DropBranch(g, b), owner, branch.head);
    var collected :- CollectChain(released, owner, branch.head);
    Success((collected, branch))
  }

  // Hibernations

  datatype HibernationRecord = HibernationRecord(vm: Uuid, ownerKey: OwnerKey, artifact: Uuid, policyVm: Uuid,
                                                 policyOwner: OwnerKey, policyRevision: nat)

  function UpsertHibernation(vms: map<Uuid, VmRow>, g: Graph, rec: HibernationRecord): Tx<Graph, ()> {
    if rec.policyVm != rec.vm || rec.policyOwner != rec.ownerKey || rec.policyRevision == 0 then Failure(Conflict)
    else
      var previous := if rec.vm in g.hibernations && g.hibernations[rec.vm].ownerKey == rec.ownerKey
                      then Some(g.hibernations[rec.vm].artifact) else None;
      var held :-
        if previous == Some(rec.artifact) then Success(g)
        else if rec.artifact in g.artifacts && g.artifacts[rec.artifact].spec.sourceVm == Some(rec.vm)
        then AcquireRef(g, rec.ownerKey, rec.artifact, true)
        else Failure(NotFound);
      if rec.policyRevision > I64_MAX then Failure(Config)
      else if rec.vm !in vms then Failure(Conflict)
      else if rec.vm in held.hibernations && held.hibernations[rec.vm].ownerKey != rec.ownerKey then Failure(Conflict)
      else
        var row := Hibernation(rec.ownerKey, rec.artifact, rec.policyRevision);
        var bound := held.(hibernations := held.hibernations[rec.vm := row]);
        var released :-
          if previous.Some? && previous.value != rec.artifact then ReleaseRef(bound, rec.ownerKey, previous.value)
          else Success(bound);
        Success((released, ()))
  }

  function DeleteHibernation(g: Graph, owner: OwnerKey, vm: Uuid): Tx<Graph, ()> {
    if vm !in g.hibernations || g.hibernations[vm].ownerKey != owner then Failure(NotFound)
    else
      var artifact := g.hibernations[vm].artifact;
      var released :- ReleaseRef(g.(hibernations := g.hibernations - {vm}), owner, artifact);
      var collected :- CollectChain(released, owner, artifact);
      Success((collected, ()))
  }

  // References held by running VMs

  function AcquireVmArtifactRef(g: Graph, vm: VmRecord, a: Uuid): Tx<Graph, ()> {
    if vm.ownerKey == None then Failure(Conflict)
    else
      var ref := ArtifactRef(vm.ownerKey.value, a, Normalize(vm.createdAt));
      if vm.id in g.artifactRefs then
        if g.artifactRefs[vm.id] == ref then Success((g, ())) else Failure(Conflict)
      else
        var held :- AcquireRef(g, vm.ownerKey.value, a, false);
        Success((held.(artifactRefs := held.artifactRefs[vm.id := ref]), ()))
  }

  /** Shared by `ReleaseVmArtifactRef` and VM deletion. */
  function ReleaseVmRef(g: Graph, vm: VmRecord): Result<Graph, FleetError> {
    if vm.id !in g.artifactRefs then Success(g)
    else
      var ref := g.artifactRefs[vm.id];
      if vm.ownerKey != Some(ref.ownerKey) || Normalize(vm.createdAt) != ref.vmCreatedAt then Failure(Conflict)
      else
        var released :- ReleaseRef(g.(artifactRefs := g.artifactRefs - {vm.id}), ref.ownerKey, ref.artifact);
        CollectChain(released, ref.ownerKey, ref.artifact)
  }

  function ReleaseVmArtifactRef(g: Graph, vm: VmRecord): Tx<Graph, ()> {
    var released :- ReleaseVmRef(g, vm);
    Success((released, ()))
  }
}
