/** What reference-moving transactions do to replicas and leases: nothing, but
    for the artifacts they delete. */
module FleetCascades {
  import opened Results
  import opened FleetTables
  import opened ArtifactStore
  import opened VmStore
  import opened FleetRuns

  /** Some artifacts may be gone, with their replicas and leases; what is left
      changed at most its count. */
  ghost predicate Kept(g: Graph, g': Graph) {
    && g'.artifacts.Keys <= g.artifacts.Keys
    && (forall a | a in g'.artifacts :: g'.artifacts[a] == g.artifacts[a].(refCount := g'.artifacts[a].refCount))
    && (forall k | k in g'.replicas :: k in g.replicas && g'.replicas[k] == g.replicas[k])
    && (forall k | k in g'.replicas && k.artifact in g.artifacts :: k.artifact in g'.artifacts)
    && (forall k | k in g.replicas && k.artifact in g'.artifacts :: k in g'.replicas)
    && (forall a | a in g'.leases :: a in g.leases && g'.leases[a] == g.leases[a])
    && (forall a | a in g.leases && a in g'.artifacts :: a in g'.leases)
    && (forall a | a in g'.leases && a in g.artifacts :: a in g'.artifacts)
  }

  /** Replicas belong to present artifacts of their owner. */
  ghost predicate ReplicasAnchored(g: Graph) {
    forall k | k in g.replicas :: k.artifact in g.artifacts && g.replicas[k].ownerKey == g.artifacts[k.artifact].spec.ownerKey
  }

  lemma AcquireKeeps(g: Graph, owner: OwnerKey, a: Uuid, needReady: bool)
    ensures var r := AcquireRef(g, owner, a, needReady); r.Success? ==> Kept(g, r.value) && r.value == g.(artifacts := r.value.artifacts)
  {
  }

  lemma ReleaseKeeps(g: Graph, owner: OwnerKey, a: Uuid)
    ensures var r := ReleaseRef(g, owner, a); r.Success? ==> Kept(g, r.value) && r.value == g.(artifacts := r.value.artifacts)
  {
  }

  lemma DeletedRowKeeps(g: Graph, a: Uuid)
    requires !Referred(g, a)
    ensures Kept(g, DeleteArtifactRow(g, a).value)
  {
  }

  /** One round of the walk that goes on with the parent. */
  lemma RoundKeeps(g: Graph, owner: OwnerKey, a: Uuid, parent: Uuid)
    requires Owned(g, a, owner) && !Referred(g, a) && ReleaseRef(DeleteArtifactRow(g, a).value, owner, parent).Success?
    ensures var released := ReleaseRef(DeleteArtifactRow(g, a).value, owner, parent).value;
      Kept(g, released) && |released.artifacts| < |g.artifacts|
  {
    var deleted := DeleteArtifactRow(g, a).value;
    var released := ReleaseRef(deleted, owner, parent);
    DeletedRowKeeps(g, a);
    ReleaseKeeps(deleted, owner, parent);
    KeptTwice(g, deleted, released);
    assert released.value.artifacts.Keys == g.artifacts.Keys - {a};
    assert |released.value.artifacts.Keys| < |g.artifacts.Keys|;
  }

  lemma {:induction false} CollectKeeps(g: Graph, owner: OwnerKey, a: Uuid)
    ensures var r := CollectChain(g, owner, a); r.Success? ==> Kept(g, r.value)
    decreases |g.artifacts|
  {
    if Owned(g, a, owner) && g.artifacts[a].refCount == 0 && !Referred(g, a) {
      var parent, deleted := g.artifacts[a].spec.parent, DeleteArtifactRow(g, a).value;
      DeletedRowKeeps(g, a);
      if parent.Some? && ReleaseRef(deleted, owner, parent.value).Success? {
        var released := ReleaseRef(deleted, owner, parent.value).value;
        RoundKeeps(g, owner, a, parent.value);
        CollectKeeps(released, owner, parent.value);
        KeptTwice(g, released, CollectChain(g, owner, a));
      }
    }
  }

  lemma KeptTwice(g: Graph, g': Graph, r: Result<Graph, FleetError>)
    requires Kept(g, g') && (r.Success? ==> Kept(g', r.value))
    ensures r.Success? ==> Kept(g, r.value)
  {
  }

  /** Release a reference and walk. */
  lemma ReleaseAndCollectKeep(g: Graph, dropped: Graph, owner: OwnerKey, a: Uuid)
    requires dropped.artifacts == g.artifacts && dropped.replicas == g.replicas && dropped.leases == g.leases
    ensures var r := ReleaseRef(dropped, owner, a); r.Success? ==>
      var c := CollectChain(r.value, owner, a); c.Success? ==> Kept(g, c.value)
  {
    ReleaseKeeps(dropped, owner, a);
    if ReleaseRef(dropped, owner, a).Success? {
      CollectKeeps(ReleaseRef(dropped, owner, a).value, owner, a);
    }
  }

  lemma DeleteArtifactKeeps(g: Graph, owner: OwnerKey, a: Uuid)
    ensures Kept(g, After(g, DeleteArtifactIfUnreferenced(g, owner, a)))
  {
    if Owned(g, a, owner) && DeleteArtifactRow(g, a).Success? {
      var deleted := DeleteArtifactRow(g, a).value;
      assert Kept(g, deleted);
      if g.artifacts[a].spec.parent.Some? { ReleaseKeeps(deleted, owner, g.artifacts[a].spec.parent.value); }
    }
  }

  lemma UpdateBranchHeadKeeps(g: Graph, owner: OwnerKey, b: Uuid, expected: nat, newHead: Uuid)
    ensures Kept(g, After(g, UpdateBranchHead(g, owner, b, expected, newHead)))
  {
    var tx := UpdateBranchHead(g, owner, b, expected, newHead);
    AcquireKeeps(g, owner, newHead, true);
    if tx.Success? && g.branches[b].head != newHead {
      var held := AcquireRef(g, owner, newHead, true).value;
      var moved := held.(branches := held.branches[b := tx.value.1]);
      ReleaseKeeps(moved, owner, g.branches[b].head);
      assert tx.value.0 == ReleaseRef(moved, owner, g.branches[b].head).value;
    }
  }

  lemma UpsertHibernationKeeps(vms: map<Uuid, VmRow>, g: Graph, rec: HibernationRecord)
    ensures Kept(g, After(g, UpsertHibernation(vms, g, rec)))
  {
    var tx := UpsertHibernation(vms, g, rec);
    AcquireKeeps(g, rec.ownerKey, rec.artifact, true);
    var rebound := rec.vm in g.hibernations && g.hibernations[rec.vm].ownerKey == rec.ownerKey;
    if tx.Success? && !(rebound && g.hibernations[rec.vm].artifact == rec.artifact) {
      var held := AcquireRef(g, rec.ownerKey, rec.artifact, true).value;
      var bound := held.(hibernations := held.hibernations[rec.vm := Hibernation(rec.ownerKey, rec.artifact, rec.policyRevision)]);
      if rebound {
        ReleaseKeeps(bound, rec.ownerKey, g.hibernations[rec.vm].artifact);
        assert tx.value.0 == ReleaseRef(bound, rec.ownerKey, g.hibernations[rec.vm].artifact).value;
      } else {
        assert tx.value.0 == bound;
      }
    }
  }

  lemma InsertBranchKeeps(vms: map<Uuid, VmRow>, g: Graph, id: Uuid, branch: Branch)
    ensures Kept(g, After(g, InsertBranch(vms, g, id, branch)))
  {
    AcquireKeeps(g, branch.ownerKey, branch.head, true);
  }

  lemma DeleteBranchKeeps(g: Graph, owner: OwnerKey, b: Uuid)
    ensures Kept(g, After(g, DeleteBranch(g, owner, b)))
  {
    if b in g.branches { ReleaseAndCollectKeep(g, DropBranch(g, b), owner, g.branches[b].head); }
  }

  lemma DeleteHibernationKeeps(g: Graph, owner: OwnerKey, v: Uuid)
    ensures Kept(g, After(g, DeleteHibernation(g, owner, v)))
  {
    if v in g.hibernations {
      ReleaseAndCollectKeep(g, g.(hibernations := g.hibernations - {v}), owner, g.hibernations[v].artifact);
    }
  }

  lemma AcquireVmRefKeeps(g: Graph, vm: VmRecord, a: Uuid)
    ensures Kept(g, After(g, AcquireVmArtifactRef(g, vm, a)))
  {
    if vm.ownerKey.Some? { AcquireKeeps(g, vm.ownerKey.value, a, false); }
  }

  lemma ArtifactStepKeeps(p: Policy, t: Tables, now: Time, op: ArtifactOp)
    requires !op.OpInsertArtifact?
    ensures Kept(t.graph, ApplyArtifact(p, t, now, op))
  {
    var g := t.graph;
    match op
    case OpDeleteArtifact(o, a) => DeleteArtifactKeeps(g, o, a);
    case OpInsertBranch(id, b) => InsertBranchKeeps(t.vms, g, id, b);
    case OpUpdateBranchHead(o, id, rev, head) => UpdateBranchHeadKeeps(g, o, id, rev, head);
    case OpDeleteBranch(o, b) => DeleteBranchKeeps(g, o, b);
    case OpUpsertHibernation(h) => UpsertHibernationKeeps(t.vms, g, h);
    case OpDeleteHibernation(o, v) => DeleteHibernationKeeps(g, o, v);
    case OpAcquireVmRef(vm, a) => AcquireVmRefKeeps(g, vm, a);
    case OpReleaseVmRef(vm) => ReleaseVmRefKeeps(g, vm);
  }

  lemma ReleaseVmRefKeeps(g: Graph, vm: VmRecord)
    ensures var r := ReleaseVmRef(g, vm); r.Success? ==> Kept(g, r.value)
  {
    if vm.id in g.artifactRefs {
      var ref := g.artifactRefs[vm.id];
      ReleaseAndCollectKeep(g, g.(artifactRefs := g.artifactRefs - {vm.id}), ref.ownerKey, ref.artifact);
    }
  }

  lemma HoldingsKeep(g: Graph, vm: VmRecord)
    ensures var r := ReleaseHoldings(g, vm); r.Success? ==> Kept(g, r.value)
  {
    ReleaseVmRefKeeps(g, vm);
    if ReleaseVmRef(g, vm).Success? {
      var unlinked, id := ReleaseVmRef(g, vm).value, vm.id;
      if id in unlinked.hibernations {
        var bound := unlinked.hibernations[id];
        ReleaseAndCollectKeep(unlinked, unlinked.(hibernations := unlinked.hibernations - {id}), bound.ownerKey, bound.artifact);
      }
      KeptTwice(g, unlinked, ReleaseHoldings(g, vm));
    }
  }

  lemma DeleteVmKeeps(t: Tables, vm: VmRecord)
    ensures Kept(t.graph, After(t, DeleteVm(t, vm)).graph) && After(t, DeleteVm(t, vm)).hosts == t.hosts
  {
    HoldingsKeep(t.graph, vm);
    if ReleaseHoldings(t.graph, vm).Success? {
      var graph := ReleaseHoldings(t.graph, vm).value;
      assert Kept(t.graph, graph.(hibernations := graph.hibernations - {vm.id}));
    }
  }

  lemma VmStepKeeps(t: Tables, now: Time, op: VmOp)
    ensures Kept(t.graph, ApplyVm(t, now, op).graph)
    ensures ApplyVm(t, now, op).hosts == t.hosts
  {
    if op.OpDeleteVm? {
      DeleteVmKeeps(t, op.vm);
    } else {
      assert ApplyVm(t, now, op).graph == t.graph;
      KeptAsIs(t.graph);
    }
  }

  lemma KeptAsIs(g: Graph)
    ensures Kept(g, g)
  {
  }

  lemma KeptStaysAnchored(g: Graph, g': Graph)
    requires ReplicasAnchored(g) && Kept(g, g')
    ensures ReplicasAnchored(g')
  {
  }
}

/** The cached replication state against a recount from scratch, and the
    progress that repairs make. */
module FleetReplication {
  import opened Results
  import opened FleetTables
  import opened ArtifactStore
  import opened ReplicationStore
  import opened FleetRuns
  import opened FleetCascades

  // Agreement of the cache

  /** The cached state of `a` is what a recount gives. */
  predicate AgreesOn(p: Policy, hosts: map<HostId, Host>, g: Graph, a: Uuid, cutoff: Time)
    requires a in g.artifacts
  {
    g.artifacts[a].replication == DesiredState(p, hosts, g, a, cutoff)
  }

  ghost predicate Agrees(p: Policy, hosts: map<HostId, Host>, g: Graph, cutoff: Time) {
    forall a | a in g.artifacts :: AgreesOn(p, hosts, g, a, cutoff)
  }

  /** Replicas of `a`, its status and its owner are the same in both graphs. */
  ghost predicate SameCopies(g: Graph, g': Graph, a: Uuid) {
    && a in g.artifacts && a in g'.artifacts
    && g'.artifacts[a].status == g.artifacts[a].status && g'.artifacts[a].spec.ownerKey == g.artifacts[a].spec.ownerKey
    && SameReplicas(g, g', a)
  }

  ghost predicate SameReplicas(g: Graph, g': Graph, a: Uuid) {
    forall k: ReplicaKey | k.artifact == a :: (k in g.replicas <==> k in g'.replicas) && (k in g.replicas ==> g'.replicas[k] == g.replicas[k])
  }

  lemma SameCopiesSameState(p: Policy, hosts: map<HostId, Host>, g: Graph, g': Graph, a: Uuid, cutoff: Time)
    requires SameCopies(g, g', a)
    ensures DesiredState(p, hosts, g', a, cutoff) == DesiredState(p, hosts, g, a, cutoff)
  {
    var owner := Some(g.artifacts[a].spec.ownerKey);
    var live, live' := LiveReplicas(hosts, g, a, owner, cutoff), LiveReplicas(hosts, g', a, owner, cutoff);
    assert live' == live;
    assert Domains(g', live') == Domains(g, live);
  }

  /** Transactions that only delete artifacts or move counts keep agreement. */
  lemma KeptStaysAgreed(p: Policy, hosts: map<HostId, Host>, g: Graph, g': Graph, cutoff: Time)
    requires Agrees(p, hosts, g, cutoff) && Kept(g, g')
    ensures Agrees(p, hosts, g', cutoff)
  {
    forall a | a in g'.artifacts ensures AgreesOn(p, hosts, g', a, cutoff) {
      SameCopiesSameState(p, hosts, g, g', a, cutoff);
    }
  }

  // Refresh

  /** A refresh makes every cached state agree; when they already agree it
      changes no row. */
  lemma RefreshAgrees(p: Policy, hosts: map<HostId, Host>, g: Graph, cutoff: Time)
    ensures var tx := RefreshReplicationHealth(p, hosts, g, cutoff);
      tx.Success? && Agrees(p, hosts, tx.value.0, cutoff)
  {
    var g' := RefreshReplicationHealth(p, hosts, g, cutoff).value.0;
    forall a | a in g'.artifacts ensures AgreesOn(p, hosts, g', a, cutoff) {
      SameCopiesSameState(p, hosts, g, g', a, cutoff);
    }
  }

  lemma AgreedRefreshIsNoop(p: Policy, hosts: map<HostId, Host>, g: Graph, cutoff: Time)
    ensures RefreshReplicationHealth(p, hosts, g, cutoff) == Success((g, 0)) <==> Agrees(p, hosts, g, cutoff)
  {
    var tx := RefreshReplicationHealth(p, hosts, g, cutoff);
    var stale := set a | a in g.artifacts && g.artifacts[a].replication != DesiredState(p, hosts, g, a, cutoff);
    if Agrees(p, hosts, g, cutoff) {
      assert stale == {};
      assert tx.value.0.artifacts == g.artifacts;
    } else {
      var a :| a in g.artifacts && !AgreesOn(p, hosts, g, a, cutoff);
      assert a in stale;
      assert |stale| == tx.value.1;
    }
  }

  lemma SecondRefreshChangesNothing(p: Policy, hosts: map<HostId, Host>, g: Graph, cutoff: Time)
    ensures var once := RefreshReplicationHealth(p, hosts, g, cutoff).value.0;
      RefreshReplicationHealth(p, hosts, once, cutoff) == Success((once, 0))
  {
    RefreshAgrees(p, hosts, g, cutoff);
    AgreedRefreshIsNoop(p, hosts, RefreshReplicationHealth(p, hosts, g, cutoff).value.0, cutoff);
  }

  /** A refresh rewrites cached states only, and answers how many it changed. */
  lemma RefreshOutcome(p: Policy, hosts: map<HostId, Host>, g: Graph, cutoff: Time)
    ensures var tx := RefreshReplicationHealth(p, hosts, g, cutoff);
      && tx.Success? && tx.value.0 == g.(artifacts := tx.value.0.artifacts) && tx.value.0.artifacts.Keys == g.artifacts.Keys
      && (forall a | a in g.artifacts :: tx.value.0.artifacts[a] == g.artifacts[a].(replication := tx.value.0.artifacts[a].replication))
      && tx.value.1 == |set a | a in g.artifacts && tx.value.0.artifacts[a] != g.artifacts[a]|
  {
    var g' := RefreshReplicationHealth(p, hosts, g, cutoff).value.0;
    var stale := set a | a in g.artifacts && g.artifacts[a].replication != DesiredState(p, hosts, g, a, cutoff);
    assert stale == set a | a in g.artifacts && g'.artifacts[a] != g.artifacts[a];
  }

  // Publication

  /** The guess stored with a new artifact agrees with a recount exactly when
      the artifact is not available yet or its first host is fresh. */
  lemma NewArtifactAgrees(p: Policy, hosts: map<HostId, Host>, g: Graph, now: Time, art: ArtifactRecord)
    requires (forall k | k in g.replicas :: k.artifact in g.artifacts) && StoreArtifact(p, hosts, g, now, art).Success?
    ensures var g' := StoreArtifact(p, hosts, g, now, art).value;
      art.id in g'.artifacts &&
      (AgreesOn(p, hosts, g', art.id, Cutoff(now)) <==> art.status != Available || Fresh(hosts, art.spec.hostId, Cutoff(now)))
  {
    var g' := StoreArtifact(p, hosts, g, now, art).value;
    var key := ReplicaKey(art.id, art.spec.hostId);
    var live := LiveReplicas(hosts, g', art.id, Some(art.spec.ownerKey), Cutoff(now));
    assert live == if art.status == Available && Fresh(hosts, art.spec.hostId, Cutoff(now)) then {key} else {};
    assert Domains(g', {key}) == {art.spec.hostId};
  }

  /** Publishing an artifact leaves the copies of all others alone. */
  lemma InsertKeepsOthers(p: Policy, hosts: map<HostId, Host>, g: Graph, now: Time, art: ArtifactRecord, a: Uuid)
    requires a in g.artifacts && a != art.id
    ensures var g' := After(g, InsertArtifact(p, hosts, g, now, art));
      SameCopies(g, g', a) && g'.artifacts[a].replication == g.artifacts[a].replication
  {
    var tx := InsertArtifact(p, hosts, g, now, art);
    if tx.Success? && tx.value.0 != g {
      var linked := LinkParent(g, art.spec).value;
      LinkKeeps(g, art.spec);
      StoreShape(p, hosts, linked, now, art);
      assert tx.value.0 == StoreArtifact(p, hosts, linked, now, art).value;
    }
  }

  lemma LinkKeeps(g: Graph, spec: ArtifactSpec)
    requires LinkParent(g, spec).Success?
    ensures Kept(g, LinkParent(g, spec).value) && LinkParent(g, spec).value.artifacts.Keys == g.artifacts.Keys
    ensures LinkParent(g, spec).value.replicas == g.replicas && LinkParent(g, spec).value.leases == g.leases
  {
    if spec.parent.Some? { AcquireKeeps(g, spec.ownerKey, spec.parent.value, true); }
  }

  lemma StoreShape(p: Policy, hosts: map<HostId, Host>, g: Graph, now: Time, art: ArtifactRecord)
    requires StoreArtifact(p, hosts, g, now, art).Success?
    ensures var g' := StoreArtifact(p, hosts, g, now, art).value;
      && art.id !in g.artifacts && art.id in g'.artifacts
      && g'.artifacts == g.artifacts[art.id := g'.artifacts[art.id]] && g'.artifacts[art.id].spec == art.spec
      && g'.replicas == g.replicas[ReplicaKey(art.id, art.spec.hostId) := PrimaryReplica(art)]
      && g'.leases == g.leases
  {
  }

  // Replicas

  /** The upserts that are accepted. */
  predicate Accepted(g: Graph, rec: ReplicaRecord) {
    && Owned(g, rec.artifact, rec.row.ownerKey)
    && SameContent(rec.row, g.artifacts[rec.artifact].spec)
    && !(rec.row.status == Available && rec.row.verifiedAt == None)
    && (HasForeignRow(g, rec) || !LocatorTaken(g, ReplicaKey(rec.artifact, rec.hostId), rec.row.locator))
  }

  /** Another tenant's row is in the way, and stays. */
  predicate HasForeignRow(g: Graph, rec: ReplicaRecord) {
    var key := ReplicaKey(rec.artifact, rec.hostId);
    key in g.replicas && g.replicas[key].ownerKey != rec.row.ownerKey
  }

  lemma AcceptedMeansSuccess(p: Policy, hosts: map<HostId, Host>, g: Graph, now: Time, rec: ReplicaRecord)
    ensures UpsertArtifactReplica(p, hosts, g, now, rec).Success? <==> Accepted(g, rec)
  {
  }

  /** With this record stored no copy of the artifact counts: none on another
      host does, and the record does not count itself or is not taken. */
  predicate LeavesNoLiveCopy(hosts: map<HostId, Host>, g: Graph, now: Time, rec: ReplicaRecord) {
    && (forall k | k in g.replicas :: k.artifact == rec.artifact && k.host != rec.hostId && g.replicas[k].ownerKey == rec.row.ownerKey ==>
          !(Verified(g.replicas[k]) && Fresh(hosts, k.host, Cutoff(now))))
    && (HasForeignRow(g, rec) || !(Verified(rec.row) && Fresh(hosts, rec.hostId, Cutoff(now))))
  }

  lemma PendingMeansNoLiveCopy(p: Policy, hosts: map<HostId, Host>, g: Graph, now: Time, rec: ReplicaRecord)
    requires UpsertArtifactReplica(p, hosts, g, now, rec).Success?
    ensures UpsertArtifactReplica(p, hosts, g, now, rec).value.1 == Pending <==> LeavesNoLiveCopy(hosts, g, now, rec)
  {
    StateIsCounted(p, hosts, g, now, rec);
    var stored, key := StoreReplica(g, rec).value, ReplicaKey(rec.artifact, rec.hostId);
    var live := LiveReplicas(hosts, stored, rec.artifact, Some(rec.row.ownerKey), Cutoff(now));
    assert stored.replicas == if HasForeignRow(g, rec) then g.replicas else g.replicas[key := rec.row];
    if live == {} {
      forall k | k in g.replicas && k.artifact == rec.artifact && k.host != rec.hostId && g.replicas[k].ownerKey == rec.row.ownerKey
        ensures !(Verified(g.replicas[k]) && Fresh(hosts, k.host, Cutoff(now)))
      {
        assert k !in live;
      }
      assert key !in live;
    } else {
      var k :| k in live;
      assert k == key || k.host != rec.hostId;
    }
  }

  /** The state stored with a replica agrees with a recount exactly when the
      artifact is available, or the record leaves it without a live copy. */
  lemma UpsertedReplicaAgrees(p: Policy, hosts: map<HostId, Host>, g: Graph, now: Time, rec: ReplicaRecord)
    requires Accepted(g, rec)
    ensures var tx := UpsertArtifactReplica(p, hosts, g, now, rec);
      && tx.Success? && rec.artifact in tx.value.0.artifacts
      && (AgreesOn(p, hosts, tx.value.0, rec.artifact, Cutoff(now))
          <==> g.artifacts[rec.artifact].status == Available || LeavesNoLiveCopy(hosts, g, now, rec))
  {
    AcceptedMeansSuccess(p, hosts, g, now, rec);
    StateIsCounted(p, hosts, g, now, rec);
    UpsertShape(p, hosts, g, now, rec);
    PendingMeansNoLiveCopy(p, hosts, g, now, rec);
    var stored, g' := StoreReplica(g, rec).value, UpsertArtifactReplica(p, hosts, g, now, rec).value.0;
    SameRowsSameState(p, hosts, stored, g', rec.artifact, Some(rec.row.ownerKey), Cutoff(now));
  }

  lemma StateIsCounted(p: Policy, hosts: map<HostId, Host>, g: Graph, now: Time, rec: ReplicaRecord)
    requires UpsertArtifactReplica(p, hosts, g, now, rec).Success?
    ensures StoreReplica(g, rec).Success? && Owned(g, rec.artifact, rec.row.ownerKey)
    ensures var stored, tx := StoreReplica(g, rec).value, UpsertArtifactReplica(p, hosts, g, now, rec).value;
      && stored.artifacts == g.artifacts && tx.0.replicas == stored.replicas
      && tx.1 == StateOf(p, stored, LiveReplicas(hosts, stored, rec.artifact, Some(rec.row.ownerKey), Cutoff(now)))
  {
  }

  lemma SameRowsSameState(p: Policy, hosts: map<HostId, Host>, g: Graph, g': Graph, a: Uuid, owner: Option<OwnerKey>, cutoff: Time)
    requires g'.replicas == g.replicas
    ensures StateOf(p, g', LiveReplicas(hosts, g', a, owner, cutoff)) == StateOf(p, g, LiveReplicas(hosts, g, a, owner, cutoff))
  {
    var live, live' := LiveReplicas(hosts, g, a, owner, cutoff), LiveReplicas(hosts, g', a, owner, cutoff);
    assert live' == live;
    assert Domains(g', live) == Domains(g, live);
  }

  lemma UpsertShape(p: Policy, hosts: map<HostId, Host>, g: Graph, now: Time, rec: ReplicaRecord)
    requires UpsertArtifactReplica(p, hosts, g, now, rec).Success?
    ensures var tx := UpsertArtifactReplica(p, hosts, g, now, rec).value; var key := ReplicaKey(rec.artifact, rec.hostId);
      && Owned(g, rec.artifact, rec.row.ownerKey)
      && tx.0.artifacts == g.artifacts[rec.artifact := g.artifacts[rec.artifact].(replication := tx.1)]
      && (if key in g.replicas && g.replicas[key].ownerKey != rec.row.ownerKey then tx.0.replicas == g.replicas
          else tx.0.replicas == g.replicas[key := rec.row])
      && tx.0.leases == g.leases
  {
    var stored := StoreReplica(g, rec).value;
    assert stored == g.(replicas := stored.replicas);
    var tx := UpsertArtifactReplica(p, hosts, g, now, rec).value;
    assert tx.0 == CacheState(stored, rec.artifact, tx.1);
  }

  lemma UpsertReplicaKeepsOthers(p: Policy, hosts: map<HostId, Host>, g: Graph, now: Time, rec: ReplicaRecord, a: Uuid)
    requires a in g.artifacts && a != rec.artifact
    ensures var g' := After(g, UpsertArtifactReplica(p, hosts, g, now, rec));
      SameCopies(g, g', a) && g'.artifacts[a].replication == g.artifacts[a].replication
  {
    if UpsertArtifactReplica(p, hosts, g, now, rec).Success? { UpsertShape(p, hosts, g, now, rec); }
  }

  /** A copy is stored exactly when the artifact is the tenant's and has that very
      content, a copy said to be available was verified, and no other copy has its
      locator. Then the row is there, beside all others. */
  lemma UpsertReplicaOutcome(p: Policy, hosts: map<HostId, Host>, g: Graph, now: Time, rec: ReplicaRecord)
    requires ReplicasAnchored(g)
    ensures var tx, key := UpsertArtifactReplica(p, hosts, g, now, rec), ReplicaKey(rec.artifact, rec.hostId);
      && (tx.Success? <==>
            && Owned(g, rec.artifact, rec.row.ownerKey)
            && (var spec := g.artifacts[rec.artifact].spec;
                rec.row.contentDigest == spec.contentDigest && rec.row.sizeBytes == spec.sizeBytes && rec.row.integrityDigest == spec.integrityDigest)
            && (rec.row.status == Available ==> rec.row.verifiedAt.Some?)
            && (forall k | k in g.replicas && k != key :: g.replicas[k].locator != rec.row.locator))
      && (tx.Success? ==>
            && tx.value.0.replicas == g.replicas[key := rec.row] && tx.value.0.leases == g.leases
            && tx.value.0.artifacts == g.artifacts[rec.artifact := g.artifacts[rec.artifact].(replication := tx.value.1)])
  {
    if UpsertArtifactReplica(p, hosts, g, now, rec).Success? { UpsertShape(p, hosts, g, now, rec); }
  }

  // Where the cache goes wrong

  const SAMPLE := ArtifactSpec("tenant", "host", "locator", "disk", "content", 0, "image", "agent", "boot", None, None, 1, "integrity", 1, 1)

  /** Published on a host nobody has heard from, an available artifact is cached
      as degraded while a recount finds no copy. */
  lemma FirstHostMayBeStale(p: Policy, now: Time)
    ensures var tx := InsertArtifact(p, EMPTY.hosts, EMPTY.graph, now, ArtifactRecord(1, SAMPLE, Available, 0, now));
      && tx.Success? && 1 in tx.value.0.artifacts && tx.value.0.artifacts[1].replication == Degraded
      && DesiredState(p, EMPTY.hosts, tx.value.0, 1, Cutoff(now)) == Pending
  {
    var art := ArtifactRecord(1, SAMPLE, Available, 0, now);
    var linked := LinkParent(EMPTY.graph, SAMPLE).value;
    assert linked == EMPTY.graph && StoreArtifact(p, EMPTY.hosts, linked, now, art).Success?;
    NewArtifactAgrees(p, EMPTY.hosts, linked, now, art);
  }

  /** A verified copy on a fresh host makes a staging artifact ready or degraded,
      while a recount calls every artifact pending that is not available. */
  lemma StagingArtifactMayLookReplicated(p: Policy, now: Time)
    ensures var hosts := map["host" := Host(None, true, now)];
      var g := EMPTY.graph.(artifacts := map[1 := Artifact(SAMPLE, Staging, Pending, 0)]);
      var tx := UpsertArtifactReplica(p, hosts, g, now, ReplicaRecord(1, "host", Replica("tenant", "rack", "copy", Available, "content", 0, "integrity", Some(now))));
      && tx.Success? && tx.value.1 != Pending && 1 in tx.value.0.artifacts && tx.value.0.artifacts[1].replication == tx.value.1
      && DesiredState(p, hosts, tx.value.0, 1, Cutoff(now)) == Pending
  {
    var hosts := map["host" := Host(None, true, now)];
    var g := EMPTY.graph.(artifacts := map[1 := Artifact(SAMPLE, Staging, Pending, 0)]);
    var rec := ReplicaRecord(1, "host", Replica("tenant", "rack", "copy", Available, "content", 0, "integrity", Some(now)));
    assert Accepted(g, rec) && !LeavesNoLiveCopy(hosts, g, now, rec);
    UpsertedReplicaAgrees(p, hosts, g, now, rec);
    PendingMeansNoLiveCopy(p, hosts, g, now, rec);
    UpsertShape(p, hosts, g, now, rec);
  }

  // Anchoring over runs

  lemma InsertStaysAnchored(p: Policy, hosts: map<HostId, Host>, g: Graph, now: Time, art: ArtifactRecord)
    requires ReplicasAnchored(g)
    ensures ReplicasAnchored(After(g, InsertArtifact(p, hosts, g, now, art)))
  {
    var tx := InsertArtifact(p, hosts, g, now, art);
    if tx.Success? && tx.value.0 != g {
      var linked := LinkParent(g, art.spec).value;
      LinkKeeps(g, art.spec);
      StoreShape(p, hosts, linked, now, art);
      assert tx.value.0 == StoreArtifact(p, hosts, linked, now, art).value;
    }
  }

  lemma ReplicationStepStaysAnchored(p: Policy, t: Tables, now: Time, op: ReplicationOp)
    requires ReplicasAnchored(t.graph)
    ensures ReplicasAnchored(ApplyReplication(p, t, now, op))
  {
    match op
    case OpUpsertReplica(rec) =>
      if UpsertArtifactReplica(p, t.hosts, t.graph, now, rec).Success? { UpsertShape(p, t.hosts, t.graph, now, rec); }
    case OpRefresh(stale) =>
    case _ => LeaseStepsKeepRest(p, t, now, op);
  }

  lemma LeaseStepsKeepRest(p: Policy, t: Tables, now: Time, op: ReplicationOp)
    requires !op.OpUpsertReplica? && !op.OpRefresh?
    ensures var g' := ApplyReplication(p, t, now, op); g' == t.graph.(leases := g'.leases)
  {
  }

  /** Every transaction keeps replicas with present artifacts of their owner. */
  lemma StepStaysAnchored(p: Policy, t: Tables, e: Event)
    requires ReplicasAnchored(t.graph)
    ensures ReplicasAnchored(Apply(p, t, e).graph)
  {
    match e.op
    case OnArtifacts(op) => ArtifactStepStaysAnchored(p, t, e.now, op);
    case OnVms(op) =>
      VmStepKeeps(t, e.now, op);
      KeptStaysAnchored(t.graph, ApplyVm(t, e.now, op).graph);
    case OnReplication(op) => ReplicationStepStaysAnchored(p, t, e.now, op);
    case _ =>
  }

  lemma ArtifactStepStaysAnchored(p: Policy, t: Tables, now: Time, op: ArtifactOp)
    requires ReplicasAnchored(t.graph)
    ensures ReplicasAnchored(ApplyArtifact(p, t, now, op))
  {
    if op.OpInsertArtifact? {
      InsertStaysAnchored(p, t.hosts, t.graph, now, op.art);
    } else {
      ArtifactStepKeeps(p, t, now, op);
      KeptStaysAnchored(t.graph, ApplyArtifact(p, t, now, op));
    }
  }

  lemma {:induction false} RunStaysAnchored(p: Policy, t: Tables, run: seq<Event>)
    requires ReplicasAnchored(t.graph)
    ensures ReplicasAnchored(Replay(p, t, run).graph)
    decreases |run|
  {
    if run != [] {
      StepStaysAnchored(p, t, run[0]);
      RunStaysAnchored(p, Apply(p, t, run[0]), run[1..]);
    }
  }

  // Agreement over runs

  /** The transactions after which the cache still agrees: first copies go to
      fresh hosts, replicas to available artifacts, refreshes use the common
      cutoff, and host health is fixed. */
  predicate Faithful(t: Tables, e: Event) {
    match e.op
    case OnArtifacts(OpInsertArtifact(art)) => art.status != Available || Fresh(t.hosts, art.spec.hostId, Cutoff(e.now))
    case OnReplication(OpUpsertReplica(rec)) =>
      Accepted(t.graph, rec) ==>
        t.graph.artifacts[rec.artifact].status == Available || LeavesNoLiveCopy(t.hosts, t.graph, e.now, rec)
    case OnReplication(OpRefresh(stale)) => stale == Cutoff(e.now)
    case OnFleet(OpUpsertHost(_, _)) => false
    case _ => true
  }

  ghost predicate Consistent(p: Policy, t: Tables, now: Time) {
    Agrees(p, t.hosts, t.graph, Cutoff(now)) && ReplicasAnchored(t.graph)
  }

  lemma InsertStaysConsistent(p: Policy, t: Tables, now: Time, art: ArtifactRecord)
    requires Consistent(p, t, now) && Faithful(t, Event(now, OnArtifacts(OpInsertArtifact(art))))
    ensures Consistent(p, t.(graph := After(t.graph, InsertArtifact(p, t.hosts, t.graph, now, art))), now)
  {
    var g, tx := t.graph, InsertArtifact(p, t.hosts, t.graph, now, art);
    if tx.Success? && tx.value.0 != g {
      var linked, g' := LinkParent(g, art.spec).value, tx.value.0;
      LinkKeeps(g, art.spec);
      StoreShape(p, t.hosts, linked, now, art);
      NewArtifactAgrees(p, t.hosts, linked, now, art);
      assert g' == StoreArtifact(p, t.hosts, linked, now, art).value;
      forall a | a in g'.artifacts ensures AgreesOn(p, t.hosts, g', a, Cutoff(now)) {
        if a != art.id {
          InsertKeepsOthers(p, t.hosts, g, now, art, a);
          SameCopiesSameState(p, t.hosts, g, g', a, Cutoff(now));
        }
      }
    }
  }

  lemma UpsertStaysConsistent(p: Policy, t: Tables, now: Time, rec: ReplicaRecord)
    requires Consistent(p, t, now) && Faithful(t, Event(now, OnReplication(OpUpsertReplica(rec))))
    ensures Consistent(p, t.(graph := After(t.graph, UpsertArtifactReplica(p, t.hosts, t.graph, now, rec))), now)
  {
    var g, tx := t.graph, UpsertArtifactReplica(p, t.hosts, t.graph, now, rec);
    AcceptedMeansSuccess(p, t.hosts, g, now, rec);
    if Accepted(g, rec) {
      var g' := tx.value.0;
      UpsertShape(p, t.hosts, g, now, rec);
      UpsertedReplicaAgrees(p, t.hosts, g, now, rec);
      forall a | a in g'.artifacts ensures AgreesOn(p, t.hosts, g', a, Cutoff(now)) {
        if a != rec.artifact {
          UpsertReplicaKeepsOthers(p, t.hosts, g, now, rec, a);
          SameCopiesSameState(p, t.hosts, g, g', a, Cutoff(now));
        }
      }
    }
  }

  lemma ReplicationStepStaysConsistent(p: Policy, t: Tables, now: Time, op: ReplicationOp)
    requires Consistent(p, t, now) && Faithful(t, Event(now, OnReplication(op)))
    ensures Consistent(p, t.(graph := ApplyReplication(p, t, now, op)), now)
  {
    match op
    case OpUpsertReplica(rec) => UpsertStaysConsistent(p, t, now, rec);
    case OpRefresh(stale) => AgreedRefreshIsNoop(p, t.hosts, t.graph, Cutoff(now));
    case _ =>
      LeaseStepsKeepRest(p, t, now, op);
      var g' := ApplyReplication(p, t, now, op);
      forall a | a in g'.artifacts ensures AgreesOn(p, t.hosts, g', a, Cutoff(now)) {
        SameCopiesSameState(p, t.hosts, t.graph, g', a, Cutoff(now));
      }
  }

  lemma StepStaysConsistent(p: Policy, t: Tables, e: Event)
    requires Consistent(p, t, e.now) && Faithful(t, e)
    ensures Consistent(p, Apply(p, t, e), e.now) && Apply(p, t, e).hosts == t.hosts
  {
    match e.op
    case OnArtifacts(OpInsertArtifact(art)) => InsertStaysConsistent(p, t, e.now, art);
    case OnArtifacts(op) =>
      ArtifactStepKeeps(p, t, e.now, op);
      KeptStaysAnchored(t.graph, ApplyArtifact(p, t, e.now, op));
      KeptStaysAgreed(p, t.hosts, t.graph, ApplyArtifact(p, t, e.now, op), Cutoff(e.now));
    case OnVms(op) =>
      VmStepKeeps(t, e.now, op);
      KeptStaysAnchored(t.graph, ApplyVm(t, e.now, op).graph);
      KeptStaysAgreed(p, t.hosts, t.graph, ApplyVm(t, e.now, op).graph, Cutoff(e.now));
    case OnReplication(op) => ReplicationStepStaysConsistent(p, t, e.now, op);
    case _ =>
  }

  ghost predicate FaithfulThroughout(p: Policy, t: Tables, run: seq<Event>, now: Time)
    decreases |run|
  {
    run != [] ==> run[0].now == now && Faithful(t, run[0]) && FaithfulThroughout(p, Apply(p, t, run[0]), run[1..], now)
  }

  /** With clock and host health fixed, after any run of faithful transactions
      the cache equals the recount, so a refresh changes no row. */
  lemma {:induction false} CacheAgreesWithRecount(p: Policy, t: Tables, run: seq<Event>, now: Time)
    requires Consistent(p, t, now) && FaithfulThroughout(p, t, run, now)
    ensures var t' := Replay(p, t, run);
      Consistent(p, t', now) && RefreshReplicationHealth(p, t'.hosts, t'.graph, Cutoff(now)) == Success((t'.graph, 0))
    decreases |run|
  {
    if run == [] {
      AgreedRefreshIsNoop(p, t.hosts, t.graph, Cutoff(now));
    } else {
      StepStaysConsistent(p, t, run[0]);
      CacheAgreesWithRecount(p, Apply(p, t, run[0]), run[1..], now);
    }
  }
}
