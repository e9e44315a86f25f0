/** When the transactions on artifacts, branches, hibernations and VMs succeed,
    and which rows they leave: for every state with exact counts, which is every
    state a run reaches. */
module FleetOutcomes {
  import opened Results
  import opened FleetTables
  import opened ArtifactStore
  import opened VmStore
  import opened VolumeStore
  import opened ReplicationStore
  import opened FleetRuns
  import opened FleetGraph
  import opened FleetGraphRuns
  import opened FleetReferences
  import opened FleetVolumes
  import GcSafety = FleetGcSafety

  // Publishing

  predicate FitsColumns(spec: ArtifactSpec) {
    && spec.sizeBytes <= I64_MAX && 1 <= spec.creationRevision <= I64_MAX
    && 1 <= spec.chunkSize <= I64_MAX && 1 <= spec.chunkCount <= I64_MAX
  }

  predicate LocatorIsFree(g: Graph, locator: string) {
    && (forall a | a in g.artifacts :: g.artifacts[a].spec.locator != locator)
    && (forall k | k in g.replicas :: g.replicas[k].locator != locator)
  }

  lemma StoreSucceeds(p: Policy, hosts: map<HostId, Host>, g: Graph, linked: Graph, now: Time, art: ArtifactRecord)
    requires linked == g.(artifacts := linked.artifacts) && OnlyCounts(g, linked.artifacts)
    ensures StoreArtifact(p, hosts, linked, now, art).Success?
      <==> FitsColumns(art.spec) && art.id !in g.artifacts && LocatorIsFree(g, art.spec.locator)
  {
  }

  /** An artifact is published exactly when its numbers fit, its id and locator are
      free and its parent, if any, is fit to be referred to; publishing the same
      content under its id again succeeds and changes nothing. */
  lemma InsertArtifactOutcome(p: Policy, hosts: map<HostId, Host>, g: Graph, now: Time, art: ArtifactRecord)
    ensures var tx, spec := InsertArtifact(p, hosts, g, now, art), art.spec;
      if Owned(g, art.id, spec.ownerKey) then
        tx == if art.refCount == 0 && g.artifacts[art.id].spec == spec then Success((g, ())) else Failure(Conflict)
      else
        && (tx.Success? <==>
              && art.refCount == 0 && FitsColumns(spec) && art.id !in g.artifacts && LocatorIsFree(g, spec.locator)
              && (spec.parent.Some? ==> Fit(g, spec.ownerKey, spec.parent.value, true)))
        && (tx.Success? ==> Published(g, tx.value.0, art) && tx.value.0.artifacts[art.id].replication == FirstState(p, hosts, now, art))
  {
    LinkParentRows(g, art.spec);
    if LinkParent(g, art.spec).Success? { StoreSucceeds(p, hosts, g, LinkParent(g, art.spec).value, now, art); }
    if !Owned(g, art.id, art.spec.ownerKey) { InsertArtifactRows(p, hosts, g, now, art); }
  }

  /** One copy on a fresh host is enough only where the policy asks for no more. */
  function FirstState(p: Policy, hosts: map<HostId, Host>, now: Time, art: ArtifactRecord): ReplicationState {
    if art.status != Available then Pending
    else if p == Policy(1, 1) && Fresh(hosts, art.spec.hostId, now - 15 * NANOS_PER_SECOND) then Ready
    else Degraded
  }

  /** The artifact and its first copy are there, beside all that was there. */
  ghost predicate Published(g: Graph, g': Graph, art: ArtifactRecord) {
    var spec, key := art.spec, ReplicaKey(art.id, art.spec.hostId);
    && art.id in g'.artifacts && g'.artifacts[art.id].spec == spec && g'.artifacts[art.id].status == art.status
    && g'.artifacts[art.id].refCount == 0
    && OnlyCounts(g, g'.artifacts - {art.id})
    && g'.replicas == g.replicas[key :=
         Replica(spec.ownerKey, spec.hostId, spec.locator, art.status, spec.contentDigest, spec.sizeBytes, spec.integrityDigest,
                 if art.status == Available then Some(art.updatedAt) else None)]
    && g'.branches == g.branches && g'.hibernations == g.hibernations && g'.artifactRefs == g.artifactRefs && g'.leases == g.leases
  }

  /** Deleted exactly when it is the tenant's and no row refers to it. */
  lemma DeleteArtifactOutcome(g: Graph, owner: OwnerKey, a: Uuid)
    requires GraphInv(g)
    ensures var tx := DeleteArtifactIfUnreferenced(g, owner, a);
      && (tx.Success? <==> Owned(g, a, owner) && Holders(g, a) == {})
      && (tx.Success? ==>
            && tx.value.1 == g.artifacts[a] && tx.value.0.artifacts.Keys == g.artifacts.Keys - {a} && Shrinks(g, tx.value.0))
  {
    if Owned(g, a, owner) {
      assert g.artifacts[a].refCount == |Holders(g, a)|;
      if g.artifacts[a].refCount == 0 { UnlinkSucceeds(g, a); }
    }
  }

  // Branches

  predicate NameIsFree(g: Graph, owner: OwnerKey, name: string) {
    forall b | b in g.branches :: g.branches[b].ownerKey != owner || g.branches[b].name != name
  }

  predicate SourcesExist(vms: map<Uuid, VmRow>, g: Graph, branch: Branch) {
    && (branch.sourceBranch.Some? ==> branch.sourceBranch.value in g.branches && g.branches[branch.sourceBranch.value].ownerKey == branch.ownerKey)
    && (branch.sourceVm.Some? ==> branch.sourceVm.value in vms && vms[branch.sourceVm.value].record.ownerKey == Some(branch.ownerKey))
  }

  lemma NewBranchSucceeds(vms: map<Uuid, VmRow>, g: Graph, id: Uuid, branch: Branch)
    requires !(id in g.branches && g.branches[id].ownerKey == branch.ownerKey)
    ensures InsertBranch(vms, g, id, branch).Success? <==>
      && id !in g.branches && NameIsFree(g, branch.ownerKey, branch.name) && SourcesExist(vms, g, branch)
      && 1 <= branch.revision <= I64_MAX && Fit(g, branch.ownerKey, branch.head, true)
  {
    var held := AcquireRef(g, branch.ownerKey, branch.head, true);
    if held.Success? { assert held.value.branches == g.branches; }
  }

  lemma NewBranchRows(vms: map<Uuid, VmRow>, g: Graph, id: Uuid, branch: Branch)
    requires !(id in g.branches && g.branches[id].ownerKey == branch.ownerKey)
    ensures var tx := InsertBranch(vms, g, id, branch); tx.Success? ==>
      && tx.value.1 == branch && OnlyCounts(g, tx.value.0.artifacts)
      && tx.value.0 == g.(branches := g.branches[id := branch], artifacts := tx.value.0.artifacts)
  {
  }

  /** A branch is created exactly when its id and name are free, its sources are the
      tenant's, its revision fits and its head is fit to be referred to. A branch
      that is there already is answered if it differs in the revision at most. */
  lemma InsertBranchOutcome(vms: map<Uuid, VmRow>, g: Graph, id: Uuid, branch: Branch)
    ensures var tx := InsertBranch(vms, g, id, branch);
      if id in g.branches && g.branches[id].ownerKey == branch.ownerKey then
        tx == if g.branches[id] == branch.(revision := g.branches[id].revision) then Success((g, g.branches[id])) else Failure(Conflict)
      else
        && (tx.Success? <==>
              && id !in g.branches && NameIsFree(g, branch.ownerKey, branch.name) && SourcesExist(vms, g, branch)
              && 1 <= branch.revision <= I64_MAX && Fit(g, branch.ownerKey, branch.head, true))
        && (tx.Success? ==>
              && tx.value.1 == branch && OnlyCounts(g, tx.value.0.artifacts)
              && tx.value.0 == g.(branches := g.branches[id := branch], artifacts := tx.value.0.artifacts))
  {
    if !(id in g.branches && g.branches[id].ownerKey == branch.ownerKey) {
      NewBranchSucceeds(vms, g, id, branch);
      NewBranchRows(vms, g, id, branch);
    }
  }

  /** A head moves exactly when the branch is the tenant's, the expected revision is
      the stored one and the new head is the old one or fit to be referred to. */
  lemma UpdateBranchHeadOutcome(g: Graph, owner: OwnerKey, b: Uuid, expected: nat, newHead: Uuid)
    requires GraphInv(g)
    ensures var tx := UpdateBranchHead(g, owner, b, expected, newHead);
      && (tx.Success? <==>
            && b in g.branches && g.branches[b].ownerKey == owner && g.branches[b].revision == expected < I64_MAX
            && (g.branches[b].head == newHead || Fit(g, owner, newHead, true)))
      && (tx.Success? ==>
            && tx.value.1 == g.branches[b].(head := newHead, revision := expected + 1) && OnlyCounts(g, tx.value.0.artifacts)
            && tx.value.0 == g.(branches := g.branches[b := tx.value.1], artifacts := tx.value.0.artifacts))
  {
    UpdateBranchHeadKeepsInv(g, owner, b, expected, newHead);
    UpdateBranchHeadRows(g, owner, b, expected, newHead);
  }

  /** `g'` is without branch `b`; branches made from it forget that. */
  ghost predicate BranchDropped(g: Graph, g': Graph, b: Uuid) {
    && g'.branches.Keys == g.branches.Keys - {b}
    && (forall k | k in g'.branches ::
          g'.branches[k] == g.branches[k].(sourceBranch := if g.branches[k].sourceBranch == Some(b) then None else g.branches[k].sourceBranch))
    && g'.hibernations == g.hibernations && g'.artifactRefs == g.artifactRefs
  }

  /** A tenant's branch can always be deleted; afterwards the row is gone and every
      other branch, hibernation and reference is there. */
  lemma DeleteBranchOutcome(g: Graph, owner: OwnerKey, b: Uuid)
    requires GraphInv(g)
    ensures var tx := DeleteBranch(g, owner, b);
      && (tx.Success? <==> b in g.branches && g.branches[b].ownerKey == owner)
      && (tx.Success? ==> tx.value.1 == g.branches[b] && BranchDropped(g, tx.value.0, b))
  {
    if b in g.branches && g.branches[b].ownerKey == owner {
      DropBranchMoves(g, b);
      DropIsClean(g, DropBranch(g, b), Head(b), owner, g.branches[b].head);
    }
  }

  // Hibernations and VM references

  /** A VM is hibernated onto an artifact exactly when the VM is there, no other
      tenant's binding stands, the policy names the VM and its tenant at a revision
      that fits, and the artifact is bound already or was made from this VM and is
      fit to be referred to. */
  lemma UpsertHibernationOutcome(vms: map<Uuid, VmRow>, g: Graph, rec: HibernationRecord)
    requires GraphInv(g)
    ensures var tx := UpsertHibernation(vms, g, rec); var bound := rec.vm in g.hibernations;
      && (tx.Success? <==>
            && rec.policyVm == rec.vm && rec.policyOwner == rec.ownerKey && 1 <= rec.policyRevision <= I64_MAX && rec.vm in vms
            && (bound ==> g.hibernations[rec.vm].ownerKey == rec.ownerKey)
            && ((bound && g.hibernations[rec.vm].artifact == rec.artifact)
                || (Fit(g, rec.ownerKey, rec.artifact, true) && g.artifacts[rec.artifact].spec.sourceVm == Some(rec.vm))))
      && (tx.Success? ==>
            && OnlyCounts(g, tx.value.0.artifacts)
            && tx.value.0 == g.(hibernations := g.hibernations[rec.vm := Hibernation(rec.ownerKey, rec.artifact, rec.policyRevision)],
                                artifacts := tx.value.0.artifacts))
  {
    UpsertHibernationKeepsInv(vms, g, rec);
    UpsertHibernationRows(vms, g, rec);
  }

  /** A tenant's binding can always be deleted. */
  lemma DeleteHibernationOutcome(g: Graph, owner: OwnerKey, v: Uuid)
    requires GraphInv(g)
    ensures var tx := DeleteHibernation(g, owner, v);
      && (tx.Success? <==> v in g.hibernations && g.hibernations[v].ownerKey == owner)
      && (tx.Success? ==> Shrinks(g.(hibernations := g.hibernations - {v}), tx.value.0))
  {
    if v in g.hibernations && g.hibernations[v].ownerKey == owner {
      DropHibernationMoves(g, v);
      DropIsClean(g, g.(hibernations := g.hibernations - {v}), Bound(v), owner, g.hibernations[v].artifact);
    }
  }

  /** The stored reference is the one this incarnation of the VM took. */
  predicate OfThisVm(ref: ArtifactRef, vm: VmRecord) {
    vm.ownerKey == Some(ref.ownerKey) && ref.vmCreatedAt == Normalize(vm.createdAt)
  }

  /** A running VM gets its reference exactly when it has a tenant and either holds
      that same reference, or none and the artifact is available. */
  lemma AcquireVmRefOutcome(g: Graph, vm: VmRecord, a: Uuid)
    ensures var tx := AcquireVmArtifactRef(g, vm, a); var held := vm.id in g.artifactRefs;
      && (tx.Success? <==>
            && vm.ownerKey.Some?
            && (held ==> OfThisVm(g.artifactRefs[vm.id], vm) && g.artifactRefs[vm.id].artifact == a)
            && (!held ==> Fit(g, vm.ownerKey.value, a, false)))
      && (tx.Success? && held ==> tx.value.0 == g)
      && (tx.Success? && !held ==>
            && OnlyCounts(g, tx.value.0.artifacts)
            && tx.value.0 == g.(artifactRefs := g.artifactRefs[vm.id := ArtifactRef(vm.ownerKey.value, a, Normalize(vm.createdAt))],
                                artifacts := tx.value.0.artifacts))
  {
  }

  /** And it can give it back exactly when it holds none or its own. */
  lemma ReleaseVmRefOutcome(g: Graph, vm: VmRecord)
    requires GraphInv(g)
    ensures var tx := ReleaseVmArtifactRef(g, vm);
      && (tx.Success? <==> (vm.id in g.artifactRefs ==> OfThisVm(g.artifactRefs[vm.id], vm)))
      && (tx.Success? ==> Shrinks(g.(artifactRefs := g.artifactRefs - {vm.id}), tx.value.0))
  {
    ReleaseVmRefRows(g, vm);
    if vm.id in g.artifactRefs {
      var ref := g.artifactRefs[vm.id];
      DropRefMoves(g, vm.id);
      DropIsClean(g, g.(artifactRefs := g.artifactRefs - {vm.id}), Lazy(vm.id), ref.ownerKey, ref.artifact);
    }
  }

  // VMs

  /** Attachments and hibernations belong to VMs that are there. */
  ghost predicate Hosted(t: Tables) {
    (forall k | k in t.storage.attachments :: k.vm in t.vms) && (forall v | v in t.graph.hibernations :: v in t.vms)
  }

  /** `t'` is `t` without the VM and everything that hangs on it. */
  ghost predicate VmDropped(t: Tables, t': Tables, id: Uuid) {
    && t'.vms == t.vms - {id}
    && t'.graph.hibernations == t.graph.hibernations - {id} && t'.graph.artifactRefs == t.graph.artifactRefs - {id}
    && t'.graph.branches == t.graph.branches
    && t'.storage.volumes == t.storage.volumes
    && (forall k :: k in t'.storage.attachments <==> k in t.storage.attachments && k.vm != id)
    && (forall k | k in t'.storage.attachments :: t'.storage.attachments[k] == t.storage.attachments[k])
    && t'.hosts == t.hosts && t'.admission == t.admission && t'.leader == t.leader
  }

  lemma HoldingsOutcome(g: Graph, vm: VmRecord)
    requires GraphInv(g)
    ensures var r := ReleaseHoldings(g, vm);
      && (r.Success? <==> (vm.id in g.artifactRefs ==> OfThisVm(g.artifactRefs[vm.id], vm)))
      && (r.Success? ==> Shrinks(g.(artifactRefs := g.artifactRefs - {vm.id}, hibernations := g.hibernations - {vm.id}), r.value))
  {
    ReleaseVmRefOutcome(g, vm);
    ReleaseVmRefIsClean(g, vm);
    if ReleaseVmRef(g, vm).Success? { ReleaseHibernationIsClean(ReleaseVmRef(g, vm).value, vm.id); }
    ReleaseHoldingsRows(g, vm);
  }

  /** A VM is deleted exactly when the row, if there is one, and the reference, if
      there is one, are of that incarnation. Then the row, its hibernation, its
      reference and its attachments are gone, and nothing else but artifacts that
      nothing refers to any more. */
  lemma DeleteVmOutcome(t: Tables, vm: VmRecord)
    requires GraphInv(t.graph) && Hosted(t)
    ensures var tx := DeleteVm(t, vm);
      && (tx.Success? <==>
            && (vm.id in t.vms ==> t.vms[vm.id].record.hostId == vm.hostId && t.vms[vm.id].record.createdAt == Normalize(vm.createdAt))
            && (vm.id in t.graph.artifactRefs ==> OfThisVm(t.graph.artifactRefs[vm.id], vm)))
      && (tx.Success? ==> VmDropped(t, tx.value.0, vm.id))
  {
    HoldingsOutcome(t.graph, vm);
    if vm.id !in t.vms {
      assert t.vms - {vm.id} == t.vms;
    } else if ReleaseHoldings(t.graph, vm).Success? {
      var graph := ReleaseHoldings(t.graph, vm).value;
      assert graph.hibernations - {vm.id} == graph.hibernations;
    }
  }

  // Every run

  lemma ArtifactStepKeepsHosted(p: Policy, t: Tables, now: Time, op: ArtifactOp)
    requires Hosted(t)
    ensures forall v | v in ApplyArtifact(p, t, now, op).hibernations :: v in t.vms
  {
    var g := t.graph;
    match op
    case OpInsertArtifact(art) => if !Owned(g, art.id, art.spec.ownerKey) { InsertArtifactRows(p, t.hosts, g, now, art); }
    case OpUpdateBranchHead(o, b, rev, head) => UpdateBranchHeadRows(g, o, b, rev, head);
    case OpDeleteBranch(o, b) => DeleteBranchRows(g, o, b);
    case OpUpsertHibernation(h) => UpsertHibernationRows(t.vms, g, h);
    case OpDeleteHibernation(o, v) => DeleteHibernationRows(g, o, v);
    case OpReleaseVmRef(vm) => ReleaseVmRefRows(g, vm);
    case _ =>
  }

  lemma VmStepKeepsHosted(t: Tables, now: Time, op: VmOp)
    requires Hosted(t)
    ensures Hosted(ApplyVm(t, now, op))
  {
    if op.OpDeleteVm? { ReleaseHoldingsRows(t.graph, op.vm); }
  }

  lemma BindStaysHosted(t: Tables, requested: seq<AttachmentRecord>)
    requires Hosted(t)
    ensures forall k | k in After(t.storage, BindVmVolumes(t.vms, t.storage, requested)).attachments :: k.vm in t.vms
  {
    if BindVmVolumes(t.vms, t.storage, requested).Success? && requested != [] {
      SortKeepsElements(requested);
      SameElements(SortByVolume(requested), requested);
      BindAllEffect(t.storage, SortByVolume(requested), |requested|);
    }
  }

  lemma VolumeStepKeepsHosted(t: Tables, op: VolumeOp)
    requires Hosted(t)
    ensures forall k | k in ApplyVolume(t, op).attachments :: k.vm in t.vms
  {
    if op.OpBind? { BindStaysHosted(t, op.requested); }
  }

  lemma StepKeepsHosted(p: Policy, t: Tables, e: Event)
    requires Hosted(t)
    ensures Hosted(Apply(p, t, e))
  {
    match e.op
    case OnArtifacts(op) => ArtifactStepKeepsHosted(p, t, e.now, op);
    case OnVms(op) => VmStepKeepsHosted(t, e.now, op);
    case OnVolumes(op) => VolumeStepKeepsHosted(t, op);
    case OnReplication(op) => GcSafety.ReplicationStepKeepsGraph(p, t, e.now, op);
    case _ =>
  }
}
