/** Branch heads move by compare-and-swap: no update is ever lost. */
module FleetBranches {
  import opened Results
  import opened FleetTables
  import opened ArtifactStore
  import opened VmStore
  import opened ReplicationStore
  import opened FleetRuns

  /** One transaction and the branch rows: a branch that stays keeps its name and
      owner, and a new head comes with the next revision. */
  ghost predicate BranchEpoch(g: Graph, g': Graph) {
    forall b | b in g.branches && b in g'.branches :: BranchMoves(g.branches[b], g'.branches[b])
  }

  predicate BranchMoves(branch: Branch, branch': Branch) {
    && branch'.ownerKey == branch.ownerKey && branch'.name == branch.name
    && ((branch'.head == branch.head && branch'.revision == branch.revision) || branch'.revision == branch.revision + 1)
  }

  lemma {:induction false} CollectKeepsBranches(g: Graph, owner: OwnerKey, a: Uuid)
    ensures var r := CollectChain(g, owner, a); r.Success? ==> r.value.branches == g.branches
    decreases |g.artifacts|
  {
    if Owned(g, a, owner) && g.artifacts[a].refCount == 0 && !Referred(g, a) {
      var parent, deleted := g.artifacts[a].spec.parent, DeleteArtifactRow(g, a).value;
      if parent.Some? && ReleaseRef(deleted, owner, parent.value).Success? {
        var released := ReleaseRef(deleted, owner, parent.value).value;
        assert released.artifacts.Keys == g.artifacts.Keys - {a};
        assert |released.artifacts.Keys| < |g.artifacts.Keys|;
        CollectKeepsBranches(released, owner, parent.value);
      }
    }
  }

  /** Release a reference and walk. */
  lemma ReleaseKeepsBranches(g: Graph, owner: OwnerKey, a: Uuid)
    ensures var r := ReleaseRef(g, owner, a); r.Success? ==>
      var c := CollectChain(r.value, owner, a); c.Success? ==> c.value.branches == g.branches
  {
    if ReleaseRef(g, owner, a).Success? { CollectKeepsBranches(ReleaseRef(g, owner, a).value, owner, a); }
  }

  lemma ReleaseVmRefKeepsBranches(g: Graph, vm: VmRecord)
    ensures var r := ReleaseVmRef(g, vm); r.Success? ==> r.value.branches == g.branches
  {
    if vm.id in g.artifactRefs {
      var ref := g.artifactRefs[vm.id];
      ReleaseKeepsBranches(g.(artifactRefs := g.artifactRefs - {vm.id}), ref.ownerKey, ref.artifact);
    }
  }

  lemma HoldingsKeepBranches(g: Graph, vm: VmRecord)
    ensures var r := ReleaseHoldings(g, vm); r.Success? ==> r.value.branches == g.branches
  {
    ReleaseVmRefKeepsBranches(g, vm);
    if ReleaseVmRef(g, vm).Success? {
      var unlinked := ReleaseVmRef(g, vm).value;
      if vm.id in unlinked.hibernations {
        var bound := unlinked.hibernations[vm.id];
        ReleaseKeepsBranches(unlinked.(hibernations := unlinked.hibernations - {vm.id}), bound.ownerKey, bound.artifact);
      }
    }
  }

  lemma InsertBranchIsEpoch(vms: map<Uuid, VmRow>, g: Graph, id: Uuid, branch: Branch)
    ensures BranchEpoch(g, After(g, InsertBranch(vms, g, id, branch)))
  {
  }

  lemma UpdateBranchHeadIsEpoch(g: Graph, owner: OwnerKey, b: Uuid, expected: nat, newHead: Uuid)
    ensures BranchEpoch(g, After(g, UpdateBranchHead(g, owner, b, expected, newHead)))
  {
    var tx := UpdateBranchHead(g, owner, b, expected, newHead);
    if tx.Success? { assert tx.value.0.branches == g.branches[b := tx.value.1]; }
  }

  lemma DeleteBranchIsEpoch(g: Graph, owner: OwnerKey, b: Uuid)
    ensures BranchEpoch(g, After(g, DeleteBranch(g, owner, b)))
  {
    if b in g.branches { ReleaseKeepsBranches(DropBranch(g, b), owner, g.branches[b].head); }
  }

  lemma DeleteHibernationKeepsBranches(g: Graph, owner: OwnerKey, vm: Uuid)
    ensures After(g, DeleteHibernation(g, owner, vm)).branches == g.branches
  {
    if vm in g.hibernations {
      ReleaseKeepsBranches(g.(hibernations := g.hibernations - {vm}), owner, g.hibernations[vm].artifact);
    }
  }

  lemma DeleteArtifactKeepsBranches(g: Graph, owner: OwnerKey, a: Uuid)
    ensures After(g, DeleteArtifactIfUnreferenced(g, owner, a)).branches == g.branches
  {
  }

  lemma AcquireVmRefKeepsBranches(g: Graph, vm: VmRecord, a: Uuid)
    ensures After(g, AcquireVmArtifactRef(g, vm, a)).branches == g.branches
  {
  }

  lemma ArtifactStepIsBranchEpoch(p: Policy, t: Tables, now: Time, op: ArtifactOp)
    ensures BranchEpoch(t.graph, ApplyArtifact(p, t, now, op))
  {
    var g := t.graph;
    match op
    case OpInsertArtifact(art) => InsertArtifactKeepsBranches(p, t.hosts, g, now, art);
    case OpDeleteArtifact(o, a) => DeleteArtifactKeepsBranches(g, o, a);
    case OpInsertBranch(id, b) => InsertBranchIsEpoch(t.vms, g, id, b);
    case OpUpdateBranchHead(o, b, rev, head) => UpdateBranchHeadIsEpoch(g, o, b, rev, head);
    case OpDeleteBranch(o, b) => DeleteBranchIsEpoch(g, o, b);
    case OpUpsertHibernation(h) => UpsertHibernationKeepsBranches(t.vms, g, h);
    case OpDeleteHibernation(o, v) => DeleteHibernationKeepsBranches(g, o, v);
    case OpAcquireVmRef(vm, a) => AcquireVmRefKeepsBranches(g, vm, a);
    case OpReleaseVmRef(vm) => ReleaseVmRefKeepsBranches(g, vm);
  }

  lemma UpsertHibernationKeepsBranches(vms: map<Uuid, VmRow>, g: Graph, h: HibernationRecord)
    ensures After(g, UpsertHibernation(vms, g, h)).branches == g.branches
  {
  }

  lemma InsertArtifactKeepsBranches(p: Policy, hosts: map<HostId, Host>, g: Graph, now: Time, art: ArtifactRecord)
    ensures After(g, InsertArtifact(p, hosts, g, now, art)).branches == g.branches
  {
  }

  lemma StepIsBranchEpoch(p: Policy, t: Tables, e: Event)
    ensures BranchEpoch(t.graph, Apply(p, t, e).graph)
  {
    match e.op
    case OnArtifacts(op) => ArtifactStepIsBranchEpoch(p, t, e.now, op);
    case OnVms(op) => VmStepKeepsBranches(t, e.now, op);
    case OnReplication(op) => ReplicationKeepsBranches(p, t, e.now, op);
    case _ =>
  }

  lemma VmStepKeepsBranches(t: Tables, now: Time, op: VmOp)
    ensures ApplyVm(t, now, op).graph.branches == t.graph.branches
  {
    if op.OpDeleteVm? { HoldingsKeepBranches(t.graph, op.vm); }
  }

  lemma ReplicationKeepsBranches(p: Policy, t: Tables, now: Time, op: ReplicationOp)
    ensures ApplyReplication(p, t, now, op).branches == t.graph.branches
  {
    if op.OpUpsertReplica? && StoreReplica(t.graph, op.replica).Success? {
      assert StoreReplica(t.graph, op.replica).value.branches == t.graph.branches;
    }
  }

  /** The branch exists in every state of the run. */
  ghost predicate BranchPresent(p: Policy, t: Tables, run: seq<Event>, b: Uuid)
    decreases |run|
  {
    b in t.graph.branches && (run != [] ==> BranchPresent(p, Apply(p, t, run[0]), run[1..], b))
  }

  /** Over any run a branch keeps its name and owner, its revision never falls,
      and while the revision stands the head stands. */
  lemma {:induction false} HeadsFollowRevisions(p: Policy, t: Tables, run: seq<Event>, b: Uuid)
    requires BranchPresent(p, t, run, b)
    ensures b in Replay(p, t, run).graph.branches
    ensures var branch, branch' := t.graph.branches[b], Replay(p, t, run).graph.branches[b];
      && branch'.ownerKey == branch.ownerKey && branch'.name == branch.name
      && branch'.revision >= branch.revision
      && (branch'.revision == branch.revision ==> branch'.head == branch.head)
    decreases |run|
  {
    if run != [] {
      StepIsBranchEpoch(p, t, run[0]);
      HeadsFollowRevisions(p, Apply(p, t, run[0]), run[1..], b);
    }
  }

  /** Of all updates that expect the same revision at most one succeeds: once one
      has, every other is refused after any run in which the branch lives on. */
  lemma NoUpdateIsLost(p: Policy, t: Tables, run: seq<Event>, owner: OwnerKey, b: Uuid, expected: nat, head: Uuid, other: Uuid)
    requires UpdateBranchHead(t.graph, owner, b, expected, head).Success?
    requires BranchPresent(p, t.(graph := UpdateBranchHead(t.graph, owner, b, expected, head).value.0), run, b)
    ensures var t1 := t.(graph := UpdateBranchHead(t.graph, owner, b, expected, head).value.0);
      UpdateBranchHead(Replay(p, t1, run).graph, owner, b, expected, other) == Failure(Conflict)
  {
    var updated := UpdateBranchHead(t.graph, owner, b, expected, head).value;
    assert b in updated.0.branches && updated.0.branches[b].revision == expected + 1 && updated.0.branches[b].ownerKey == owner;
    HeadsFollowRevisions(p, t.(graph := updated.0), run, b);
  }
}
