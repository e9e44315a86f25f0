/** Which artifacts may be referred to: every reference is taken on an artifact
    that is fit for it at that moment, and stands until it is given back. */
module FleetReferences {
  import opened Results
  import opened FleetTables
  import opened ArtifactStore
  import opened VmStore
  import opened ReplicationStore
  import opened FleetRuns
  import opened FleetGraph
  import opened FleetGraphRuns
  import GcSafety = FleetGcSafety

  /** The referrer points at `a` after a step and did not before. */
  predicate Takes(g: Graph, g': Graph, r: Referrer, a: Uuid) {
    Holds(g', r, a) && !Holds(g, r, a)
  }

  /** The artifact is there, of that tenant and available; for anything but a
      running VM's reference it has all its copies too. */
  predicate Fit(g: Graph, owner: OwnerKey, a: Uuid, replicated: bool) {
    && a in g.artifacts && g.artifacts[a].spec.ownerKey == owner && g.artifacts[a].status == Available
    && (replicated ==> g.artifacts[a].replication == Ready)
  }

  /** What a taken reference says about its artifact just before. */
  predicate RightlyTaken(g: Graph, g': Graph, r: Referrer, a: Uuid) {
    && OwnerOf(g', r).Some? && Fit(g, OwnerOf(g', r).value, a, !r.Lazy?)
    && (r.Bound? ==> g.artifacts[a].spec.sourceVm == Some(r.hibernatedVm))
  }

  ghost predicate OnlyRightlyTaken(g: Graph, g': Graph) {
    forall r, a | Takes(g, g', r, a) :: RightlyTaken(g, g', r, a)
  }

  /** Nothing refers to anything new. */
  ghost predicate OnlyDrops(g: Graph, g': Graph) {
    forall r, a | Holds(g', r, a) :: Holds(g, r, a)
  }

  // Transactions that give references back

  lemma DeleteRowOnlyDrops(g: Graph, a: Uuid)
    ensures var r := DeleteArtifactRow(g, a); r.Success? ==> OnlyDrops(g, r.value) && Shrinks(g, r.value)
  {
  }

  lemma ReleaseOnlyDrops(g: Graph, owner: OwnerKey, a: Uuid)
    ensures var r := ReleaseRef(g, owner, a); r.Success? ==> OnlyDrops(g, r.value) && Shrinks(g, r.value)
  {
  }

  lemma ShrinksTwice(g: Graph, g1: Graph, g2: Graph)
    requires Shrinks(g, g1) && Shrinks(g1, g2)
    ensures Shrinks(g, g2)
  {
  }

  /** The walk deletes artifacts and changes no row that refers to one. */
  lemma {:induction false} CollectShrinks(g: Graph, owner: OwnerKey, a: Uuid)
    ensures var r := CollectChain(g, owner, a); r.Success? ==> Shrinks(g, r.value)
    decreases |g.artifacts|
  {
    if Owned(g, a, owner) && g.artifacts[a].refCount == 0 && !Referred(g, a) {
      var parent, deleted := g.artifacts[a].spec.parent, DeleteArtifactRow(g, a).value;
      DeleteRowOnlyDrops(g, a);
      if parent.Some? && ReleaseRef(deleted, owner, parent.value).Success? {
        var released := ReleaseRef(deleted, owner, parent.value).value;
        assert released.artifacts.Keys == g.artifacts.Keys - {a};
        assert |released.artifacts.Keys| < |g.artifacts.Keys|;
        ReleaseOnlyDrops(deleted, owner, parent.value);
        ShrinksTwice(g, deleted, released);
        CollectShrinks(released, owner, parent.value);
        if CollectChain(released, owner, parent.value).Success? {
          ShrinksTwice(g, released, CollectChain(released, owner, parent.value).value);
        }
      }
    }
  }

  lemma ShrunkOnlyDrops(g: Graph, g': Graph)
    requires Shrinks(g, g')
    ensures OnlyDrops(g, g')
  {
  }

  /** Give a reference back and walk. */
  function Returned(g: Graph, owner: OwnerKey, a: Uuid): Result<Graph, FleetError> {
    var released :- ReleaseRef(g, owner, a);
    CollectChain(released, owner, a)
  }

  lemma ReturnShrinks(g: Graph, owner: OwnerKey, a: Uuid)
    ensures var r := Returned(g, owner, a); r.Success? ==> Shrinks(g, r.value)
  {
    if ReleaseRef(g, owner, a).Success? {
      var released := ReleaseRef(g, owner, a).value;
      ReleaseOnlyDrops(g, owner, a);
      CollectShrinks(released, owner, a);
      if CollectChain(released, owner, a).Success? { ShrinksTwice(g, released, CollectChain(released, owner, a).value); }
    }
  }

  /** What a branch deletion leaves of the rows that refer. */
  lemma DeleteBranchRows(g: Graph, owner: OwnerKey, b: Uuid)
    ensures var tx := DeleteBranch(g, owner, b); tx.Success? ==> b in g.branches && Shrinks(DropBranch(g, b), tx.value.0) && tx.value.1 == g.branches[b]
  {
    if b in g.branches { ReturnShrinks(DropBranch(g, b), owner, g.branches[b].head); }
  }

  lemma DeleteHibernationRows(g: Graph, owner: OwnerKey, v: Uuid)
    ensures var tx := DeleteHibernation(g, owner, v); tx.Success? ==> v in g.hibernations && Shrinks(g.(hibernations := g.hibernations - {v}), tx.value.0)
  {
    if v in g.hibernations { ReturnShrinks(g.(hibernations := g.hibernations - {v}), owner, g.hibernations[v].artifact); }
  }

  lemma ReleaseVmRefRows(g: Graph, vm: VmRecord)
    ensures var r := ReleaseVmRef(g, vm); r.Success? ==> Shrinks(g.(artifactRefs := g.artifactRefs - {vm.id}), r.value)
  {
    if vm.id in g.artifactRefs {
      var ref := g.artifactRefs[vm.id];
      ReturnShrinks(g.(artifactRefs := g.artifactRefs - {vm.id}), ref.ownerKey, ref.artifact);
    } else {
      assert g.artifactRefs - {vm.id} == g.artifactRefs;
    }
  }

  lemma ReleaseHibernationRows(g: Graph, v: Uuid)
    ensures var r := ReleaseHibernation(g, v); r.Success? ==> Shrinks(g.(hibernations := g.hibernations - {v}), r.value)
  {
    if v in g.hibernations {
      ReturnShrinks(g.(hibernations := g.hibernations - {v}), g.hibernations[v].ownerKey, g.hibernations[v].artifact);
    } else {
      assert g.hibernations - {v} == g.hibernations;
    }
  }

  lemma ReleaseHoldingsRows(g: Graph, vm: VmRecord)
    ensures var r := ReleaseHoldings(g, vm); r.Success? ==>
      Shrinks(g.(artifactRefs := g.artifactRefs - {vm.id}, hibernations := g.hibernations - {vm.id}), r.value)
  {
    ReleaseVmRefRows(g, vm);
    if ReleaseVmRef(g, vm).Success? {
      var unlinked := ReleaseVmRef(g, vm).value;
      ReleaseHibernationRows(unlinked, vm.id);
      var start := g.(artifactRefs := g.artifactRefs - {vm.id}, hibernations := g.hibernations - {vm.id});
      assert Shrinks(start, unlinked.(hibernations := unlinked.hibernations - {vm.id}));
      if ReleaseHibernation(unlinked, vm.id).Success? {
        ShrinksTwice(start, unlinked.(hibernations := unlinked.hibernations - {vm.id}), ReleaseHibernation(unlinked, vm.id).value);
      }
    }
  }

  lemma DeleteVmOnlyDrops(t: Tables, vm: VmRecord)
    ensures OnlyDrops(t.graph, After(t, DeleteVm(t, vm)).graph)
  {
    ReleaseHoldingsRows(t.graph, vm);
    if ReleaseHoldings(t.graph, vm).Success? {
      var start := t.graph.(artifactRefs := t.graph.artifactRefs - {vm.id}, hibernations := t.graph.hibernations - {vm.id});
      ShrunkOnlyDrops(start, ReleaseHoldings(t.graph, vm).value);
      assert OnlyDrops(t.graph, start);
    }
  }

  lemma DeleteBranchOnlyDrops(g: Graph, owner: OwnerKey, b: Uuid)
    ensures OnlyDrops(g, After(g, DeleteBranch(g, owner, b)))
  {
    DeleteBranchRows(g, owner, b);
    if DeleteBranch(g, owner, b).Success? {
      ShrunkOnlyDrops(DropBranch(g, b), DeleteBranch(g, owner, b).value.0);
      assert OnlyDrops(g, DropBranch(g, b));
    }
  }

  lemma DeleteHibernationOnlyDrops(g: Graph, owner: OwnerKey, v: Uuid)
    ensures OnlyDrops(g, After(g, DeleteHibernation(g, owner, v)))
  {
    DeleteHibernationRows(g, owner, v);
    if DeleteHibernation(g, owner, v).Success? {
      ShrunkOnlyDrops(g.(hibernations := g.hibernations - {v}), DeleteHibernation(g, owner, v).value.0);
    }
  }

  lemma ReleaseVmRefOnlyDrops(g: Graph, vm: VmRecord)
    ensures OnlyDrops(g, After(g, ReleaseVmArtifactRef(g, vm)))
  {
    ReleaseVmRefRows(g, vm);
    if ReleaseVmRef(g, vm).Success? { ShrunkOnlyDrops(g.(artifactRefs := g.artifactRefs - {vm.id}), ReleaseVmRef(g, vm).value); }
  }

  lemma DeleteArtifactOnlyDrops(g: Graph, owner: OwnerKey, a: Uuid)
    ensures OnlyDrops(g, After(g, DeleteArtifactIfUnreferenced(g, owner, a)))
  {
    var tx := DeleteArtifactIfUnreferenced(g, owner, a);
    if tx.Success? {
      DeleteRowOnlyDrops(g, a);
      var deleted := DeleteArtifactRow(g, a).value;
      if g.artifacts[a].spec.parent.Some? {
        ReleaseOnlyDrops(deleted, owner, g.artifacts[a].spec.parent.value);
        ShrinksTwice(g, deleted, tx.value.0);
      }
      ShrunkOnlyDrops(g, tx.value.0);
    }
  }

  // Transactions that take references

  lemma LinkParentRows(g: Graph, spec: ArtifactSpec)
    ensures var r := LinkParent(g, spec);
      && (r.Success? <==> (spec.parent.Some? ==> Fit(g, spec.ownerKey, spec.parent.value, true)))
      && (r.Success? ==> r.value == g.(artifacts := r.value.artifacts) && OnlyCounts(g, r.value.artifacts))
  {
  }

  /** The rows a successful publication leaves: the artifact and its first copy,
      beside all that was there. */
  lemma InsertArtifactRows(p: Policy, hosts: map<HostId, Host>, g: Graph, now: Time, art: ArtifactRecord)
    requires !Owned(g, art.id, art.spec.ownerKey)
    ensures var tx := InsertArtifact(p, hosts, g, now, art); tx.Success? ==>
      && var row := Artifact(art.spec, art.status, InitialReplication(p, hosts, now, art), 0); var g' := tx.value.0;
      && art.id !in g.artifacts && art.id in g'.artifacts && g'.artifacts[art.id] == row
      && OnlyCounts(g, g'.artifacts - {art.id})
      && g' == g.(artifacts := g'.artifacts, replicas := g.replicas[ReplicaKey(art.id, art.spec.hostId) := PrimaryReplica(art)])
  {
    var tx := InsertArtifact(p, hosts, g, now, art);
    if tx.Success? {
      LinkParentRows(g, art.spec);
      StoredShape(p, hosts, LinkParent(g, art.spec).value, now, art);
    }
  }

  lemma InsertArtifactTakes(p: Policy, hosts: map<HostId, Host>, g: Graph, now: Time, art: ArtifactRecord)
    ensures OnlyRightlyTaken(g, After(g, InsertArtifact(p, hosts, g, now, art)))
  {
    var tx := InsertArtifact(p, hosts, g, now, art);
    if tx.Success? && !Owned(g, art.id, art.spec.ownerKey) {
      InsertArtifactRows(p, hosts, g, now, art);
      LinkParentRows(g, art.spec);
      OneMoreArtifactTakes(g, tx.value.0, art.id);
    }
  }

  lemma OneMoreArtifactTakes(g: Graph, g': Graph, id: Uuid)
    requires id !in g.artifacts && id in g'.artifacts && OnlyCounts(g, g'.artifacts - {id})
    requires g' == g.(artifacts := g'.artifacts, replicas := g'.replicas)
    requires var spec := g'.artifacts[id].spec; spec.parent.Some? ==> Fit(g, spec.ownerKey, spec.parent.value, true)
    ensures OnlyRightlyTaken(g, g')
  {
    forall r, a | Takes(g, g', r, a) ensures RightlyTaken(g, g', r, a) {
      assert r == Child(id) && g'.artifacts[id].spec.parent == Some(a);
    }
  }

  lemma InsertBranchTakes(vms: map<Uuid, VmRow>, g: Graph, id: Uuid, branch: Branch)
    ensures OnlyRightlyTaken(g, After(g, InsertBranch(vms, g, id, branch)))
  {
  }

  lemma UpdateBranchHeadTakes(g: Graph, owner: OwnerKey, b: Uuid, expected: nat, newHead: Uuid)
    ensures OnlyRightlyTaken(g, After(g, UpdateBranchHead(g, owner, b, expected, newHead)))
  {
    var tx := UpdateBranchHead(g, owner, b, expected, newHead);
    if tx.Success? {
      UpdateBranchHeadRows(g, owner, b, expected, newHead);
      forall r, a | Takes(g, tx.value.0, r, a) ensures RightlyTaken(g, tx.value.0, r, a) {
        assert r == Head(b) && a == newHead;
      }
    }
  }

  /** Only counts change in the artifact table. */
  ghost predicate OnlyCounts(g: Graph, artifacts: map<Uuid, Artifact>) {
    artifacts.Keys == g.artifacts.Keys && forall a | a in artifacts :: artifacts[a] == g.artifacts[a].(refCount := artifacts[a].refCount)
  }

  lemma UpdateBranchHeadRows(g: Graph, owner: OwnerKey, b: Uuid, expected: nat, newHead: Uuid)
    ensures var tx := UpdateBranchHead(g, owner, b, expected, newHead); tx.Success? ==>
      && b in g.branches && g.branches[b].ownerKey == owner && g.branches[b].revision == expected
      && (g.branches[b].head == newHead || Fit(g, owner, newHead, true))
      && tx.value.1 == g.branches[b].(head := newHead, revision := expected + 1)
      && tx.value.0 == g.(branches := g.branches[b := tx.value.1], artifacts := tx.value.0.artifacts)
      && OnlyCounts(g, tx.value.0.artifacts)
  {
  }

  /** The reference that a binding takes, if it needs a new one. */
  lemma BindingIsFit(vms: map<Uuid, VmRow>, g: Graph, rec: HibernationRecord)
    ensures UpsertHibernation(vms, g, rec).Success? ==>
      || (rec.vm in g.hibernations && g.hibernations[rec.vm].ownerKey == rec.ownerKey && g.hibernations[rec.vm].artifact == rec.artifact)
      || (Fit(g, rec.ownerKey, rec.artifact, true) && g.artifacts[rec.artifact].spec.sourceVm == Some(rec.vm))
  {
  }

  lemma UpsertHibernationRows(vms: map<Uuid, VmRow>, g: Graph, rec: HibernationRecord)
    ensures var tx := UpsertHibernation(vms, g, rec); tx.Success? ==>
      && (Holds(g, Bound(rec.vm), rec.artifact)
          || (Fit(g, rec.ownerKey, rec.artifact, true) && g.artifacts[rec.artifact].spec.sourceVm == Some(rec.vm)))
      && tx.value.0 == g.(hibernations := g.hibernations[rec.vm := Hibernation(rec.ownerKey, rec.artifact, rec.policyRevision)],
                          artifacts := tx.value.0.artifacts)
      && OnlyCounts(g, tx.value.0.artifacts)
  {
    BindingIsFit(vms, g, rec);
    if UpsertHibernation(vms, g, rec).Success? { HibernationRow(vms, g, rec); }
  }

  lemma HibernationRow(vms: map<Uuid, VmRow>, g: Graph, rec: HibernationRecord)
    requires UpsertHibernation(vms, g, rec).Success?
    ensures var g' := UpsertHibernation(vms, g, rec).value.0;
      && g' == g.(hibernations := g.hibernations[rec.vm := Hibernation(rec.ownerKey, rec.artifact, rec.policyRevision)], artifacts := g'.artifacts)
      && OnlyCounts(g, g'.artifacts)
  {
  }

  lemma UpsertHibernationTakes(vms: map<Uuid, VmRow>, g: Graph, rec: HibernationRecord)
    ensures OnlyRightlyTaken(g, After(g, UpsertHibernation(vms, g, rec)))
  {
    var tx := UpsertHibernation(vms, g, rec);
    if tx.Success? {
      UpsertHibernationRows(vms, g, rec);
      forall r, a | Takes(g, tx.value.0, r, a) ensures RightlyTaken(g, tx.value.0, r, a) {
        assert r == Bound(rec.vm) && a == rec.artifact;
      }
    }
  }

  lemma AcquireVmRefTakes(g: Graph, vm: VmRecord, a: Uuid)
    ensures OnlyRightlyTaken(g, After(g, AcquireVmArtifactRef(g, vm, a)))
  {
  }

  // Any transaction

  lemma ArtifactStepTakesRightly(p: Policy, t: Tables, now: Time, op: ArtifactOp)
    ensures OnlyRightlyTaken(t.graph, ApplyArtifact(p, t, now, op))
  {
    var g := t.graph;
    match op
    case OpInsertArtifact(art) => InsertArtifactTakes(p, t.hosts, g, now, art);
    case OpDeleteArtifact(o, a) => DeleteArtifactOnlyDrops(g, o, a);
    case OpInsertBranch(id, b) => InsertBranchTakes(t.vms, g, id, b);
    case OpUpdateBranchHead(o, b, rev, head) => UpdateBranchHeadTakes(g, o, b, rev, head);
    case OpDeleteBranch(o, b) => DeleteBranchOnlyDrops(g, o, b);
    case OpUpsertHibernation(h) => UpsertHibernationTakes(t.vms, g, h);
    case OpDeleteHibernation(o, v) => DeleteHibernationOnlyDrops(g, o, v);
    case OpAcquireVmRef(vm, a) => AcquireVmRefTakes(g, vm, a);
    case OpReleaseVmRef(vm) => ReleaseVmRefOnlyDrops(g, vm);
  }

  /** Whatever the transaction and the tables: a reference that is newly taken is
      on an artifact of the same tenant that was available just before, and ready
      unless a running VM takes it. A hibernation's artifact was made from that
      very VM. */
  lemma StepTakesRightly(p: Policy, t: Tables, e: Event)
    ensures OnlyRightlyTaken(t.graph, Apply(p, t, e).graph)
  {
    match e.op
    case OnArtifacts(op) => ArtifactStepTakesRightly(p, t, e.now, op);
    case OnVms(op) => VmStepOnlyDrops(t, e.now, op);
    case OnReplication(op) => GcSafety.ReplicationStepKeepsGraph(p, t, e.now, op);
    case _ =>
  }

  lemma VmStepOnlyDrops(t: Tables, now: Time, op: VmOp)
    ensures OnlyDrops(t.graph, ApplyVm(t, now, op).graph)
  {
    if op.OpDeleteVm? { DeleteVmOnlyDrops(t, op.vm); }
  }

  // Whole runs

  /** Event `i` takes the reference, rightly, and it stands from then on. */
  ghost predicate TakenAt(p: Policy, run: seq<Event>, i: nat, r: Referrer, a: Uuid)
    requires i < |run|
  {
    var g, g' := Before(p, EMPTY, run, i).graph, Before(p, EMPTY, run, i + 1).graph;
    Takes(g, g', r, a) && RightlyTaken(g, g', r, a) && StandsFrom(p, run, i + 1, r, a)
  }

  ghost predicate StandsFrom(p: Policy, run: seq<Event>, i: nat, r: Referrer, a: Uuid) {
    forall j | i <= j <= |run| :: Holds(Before(p, EMPTY, run, j).graph, r, a)
  }

  lemma TakenInFront(p: Policy, run: seq<Event>, e: Event, i: nat, r: Referrer, a: Uuid)
    requires i < |run| && TakenAt(p, run, i, r, a) && Holds(Replay(p, EMPTY, run + [e]).graph, r, a)
    ensures TakenAt(p, run + [e], i, r, a)
  {
    var all := run + [e];
    assert all[..i] == run[..i] && all[..i + 1] == run[..i + 1];
    forall j | i + 1 <= j <= |all| ensures Holds(Before(p, EMPTY, all, j).graph, r, a) {
      if j <= |run| {
        assert all[..j] == run[..j];
        assert Holds(Before(p, EMPTY, run, j).graph, r, a);
      } else {
        assert all[..j] == all;
      }
    }
  }

  lemma TakenLast(p: Policy, run: seq<Event>, e: Event, r: Referrer, a: Uuid)
    requires Takes(Replay(p, EMPTY, run).graph, Replay(p, EMPTY, run + [e]).graph, r, a)
    ensures TakenAt(p, run + [e], |run|, r, a)
  {
    var all := run + [e];
    assert all[..|run|] == run && all[..|run| + 1] == all;
    ReplayAppend(p, EMPTY, run, e);
    StepTakesRightly(p, Replay(p, EMPTY, run), e);
    forall j | |run| + 1 <= j <= |all| ensures Holds(Before(p, EMPTY, all, j).graph, r, a) {
      assert all[..j] == all;
    }
  }

  /** Every reference in every reachable state was taken at some event of the run,
      when its artifact was fit for it, and has stood ever since. */
  lemma {:induction false} EveryReferenceWasRightlyTaken(p: Policy, run: seq<Event>, r: Referrer, a: Uuid) returns (i: nat)
    requires Holds(Replay(p, EMPTY, run).graph, r, a)
    ensures i < |run| && TakenAt(p, run, i, r, a)
    decreases |run|
  {
    assert !Holds(EMPTY.graph, r, a);
    var front, e := run[..|run| - 1], run[|run| - 1];
    assert run == front + [e];
    if Holds(Replay(p, EMPTY, front).graph, r, a) {
      i := EveryReferenceWasRightlyTaken(p, front, r, a);
      TakenInFront(p, front, e, i, r, a);
    } else {
      i := |front|;
      TakenLast(p, front, e, r, a);
    }
  }
}
