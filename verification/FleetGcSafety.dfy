/** Whole runs: reference conservation, and what garbage collection may and may
    not remove. */
module FleetGcSafety {
  import opened Results
  import opened FleetTables
  import opened ArtifactStore
  import opened VmStore
  import opened ReplicationStore
  import opened FleetRuns
  import opened FleetGraph
  import opened FleetGraphRuns

  // One step

  lemma ArtifactStepKeepsInv(p: Policy, t: Tables, now: Time, op: ArtifactOp)
    requires GraphInv(t.graph)
    ensures GraphInv(ApplyArtifact(p, t, now, op))
    ensures SameContent(t.graph, ApplyArtifact(p, t, now, op))
  {
    match op
    case OpInsertArtifact(art) =>
      InsertArtifactGrows(p, t.hosts, t.graph, now, art);
      var g' := After(t.graph, InsertArtifact(p, t.hosts, t.graph, now, art));
      if g' != t.graph { GrownKeepsInv(t.graph, g', art.id, art.spec); }
    case OpDeleteArtifact(o, a) => DeleteArtifactKeepsInv(t.graph, o, a);
    case OpInsertBranch(id, b) => InsertBranchKeepsInv(t.vms, t.graph, id, b);
    case OpUpdateBranchHead(o, id, rev, head) => UpdateBranchHeadKeepsInv(t.graph, o, id, rev, head);
    case OpDeleteBranch(o, id) => DeleteBranchKeepsInv(t.graph, o, id);
    case OpUpsertHibernation(h) => UpsertHibernationKeepsInv(t.vms, t.graph, h);
    case OpDeleteHibernation(o, id) => DeleteHibernationKeepsInv(t.graph, o, id);
    case OpAcquireVmRef(vm, a) => AcquireVmRefKeepsInv(t.graph, vm, a);
    case OpReleaseVmRef(vm) => ReleaseVmRefIsClean(t.graph, vm);
  }

  /** Artifacts present before and after kept their content and status. */
  ghost predicate SameContent(g: Graph, g': Graph) {
    forall a | a in g.artifacts && a in g'.artifacts ::
      g'.artifacts[a].spec == g.artifacts[a].spec && g'.artifacts[a].status == g.artifacts[a].status
  }

  lemma ReplicationStepKeepsGraph(p: Policy, t: Tables, now: Time, op: ReplicationOp)
    ensures SameGraph(t.graph, ApplyReplication(p, t, now, op))
    ensures SameContent(t.graph, ApplyReplication(p, t, now, op))
  {
    match op
    case OpUpsertReplica(r) => UpsertReplicaKeepsGraph(p, t.hosts, t.graph, now, r);
    case OpRefresh(stale) => RefreshKeepsGraph(p, t.hosts, t.graph, stale);
    case OpAcquireLease(a, h, s, d, token, expires) =>
      AcquireLeaseKeepsGraph(p, t.hosts, t.graph, now, a, h, s, d, token, expires);
    case _ =>
  }

  lemma UpsertReplicaKeepsGraph(p: Policy, hosts: map<HostId, Host>, g: Graph, now: Time, rec: ReplicaRecord)
    ensures var g' := After(g, UpsertArtifactReplica(p, hosts, g, now, rec)); SameGraph(g, g') && SameContent(g, g')
  {
    var tx := UpsertArtifactReplica(p, hosts, g, now, rec);
    if tx.Success? {
      var stored := StoreReplica(g, rec).value;
      assert stored.artifacts == g.artifacts;
      assert tx.value.0 == CacheState(stored, rec.artifact, tx.value.1);
    }
  }

  lemma RefreshKeepsGraph(p: Policy, hosts: map<HostId, Host>, g: Graph, staleBefore: Time)
    ensures var g' := After(g, RefreshReplicationHealth(p, hosts, g, staleBefore)); SameGraph(g, g') && SameContent(g, g')
  {
  }

  lemma AcquireLeaseKeepsGraph(p: Policy, hosts: map<HostId, Host>, g: Graph, now: Time, a: Uuid, h: HostId, s: Uuid, d: string,
                               token: Uuid, expires: Time)
    ensures var g' := After(g, TryAcquireRepairLease(p, hosts, g, now, a, h, s, d, token, expires));
      g' == g.(leases := g'.leases)
  {
  }

  lemma VmStepKeepsInv(t: Tables, now: Time, op: VmOp)
    requires GraphInv(t.graph)
    ensures GraphInv(ApplyVm(t, now, op).graph)
    ensures SameContent(t.graph, ApplyVm(t, now, op).graph)
  {
    if op.OpDeleteVm? { DeleteVmKeepsInv(t, op.vm); }
  }

  lemma StepKeepsInv(p: Policy, t: Tables, e: Event)
    requires GraphInv(t.graph)
    ensures GraphInv(Apply(p, t, e).graph)
    ensures SameContent(t.graph, Apply(p, t, e).graph)
  {
    match e.op
    case OnArtifacts(op) => ArtifactStepKeepsInv(p, t, e.now, op);
    case OnVms(op) => VmStepKeepsInv(t, e.now, op);
    case OnReplication(op) =>
      ReplicationStepKeepsGraph(p, t, e.now, op);
      SameGraphKeepsInv(t.graph, ApplyReplication(p, t, e.now, op));
    case _ =>
  }

  // Reference conservation

  lemma {:induction false} RunKeepsInv(p: Policy, t: Tables, run: seq<Event>)
    requires GraphInv(t.graph)
    ensures GraphInv(Replay(p, t, run).graph)
    decreases |run|
  {
    if run != [] {
      StepKeepsInv(p, t, run[0]);
      RunKeepsInv(p, Apply(p, t, run[0]), run[1..]);
    }
  }

  /** In every state that a run reaches from the empty database every count is
      exact, every referrer is anchored in an artifact of its own tenant, and
      parent links have no cycle. */
  lemma ReferencesConserved(p: Policy, run: seq<Event>)
    ensures GraphInv(Replay(p, EMPTY, run).graph)
  {
    assert RankedBy(EMPTY.graph, map[]);
    RunKeepsInv(p, EMPTY, run);
  }

  /** No path of parent links ever meets an artifact twice. */
  lemma ParentPathsDoNotRepeat(g: Graph, a: Uuid, path: seq<Uuid>, i: nat, j: nat)
    requires Acyclic(g) && Climbs(g, a, path) && i < j < |path|
    ensures path[i] != path[j]
  {
    var rank :| RankedBy(g, rank);
    RankFalls(g, rank, a, path, i, j);
  }

  lemma {:induction false} RankFalls(g: Graph, rank: map<Uuid, nat>, a: Uuid, path: seq<Uuid>, i: nat, j: nat)
    requires RankedBy(g, rank) && Climbs(g, a, path) && i < j < |path|
    ensures path[i] in rank && path[j] in rank && rank[path[j]] < rank[path[i]]
    decreases j - i
  {
    assert Holds(g, Child(path[j - 1]), path[j]);
    if i < j - 1 { RankFalls(g, rank, a, path, i, j - 1); }
  }

  // Safety of collection

  /** Every artifact of the path is present in both graphs, with the same content
      and status. */
  ghost predicate Untouched(g: Graph, g': Graph, path: seq<Uuid>) {
    forall i | 0 <= i < |path| :: Same(g, g', path[i])
  }

  predicate Same(g: Graph, g': Graph, a: Uuid) {
    && a in g.artifacts && a in g'.artifacts
    && g'.artifacts[a].spec == g.artifacts[a].spec && g'.artifacts[a].status == g.artifacts[a].status
  }

  /** A referrer that keeps its target through a step keeps every ancestor of
      that target, in place and unchanged. */
  lemma StepKeepsReachable(p: Policy, t: Tables, e: Event, r: Referrer, a: Uuid, path: seq<Uuid>)
    requires GraphInv(t.graph) && Climbs(t.graph, a, path)
    requires Holds(Apply(p, t, e).graph, r, a)
    ensures Climbs(Apply(p, t, e).graph, a, path) && Untouched(t.graph, Apply(p, t, e).graph, path)
  {
    StepKeepsInv(p, t, e);
    var g, g' := t.graph, Apply(p, t, e).graph;
    if path != [] {
      AncestorsSurvive(g, g', r, a, path, |path| - 1);
    }
  }

  lemma {:induction false} AncestorsSurvive(g: Graph, g': Graph, r: Referrer, a: Uuid, path: seq<Uuid>, n: nat)
    requires Anchored(g') && SameContent(g, g') && Climbs(g, a, path) && Holds(g', r, a) && n < |path|
    ensures forall i | 0 <= i <= n :: Same(g, g', path[i])
  {
    if n > 0 {
      AncestorsSurvive(g, g', r, a, path, n - 1);
      assert Holds(g', Child(path[n - 1]), path[n]);
    }
  }

  /** The referrer keeps its target in every state of the run. */
  ghost predicate HoldsThroughout(p: Policy, t: Tables, run: seq<Event>, r: Referrer, a: Uuid)
    decreases |run|
  {
    Holds(t.graph, r, a) && (run != [] ==> HoldsThroughout(p, Apply(p, t, run[0]), run[1..], r, a))
  }

  /** Over any run: what a surviving branch head, hibernation or VM reference
      can reach by parent links is never collected. */
  lemma {:induction false} ReachableIsNeverCollected(p: Policy, t: Tables, run: seq<Event>, r: Referrer, a: Uuid, path: seq<Uuid>)
    requires GraphInv(t.graph) && HoldsThroughout(p, t, run, r, a) && Climbs(t.graph, a, path)
    ensures Climbs(Replay(p, t, run).graph, a, path) && Untouched(t.graph, Replay(p, t, run).graph, path)
    decreases |run|
  {
    if run != [] {
      var next := Apply(p, t, run[0]);
      StepKeepsInv(p, t, run[0]);
      StepKeepsReachable(p, t, run[0], r, a, path);
      ReachableIsNeverCollected(p, next, run[1..], r, a, path);
    }
  }

  // Checks that never fire

  /** The transaction stopped because a count had nothing to release, or because
      an artifact row was still referred to. */
  predicate Obstructed(p: Policy, t: Tables, op: Op) {
    match op
    case OnArtifacts(OpDeleteArtifact(o, a)) => !Unobstructed(DeleteArtifactIfUnreferenced(t.graph, o, a))
    case OnArtifacts(OpUpdateBranchHead(o, id, rev, head)) => !Unobstructed(UpdateBranchHead(t.graph, o, id, rev, head))
    case OnArtifacts(OpDeleteBranch(o, id)) => !Unobstructed(DeleteBranch(t.graph, o, id))
    case OnArtifacts(OpUpsertHibernation(h)) => !Unobstructed(UpsertHibernation(t.vms, t.graph, h))
    case OnArtifacts(OpDeleteHibernation(o, id)) => !Unobstructed(DeleteHibernation(t.graph, o, id))
    case OnArtifacts(OpReleaseVmRef(vm)) => !Unobstructed(ReleaseVmArtifactRef(t.graph, vm))
    case OnVms(OpDeleteVm(vm)) => !Unobstructed(DeleteVm(t, vm))
    case _ => false
  }

  /** After any run from the empty database no transaction is obstructed. */
  lemma NothingIsEverObstructed(p: Policy, run: seq<Event>, op: Op)
    ensures !Obstructed(p, Replay(p, EMPTY, run), op)
  {
    ReferencesConserved(p, run);
    ConsistentIsUnobstructed(p, Replay(p, EMPTY, run), op);
  }

  lemma ConsistentIsUnobstructed(p: Policy, t: Tables, op: Op)
    requires GraphInv(t.graph)
    ensures !Obstructed(p, t, op)
  {
    match op
    case OnArtifacts(OpDeleteArtifact(o, a)) => DeleteArtifactKeepsInv(t.graph, o, a);
    case OnArtifacts(OpUpdateBranchHead(o, id, rev, head)) => UpdateBranchHeadKeepsInv(t.graph, o, id, rev, head);
    case OnArtifacts(OpDeleteBranch(o, id)) => DeleteBranchKeepsInv(t.graph, o, id);
    case OnArtifacts(OpUpsertHibernation(h)) => UpsertHibernationKeepsInv(t.vms, t.graph, h);
    case OnArtifacts(OpDeleteHibernation(o, id)) => DeleteHibernationKeepsInv(t.graph, o, id);
    case OnArtifacts(OpReleaseVmRef(vm)) => ReleaseVmRefIsClean(t.graph, vm);
    case OnVms(OpDeleteVm(vm)) => DeleteVmKeepsInv(t, vm);
    case _ =>
  }

  // Artifacts left at zero

  /** An artifact that lost its last reference without being deleted. */
  ghost predicate LeftBehind(g: Graph, g': Graph, a: Uuid) {
    a in g.artifacts && a in g'.artifacts && Count(g, a) > 0 && Count(g', a) == 0
  }

  lemma InsertLeavesNone(p: Policy, hosts: map<HostId, Host>, g: Graph, now: Time, art: ArtifactRecord, a: Uuid)
    requires GraphInv(g)
    ensures !LeftBehind(g, After(g, InsertArtifact(p, hosts, g, now, art)), a)
  {
    InsertArtifactGrows(p, hosts, g, now, art);
  }

  lemma InsertBranchLeavesNone(vms: map<Uuid, VmRow>, g: Graph, id: Uuid, branch: Branch, a: Uuid)
    ensures !LeftBehind(g, After(g, InsertBranch(vms, g, id, branch)), a)
  {
  }

  lemma AcquireLeavesNone(g: Graph, vm: VmRecord, artifact: Uuid, a: Uuid)
    ensures !LeftBehind(g, After(g, AcquireVmArtifactRef(g, vm, artifact)), a)
  {
  }

  /** Only three artifact transactions can leave an artifact behind. */
  lemma ArtifactStepLeavesBehind(p: Policy, t: Tables, now: Time, op: ArtifactOp, a: Uuid)
    requires GraphInv(t.graph) && LeftBehind(t.graph, ApplyArtifact(p, t, now, op), a)
    ensures op.OpUpdateBranchHead? || op.OpUpsertHibernation? || op.OpDeleteArtifact?
  {
    var g := t.graph;
    match op
    case OpInsertArtifact(art) => InsertLeavesNone(p, t.hosts, g, now, art, a);
    case OpInsertBranch(id, b) => InsertBranchLeavesNone(t.vms, g, id, b, a);
    case OpDeleteBranch(o, id) => DeleteBranchKeepsInv(g, o, id);
    case OpDeleteHibernation(o, id) => DeleteHibernationKeepsInv(g, o, id);
    case OpAcquireVmRef(vm, artifact) => AcquireLeavesNone(g, vm, artifact, a);
    case OpReleaseVmRef(vm) => ReleaseVmRefIsClean(g, vm);
    case _ =>
  }

  /** The deletions of branches, hibernations, VM references and VMs collect what
      they free: what leaves an artifact behind is one of three others. */
  lemma OnlyTheseLeaveArtifactsBehind(p: Policy, t: Tables, e: Event, a: Uuid)
    requires GraphInv(t.graph) && LeftBehind(t.graph, Apply(p, t, e).graph, a)
    ensures e.op.OnArtifacts? && (e.op.a.OpUpdateBranchHead? || e.op.a.OpUpsertHibernation? || e.op.a.OpDeleteArtifact?)
  {
    match e.op
    case OnArtifacts(op) => ArtifactStepLeavesBehind(p, t, e.now, op, a);
    case OnVms(op) => VmStepLeavesNone(t, e.now, op, a);
    case OnReplication(op) => ReplicationStepKeepsGraph(p, t, e.now, op);
    case _ =>
  }

  lemma VmStepLeavesNone(t: Tables, now: Time, op: VmOp, a: Uuid)
    requires GraphInv(t.graph)
    ensures !LeftBehind(t.graph, ApplyVm(t, now, op).graph, a)
  {
    if op.OpDeleteVm? { DeleteVmKeepsInv(t, op.vm); }
  }
}
