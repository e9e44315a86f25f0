/** Every transaction keeps the reference-counting invariant, so every run does;
    and what that means for garbage collection. */
module FleetGraphRuns {
  import opened Results
  import opened FleetTables
  import opened ArtifactStore
  import opened VmStore
  import opened FleetRuns
  import opened FleetGraph

  // Transactions that leave the graph alone

  ghost predicate SameGraph(g: Graph, g': Graph) {
    && g'.branches == g.branches && g'.hibernations == g.hibernations && g'.artifactRefs == g.artifactRefs
    && g'.artifacts.Keys == g.artifacts.Keys
    && (forall a | a in g.artifacts :: g'.artifacts[a].spec == g.artifacts[a].spec
                                       && g'.artifacts[a].refCount == g.artifacts[a].refCount)
  }

  /** No row changed what it points at or who owns it. */
  ghost predicate SameRefs(g: Graph, g': Graph) {
    (forall r, a :: Holds(g', r, a) <==> Holds(g, r, a)) && (forall r :: OwnerOf(g', r) == OwnerOf(g, r))
  }

  lemma SameRefsKeepInv(g: Graph, g': Graph)
    requires GraphInv(g) && SameRefs(g, g') && g'.artifacts.Keys == g.artifacts.Keys
    requires forall a | a in g.artifacts :: g'.artifacts[a].spec == g.artifacts[a].spec
                                            && g'.artifacts[a].refCount == g.artifacts[a].refCount
    ensures GraphInv(g')
  {
    forall a | a in g'.artifacts ensures g'.artifacts[a].refCount == |Holders(g', a)| {
      assert Holders(g', a) == Holders(g, a);
    }
    FewerLinksStayAcyclic(g, g');
  }

  lemma SameGraphKeepsInv(g: Graph, g': Graph)
    requires GraphInv(g) && SameGraph(g, g')
    ensures GraphInv(g')
  {
    SameRefsKeepInv(g, g');
  }

  // Transactions that move one referrer

  /** Only counts changed, at the two ends of the move. */
  ghost predicate Recounted(g: Graph, g': Graph, from: Option<Uuid>, to: Option<Uuid>) {
    && g'.artifacts.Keys == g.artifacts.Keys
    && (forall a | a in g.artifacts ::
          && g'.artifacts[a] == g.artifacts[a].(refCount := g'.artifacts[a].refCount)
          && Count(g', a) + Bit(from == Some(a)) == Count(g, a) + Bit(to == Some(a)))
  }

  lemma RebindKeepsInv(g: Graph, g': Graph, r: Referrer, from: Option<Uuid>, to: Option<Uuid>)
    requires GraphInv(g) && !r.Child? && Moves(g, g', r, from, to) && Recounted(g, g', from, to)
    requires forall r' | r' != r :: OwnerOf(g', r') == OwnerOf(g, r')
    requires to.Some? ==> to.value in g.artifacts && OwnerOf(g', r) == Some(g.artifacts[to.value].spec.ownerKey)
    ensures GraphInv(g')
  {
    MoveKeepsCounts(g, g', r, from, to);
    FewerLinksStayAcyclic(g, g');
  }

  /** Only row `r` changed what it points at. */
  ghost predicate OnlyMoved(g: Graph, g': Graph, r: Referrer, from: Option<Uuid>, to: Option<Uuid>) {
    Moves(g, g', r, from, to) && forall r' | r' != r :: OwnerOf(g', r') == OwnerOf(g, r')
  }

  lemma SetCountKeepsRefs(g: Graph, a: Uuid, count: nat)
    requires a in g.artifacts
    ensures SameRefs(g, SetCount(g, a, count))
  {
  }

  lemma OnlyMovedThrough(g: Graph, held: Graph, moved: Graph, g': Graph, r: Referrer, from: Option<Uuid>, to: Option<Uuid>)
    requires SameRefs(g, held) && OnlyMoved(held, moved, r, from, to) && SameRefs(moved, g')
    ensures OnlyMoved(g, g', r, from, to) && OwnerOf(g', r) == OwnerOf(moved, r)
  {
  }

  /** The shape of every transaction that moves a reference: count up the new
      target (`g` to `held`), rewrite the row (to `moved`), count down the old
      target (to `g'`). */
  lemma ReferenceMoved(g: Graph, held: Graph, moved: Graph, g': Graph, r: Referrer, from: Option<Uuid>, to: Option<Uuid>)
    requires GraphInv(g) && !r.Child?
    requires SameRefs(g, held) && OnlyMoved(held, moved, r, from, to) && SameRefs(moved, g')
    requires Recounted(g, g', from, to)
    requires to.Some? ==> to.value in g.artifacts && OwnerOf(moved, r) == Some(g.artifacts[to.value].spec.ownerKey)
    ensures GraphInv(g')
  {
    OnlyMovedThrough(g, held, moved, g', r, from, to);
    RebindKeepsInv(g, g', r, from, to);
  }

  /** Take a reference for row `r`, which pointed at nothing. */
  lemma AcquireKeepsInv(g: Graph, g': Graph, r: Referrer, owner: OwnerKey, a: Uuid, needReady: bool)
    requires GraphInv(g) && !r.Child? && AcquireRef(g, owner, a, needReady).Success?
    requires var held := AcquireRef(g, owner, a, needReady).value;
      g'.artifacts == held.artifacts && OnlyMoved(held, g', r, None, Some(a))
    requires OwnerOf(g', r) == Some(owner)
    ensures GraphInv(g')
  {
    SetCountKeepsRefs(g, a, g.artifacts[a].refCount + 1);
    ReferenceMoved(g, AcquireRef(g, owner, a, needReady).value, g', g', r, None, Some(a));
  }

  /** Exchange the reference of row `r` for another; the release cannot fail. */
  lemma SwapKeepsInv(g: Graph, held: Graph, moved: Graph, r: Referrer, owner: OwnerKey, from: Uuid, to: Uuid)
    requires GraphInv(g) && !r.Child? && from != to && AcquireRef(g, owner, to, true) == Success(held)
    requires moved.artifacts == held.artifacts && OnlyMoved(held, moved, r, Some(from), Some(to))
    requires Holds(g, r, from) && OwnerOf(g, r) == Some(owner) == OwnerOf(moved, r)
    ensures ReleaseRef(moved, owner, from).Success? && GraphInv(ReleaseRef(moved, owner, from).value)
  {
    HeldIsCounted(g, r, from);
    SwapCounts(g, held, moved, owner, from, to);
    SetCountKeepsRefs(g, to, g.artifacts[to].refCount + 1);
    SetCountKeepsRefs(moved, from, moved.artifacts[from].refCount - 1);
    ReferenceMoved(g, held, moved, ReleaseRef(moved, owner, from).value, r, Some(from), Some(to));
  }

  lemma SwapCounts(g: Graph, held: Graph, moved: Graph, owner: OwnerKey, from: Uuid, to: Uuid)
    requires from != to && AcquireRef(g, owner, to, true) == Success(held) && moved.artifacts == held.artifacts
    requires Owned(g, from, owner) && g.artifacts[from].refCount > 0
    ensures held == SetCount(g, to, g.artifacts[to].refCount + 1)
    ensures ReleaseRef(moved, owner, from) == Success(SetCount(moved, from, g.artifacts[from].refCount - 1))
    ensures Recounted(g, ReleaseRef(moved, owner, from).value, Some(from), Some(to))
  {
  }

  // Branches

  lemma PutBranchMoves(g: Graph, b: Uuid, branch: Branch)
    ensures OnlyMoved(g, g.(branches := g.branches[b := branch]), Head(b),
                      if b in g.branches then Some(g.branches[b].head) else None, Some(branch.head))
  {
  }

  lemma InsertBranchKeepsInv(vms: map<Uuid, VmRow>, g: Graph, id: Uuid, branch: Branch)
    requires GraphInv(g)
    ensures GraphInv(After(g, InsertBranch(vms, g, id, branch))) && Retains(g, After(g, InsertBranch(vms, g, id, branch)))
  {
    var tx := InsertBranch(vms, g, id, branch);
    if tx.Success? && tx.value.0 != g {
      InsertBranchShape(vms, g, id, branch);
      PutBranchMoves(AcquireRef(g, branch.ownerKey, branch.head, true).value, id, branch);
      AcquireKeepsInv(g, tx.value.0, Head(id), branch.ownerKey, branch.head, true);
    }
  }

  lemma InsertBranchShape(vms: map<Uuid, VmRow>, g: Graph, id: Uuid, branch: Branch)
    requires InsertBranch(vms, g, id, branch).Success? && InsertBranch(vms, g, id, branch).value.0 != g
    ensures id !in g.branches && AcquireRef(g, branch.ownerKey, branch.head, true).Success?
    ensures var held := AcquireRef(g, branch.ownerKey, branch.head, true).value;
      InsertBranch(vms, g, id, branch).value.0 == held.(branches := held.branches[id := branch])
  {
  }

  lemma UpdateBranchHeadKeepsInv(g: Graph, owner: OwnerKey, b: Uuid, expected: nat, newHead: Uuid)
    requires GraphInv(g)
    ensures var tx := UpdateBranchHead(g, owner, b, expected, newHead);
      Unobstructed(tx) && GraphInv(After(g, tx)) && Retains(g, After(g, tx))
  {
    if b in g.branches && g.branches[b].ownerKey == owner {
      var head := g.branches[b].head;
      var branch := g.branches[b].(head := newHead, revision := expected + 1);
      if head == newHead {
        RepeatBranchHead(g, owner, b, expected);
      } else if AcquireRef(g, owner, newHead, true).Success? {
        var held := AcquireRef(g, owner, newHead, true).value;
        var moved := held.(branches := held.branches[b := branch]);
        PutBranchMoves(held, b, branch);
        SwapKeepsInv(g, held, moved, Head(b), owner, head, newHead);
        UpdateBranchHeadShape(g, owner, b, expected, newHead, moved);
      }
    }
  }

  lemma RepeatBranchHead(g: Graph, owner: OwnerKey, b: Uuid, expected: nat)
    requires GraphInv(g) && b in g.branches && g.branches[b].ownerKey == owner
    ensures var tx := UpdateBranchHead(g, owner, b, expected, g.branches[b].head);
      Unobstructed(tx) && GraphInv(After(g, tx)) && Retains(g, After(g, tx))
  {
    SameHeadsKeepInv(g, After(g, UpdateBranchHead(g, owner, b, expected, g.branches[b].head)));
  }

  lemma UpdateBranchHeadShape(g: Graph, owner: OwnerKey, b: Uuid, expected: nat, newHead: Uuid, moved: Graph)
    requires b in g.branches && g.branches[b].ownerKey == owner && g.branches[b].head != newHead
    requires AcquireRef(g, owner, newHead, true).Success?
    requires var held := AcquireRef(g, owner, newHead, true).value;
      moved == held.(branches := held.branches[b := g.branches[b].(head := newHead, revision := expected + 1)])
    ensures var tx := UpdateBranchHead(g, owner, b, expected, newHead); var released := ReleaseRef(moved, owner, g.branches[b].head);
      tx.Failure? || (released.Success? && tx.value.0 == released.value)
    ensures UpdateBranchHead(g, owner, b, expected, newHead) == Failure(MissingReference) ==>
      ReleaseRef(moved, owner, g.branches[b].head).Failure?
  {
  }

  /** Branch rows may change in any column but their head and owner. */
  lemma SameHeadsKeepInv(g: Graph, g': Graph)
    requires GraphInv(g) && SameGraph(g, g'.(branches := g.branches))
    requires g'.branches.Keys == g.branches.Keys
    requires forall b | b in g.branches :: g'.branches[b].head == g.branches[b].head && g'.branches[b].ownerKey == g.branches[b].ownerKey
    ensures GraphInv(g')
  {
    SameRefsKeepInv(g, g');
  }

  /** Dropping a referrer and releasing its reference: always possible. */
  lemma ReleaseKeepsInv(g: Graph, dropped: Graph, r: Referrer, owner: OwnerKey, a: Uuid)
    requires GraphInv(g) && !r.Child? && Holds(g, r, a) && OwnerOf(g, r) == Some(owner)
    requires dropped.artifacts == g.artifacts && OnlyMoved(g, dropped, r, Some(a), None)
    ensures ReleaseRef(dropped, owner, a).Success? && GraphInv(ReleaseRef(dropped, owner, a).value)
    ensures Owned(g, a, owner)
  {
    HeldIsCounted(g, r, a);
    SetCountKeepsRefs(dropped, a, dropped.artifacts[a].refCount - 1);
    ReferenceMoved(g, g, dropped, ReleaseRef(dropped, owner, a).value, r, Some(a), None);
  }

  /** Release a referrer, then walk: the shape of every deleting transaction. */
  lemma ReleaseThenCollect(g: Graph, dropped: Graph, r: Referrer, owner: OwnerKey, a: Uuid) returns (path: seq<Uuid>)
    requires GraphInv(g) && !r.Child? && Holds(g, r, a) && OwnerOf(g, r) == Some(owner)
    requires dropped.artifacts == g.artifacts && OnlyMoved(g, dropped, r, Some(a), None)
    ensures ReleaseRef(dropped, owner, a).Success?
    ensures var released := ReleaseRef(dropped, owner, a).value;
      && CollectChain(released, owner, a).Success?
      && LongestUnheld(released, a, path) && Pruned(released, CollectChain(released, owner, a).value, a, path)
      && GraphInv(CollectChain(released, owner, a).value)
  {
    ReleaseKeepsInv(g, dropped, r, owner, a);
    var released := ReleaseRef(dropped, owner, a).value;
    path := CollectDeletesLongestUnheld(released, owner, a);
  }

  /** The transaction did not stop at a missing reference or a foreign key. */
  predicate Unobstructed<S, T>(tx: Tx<S, T>) {
    tx != Failure(MissingReference) && tx != Failure(RestrictViolation)
  }

  /** Counts that are zero now were zero before. */
  ghost predicate NoNewZero(g: Graph, g': Graph) {
    forall a | a in g'.artifacts && Count(g', a) == 0 :: a in g.artifacts && Count(g, a) == 0
  }

  /** The walk leaves no artifact at zero that it could have reached. */
  lemma CollectLeavesNoNewZero(g: Graph, g': Graph, a: Uuid, path: seq<Uuid>)
    requires Counted(g) && a in g.artifacts && LongestUnheld(g, a, path) && Pruned(g, g', a, path)
    ensures forall x | x in g'.artifacts && Count(g', x) == 0 :: x != a && Count(g, x) == 0
  {
    assert path != [] ==> a in Elements(path);
    forall x | x in g'.artifacts && Above(g, a, path) == Some(x) ensures Count(g', x) > 0 {
      SurvivorIsHeld(g, a, path, x);
    }
  }

  lemma SurvivorIsHeld(g: Graph, a: Uuid, path: seq<Uuid>, survivor: Uuid)
    requires Counted(g) && LongestUnheld(g, a, path) && survivor in g.artifacts && Above(g, a, path) == Some(survivor)
    ensures Count(g, survivor) > Bit(path != [])
  {
    var holders := Holders(g, survivor);
    if path != [] {
      assert Child(path[|path| - 1]) in holders;
      assert holders - {Child(path[|path| - 1])} != {};
      assert |holders| == |holders - {Child(path[|path| - 1])}| + 1;
    }
  }

  /** One deleting transaction: drop the row, release, collect. */
  lemma DropIsClean(g: Graph, dropped: Graph, r: Referrer, owner: OwnerKey, a: Uuid)
    requires GraphInv(g) && !r.Child? && Holds(g, r, a) && OwnerOf(g, r) == Some(owner)
    requires dropped.artifacts == g.artifacts && OnlyMoved(g, dropped, r, Some(a), None)
    ensures ReleaseRef(dropped, owner, a).Success?
    ensures var released := ReleaseRef(dropped, owner, a).value;
      && CollectChain(released, owner, a).Success?
      && GraphInv(CollectChain(released, owner, a).value)
      && NoNewZero(g, CollectChain(released, owner, a).value)
      && Shrinks(dropped, CollectChain(released, owner, a).value)
  {
    ReleaseKeepsInv(g, dropped, r, owner, a);
    var path := ReleaseThenCollect(g, dropped, r, owner, a);
    var released := ReleaseRef(dropped, owner, a).value;
    CollectLeavesNoNewZero(released, CollectChain(released, owner, a).value, a, path);
  }

  lemma DeleteBranchKeepsInv(g: Graph, owner: OwnerKey, b: Uuid)
    requires GraphInv(g)
    ensures var tx := DeleteBranch(g, owner, b);
      Unobstructed(tx) && GraphInv(After(g, tx)) && NoNewZero(g, After(g, tx)) && Retains(g, After(g, tx))
  {
    if b in g.branches && g.branches[b].ownerKey == owner {
      DropBranchMoves(g, b);
      DropIsClean(g, DropBranch(g, b), Head(b), owner, g.branches[b].head);
    }
  }

  lemma DropBranchMoves(g: Graph, b: Uuid)
    requires b in g.branches
    ensures OnlyMoved(g, DropBranch(g, b), Head(b), Some(g.branches[b].head), None)
  {
  }

  // Hibernations

  lemma PutHibernationMoves(g: Graph, v: Uuid, row: Hibernation)
    ensures OnlyMoved(g, g.(hibernations := g.hibernations[v := row]), Bound(v),
                      if v in g.hibernations then Some(g.hibernations[v].artifact) else None, Some(row.artifact))
  {
  }

  lemma DropHibernationMoves(g: Graph, v: Uuid)
    requires v in g.hibernations
    ensures OnlyMoved(g, g.(hibernations := g.hibernations - {v}), Bound(v), Some(g.hibernations[v].artifact), None)
  {
  }

  lemma DeleteHibernationKeepsInv(g: Graph, owner: OwnerKey, vm: Uuid)
    requires GraphInv(g)
    ensures var tx := DeleteHibernation(g, owner, vm);
      Unobstructed(tx) && GraphInv(After(g, tx)) && NoNewZero(g, After(g, tx)) && Retains(g, After(g, tx))
  {
    if vm in g.hibernations && g.hibernations[vm].ownerKey == owner {
      DropHibernationMoves(g, vm);
      DropIsClean(g, g.(hibernations := g.hibernations - {vm}), Bound(vm), owner, g.hibernations[vm].artifact);
    }
  }

  lemma UpsertHibernationKeepsInv(vms: map<Uuid, VmRow>, g: Graph, rec: HibernationRecord)
    requires GraphInv(g)
    ensures var tx := UpsertHibernation(vms, g, rec); Unobstructed(tx) && GraphInv(After(g, tx)) && Retains(g, After(g, tx))
  {
    if rec.vm in g.hibernations && g.hibernations[rec.vm].ownerKey == rec.ownerKey && g.hibernations[rec.vm].artifact == rec.artifact {
      RepeatHibernation(vms, g, rec);
    } else if AcquireRef(g, rec.ownerKey, rec.artifact, true).Failure? {
      UnavailableHibernation(vms, g, rec);
    } else if rec.vm in g.hibernations && g.hibernations[rec.vm].ownerKey == rec.ownerKey {
      RebindHibernation(vms, g, rec);
    } else {
      BindHibernation(vms, g, rec);
    }
  }

  lemma RepeatHibernation(vms: map<Uuid, VmRow>, g: Graph, rec: HibernationRecord)
    requires GraphInv(g) && rec.vm in g.hibernations && g.hibernations[rec.vm].ownerKey == rec.ownerKey
    requires g.hibernations[rec.vm].artifact == rec.artifact
    ensures var tx := UpsertHibernation(vms, g, rec); Unobstructed(tx) && GraphInv(After(g, tx)) && Retains(g, After(g, tx))
  {
    SameBindingsKeepInv(g, After(g, UpsertHibernation(vms, g, rec)));
  }

  lemma UnavailableHibernation(vms: map<Uuid, VmRow>, g: Graph, rec: HibernationRecord)
    requires !(rec.vm in g.hibernations && g.hibernations[rec.vm].ownerKey == rec.ownerKey
               && g.hibernations[rec.vm].artifact == rec.artifact)
    requires AcquireRef(g, rec.ownerKey, rec.artifact, true).Failure?
    ensures UpsertHibernation(vms, g, rec) in {Failure(Conflict), Failure(NotFound)}
  {
  }

  lemma RebindHibernation(vms: map<Uuid, VmRow>, g: Graph, rec: HibernationRecord)
    requires GraphInv(g) && rec.vm in g.hibernations && g.hibernations[rec.vm].ownerKey == rec.ownerKey
    requires g.hibernations[rec.vm].artifact != rec.artifact && AcquireRef(g, rec.ownerKey, rec.artifact, true).Success?
    ensures var tx := UpsertHibernation(vms, g, rec); Unobstructed(tx) && GraphInv(After(g, tx)) && Retains(g, After(g, tx))
  {
    var row := Hibernation(rec.ownerKey, rec.artifact, rec.policyRevision);
    var held := AcquireRef(g, rec.ownerKey, rec.artifact, true).value;
    var moved := held.(hibernations := held.hibernations[rec.vm := row]);
    PutHibernationMoves(held, rec.vm, row);
    SwapKeepsInv(g, held, moved, Bound(rec.vm), rec.ownerKey, g.hibernations[rec.vm].artifact, rec.artifact);
    RebindHibernationShape(vms, g, rec, moved);
  }

  lemma BindHibernation(vms: map<Uuid, VmRow>, g: Graph, rec: HibernationRecord)
    requires GraphInv(g) && !(rec.vm in g.hibernations && g.hibernations[rec.vm].ownerKey == rec.ownerKey)
    requires AcquireRef(g, rec.ownerKey, rec.artifact, true).Success?
    ensures var tx := UpsertHibernation(vms, g, rec); Unobstructed(tx) && GraphInv(After(g, tx)) && Retains(g, After(g, tx))
  {
    var row := Hibernation(rec.ownerKey, rec.artifact, rec.policyRevision);
    var held := AcquireRef(g, rec.ownerKey, rec.artifact, true).value;
    var moved := held.(hibernations := held.hibernations[rec.vm := row]);
    if rec.vm !in g.hibernations {
      PutHibernationMoves(held, rec.vm, row);
      AcquireKeepsInv(g, moved, Bound(rec.vm), rec.ownerKey, rec.artifact, true);
    }
    BindHibernationShape(vms, g, rec, moved);
  }

  lemma SameBindingsKeepInv(g: Graph, g': Graph)
    requires GraphInv(g) && SameGraph(g, g'.(hibernations := g.hibernations))
    requires g'.hibernations.Keys == g.hibernations.Keys
    requires forall v | v in g.hibernations :: g'.hibernations[v].artifact == g.hibernations[v].artifact
                                               && g'.hibernations[v].ownerKey == g.hibernations[v].ownerKey
    ensures GraphInv(g')
  {
    SameRefsKeepInv(g, g');
  }

  lemma RebindHibernationShape(vms: map<Uuid, VmRow>, g: Graph, rec: HibernationRecord, moved: Graph)
    requires rec.vm in g.hibernations && g.hibernations[rec.vm].ownerKey == rec.ownerKey
    requires g.hibernations[rec.vm].artifact != rec.artifact && AcquireRef(g, rec.ownerKey, rec.artifact, true).Success?
    requires var held := AcquireRef(g, rec.ownerKey, rec.artifact, true).value;
      moved == held.(hibernations := held.hibernations[rec.vm := Hibernation(rec.ownerKey, rec.artifact, rec.policyRevision)])
    requires ReleaseRef(moved, rec.ownerKey, g.hibernations[rec.vm].artifact).Success?
    ensures var tx := UpsertHibernation(vms, g, rec);
      Unobstructed(tx) && (tx.Success? ==> tx.value.0 == ReleaseRef(moved, rec.ownerKey, g.hibernations[rec.vm].artifact).value)
  {
  }

  lemma BindHibernationShape(vms: map<Uuid, VmRow>, g: Graph, rec: HibernationRecord, moved: Graph)
    requires !(rec.vm in g.hibernations && g.hibernations[rec.vm].ownerKey == rec.ownerKey)
    requires AcquireRef(g, rec.ownerKey, rec.artifact, true).Success?
    requires var held := AcquireRef(g, rec.ownerKey, rec.artifact, true).value;
      moved == held.(hibernations := held.hibernations[rec.vm := Hibernation(rec.ownerKey, rec.artifact, rec.policyRevision)])
    ensures var tx := UpsertHibernation(vms, g, rec);
      Unobstructed(tx) && (tx.Success? ==> rec.vm !in g.hibernations && tx.value.0 == moved)
  {
  }

  // References held by running VMs

  lemma PutRefMoves(g: Graph, v: Uuid, ref: ArtifactRef)
    requires v !in g.artifactRefs
    ensures OnlyMoved(g, g.(artifactRefs := g.artifactRefs[v := ref]), Lazy(v), None, Some(ref.artifact))
  {
  }

  lemma DropRefMoves(g: Graph, v: Uuid)
    requires v in g.artifactRefs
    ensures OnlyMoved(g, g.(artifactRefs := g.artifactRefs - {v}), Lazy(v), Some(g.artifactRefs[v].artifact), None)
  {
  }

  lemma AcquireVmRefKeepsInv(g: Graph, vm: VmRecord, a: Uuid)
    requires GraphInv(g)
    ensures var tx := AcquireVmArtifactRef(g, vm, a); Unobstructed(tx) && GraphInv(After(g, tx)) && Retains(g, After(g, tx))
  {
    var tx := AcquireVmArtifactRef(g, vm, a);
    if tx.Success? && vm.id !in g.artifactRefs {
      var held := AcquireRef(g, vm.ownerKey.value, a, false).value;
      PutRefMoves(held, vm.id, ArtifactRef(vm.ownerKey.value, a, Normalize(vm.createdAt)));
      AcquireKeepsInv(g, tx.value.0, Lazy(vm.id), vm.ownerKey.value, a, false);
    }
  }

  /** Releasing a running VM's reference, alone or while its row is deleted. */
  lemma ReleaseVmRefIsClean(g: Graph, vm: VmRecord)
    requires GraphInv(g)
    ensures var r := ReleaseVmRef(g, vm);
      if r.Failure? then r.error == Conflict
      else GraphInv(r.value) && NoNewZero(g, r.value) && Shrinks(g.(artifactRefs := r.value.artifactRefs), r.value)
  {
    if vm.id in g.artifactRefs {
      var ref := g.artifactRefs[vm.id];
      DropRefMoves(g, vm.id);
      DropIsClean(g, g.(artifactRefs := g.artifactRefs - {vm.id}), Lazy(vm.id), ref.ownerKey, ref.artifact);
    }
  }

  lemma ReleaseHibernationIsClean(g: Graph, id: Uuid)
    requires GraphInv(g)
    ensures var r := ReleaseHibernation(g, id);
      && r.Success? && GraphInv(r.value) && NoNewZero(g, r.value)
      && r.value.hibernations == g.hibernations - {id} && Shrinks(g.(hibernations := r.value.hibernations), r.value)
  {
    if id in g.hibernations {
      var bound := g.hibernations[id];
      DropHibernationMoves(g, id);
      DropIsClean(g, g.(hibernations := g.hibernations - {id}), Bound(id), bound.ownerKey, bound.artifact);
    }
  }

  /** Deleting a VM first releases all it holds. */
  lemma ReleaseHoldingsIsClean(g: Graph, vm: VmRecord)
    requires GraphInv(g)
    ensures var r := ReleaseHoldings(g, vm);
      if r.Failure? then r.error == Conflict
      else GraphInv(r.value) && NoNewZero(g, r.value) && Retains(g, r.value) && r.value.hibernations == g.hibernations - {vm.id}
  {
    ReleaseVmRefIsClean(g, vm);
    if ReleaseVmRef(g, vm).Success? {
      ReleaseHibernationIsClean(ReleaseVmRef(g, vm).value, vm.id);
    }
  }

  /** The cascade from the deleted VM row drops nothing that is counted. */
  lemma DeleteVmKeepsInv(t: Tables, vm: VmRecord)
    requires GraphInv(t.graph)
    ensures var tx := DeleteVm(t, vm);
      Unobstructed(tx) && GraphInv(After(t, tx).graph) && NoNewZero(t.graph, After(t, tx).graph)
      && Retains(t.graph, After(t, tx).graph)
  {
    ReleaseHoldingsIsClean(t.graph, vm);
    var r := ReleaseHoldings(t.graph, vm);
    if r.Success? {
      assert r.value.hibernations - {vm.id} == r.value.hibernations;
    }
  }

  // Artifacts

  lemma DeleteArtifactKeepsInv(g: Graph, owner: OwnerKey, a: Uuid)
    requires GraphInv(g)
    ensures var tx := DeleteArtifactIfUnreferenced(g, owner, a); Unobstructed(tx) && GraphInv(After(g, tx)) && Retains(g, After(g, tx))
  {
    if Owned(g, a, owner) && g.artifacts[a].refCount == 0 {
      UnlinkSucceeds(g, a);
      UnlinkKeepsInv(g, Unlink(g, a).value, a);
    }
  }

  /** `g'` is `g` with a new, uncounted artifact whose parent counts it. */
  ghost predicate Grown(g: Graph, g': Graph, id: Uuid, spec: ArtifactSpec) {
    && id !in g.artifacts && g'.artifacts.Keys == g.artifacts.Keys + {id}
    && g'.artifacts[id].spec == spec && g'.artifacts[id].refCount == 0
    && g'.branches == g.branches && g'.hibernations == g.hibernations && g'.artifactRefs == g.artifactRefs
    && (forall a | a in g.artifacts ::
          && g'.artifacts[a] == g.artifacts[a].(refCount := g'.artifacts[a].refCount)
          && Count(g', a) == Count(g, a) + Bit(spec.parent == Some(a)))
    && (spec.parent.Some? ==> Owned(g, spec.parent.value, spec.ownerKey))
  }

  lemma InsertArtifactGrows(p: Policy, hosts: map<HostId, Host>, g: Graph, now: Time, art: ArtifactRecord)
    ensures var tx := InsertArtifact(p, hosts, g, now, art);
      Unobstructed(tx) && (tx.Success? ==> tx.value.0 == g || Grown(g, tx.value.0, art.id, art.spec))
  {
    if LinkParent(g, art.spec).Success? && StoreArtifact(p, hosts, LinkParent(g, art.spec).value, now, art).Success? {
      LinkedThenStored(p, hosts, g, LinkParent(g, art.spec).value, now, art);
    }
  }

  lemma StoredShape(p: Policy, hosts: map<HostId, Host>, g: Graph, now: Time, art: ArtifactRecord)
    requires StoreArtifact(p, hosts, g, now, art).Success?
    ensures var row := Artifact(art.spec, art.status, InitialReplication(p, hosts, now, art), 0); var g' := StoreArtifact(p, hosts, g, now, art).value;
      art.id !in g.artifacts && g' == g.(artifacts := g.artifacts[art.id := row], replicas := g'.replicas)
  {
  }

  lemma LinkedShape(g: Graph, spec: ArtifactSpec)
    requires LinkParent(g, spec).Success?
    ensures Recounted(g, LinkParent(g, spec).value, None, spec.parent)
    ensures LinkParent(g, spec).value == g.(artifacts := LinkParent(g, spec).value.artifacts)
    ensures spec.parent.Some? ==> Owned(g, spec.parent.value, spec.ownerKey)
  {
    if spec.parent.Some? {
      var parent := spec.parent.value;
      assert LinkParent(g, spec) == Success(SetCount(g, parent, g.artifacts[parent].refCount + 1));
      CountUp(g, parent);
    }
  }

  lemma CountUp(g: Graph, a: Uuid)
    requires a in g.artifacts
    ensures Recounted(g, SetCount(g, a, g.artifacts[a].refCount + 1), None, Some(a))
  {
  }

  lemma LinkedThenStored(p: Policy, hosts: map<HostId, Host>, g: Graph, linked: Graph, now: Time, art: ArtifactRecord)
    requires LinkParent(g, art.spec) == Success(linked) && StoreArtifact(p, hosts, linked, now, art).Success?
    ensures Grown(g, StoreArtifact(p, hosts, linked, now, art).value, art.id, art.spec)
  {
    LinkedShape(g, art.spec);
    StoredShape(p, hosts, linked, now, art);
    GrownFromParts(g, linked, StoreArtifact(p, hosts, linked, now, art).value, art.id, art.spec);
  }

  lemma GrownFromParts(g: Graph, linked: Graph, g': Graph, id: Uuid, spec: ArtifactSpec)
    requires Recounted(g, linked, None, spec.parent) && linked == g.(artifacts := linked.artifacts)
    requires spec.parent.Some? ==> Owned(g, spec.parent.value, spec.ownerKey)
    requires id !in linked.artifacts && id in g'.artifacts && g'.artifacts == linked.artifacts[id := g'.artifacts[id]]
    requires g' == linked.(artifacts := g'.artifacts, replicas := g'.replicas)
    requires g'.artifacts[id].spec == spec && g'.artifacts[id].refCount == 0
    ensures Grown(g, g', id, spec)
  {
  }

  lemma GrownMoves(g: Graph, g': Graph, id: Uuid, spec: ArtifactSpec)
    requires Anchored(g) && Grown(g, g', id, spec)
    ensures Moves(g, g', Child(id), None, spec.parent)
    ensures forall r | r != Child(id) :: OwnerOf(g', r) == OwnerOf(g, r)
  {
  }

  lemma GrownIsAcyclic(g: Graph, g': Graph, id: Uuid, spec: ArtifactSpec)
    requires Anchored(g) && Acyclic(g) && Grown(g, g', id, spec)
    ensures Acyclic(g')
  {
    GrownMoves(g, g', id, spec);
    var rank :| RankedBy(g, rank);
    var rank' := rank;
    if spec.parent.Some? {
      var parent := spec.parent.value;
      var base := if parent in rank then rank[parent] else 0;
      rank' := rank[parent := base][id := base + 1];
    }
    forall c, a | Holds(g', Child(c), a) ensures c in rank' && a in rank' && rank'[a] < rank'[c] {
      if c != id {
        assert Holds(g, Child(c), a);
        assert a in g.artifacts && c in g.artifacts;
      }
    }
    assert RankedBy(g', rank');
  }

  lemma GrownKeepsInv(g: Graph, g': Graph, id: Uuid, spec: ArtifactSpec)
    requires GraphInv(g) && Grown(g, g', id, spec)
    ensures GraphInv(g')
  {
    GrownMoves(g, g', id, spec);
    MoveKeepsCounts(g, g', Child(id), None, spec.parent);
    GrownIsAcyclic(g, g', id, spec);
  }
}
