/** Reference counting over the artifact graph: what every run keeps, and what
    the garbage-collection walk removes. */
module FleetGraph {
  import opened Results
  import opened FleetTables
  import opened ArtifactStore

  // The invariant

  /** Every count is the number of rows that refer to the artifact. */
  ghost predicate Counted(g: Graph) {
    forall a {:trigger Holders(g, a)} | a in g.artifacts :: g.artifacts[a].refCount == |Holders(g, a)|
  }

  function OwnerOf(g: Graph, r: Referrer): Option<OwnerKey> {
    match r
    case Child(c) => if c in g.artifacts then Some(g.artifacts[c].spec.ownerKey) else None
    case Head(b) => if b in g.branches then Some(g.branches[b].ownerKey) else None
    case Bound(v) => if v in g.hibernations then Some(g.hibernations[v].ownerKey) else None
    case Lazy(v) => if v in g.artifactRefs then Some(g.artifactRefs[v].ownerKey) else None
  }

  /** Every referrer points at a present artifact of its own tenant. */
  ghost predicate Anchored(g: Graph) {
    forall r, a | Holds(g, r, a) :: a in g.artifacts && OwnerOf(g, r) == Some(g.artifacts[a].spec.ownerKey)
  }

  /** A ranking that falls along every parent link. */
  ghost predicate RankedBy(g: Graph, rank: map<Uuid, nat>) {
    forall c, a {:trigger Holds(g, Child(c), a)} | Holds(g, Child(c), a) :: c in rank && a in rank && rank[a] < rank[c]
  }

  ghost predicate Acyclic(g: Graph) {
    exists rank :: RankedBy(g, rank)
  }

  lemma FewerLinksStayAcyclic(g: Graph, g': Graph)
    requires Acyclic(g)
    requires forall c, a | Holds(g', Child(c), a) :: Holds(g, Child(c), a)
    ensures Acyclic(g')
  {
    var rank :| RankedBy(g, rank);
    forall c, a | Holds(g', Child(c), a) ensures c in rank && a in rank && rank[a] < rank[c] {
      assert Holds(g, Child(c), a);
    }
    assert RankedBy(g', rank);
  }

  ghost predicate GraphInv(g: Graph) {
    Counted(g) && Anchored(g) && Acyclic(g)
  }

  // One referrer moves

  /** Between `g` and `g'` only referrer `r` changed what it points at. */
  ghost predicate Moves(g: Graph, g': Graph, r: Referrer, from: Option<Uuid>, to: Option<Uuid>) {
    && (forall a :: Holds(g, r, a) <==> from == Some(a))
    && (forall r', a :: Holds(g', r', a) <==> if r' == r then to == Some(a) else Holds(g, r', a))
  }

  function Count(g: Graph, a: Uuid): nat {
    if a in g.artifacts then g.artifacts[a].refCount else 0
  }

  function Bit(b: bool): nat {
    if b then 1 else 0
  }

  lemma MovedHolders(g: Graph, g': Graph, r: Referrer, from: Option<Uuid>, to: Option<Uuid>, a: Uuid)
    requires Moves(g, g', r, from, to)
    ensures Holders(g', a) == Holders(g, a) - {r} + if to == Some(a) then {r} else {}
    ensures Holders(g, a) == Holders(g', a) - {r} + if from == Some(a) then {r} else {}
    ensures r in Holders(g, a) <==> from == Some(a)
  {
  }

  lemma MovedSize<T>(s: set<T>, s': set<T>, r: T, kept: bool)
    requires s' == s - {r} + if kept then {r} else {}
    ensures |s'| + Bit(r in s) == |s| + Bit(kept)
  {
    assert s == s - {r} + if r in s then {r} else {};
  }

  lemma MovedCount(g: Graph, g': Graph, r: Referrer, from: Option<Uuid>, to: Option<Uuid>, a: Uuid)
    requires Moves(g, g', r, from, to)
    ensures |Holders(g', a)| + Bit(from == Some(a)) == |Holders(g, a)| + Bit(to == Some(a))
  {
    MovedHolders(g, g', r, from, to, a);
    MovedSize(Holders(g, a), Holders(g', a), r, to == Some(a));
  }

  lemma AbsentIsUnheld(g: Graph, a: Uuid)
    requires Anchored(g) && a !in g.artifacts
    ensures |Holders(g, a)| == 0
  {
    assert Holders(g, a) == {};
  }

  /** Counts stay exact when one referrer moves and the two ends are adjusted. */
  lemma MoveKeepsCounts(g: Graph, g': Graph, r: Referrer, from: Option<Uuid>, to: Option<Uuid>)
    requires Counted(g) && Anchored(g) && Moves(g, g', r, from, to)
    requires forall a | a in g'.artifacts :: Count(g', a) + Bit(from == Some(a)) == Count(g, a) + Bit(to == Some(a))
    ensures Counted(g')
  {
    forall a | a in g'.artifacts
      ensures g'.artifacts[a].refCount == |Holders(g', a)|
    {
      MovedCount(g, g', r, from, to, a);
      if a !in g.artifacts { AbsentIsUnheld(g, a); }
    }
  }

  /** A count is positive exactly when something refers to the artifact. */
  lemma HeldIsCounted(g: Graph, r: Referrer, a: Uuid)
    requires Counted(g) && a in g.artifacts && Holds(g, r, a)
    ensures g.artifacts[a].refCount > 0
  {
    assert r in Holders(g, a);
  }

  /** No artifact was added, and those left kept their content and status. */
  ghost predicate Retains(g: Graph, g': Graph) {
    && g'.artifacts.Keys <= g.artifacts.Keys
    && (forall a | a in g'.artifacts :: g'.artifacts[a].spec == g.artifacts[a].spec && g'.artifacts[a].status == g.artifacts[a].status)
  }

  // Deleting an artifact that nothing refers to

  /** `g'` lost some artifacts; surviving rows changed at most their count, and
      only the tables that cascade from artifacts changed with them. */
  ghost predicate Shrinks(g: Graph, g': Graph) {
    && g' == g.(artifacts := g'.artifacts, replicas := g'.replicas, leases := g'.leases)
    && g'.artifacts.Keys <= g.artifacts.Keys
    && (forall a | a in g'.artifacts :: g'.artifacts[a] == g.artifacts[a].(refCount := g'.artifacts[a].refCount))
  }

  lemma ShrinkKeepsRest(g: Graph, g': Graph)
    requires Anchored(g) && Acyclic(g) && Shrinks(g, g')
    requires forall r, a | Holds(g', r, a) :: a in g'.artifacts
    ensures Anchored(g') && Acyclic(g')
  {
    assert forall r, a | Holds(g', r, a) :: Holds(g, r, a) && OwnerOf(g', r) == OwnerOf(g, r);
    FewerLinksStayAcyclic(g, g');
  }

  /** Delete one row and hand its reference back to its parent: the statement
      pair at the heart of the walk. */
  function Unlink(g: Graph, a: Uuid): Result<Graph, FleetError>
    requires a in g.artifacts
  {
    var spec := g.artifacts[a].spec;
    var deleted :- DeleteArtifactRow(g, a);
    if spec.parent == None then Success(deleted) else ReleaseRef(deleted, spec.ownerKey, spec.parent.value)
  }

  /** `next` is `g` with the unreferenced artifact `a` unlinked. */
  ghost predicate Unlinked(g: Graph, next: Graph, a: Uuid) {
    && a in g.artifacts
    && Holders(g, a) == {}
    && Shrinks(g, next)
    && next.artifacts.Keys == g.artifacts.Keys - {a}
    && Moves(g, next, Child(a), g.artifacts[a].spec.parent, None)
    && (forall x | x in next.artifacts :: Count(next, x) + Bit(g.artifacts[a].spec.parent == Some(x)) == Count(g, x))
  }

  /** From a consistent state an unreferenced artifact can always be unlinked:
      neither the foreign keys nor a missing reference stand in the way. */
  lemma UnlinkSucceeds(g: Graph, a: Uuid)
    requires GraphInv(g) && a in g.artifacts && g.artifacts[a].refCount == 0
    ensures Unlink(g, a).Success? && Unlinked(g, Unlink(g, a).value, a)
  {
    assert |Holders(g, a)| == 0;
    if g.artifacts[a].spec.parent.Some? {
      var parent := g.artifacts[a].spec.parent.value;
      assert Holds(g, Child(a), parent);
      HeldIsCounted(g, Child(a), parent);
      UnlinkFromParent(g, a, parent);
    } else {
      UnlinkRoot(g, a);
    }
  }

  lemma UnlinkRoot(g: Graph, a: Uuid)
    requires a in g.artifacts && Holders(g, a) == {} && g.artifacts[a].spec.parent == None
    ensures Unlink(g, a).Success? && Unlinked(g, Unlink(g, a).value, a)
  {
    ReferredIffHeld(g, a);
  }

  lemma UnlinkFromParent(g: Graph, a: Uuid, parent: Uuid)
    requires a in g.artifacts && Holders(g, a) == {} && g.artifacts[a].spec.parent == Some(parent)
    requires Owned(g, parent, g.artifacts[a].spec.ownerKey) && g.artifacts[parent].refCount > 0
    ensures Unlink(g, a).Success? && Unlinked(g, Unlink(g, a).value, a)
  {
    ReferredIffHeld(g, a);
    assert parent != a by {
      assert Child(a) !in Holders(g, a);
    }
  }

  lemma UnlinkKeepsInv(g: Graph, next: Graph, a: Uuid)
    requires GraphInv(g) && Unlinked(g, next, a)
    ensures GraphInv(next)
  {
    MoveKeepsCounts(g, next, Child(a), g.artifacts[a].spec.parent, None);
    forall r, x | Holds(next, r, x) ensures x in next.artifacts {
      assert Holds(g, r, x) && r !in Holders(g, a);
    }
    ShrinkKeepsRest(g, next);
  }

  // The walk

  /** `path` climbs parent links from `a`. */
  ghost predicate Climbs(g: Graph, a: Uuid, path: seq<Uuid>) {
    && (path != [] ==> path[0] == a)
    && (forall i | 0 <= i < |path| :: path[i] in g.artifacts)
    && (forall i | 0 < i < |path| :: g.artifacts[path[i - 1]].spec.parent == Some(path[i]))
  }

  /** The first ancestor above `path`. */
  function Above(g: Graph, a: Uuid, path: seq<Uuid>): Option<Uuid> {
    if path == [] then Some(a)
    else if path[|path| - 1] in g.artifacts then g.artifacts[path[|path| - 1]].spec.parent
    else None
  }

  /** The only rows that may refer to the artifact at position `i` of a run
      that is to be deleted: none, or the artifact just below. */
  function Below(path: seq<Uuid>, i: nat): set<Referrer>
    requires i <= |path|
  {
    if i == 0 then {} else {Child(path[i - 1])}
  }

  /** `path` is the longest run of ancestors of `a`, `a` first, that nothing
      refers to except the artifact just below on the same run. */
  ghost predicate LongestUnheld(g: Graph, a: Uuid, path: seq<Uuid>) {
    && Climbs(g, a, path)
    && (forall i | 0 <= i < |path| :: Holders(g, path[i]) == Below(path, i))
    && (Above(g, a, path).Some? ==> Holders(g, Above(g, a, path).value) != Below(path, |path|))
  }

  /** There is only one such run. */
  lemma LongestUnheldIsUnique(g: Graph, a: Uuid, p: seq<Uuid>, q: seq<Uuid>)
    requires LongestUnheld(g, a, p) && LongestUnheld(g, a, q) && |p| <= |q|
    ensures p == q
  {
    forall i | 0 <= i < |p| ensures p[i] == q[i] {
      SamePrefix(g, a, p, q, i);
    }
    assert p == q[..|p|];
    if |p| < |q| {
      ShorterRunIsNotLongest(g, a, q, |p|);
    }
  }

  lemma ShorterRunIsNotLongest(g: Graph, a: Uuid, q: seq<Uuid>, n: nat)
    requires LongestUnheld(g, a, q) && n < |q|
    ensures !LongestUnheld(g, a, q[..n])
  {
    assert Above(g, a, q[..n]) == Some(q[n]);
    assert Holders(g, q[n]) == Below(q, n) == Below(q[..n], n);
  }

  lemma SamePrefix(g: Graph, a: Uuid, p: seq<Uuid>, q: seq<Uuid>, i: nat)
    requires Climbs(g, a, p) && Climbs(g, a, q) && i < |p| && i < |q|
    ensures p[i] == q[i]
  {
    if i > 0 {
      SamePrefix(g, a, p, q, i - 1);
    }
  }

  function Elements(path: seq<Uuid>): set<Uuid> {
    set x | x in path
  }

  /** What the walk leaves behind: the run is gone, its first survivor lost one
      reference, and nothing else changed. */
  ghost predicate Pruned(g: Graph, g': Graph, a: Uuid, path: seq<Uuid>) {
    && Shrinks(g, g')
    && g'.artifacts.Keys == g.artifacts.Keys - Elements(path)
    && (forall x | x in g'.artifacts :: Count(g', x) + Bit(path != [] && Above(g, a, path) == Some(x)) == Count(g, x))
  }

  /** The walk started at `a` deletes exactly the longest unheld run of
      ancestors; it never fails, and keeps the invariant. */
  lemma {:induction false} CollectDeletesLongestUnheld(g: Graph, owner: OwnerKey, a: Uuid) returns (path: seq<Uuid>)
    requires GraphInv(g) && Owned(g, a, owner)
    ensures CollectChain(g, owner, a).Success?
    ensures LongestUnheld(g, a, path) && Pruned(g, CollectChain(g, owner, a).value, a, path)
    ensures GraphInv(CollectChain(g, owner, a).value)
    decreases |g.artifacts|
  {
    if g.artifacts[a].refCount != 0 {
      path := [];
      NothingToCollect(g, a);
    } else {
      UnlinkSucceeds(g, a);
      var next := Unlink(g, a).value;
      UnlinkKeepsInv(g, next, a);
      if g.artifacts[a].spec.parent == None {
        path := [a];
        RootRun(g, next, a);
      } else {
        var parent := g.artifacts[a].spec.parent.value;
        assert Holds(g, Child(a), parent) && Owned(next, parent, owner);
        assert |next.artifacts.Keys| < |g.artifacts.Keys|;
        var rest := CollectDeletesLongestUnheld(next, owner, parent);
        path := [a] + rest;
        JoinRuns(g, next, a, parent, rest);
        ExtendRun(g, next, CollectChain(next, owner, parent).value, a, parent, rest);
      }
    }
  }

  lemma NothingToCollect(g: Graph, a: Uuid)
    requires Counted(g) && a in g.artifacts && g.artifacts[a].refCount != 0
    ensures LongestUnheld(g, a, []) && Pruned(g, g, a, [])
  {
    assert |Holders(g, a)| != 0;
  }

  lemma RootRun(g: Graph, next: Graph, a: Uuid)
    requires Unlinked(g, next, a) && g.artifacts[a].spec.parent == None
    ensures LongestUnheld(g, a, [a]) && Pruned(g, next, a, [a])
  {
    assert Elements([a]) == {a};
  }

  /** A run in `next` continues the deletion of `a` in `g`. */
  lemma JoinRuns(g: Graph, next: Graph, a: Uuid, parent: Uuid, rest: seq<Uuid>)
    requires Unlinked(g, next, a) && g.artifacts[a].spec.parent == Some(parent) && parent in next.artifacts
    requires LongestUnheld(next, parent, rest)
    ensures LongestUnheld(g, a, [a] + rest)
  {
    var path := [a] + rest;
    forall i | 0 <= i < |path|
      ensures path[i] in g.artifacts
      ensures i > 0 ==> g.artifacts[path[i - 1]].spec.parent == Some(path[i])
    {
      if i > 1 {
        assert path[i - 1] == rest[i - 2] && path[i] == rest[i - 1];
      }
    }
    forall i | 0 <= i < |path|
      ensures Holders(g, path[i]) == Below(path, i)
    {
      if i > 0 {
        if i > 1 { NoRepeat(next, parent, rest, i - 1); }
        HoldersBefore(g, next, a, parent, rest, i - 1);
      }
    }
    if Above(g, a, path).Some? {
      AboveBefore(g, next, a, parent, rest);
    }
  }

  lemma HoldersBefore(g: Graph, next: Graph, a: Uuid, parent: Uuid, rest: seq<Uuid>, i: nat)
    requires Moves(g, next, Child(a), Some(parent), None)
    requires i < |rest| && Holders(next, rest[i]) == Below(rest, i) && (i == 0 <==> rest[i] == parent)
    ensures Holders(g, rest[i]) == Below([a] + rest, i + 1)
  {
    MovedHolders(g, next, Child(a), Some(parent), None, rest[i]);
  }

  /** The bottom of an unheld run does not come back further up. */
  lemma NoRepeat(g: Graph, a: Uuid, path: seq<Uuid>, i: nat)
    requires LongestUnheld(g, a, path) && 0 < i < |path|
    ensures path[i] != path[0]
  {
    assert Child(path[i - 1]) in Holders(g, path[i]);
  }

  lemma AboveBefore(g: Graph, next: Graph, a: Uuid, parent: Uuid, rest: seq<Uuid>)
    requires Unlinked(g, next, a) && g.artifacts[a].spec.parent == Some(parent) && parent in next.artifacts
    requires LongestUnheld(next, parent, rest)
    requires Above(g, a, [a] + rest).Some?
    ensures Holders(g, Above(g, a, [a] + rest).value) != Below([a] + rest, |rest| + 1)
  {
    var above := Above(next, parent, rest);
    assert above == Above(g, a, [a] + rest);
    MovedHolders(g, next, Child(a), Some(parent), None, above.value);
    if rest != [] {
      var last := rest[|rest| - 1];
      assert ([a] + rest)[|rest|] == last;
      assert Child(last) in Holders(next, above.value);
    }
  }

  lemma ExtendRun(g: Graph, next: Graph, g': Graph, a: Uuid, parent: Uuid, rest: seq<Uuid>)
    requires Unlinked(g, next, a) && g.artifacts[a].spec.parent == Some(parent) && parent in next.artifacts
    requires LongestUnheld(next, parent, rest) && Pruned(next, g', parent, rest)
    ensures Pruned(g, g', a, [a] + rest)
  {
    var path := [a] + rest;
    assert Elements(path) == {a} + Elements(rest);
    assert Above(g, a, path) == Above(next, parent, rest) by {
      assert rest != [] ==> path[|rest|] == rest[|rest| - 1];
    }
    assert rest != [] ==> parent in Elements(rest);
  }
}
