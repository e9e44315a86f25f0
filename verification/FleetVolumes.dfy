/** The volume fence, device indices, and deletion claims. */
module FleetVolumes {
  import opened Results
  import opened FleetTables
  import opened VmStore
  import opened VolumeStore
  import opened FleetRuns

  // The fence

  /** Attachments of existing volumes, of the volume's owner and generation. */
  ghost predicate Rooted(s: Storage) {
    forall k | k in s.attachments ::
      && k.volume in s.volumes
      && s.attachments[k].ownerKey == s.volumes[k.volume].spec.ownerKey
      && s.attachments[k].generation == s.volumes[k.volume].spec.generation
  }

  /** Two attachments of one volume are both read-only, unless the volume takes
      many writers. */
  ghost predicate Fenced(s: Storage) {
    forall k, k' | k in s.attachments && k' in s.attachments && k != k' && k.volume == k'.volume ::
      k.volume in s.volumes && (s.volumes[k.volume].spec.capabilities.readWriteMany
                                || (s.attachments[k].mode == ReadOnly && s.attachments[k'].mode == ReadOnly))
  }

  /** One VM's attachments use different devices. */
  ghost predicate DevicesDiffer(s: Storage) {
    forall k, k' | k in s.attachments && k' in s.attachments && k != k' && k.vm == k'.vm ::
      s.attachments[k].device != s.attachments[k'].device
  }

  /** A tenant's volumes have different names. */
  ghost predicate NamesDiffer(s: Storage) {
    forall v, v' | v in s.volumes && v' in s.volumes && v != v' ::
      s.volumes[v].spec.ownerKey != s.volumes[v'].spec.ownerKey || s.volumes[v].spec.name != s.volumes[v'].spec.name
  }

  ghost predicate StorageInv(s: Storage) {
    Rooted(s) && Fenced(s) && DevicesDiffer(s) && NamesDiffer(s)
  }

  function AttachmentsOf(s: Storage, volume: Uuid): set<AttachmentKey> {
    set k | k in s.attachments && k.volume == volume
  }

  /** Readers only, or exactly one attachment and that one read-write. */
  ghost predicate ReadersOrOneWriter(s: Storage, volume: Uuid) {
    || (forall k | k in AttachmentsOf(s, volume) :: s.attachments[k].mode == ReadOnly)
    || (exists k | k in s.attachments :: AttachmentsOf(s, volume) == {k} && s.attachments[k].mode == ReadWrite)
  }

  lemma FenceMeansReadersOrOneWriter(s: Storage, volume: Uuid)
    requires Fenced(s) && volume in s.volumes && !s.volumes[volume].spec.capabilities.readWriteMany
    ensures ReadersOrOneWriter(s, volume)
  {
    if k :| k in AttachmentsOf(s, volume) && s.attachments[k].mode != ReadOnly {
      assert s.attachments[k].mode == ReadWrite;
      forall k' | k' in AttachmentsOf(s, volume) ensures k' == k { }
      assert AttachmentsOf(s, volume) == {k};
    }
  }

  // Every transaction keeps it

  lemma BindOneKeepsInv(s: Storage, a: AttachmentRecord, n: nat)
    requires StorageInv(s)
    ensures BindOne(s, a, n).Success? ==> StorageInv(BindOne(s, a, n).value)
  {
    var r := BindOne(s, a, n);
    var key := AttachmentKey(a.vm, a.volume);
    if r.Success? && key !in s.attachments {
      var s' := r.value;
      forall k | k in s'.attachments && k != key && k.volume == key.volume
        ensures s.volumes[key.volume].spec.capabilities.readWriteMany || (a.mode == ReadOnly && s.attachments[k].mode == ReadOnly)
      {
        assert k in s.attachments;
      }
      forall k | k in s'.attachments && k != key && k.vm == key.vm ensures s.attachments[k].device != a.device {
        assert k in s.attachments;
      }
    }
  }

  lemma {:induction false} BindAllKeepsInv(s: Storage, ordered: seq<AttachmentRecord>, n: nat)
    requires StorageInv(s)
    ensures BindAll(s, ordered, n).Success? ==> StorageInv(BindAll(s, ordered, n).value)
    decreases |ordered|
  {
    if ordered != [] {
      BindOneKeepsInv(s, ordered[0], n);
      if BindOne(s, ordered[0], n).Success? {
        BindAllKeepsInv(BindOne(s, ordered[0], n).value, ordered[1..], n);
      }
    }
  }

  lemma FewerAttachmentsKeepInv(s: Storage, s': Storage)
    requires StorageInv(s) && s'.volumes == s.volumes
    requires forall k | k in s'.attachments :: k in s.attachments && s'.attachments[k] == s.attachments[k]
    ensures StorageInv(s')
  {
  }

  /** Volume rows may come, go while unattached, or change outside their spec. */
  lemma VolumeRowsKeepInv(s: Storage, s': Storage)
    requires StorageInv(s) && s'.attachments == s.attachments && NamesDiffer(s')
    requires forall k | k in s.attachments :: k.volume in s'.volumes && s'.volumes[k.volume].spec == s.volumes[k.volume].spec
    ensures StorageInv(s')
  {
  }

  lemma VolumeStepKeepsInv(t: Tables, op: VolumeOp)
    requires StorageInv(t.storage)
    ensures StorageInv(ApplyVolume(t, op))
  {
    match op
    case OpBind(requested) => BindAllKeepsInv(t.storage, SortByVolume(requested), |requested|);
    case OpUnbind(o, id) => FewerAttachmentsKeepInv(t.storage, ApplyVolume(t, op));
    case _ =>
      VolumeRowsStayNamed(t, op);
      VolumeRowsKeepInv(t.storage, ApplyVolume(t, op));
  }

  lemma VolumeRowsStayNamed(t: Tables, op: VolumeOp)
    requires NamesDiffer(t.storage) && !op.OpBind? && !op.OpUnbind?
    ensures NamesDiffer(ApplyVolume(t, op))
  {
    if op.OpInsertVolume? && Matches(t.storage, op.volumeId, op.volume.spec) == {} {
      forall v | v in t.storage.volumes
        ensures t.storage.volumes[v].spec.ownerKey != op.volume.spec.ownerKey || t.storage.volumes[v].spec.name != op.volume.spec.name
      {
        assert v !in Matches(t.storage, op.volumeId, op.volume.spec);
      }
    }
  }

  lemma DeleteVmKeepsStorage(t: Tables, now: Time, op: VmOp)
    requires StorageInv(t.storage)
    ensures StorageInv(ApplyVm(t, now, op).storage)
  {
    FewerAttachmentsKeepInv(t.storage, ApplyVm(t, now, op).storage);
  }

  lemma StepKeepsInv(p: Policy, t: Tables, e: Event)
    requires StorageInv(t.storage)
    ensures StorageInv(Apply(p, t, e).storage)
  {
    match e.op
    case OnVolumes(op) => VolumeStepKeepsInv(t, op);
    case OnVms(op) => DeleteVmKeepsStorage(t, e.now, op);
    case _ =>
  }

  lemma {:induction false} RunKeepsInv(p: Policy, t: Tables, run: seq<Event>)
    requires StorageInv(t.storage)
    ensures StorageInv(Replay(p, t, run).storage)
    decreases |run|
  {
    if run != [] {
      StepKeepsInv(p, t, run[0]);
      RunKeepsInv(p, Apply(p, t, run[0]), run[1..]);
    }
  }

  /** In every reachable state a volume without many-writer capability has
      readers only, or one attachment, which is read-write. */
  lemma FenceHoldsInEveryRun(p: Policy, run: seq<Event>, volume: Uuid)
    ensures var s := Replay(p, EMPTY, run).storage;
      volume in s.volumes && !s.volumes[volume].spec.capabilities.readWriteMany ==> ReadersOrOneWriter(s, volume)
  {
    RunKeepsInv(p, EMPTY, run);
    var s := Replay(p, EMPTY, run).storage;
    if volume in s.volumes && !s.volumes[volume].spec.capabilities.readWriteMany {
      FenceMeansReadersOrOneWriter(s, volume);
    }
  }

  // Device indices

  lemma SortKeepsElements(requested: seq<AttachmentRecord>)
    ensures multiset(SortByVolume(requested)) == multiset(requested)
    ensures Ascending(SortByVolume(requested))
  {
    if requested != [] {
      SortKeepsElements(requested[1..]);
      InsertKeepsElements(requested[0], SortByVolume(requested[1..]));
      InsertKeepsOrder(requested[0], SortByVolume(requested[1..]));
      assert requested == [requested[0]] + requested[1..];
    }
  }

  ghost predicate Ascending(ordered: seq<AttachmentRecord>) {
    forall i, j | 0 <= i < j < |ordered| :: ordered[i].volume <= ordered[j].volume
  }

  lemma InsertKeepsElements(a: AttachmentRecord, sorted: seq<AttachmentRecord>)
    ensures multiset(InsertByVolume(a, sorted)) == multiset(sorted) + multiset{a}
  {
    if sorted != [] && a.volume > sorted[0].volume {
      InsertKeepsElements(a, sorted[1..]);
      assert sorted == [sorted[0]] + sorted[1..];
    }
  }

  lemma InsertKeepsOrder(a: AttachmentRecord, sorted: seq<AttachmentRecord>)
    requires Ascending(sorted)
    ensures Ascending(InsertByVolume(a, sorted))
  {
    if sorted != [] && a.volume > sorted[0].volume {
      InsertKeepsOrder(a, sorted[1..]);
      InsertKeepsElements(a, sorted[1..]);
      var inserted := InsertByVolume(a, sorted[1..]);
      forall i | 0 <= i < |inserted| ensures sorted[0].volume <= inserted[i].volume {
        assert inserted[i] in multiset(inserted);
      }
    }
  }

  function KeyOf(a: AttachmentRecord): AttachmentKey {
    AttachmentKey(a.vm, a.volume)
  }

  function KeysOf(ordered: seq<AttachmentRecord>): set<AttachmentKey> {
    set a | a in ordered :: KeyOf(a)
  }

  function RowOf(a: AttachmentRecord): Attachment {
    Attachment(a.device, a.ownerKey, a.mode, a.generation)
  }

  /** A successful pass leaves exactly the requested rows beside the old ones. */
  lemma {:induction false} BindAllEffect(s: Storage, ordered: seq<AttachmentRecord>, n: nat)
    requires BindAll(s, ordered, n).Success?
    ensures var s' := BindAll(s, ordered, n).value;
      && s'.volumes == s.volumes
      && s'.attachments.Keys == s.attachments.Keys + KeysOf(ordered)
      && (forall k | k in s.attachments :: s'.attachments[k] == s.attachments[k])
      && (forall a | a in ordered :: KeyOf(a) in s'.attachments && s'.attachments[KeyOf(a)] == RowOf(a) && a.device < n)
    decreases |ordered|
  {
    if ordered != [] {
      var s1 := BindOne(s, ordered[0], n).value;
      BindAllEffect(s1, ordered[1..], n);
      assert s1.attachments.Keys == s.attachments.Keys + {KeyOf(ordered[0])};
      assert KeysOf(ordered) == {KeyOf(ordered[0])} + KeysOf(ordered[1..]);
      assert KeyOf(ordered[0]) in s1.attachments;
      assert forall a | a in ordered :: a == ordered[0] || a in ordered[1..];
    } else {
      assert KeysOf(ordered) == {};
    }
  }

  predicate DistinctVolumes(requested: seq<AttachmentRecord>) {
    forall i, j | 0 <= i < j < |requested| :: requested[i].volume != requested[j].volume
  }

  lemma DistinctKeys(requested: seq<AttachmentRecord>)
    requires DistinctVolumes(requested)
    ensures |KeysOf(requested)| == |requested|
  {
    if requested != [] {
      DistinctKeys(requested[1..]);
      assert KeysOf(requested) == {KeyOf(requested[0])} + KeysOf(requested[1..]);
      assert KeyOf(requested[0]) !in KeysOf(requested[1..]);
    }
  }

  function DevicesOf(s: Storage, vm: Uuid): set<nat> {
    set k | k in s.attachments && k.vm == vm :: s.attachments[k].device
  }

  /** The devices 0 to n-1. */
  function FirstDevices(n: nat): (devices: set<nat>)
    ensures |devices| == n && forall d: nat :: d in devices <==> d < n
  {
    if n == 0 then {} else FirstDevices(n - 1) + {n - 1}
  }

  /** Different keys of one VM have different devices, so as many devices as keys. */
  lemma DeviceCount(s: Storage, vm: Uuid, keys: set<AttachmentKey>)
    requires DevicesDiffer(s) && forall k | k in keys :: k in s.attachments && k.vm == vm
    ensures |set k | k in keys :: s.attachments[k].device| == |keys|
  {
    if keys != {} {
      var k :| k in keys;
      DeviceCount(s, vm, keys - {k});
      var rest := set x | x in keys - {k} :: s.attachments[x].device;
      assert (set x | x in keys :: s.attachments[x].device) == rest + {s.attachments[k].device};
      assert s.attachments[k].device !in rest;
    }
  }

  /** Binding n different volumes to a VM without attachments gives the devices
      0 to n-1, each once. */
  lemma BindFillsDevices(vms: map<Uuid, VmRow>, s: Storage, requested: seq<AttachmentRecord>, vm: Uuid)
    requires StorageInv(s) && BindVmVolumes(vms, s, requested).Success?
    requires DistinctVolumes(requested) && requested != [] && requested[0].vm == vm
    requires forall k | k in s.attachments :: k.vm != vm
    ensures DevicesOf(BindVmVolumes(vms, s, requested).value.0, vm) == FirstDevices(|requested|)
  {
    var ordered, n := SortByVolume(requested), |requested|;
    var s' := BindAll(s, ordered, n).value;
    SortKeepsElements(requested);
    SameElements(ordered, requested);
    BindAllEffect(s, ordered, n);
    BindAllKeepsInv(s, ordered, n);
    DevicesAreKeys(s, s', requested, vm);
    DistinctKeys(requested);
    DeviceCount(s', vm, KeysOf(requested));
    SubsetOfSameSize(DevicesOf(s', vm), FirstDevices(n));
  }

  lemma DevicesAreKeys(s: Storage, s': Storage, requested: seq<AttachmentRecord>, vm: Uuid)
    requires forall k | k in s.attachments :: k.vm != vm
    requires forall a | a in requested :: a.vm == vm && KeyOf(a) in s'.attachments && s'.attachments[KeyOf(a)].device < |requested|
    requires s'.attachments.Keys == s.attachments.Keys + KeysOf(requested)
    ensures forall k | k in KeysOf(requested) :: k in s'.attachments && k.vm == vm
    ensures DevicesOf(s', vm) == (set k | k in KeysOf(requested) :: s'.attachments[k].device) <= FirstDevices(|requested|)
  {
    assert forall k | k in s'.attachments :: k.vm == vm <==> k in KeysOf(requested);
  }

  lemma SameElements(ordered: seq<AttachmentRecord>, requested: seq<AttachmentRecord>)
    requires multiset(ordered) == multiset(requested)
    ensures forall a :: a in ordered <==> a in requested
    ensures KeysOf(ordered) == KeysOf(requested)
  {
    forall a ensures a in ordered <==> a in requested {
      assert a in multiset(ordered) <==> a in multiset(requested);
    }
  }

  lemma SubsetOfSameSize<T>(a: set<T>, b: set<T>)
    requires a <= b && |a| == |b|
    ensures a == b
  {
    assert b == a + (b - a);
  }

  // Deletion claims

  /** A row that stays keeps its spec and is unchanged or has a higher revision,
      and only available volumes gain attachments. */
  ghost predicate VolumeEpoch(s: Storage, s': Storage) {
    && (forall v | v in s.volumes && v in s'.volumes ::
          && s'.volumes[v].spec == s.volumes[v].spec
          && (s'.volumes[v] == s.volumes[v] || s'.volumes[v].revision > s.volumes[v].revision))
    && (forall k | k in s'.attachments && k !in s.attachments ::
          k.volume in s.volumes && s.volumes[k.volume].status == VolumeAvailable)
  }

  lemma {:induction false} BindAllOnAvailable(s: Storage, ordered: seq<AttachmentRecord>, n: nat)
    requires BindAll(s, ordered, n).Success?
    ensures VolumeEpoch(s, BindAll(s, ordered, n).value) && BindAll(s, ordered, n).value.volumes == s.volumes
    decreases |ordered|
  {
    if ordered != [] {
      BindAllOnAvailable(BindOne(s, ordered[0], n).value, ordered[1..], n);
    }
  }

  lemma VolumeStepIsEpoch(t: Tables, op: VolumeOp)
    ensures VolumeEpoch(t.storage, ApplyVolume(t, op))
  {
    if op.OpBind? && BindAll(t.storage, SortByVolume(op.requested), |op.requested|).Success? {
      BindAllOnAvailable(t.storage, SortByVolume(op.requested), |op.requested|);
    }
  }

  lemma StepIsVolumeEpoch(p: Policy, t: Tables, e: Event)
    ensures VolumeEpoch(t.storage, Apply(p, t, e).storage)
  {
    if e.op.OnVolumes? { VolumeStepIsEpoch(t, e.op.w); }
    if e.op.OnVms? { VmStepKeepsVolumes(t, e.now, e.op.v); }
  }

  lemma VmStepKeepsVolumes(t: Tables, now: Time, op: VmOp)
    ensures VolumeEpoch(t.storage, ApplyVm(t, now, op).storage)
  {
  }

  /** The volume row exists in every state of the run. */
  ghost predicate VolumePresent(p: Policy, t: Tables, run: seq<Event>, id: Uuid)
    decreases |run|
  {
    id in t.storage.volumes && (run != [] ==> VolumePresent(p, Apply(p, t, run[0]), run[1..], id))
  }

  /** In every state of the run the row is `row` and nothing is attached to it. */
  ghost predicate UnattachedThroughout(p: Policy, t: Tables, run: seq<Event>, id: Uuid, row: Volume)
    decreases |run|
  {
    && id in t.storage.volumes && t.storage.volumes[id] == row && !Attached(t.storage, id)
    && (run != [] ==> UnattachedThroughout(p, Apply(p, t, run[0]), run[1..], id, row))
  }

  /** While a volume exists it is never rebound to another provider resource, and
      its revision never falls. */
  lemma {:induction false} RevisionsOnlyRise(p: Policy, t: Tables, run: seq<Event>, id: Uuid)
    requires VolumePresent(p, t, run, id)
    ensures id in Replay(p, t, run).storage.volumes
    ensures Replay(p, t, run).storage.volumes[id].revision >= t.storage.volumes[id].revision
    ensures Replay(p, t, run).storage.volumes[id].spec == t.storage.volumes[id].spec
    decreases |run|
  {
    if run != [] {
      StepIsVolumeEpoch(p, t, run[0]);
      RevisionsOnlyRise(p, Apply(p, t, run[0]), run[1..], id);
    }
  }

  /** A deletion claim that is still current at the end of a run was current all
      along: the row never changed and no bind ever attached the volume. */
  lemma {:induction false} CurrentClaimWasNeverBroken(p: Policy, t: Tables, run: seq<Event>, id: Uuid)
    requires VolumePresent(p, t, run, id)
    requires t.storage.volumes[id].status == VolumeDeleting && !Attached(t.storage, id)
    requires id in Replay(p, t, run).storage.volumes
    requires Replay(p, t, run).storage.volumes[id].revision == t.storage.volumes[id].revision
    ensures UnattachedThroughout(p, t, run, id, t.storage.volumes[id])
    decreases |run|
  {
    if run != [] {
      var next := Apply(p, t, run[0]);
      StepIsVolumeEpoch(p, t, run[0]);
      RevisionsOnlyRise(p, next, run[1..], id);
      assert next.storage.volumes[id] == t.storage.volumes[id];
      assert !Attached(next.storage, id);
      CurrentClaimWasNeverBroken(p, next, run[1..], id);
    }
  }

  /** Some transaction of the run deletes the volume row. */
  ghost predicate DeletedMeanwhile(p: Policy, t: Tables, run: seq<Event>, id: Uuid)
    decreases |run|
  {
    run != [] && (DeletesVolume(t, run[0].op, id) || DeletedMeanwhile(p, Apply(p, t, run[0]), run[1..], id))
  }

  predicate DeletesVolume(t: Tables, op: Op, id: Uuid) {
    op.OnVolumes? && op.w.OpDeleteVolumeMetadata? && op.w.volumeId == id
    && DeleteVolumeMetadata(t.storage, op.w.owner, id, op.w.expected).Success?
  }

  lemma OnlyDeletionRemoves(p: Policy, t: Tables, e: Event, id: Uuid)
    requires id in t.storage.volumes
    ensures id in Apply(p, t, e).storage.volumes <==> !DeletesVolume(t, e.op, id)
  {
    if e.op.OnVolumes? {
      VolumeOpRemoves(t, e.op.w, id);
    } else if e.op.OnVms? {
      VmStepKeepsVolumeRows(t, e.now, e.op.v);
    }
  }

  lemma VolumeOpRemoves(t: Tables, op: VolumeOp, id: Uuid)
    requires id in t.storage.volumes
    ensures id in ApplyVolume(t, op).volumes <==> !DeletesVolume(t, OnVolumes(op), id)
  {
    if op.OpBind? && BindAll(t.storage, SortByVolume(op.requested), |op.requested|).Success? {
      BindAllOnAvailable(t.storage, SortByVolume(op.requested), |op.requested|);
    }
  }

  lemma VmStepKeepsVolumeRows(t: Tables, now: Time, op: VmOp)
    ensures ApplyVm(t, now, op).storage.volumes == t.storage.volumes
  {
  }

  lemma {:induction false} PresentUnlessDeleted(p: Policy, t: Tables, run: seq<Event>, id: Uuid)
    requires id in t.storage.volumes
    ensures VolumePresent(p, t, run, id) <==> !DeletedMeanwhile(p, t, run, id)
    decreases |run|
  {
    if run != [] {
      OnlyDeletionRemoves(p, t, run[0], id);
      if !DeletesVolume(t, run[0].op, id) { PresentUnlessDeleted(p, Apply(p, t, run[0]), run[1..], id); }
    }
  }

  lemma {:induction false} StandingMeansPresent(p: Policy, t: Tables, run: seq<Event>, id: Uuid, row: Volume)
    requires UnattachedThroughout(p, t, run, id, row)
    ensures VolumePresent(p, t, run, id)
    decreases |run|
  {
    if run != [] { StandingMeansPresent(p, Apply(p, t, run[0]), run[1..], id, row); }
  }

  /** From claim to deletion: when `DeleteVolumeMetadata` succeeds at the
      revision that `BeginVolumeDelete` returned, the claimed row stood without
      attachment in every state in between exactly when nobody else deleted it
      meanwhile. */
  lemma ClaimedDeletionIsSafe(p: Policy, t: Tables, run: seq<Event>, owner: OwnerKey, id: Uuid, status: VolumeStatus, expected: nat)
    requires BeginVolumeDelete(t.storage, owner, id, status, expected).Success?
    requires var claimed := BeginVolumeDelete(t.storage, owner, id, status, expected).value;
      DeleteVolumeMetadata(Replay(p, t.(storage := claimed.0), run).storage, owner, id, claimed.1.revision).Success?
    ensures var claimed := BeginVolumeDelete(t.storage, owner, id, status, expected).value; var t0 := t.(storage := claimed.0);
      && claimed.1.revision == expected + 1
      && (UnattachedThroughout(p, t0, run, id, claimed.1) <==> !DeletedMeanwhile(p, t0, run, id))
  {
    var claimed := BeginVolumeDelete(t.storage, owner, id, status, expected).value;
    var t0 := t.(storage := claimed.0);
    PresentUnlessDeleted(p, t0, run, id);
    if VolumePresent(p, t0, run, id) {
      CurrentClaimWasNeverBroken(p, t0, run, id);
    } else if UnattachedThroughout(p, t0, run, id, claimed.1) {
      StandingMeansPresent(p, t0, run, id, claimed.1);
    }
  }

  // A claim that outlives its volume

  const SAMPLE := VolumeSpec("tenant", "data", "disk", "block", 1, Capabilities(true, true, false, false, false), None, None, None, 1)

  const OWNER_VM := VmRow(VmRecord(7, "host", Some("tenant"), None, Running, 1, VmShape(None, 1, 1, "kernel", None, false, ""), None, 0, 0), 1)

  /** Volume 1 and VM 7 of one tenant, with or without the volume attached. */
  function WithVolume(status: VolumeStatus, revision: nat, attached: bool): Storage {
    Storage(map[1 := Volume(SAMPLE, status, revision, None)],
            if attached then map[AttachmentKey(7, 1) := Attachment(0, "tenant", ReadWrite, 1)] else map[])
  }

  function Having(s: Storage): Tables {
    EMPTY.(vms := map[7 := OWNER_VM], storage := s)
  }

  lemma VolumeOpRuns(p: Policy, s: Storage, s': Storage, op: VolumeOp, rest: seq<Event>)
    requires ApplyVolume(Having(s), op) == s'
    ensures Replay(p, Having(s), [Event(0, OnVolumes(op))] + rest) == Replay(p, Having(s'), rest)
  {
    var run := [Event(0, OnVolumes(op))] + rest;
    assert run[0] == Event(0, OnVolumes(op)) && run[1..] == rest;
    assert Apply(p, Having(s), run[0]) == Having(s');
  }

  const REBIND := [AttachmentRecord(7, 1, 0, "tenant", ReadWrite, 1)]

  lemma RebindWorks()
    ensures ApplyVolume(Having(WithVolume(VolumeAvailable, 1, false)), OpBind(REBIND)) == WithVolume(VolumeAvailable, 1, true)
    ensures ApplyVolume(Having(WithVolume(VolumeAvailable, 1, true)), OpUnbind("tenant", 7)) == WithVolume(VolumeAvailable, 1, false)
  {
    var s, a := WithVolume(VolumeAvailable, 1, false), REBIND[0];
    assert SortByVolume(REBIND) == [a];
    assert BindOne(s, a, 1) == Success(WithVolume(VolumeAvailable, 1, true));
    assert [a][1..] == [];
    assert BindAll(s, [a], 1) == BindAll(WithVolume(VolumeAvailable, 1, true), [], 1);
    assert ApplyVolume(Having(WithVolume(VolumeAvailable, 1, true)), OpUnbind("tenant", 7)).attachments == map[];
  }

  lemma RecreationWorks()
    ensures ApplyVolume(Having(WithVolume(VolumeDeleting, 2, false)), OpDeleteVolumeMetadata("tenant", 1, 2)) == EMPTY.storage
    ensures ApplyVolume(Having(EMPTY.storage), OpInsertVolume(1, Volume(SAMPLE, VolumeAvailable, 1, None))) == WithVolume(VolumeAvailable, 1, false)
  {
    assert Matches(EMPTY.storage, 1, SAMPLE) == {};
    var gone := ApplyVolume(Having(WithVolume(VolumeDeleting, 2, false)), OpDeleteVolumeMetadata("tenant", 1, 2));
    assert gone.volumes == map[] && gone.attachments == map[];
  }

  lemma ClaimWorks()
    ensures BeginVolumeDelete(WithVolume(VolumeAvailable, 1, false), "tenant", 1, VolumeAvailable, 1)
            == Success((WithVolume(VolumeDeleting, 2, false), Volume(SAMPLE, VolumeDeleting, 2, None)))
  {
    var s := WithVolume(VolumeAvailable, 1, false);
    assert !Attached(s, 1) && FindVolume(s, "tenant", 1) == Success(Volume(SAMPLE, VolumeAvailable, 1, None));
    assert s.volumes[1 := Volume(SAMPLE, VolumeDeleting, 2, None)] == WithVolume(VolumeDeleting, 2, false).volumes;
  }

  /** The volume is deleted, created again under its id, attached, detached and
      claimed again: the first claimant's deletion then succeeds on a volume that
      was in use since its claim. */
  lemma RecreatedVolumeFoolsClaim(p: Policy)
    ensures var t0 := Having(WithVolume(VolumeDeleting, 2, false));
      var used := [Event(0, OnVolumes(OpDeleteVolumeMetadata("tenant", 1, 2))),
                   Event(0, OnVolumes(OpInsertVolume(1, Volume(SAMPLE, VolumeAvailable, 1, None)))),
                   Event(0, OnVolumes(OpBind(REBIND)))];
      var again := [Event(0, OnVolumes(OpUnbind("tenant", 7))), Event(0, OnVolumes(OpBeginVolumeDelete("tenant", 1, VolumeAvailable, 1)))];
      && BeginVolumeDelete(WithVolume(VolumeAvailable, 1, false), "tenant", 1, VolumeAvailable, 1).value.0 == t0.storage
      && Attached(Replay(p, t0, used).storage, 1)
      && DeleteVolumeMetadata(Replay(p, Replay(p, t0, used), again).storage, "tenant", 1, 2).Success?
  {
    RecreationWorks();
    RebindWorks();
    ClaimWorks();
    var unused, inUse := WithVolume(VolumeAvailable, 1, false), WithVolume(VolumeAvailable, 1, true);
    var bind := Event(0, OnVolumes(OpBind(REBIND)));
    var insert := Event(0, OnVolumes(OpInsertVolume(1, Volume(SAMPLE, VolumeAvailable, 1, None))));
    var claim := OpBeginVolumeDelete("tenant", 1, VolumeAvailable, 1);
    assert [insert] + [bind] == [insert, bind];
    VolumeOpRuns(p, WithVolume(VolumeDeleting, 2, false), EMPTY.storage, OpDeleteVolumeMetadata("tenant", 1, 2), [insert, bind]);
    VolumeOpRuns(p, EMPTY.storage, unused, OpInsertVolume(1, Volume(SAMPLE, VolumeAvailable, 1, None)), [bind]);
    VolumeOpRuns(p, unused, inUse, OpBind(REBIND), []);
    assert [bind] + [] == [bind];
    VolumeOpRuns(p, inUse, unused, OpUnbind("tenant", 7), [Event(0, OnVolumes(claim))]);
    VolumeOpRuns(p, unused, WithVolume(VolumeDeleting, 2, false), claim, []);
    assert [Event(0, OnVolumes(claim))] + [] == [Event(0, OnVolumes(claim))];
    assert AttachmentKey(7, 1) in inUse.attachments;
  }
}
