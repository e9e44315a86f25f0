/** When volumes can be bound: a condition on the request as a whole, in any
    order, against the loop that binds them one by one. And when the other volume
    transactions succeed. */
module FleetBinding {
  import opened Results
  import opened FleetTables
  import opened VolumeStore
  import opened FleetVolumes

  // A request

  /** The volume is there, available, of the tenant, in the expected generation, and
      may be attached in that mode. */
  predicate Bindable(s: Storage, a: AttachmentRecord, n: nat) {
    && a.ownerKey != "" && 1 <= a.generation <= I64_MAX && a.device < n && a.volume in s.volumes
    && var volume := s.volumes[a.volume]; var can := volume.spec.capabilities;
    && volume.spec.ownerKey == a.ownerKey && volume.status == VolumeAvailable && volume.spec.generation == a.generation
    && (if a.mode == ReadOnly then can.readOnlyMany else can.readWriteOnce || can.readWriteMany)
  }

  predicate SharedByReaders(s: Storage, a: AttachmentRecord) {
    forall k | k in s.attachments && k.volume == a.volume :: a.mode == ReadOnly && s.attachments[k].mode == ReadOnly
  }

  predicate DeviceIsFree(s: Storage, a: AttachmentRecord) {
    forall k | k in s.attachments && k.vm == a.vm :: s.attachments[k].device != a.device
  }

  /** What is attached already leaves room: it is this very attachment, or the
      volume takes another and the device is free. */
  predicate HasRoom(s: Storage, a: AttachmentRecord)
    requires a.volume in s.volumes
  {
    if KeyOf(a) in s.attachments then s.attachments[KeyOf(a)] == RowOf(a)
    else (s.volumes[a.volume].spec.capabilities.readWriteMany || SharedByReaders(s, a)) && DeviceIsFree(s, a)
  }

  predicate Acceptable(s: Storage, a: AttachmentRecord, n: nat) {
    Bindable(s, a, n) && HasRoom(s, a)
  }

  /** Two attachments of one request go together: the same volume is asked for in
      the same way, and different new ones at different devices. */
  predicate GoTogether(s: Storage, a: AttachmentRecord, b: AttachmentRecord) {
    if a.volume == b.volume then RowOf(a) == RowOf(b)
    else KeyOf(a) in s.attachments || KeyOf(b) in s.attachments || a.device != b.device
  }

  ghost predicate Compatible(s: Storage, requested: seq<AttachmentRecord>, n: nat) {
    && (forall a | a in requested :: Acceptable(s, a, n))
    && (forall a, b | a in requested && b in requested :: GoTogether(s, a, b))
  }

  // The loop

  lemma BindOneIff(s: Storage, a: AttachmentRecord, n: nat)
    ensures BindOne(s, a, n).Success? <==> Acceptable(s, a, n)
    ensures BindOne(s, a, n).Success? ==>
      BindOne(s, a, n).value == if KeyOf(a) in s.attachments then s else s.(attachments := s.attachments[KeyOf(a) := RowOf(a)])
  {
  }

  /** One attachment bound, for another of the same VM. */
  lemma AcceptableAfter(s: Storage, s1: Storage, a: AttachmentRecord, b: AttachmentRecord, n: nat)
    requires Acceptable(s, a, n) && a.vm == b.vm
    requires s1 == if KeyOf(a) in s.attachments then s else s.(attachments := s.attachments[KeyOf(a) := RowOf(a)])
    ensures Acceptable(s1, b, n) <==> Acceptable(s, b, n) && GoTogether(s, a, b)
  {
    if Bindable(s, b, n) && KeyOf(a) !in s.attachments {
      if b.volume == a.volume {
        assert KeyOf(b) == KeyOf(a);
      } else {
        assert KeyOf(b) != KeyOf(a);
        assert SharedByReaders(s1, b) <==> SharedByReaders(s, b);
        DeviceAfter(s, s1, a, b);
      }
    }
  }

  lemma DeviceAfter(s: Storage, s1: Storage, a: AttachmentRecord, b: AttachmentRecord)
    requires a.vm == b.vm && KeyOf(a) !in s.attachments && s1 == s.(attachments := s.attachments[KeyOf(a) := RowOf(a)])
    ensures DeviceIsFree(s1, b) <==> DeviceIsFree(s, b) && a.device != b.device
  {
    if DeviceIsFree(s1, b) {
      assert KeyOf(a) in s1.attachments;
      forall k | k in s.attachments && k.vm == b.vm ensures s.attachments[k].device != b.device { assert k in s1.attachments; }
    }
  }

  /** Binding one attachment decides nothing between two others. */
  lemma TogetherAfter(s: Storage, s1: Storage, a: AttachmentRecord, b: AttachmentRecord, c: AttachmentRecord, n: nat)
    requires a.vm == b.vm == c.vm && Acceptable(s1, b, n) && Acceptable(s1, c, n)
    requires s1 == if KeyOf(a) in s.attachments then s else s.(attachments := s.attachments[KeyOf(a) := RowOf(a)])
    ensures GoTogether(s1, b, c) <==> GoTogether(s, b, c)
  {
    if KeyOf(a) !in s.attachments && b.volume != c.volume {
      if KeyOf(b) == KeyOf(a) { assert s1.attachments[KeyOf(b)] == RowOf(b) && KeyOf(c) != KeyOf(a); }
      if KeyOf(c) == KeyOf(a) { assert s1.attachments[KeyOf(c)] == RowOf(c) && KeyOf(b) != KeyOf(a); }
      assert KeyOf(a) in s1.attachments;
    }
  }

  lemma CompatibleAfter(s: Storage, s1: Storage, ordered: seq<AttachmentRecord>, n: nat)
    requires ordered != [] && Acceptable(s, ordered[0], n) && forall a | a in ordered :: a.vm == ordered[0].vm
    requires var a := ordered[0]; s1 == if KeyOf(a) in s.attachments then s else s.(attachments := s.attachments[KeyOf(a) := RowOf(a)])
    ensures Compatible(s, ordered, n) <==> Compatible(s1, ordered[1..], n)
  {
    var a, rest := ordered[0], ordered[1..];
    forall b | b in rest ensures Acceptable(s1, b, n) <==> Acceptable(s, b, n) && GoTogether(s, a, b) { AcceptableAfter(s, s1, a, b, n); }
    if forall b | b in rest :: Acceptable(s1, b, n) {
      forall b, c | b in rest && c in rest ensures GoTogether(s1, b, c) <==> GoTogether(s, b, c) { TogetherAfter(s, s1, a, b, c, n); }
    }
    assert forall b :: b in ordered <==> b == a || b in rest;
    assert forall b :: GoTogether(s, b, a) <==> GoTogether(s, a, b);
  }

  lemma {:induction false} BindAllIff(s: Storage, ordered: seq<AttachmentRecord>, n: nat)
    requires forall a | a in ordered :: a.vm == ordered[0].vm
    ensures BindAll(s, ordered, n).Success? <==> Compatible(s, ordered, n)
    decreases |ordered|
  {
    if ordered != [] {
      BindOneIff(s, ordered[0], n);
      if BindOne(s, ordered[0], n).Success? {
        var s1 := BindOne(s, ordered[0], n).value;
        CompatibleAfter(s, s1, ordered, n);
        BindAllIff(s1, ordered[1..], n);
      } else {
        assert ordered[0] in ordered;
      }
    }
  }

  // The transaction

  /** The rows after a bind: those before, and the requested ones. */
  ghost predicate Bound(s: Storage, s': Storage, requested: seq<AttachmentRecord>) {
    && s'.volumes == s.volumes && s'.attachments.Keys == s.attachments.Keys + KeysOf(requested)
    && (forall k | k in s.attachments :: s'.attachments[k] == s.attachments[k])
    && (forall a | a in requested :: KeyOf(a) in s'.attachments && s'.attachments[KeyOf(a)] == RowOf(a))
  }

  /** A request is bound exactly when it has at most fifteen attachments, all for one
      VM of that tenant, each acceptable beside what is attached and all of them
      going together; the order they are bound in does not matter. */
  lemma BindOutcome(vms: map<Uuid, VmRow>, s: Storage, requested: seq<AttachmentRecord>)
    ensures var tx := BindVmVolumes(vms, s, requested);
      && (tx.Success? <==>
            requested == [] ||
            var vm, owner := requested[0].vm, requested[0].ownerKey;
            && |requested| <= 15 && (forall a | a in requested :: a.vm == vm && a.ownerKey == owner)
            && vm in vms && vms[vm].record.ownerKey == Some(owner)
            && Compatible(s, requested, |requested|))
      && (tx.Success? ==> Bound(s, tx.value.0, requested))
  {
    if requested != [] {
      var ordered, n := SortByVolume(requested), |requested|;
      SortKeepsElements(requested);
      SameElements(ordered, requested);
      if OneTarget(requested) {
        assert requested[0] in ordered;
        BindAllIff(s, ordered, n);
        assert Compatible(s, ordered, n) <==> Compatible(s, requested, n);
      }
      if BindAll(s, ordered, n).Success? { BindAllEffect(s, ordered, n); }
    } else {
      assert KeysOf(requested) == {};
    }
  }

  /** Unbinding takes exactly the tenant's attachments of that VM away. */
  lemma UnbindOutcome(s: Storage, owner: OwnerKey, vm: Uuid)
    ensures var tx := UnbindVmVolumes(s, owner, vm);
      && tx.Success? && tx.value.0.volumes == s.volumes
      && (forall k :: k in tx.value.0.attachments <==> k in s.attachments && !(k.vm == vm && s.attachments[k].ownerKey == owner))
      && (forall k | k in tx.value.0.attachments :: tx.value.0.attachments[k] == s.attachments[k])
  {
  }

  // Volumes

  predicate WellFormed(v: Volume) {
    && v.spec.ownerKey != "" && v.spec.name != "" && v.spec.provider != ""
    && 1 <= v.spec.generation <= I64_MAX && 1 <= v.revision <= I64_MAX && 1 <= v.spec.sizeBytes <= I64_MAX
  }

  predicate NameIsFree(s: Storage, spec: VolumeSpec) {
    forall w | w in s.volumes :: s.volumes[w].spec.ownerKey != spec.ownerKey || s.volumes[w].spec.name != spec.name
  }

  lemma FreeMeansNoMatch(s: Storage, id: Uuid, spec: VolumeSpec)
    ensures Matches(s, id, spec) == {} <==> id !in s.volumes && NameIsFree(s, spec)
  {
    var matches := Matches(s, id, spec);
    if matches == {} {
      forall w | w in s.volumes ensures s.volumes[w].spec.ownerKey != spec.ownerKey || s.volumes[w].spec.name != spec.name {
        assert w !in matches;
      }
    } else {
      var w :| w in matches;
      assert w in s.volumes;
    }
  }

  /** A volume is created exactly when it is well formed and its id and its name
      within the tenant are free; the same volume again is answered as stored. */
  lemma InsertVolumeOutcome(s: Storage, id: Uuid, v: Volume)
    requires NamesDiffer(s)
    ensures var tx := InsertVolume(s, id, v); var known := id in s.volumes && s.volumes[id].spec == v.spec;
      && (tx.Success? <==>
            && WellFormed(v)
            && (known || (id !in s.volumes && NameIsFree(s, v.spec))))
      && (tx.Success? ==> tx.value == if known then (s, s.volumes[id]) else (s.(volumes := s.volumes[id := v]), v))
  {
    var matches := Matches(s, id, v.spec);
    if id in s.volumes && s.volumes[id].spec == v.spec {
      forall w | w in matches ensures w == id { }
      assert matches == {id};
    } else {
      FreeMeansNoMatch(s, id, v.spec);
    }
  }

  predicate StoredAt(s: Storage, owner: OwnerKey, id: Uuid, status: VolumeStatus, revision: nat) {
    id in s.volumes && s.volumes[id].spec.ownerKey == owner && s.volumes[id].status == status && s.volumes[id].revision == revision
  }

  predicate Unattached(s: Storage, id: Uuid) {
    forall k | k in s.attachments :: k.volume != id
  }

  /** A transition succeeds exactly from the expected status and revision, and
      writes the new status and error at the next revision. */
  lemma TransitionOutcome(s: Storage, owner: OwnerKey, id: Uuid, from: VolumeStatus, expected: nat, to: VolumeStatus, lastError: Option<string>)
    ensures var tx := TransitionVolume(s, owner, id, from, expected, to, lastError);
      && (tx.Success? <==> StoredAt(s, owner, id, from, expected) && expected < I64_MAX)
      && (tx.Success? ==>
            var next := Volume(s.volumes[id].spec, to, expected + 1, lastError); tx.value == (s.(volumes := s.volumes[id := next]), next))
  {
  }

  /** A deletion is claimed exactly for an unattached volume at the expected status
      and revision; the claim is the deleting status at the next revision. */
  lemma BeginDeleteOutcome(s: Storage, owner: OwnerKey, id: Uuid, from: VolumeStatus, expected: nat)
    ensures var tx := BeginVolumeDelete(s, owner, id, from, expected);
      && (tx.Success? <==> StoredAt(s, owner, id, from, expected) && Unattached(s, id) && expected < I64_MAX)
      && (tx.Success? ==>
            var next := Volume(s.volumes[id].spec, VolumeDeleting, expected + 1, None); tx.value == (s.(volumes := s.volumes[id := next]), next))
  {
  }

  /** And the claimed row is deleted exactly at the claim's revision, unattached. */
  lemma DeleteMetadataOutcome(s: Storage, owner: OwnerKey, id: Uuid, expected: nat)
    ensures var tx := DeleteVolumeMetadata(s, owner, id, expected);
      && (tx.Success? <==> StoredAt(s, owner, id, VolumeDeleting, expected) && Unattached(s, id) && expected <= I64_MAX)
      && (tx.Success? ==> tx.value.0 == s.(volumes := s.volumes - {id}))
  {
  }
}
