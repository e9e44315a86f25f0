/** VM ownership: epochs, fencing of previous hosts, and convergence of
    out-of-order publications. */
module FleetOwnership {
  import opened Results
  import opened FleetTables
  import opened VmStore
  import opened FleetRuns

  // Records

  /** Storing drops the nanoseconds of a time, and no more. */
  lemma NormalizeDropsNanoseconds(time: Time)
    ensures Normalize(time) % 1_000 == 0 && Normalize(time) <= time < Normalize(time) + 1_000
  {
  }

  /** Records are stored alike exactly when they differ in nothing but node-local
      data and nanoseconds. */
  lemma StoredAlike(vm: VmRecord, vm': VmRecord)
    ensures Persisted(vm) == Persisted(vm') <==>
      && vm.id == vm'.id && vm.hostId == vm'.hostId && vm.ownerKey == vm'.ownerKey && vm.apiKeyId == vm'.apiKeyId
      && vm.status == vm'.status && vm.revision == vm'.revision && vm.shape == vm'.shape
      && vm.createdAt / 1_000 == vm'.createdAt / 1_000 && vm.updatedAt / 1_000 == vm'.updatedAt / 1_000
  {
  }

  // Rows

  /** A generation never overtakes its revision, so it never outgrows BIGINT. */
  ghost predicate SoundRows(t: Tables) {
    forall id | id in t.vms :: t.vms[id].record.id == id && 1 <= t.vms[id].generation <= t.vms[id].record.revision <= I64_MAX
  }

  predicate IsClaim(op: Op, id: Uuid, target: HostId) {
    op.OnVms? && op.v.OpClaimHibernatedVm? && op.v.vmId == id && op.v.target == target
  }

  /** The guards under which a claim may move a VM. */
  predicate MayMove(t: Tables, op: VmOp, id: Uuid)
    requires op.OpClaimHibernatedVm? && id in t.vms
  {
    && t.vms[id].record.status == Hibernated
    && CurrentSession(t.hosts, op.target, op.session, op.staleBefore)
    && !Fresh(t.hosts, t.vms[id].record.hostId, op.staleBefore)
  }

  /** One transaction and one VM row: untouched, or advanced to a new epoch. */
  ghost predicate Epoch(t: Tables, t': Tables, op: Op, id: Uuid)
    requires id in t.vms && id in t'.vms
  {
    var row, row' := t.vms[id], t'.vms[id];
    && (row' != row ==> row'.record.revision > row.record.revision && row'.generation == row.generation + 1)
    && row'.record.createdAt == row.record.createdAt
    && (row'.record.hostId != row.record.hostId ==> IsClaim(op, id, row'.record.hostId) && MayMove(t, op.v, id))
  }

  lemma VmStepIsEpoch(t: Tables, now: Time, op: VmOp, id: Uuid)
    requires SoundRows(t) && id in t.vms && id in ApplyVm(t, now, op).vms
    ensures Epoch(t, ApplyVm(t, now, op), OnVms(op), id)
  {
  }

  lemma VmStepKeepsRows(t: Tables, now: Time, op: VmOp)
    requires SoundRows(t)
    ensures SoundRows(ApplyVm(t, now, op))
  {
  }

  lemma StepIsEpoch(p: Policy, t: Tables, e: Event, id: Uuid)
    requires SoundRows(t)
    ensures SoundRows(Apply(p, t, e))
    ensures id in t.vms && id in Apply(p, t, e).vms ==> Epoch(t, Apply(p, t, e), e.op, id)
  {
    if e.op.OnVms? {
      VmStepKeepsRows(t, e.now, e.op.v);
      if id in t.vms && id in Apply(p, t, e).vms { VmStepIsEpoch(t, e.now, e.op.v, id); }
    }
  }

  // Publication and claims

  /** The row a publication would meet: none, an older one of the same incarnation,
      or another. */
  predicate IsNewer(t: Tables, vm: VmRecord) {
    vm.id in t.vms ==>
      var record := t.vms[vm.id].record;
      record.hostId == vm.hostId && record.createdAt == Normalize(vm.createdAt) && record.revision < vm.revision
  }

  predicate IsReplay(t: Tables, vm: VmRecord) {
    vm.id in t.vms &&
    var record := t.vms[vm.id].record;
    && record.hostId == vm.hostId && record.createdAt == Normalize(vm.createdAt)
    && (record.revision > vm.revision || record == Persisted(vm))
  }

  /** A publication succeeds exactly when its revision fits and the id is free or of
      the same incarnation, without another record at the same revision. A newer
      one is stored as it came, at the next generation, and uses up the tenant's
      reservation of the id; an older or equal one changes nothing. */
  lemma PublicationOutcome(t: Tables, vm: VmRecord)
    requires SoundRows(t)
    ensures var tx, fits := UpsertVm(t, vm), 1 <= vm.revision <= I64_MAX;
      && (tx.Success? <==> fits && (IsNewer(t, vm) || IsReplay(t, vm)))
      && (tx.Success? && !IsNewer(t, vm) ==> tx.value == (t, t.vms[vm.id].generation))
      && (tx.Success? && IsNewer(t, vm) ==>
            var t', generation := tx.value.0, if vm.id in t.vms then t.vms[vm.id].generation + 1 else 1;
            && tx.value.1 == generation && t' == t.(vms := t.vms[vm.id := VmRow(Persisted(vm), generation)], admission := t'.admission)
            && t'.admission.forks == t.admission.forks
            && (forall id :: id in t'.admission.reservations <==>
                  id in t.admission.reservations && !(id == vm.id && vm.ownerKey == Some(t.admission.reservations[id].ownerKey)))
            && (forall id | id in t'.admission.reservations :: t'.admission.reservations[id] == t.admission.reservations[id]))
  {
  }

  /** A hibernated VM is claimed exactly when it is the tenant's, the target is
      current under that session, and the VM is the target's already or its host
      has gone stale. A claim that moves it changes host, revision, generation and
      time of the row and nothing else. */
  lemma ClaimOutcome(t: Tables, now: Time, owner: OwnerKey, id: Uuid, target: HostId, session: Uuid, staleBefore: Time)
    requires SoundRows(t)
    ensures var tx := ClaimHibernatedVm(t, now, owner, id, target, session, staleBefore);
      && (tx.Success? <==>
            && id in t.vms && t.vms[id].record.ownerKey == Some(owner) && t.vms[id].record.status == Hibernated
            && target in t.hosts && t.hosts[target].healthy && t.hosts[target].bootSession == Some(session)
            && t.hosts[target].lastHeartbeat >= staleBefore
            && (t.vms[id].record.hostId == target
                || (!Fresh(t.hosts, t.vms[id].record.hostId, staleBefore) && t.vms[id].record.revision < I64_MAX)))
      && (tx.Success? ==>
            var record := t.vms[id].record;
            tx.value == if record.hostId == target then (t, record)
                        else
                          var moved := record.(hostId := target, revision := record.revision + 1, updatedAt := now);
                          (t.(vms := t.vms[id := VmRow(moved.(updatedAt := Normalize(now)), t.vms[id].generation + 1)]), moved))
  {
  }

  // Epochs over runs

  /** The VM row exists in every state of the run. */
  ghost predicate Present(p: Policy, t: Tables, run: seq<Event>, id: Uuid)
    decreases |run|
  {
    id in t.vms && (run != [] ==> Present(p, Apply(p, t, run[0]), run[1..], id))
  }

  /** How many steps of the run change the row. */
  ghost function Changes(p: Policy, t: Tables, run: seq<Event>, id: Uuid): nat
    requires Present(p, t, run, id)
    decreases |run|
  {
    if run == [] then 0
    else
      var next := Apply(p, t, run[0]);
      assert Present(p, next, run[1..], id);
      (if next.vms[id] == t.vms[id] then 0 else 1) + Changes(p, next, run[1..], id)
  }

  /** Over every run without deletion of the VM, the generation counts the row's
      changes exactly, and every change raises the revision. */
  lemma {:induction false} GenerationCountsChanges(p: Policy, t: Tables, run: seq<Event>, id: Uuid)
    requires SoundRows(t) && Present(p, t, run, id)
    ensures id in Replay(p, t, run).vms
    ensures var row, row' := t.vms[id], Replay(p, t, run).vms[id]; var n := Changes(p, t, run, id);
      && row'.generation == row.generation + n
      && row'.record.revision >= row.record.revision + n
      && (n == 0 ==> row' == row)
      && row'.record.createdAt == row.record.createdAt
    decreases |run|
  {
    if run != [] {
      StepIsEpoch(p, t, run[0], id);
      GenerationCountsChanges(p, Apply(p, t, run[0]), run[1..], id);
    }
  }

  // Fencing

  predicate FromHost(op: Op, id: Uuid, host: HostId) {
    op.OnVms? && ((op.v.OpUpsertVm? || op.v.OpDeleteVm?) && op.v.vm.id == id && op.v.vm.hostId == host)
  }

  /** A host that does not own the row can neither update nor delete it. */
  lemma StrangerIsRefused(t: Tables, vm: VmRecord)
    requires vm.id in t.vms && t.vms[vm.id].record.hostId != vm.hostId
    ensures UpsertVm(t, vm).Failure? && DeleteVm(t, vm) == Failure(Conflict)
  {
  }

  /** Every publication or deletion of the VM that `host` sends is refused. */
  ghost predicate RefusedThroughout(p: Policy, t: Tables, run: seq<Event>, id: Uuid, host: HostId)
    decreases |run|
  {
    run != [] ==>
      && (FromHost(run[0].op, id, host) ==>
            && (if run[0].op.v.OpUpsertVm? then UpsertVm(t, run[0].op.v.vm).Failure? else DeleteVm(t, run[0].op.v.vm).Failure?)
            && Apply(p, t, run[0]) == t)
      && RefusedThroughout(p, Apply(p, t, run[0]), run[1..], id, host)
  }

  /** Once the row belongs to another host, the old host stays fenced off until
      a claim hands the VM back to it. */
  lemma {:induction false} OldHostStaysFenced(p: Policy, t: Tables, run: seq<Event>, id: Uuid, host: HostId)
    requires SoundRows(t) && Present(p, t, run, id) && t.vms[id].record.hostId != host
    requires forall e | e in run :: !IsClaim(e.op, id, host)
    ensures RefusedThroughout(p, t, run, id, host)
    ensures id in Replay(p, t, run).vms && Replay(p, t, run).vms[id].record.hostId != host
    decreases |run|
  {
    if run != [] {
      if FromHost(run[0].op, id, host) { StrangerIsRefused(t, run[0].op.v.vm); }
      StepIsEpoch(p, t, run[0], id);
      OldHostStaysFenced(p, Apply(p, t, run[0]), run[1..], id, host);
    }
  }

  /** The claim that starts the fence: afterwards the row is the target's. */
  lemma ClaimMovesRow(t: Tables, now: Time, owner: OwnerKey, id: Uuid, target: HostId, session: Uuid, staleBefore: Time)
    ensures var tx := ClaimHibernatedVm(t, now, owner, id, target, session, staleBefore); tx.Success? ==>
      && id in t.vms && id in tx.value.0.vms
      && tx.value.0.vms[id].record.hostId == target
      && tx.value.0.vms[id].record == tx.value.1.(updatedAt := tx.value.0.vms[id].record.updatedAt)
      && CurrentSession(t.hosts, target, session, staleBefore)
      && (t.vms[id].record.hostId == target || !Fresh(t.hosts, t.vms[id].record.hostId, staleBefore))
      && tx.value.0 == t.(vms := t.vms[id := tx.value.0.vms[id]])
  {
  }

  // Convergence

  predicate Touches(op: Op, id: Uuid) {
    op.OnVms? &&
    match op.v
    case OpUpsertVm(vm) => vm.id == id
    case OpClaimHibernatedVm(_, vmId, _, _, _) => vmId == id
    case OpDeleteVm(vm) => vm.id == id
  }

  /** A publication of one incarnation: one host, one creation time. */
  predicate OfIncarnation(vm: VmRecord, id: Uuid, host: HostId, createdAt: Time) {
    vm.id == id && vm.hostId == host && Normalize(vm.createdAt) == createdAt && 1 <= vm.revision <= I64_MAX
  }

  /** In this run only publications of the incarnation touch the VM. */
  predicate OnlyDeliveries(run: seq<Event>, id: Uuid, host: HostId, createdAt: Time) {
    forall e | e in run && Touches(e.op, id) :: e.op.v.OpUpsertVm? && OfIncarnation(e.op.v.vm, id, host, createdAt)
  }

  function Delivered(run: seq<Event>, id: Uuid): seq<VmRecord> {
    if run == [] then []
    else if Touches(run[0].op, id) && run[0].op.v.OpUpsertVm? then [run[0].op.v.vm] + Delivered(run[1..], id)
    else Delivered(run[1..], id)
  }

  /** Records of equal revision are the same record, as the store compares them. */
  ghost predicate OnePerRevision(records: seq<VmRecord>) {
    forall vm, vm' | vm in records && vm' in records && vm.revision == vm'.revision :: Persisted(vm) == Persisted(vm')
  }

  /** The row holds the delivered record of highest revision. */
  ghost predicate HoldsHighest(t: Tables, id: Uuid, records: seq<VmRecord>) {
    && id in t.vms
    && (exists vm | vm in records :: t.vms[id].record == Persisted(vm))
    && (forall vm | vm in records :: vm.revision <= t.vms[id].record.revision)
  }

  ghost predicate AllDeliveriesSucceed(p: Policy, t: Tables, run: seq<Event>, id: Uuid)
    decreases |run|
  {
    run != [] ==>
      && (Touches(run[0].op, id) && run[0].op.v.OpUpsertVm? ==> UpsertVm(t, run[0].op.v.vm).Success?)
      && AllDeliveriesSucceed(p, Apply(p, t, run[0]), run[1..], id)
  }

  lemma UntouchedRow(p: Policy, t: Tables, e: Event, id: Uuid)
    requires !Touches(e.op, id)
    ensures id in Apply(p, t, e).vms <==> id in t.vms
    ensures id in t.vms ==> Apply(p, t, e).vms[id] == t.vms[id]
  {
    if e.op.OnVms? { UntouchedByVmOp(t, e.now, e.op.v, id); }
  }

  lemma UntouchedByVmOp(t: Tables, now: Time, op: VmOp, id: Uuid)
    requires !Touches(OnVms(op), id)
    ensures id in ApplyVm(t, now, op).vms <==> id in t.vms
    ensures id in t.vms ==> ApplyVm(t, now, op).vms[id] == t.vms[id]
  {
  }

  /** One delivery: it succeeds, and the row moves to the highest revision. */
  lemma DeliverOne(t: Tables, vm: VmRecord, host: HostId, createdAt: Time, seen: seq<VmRecord>)
    requires SoundRows(t) && OfIncarnation(vm, vm.id, host, createdAt)
    requires forall s | s in seen :: OfIncarnation(s, vm.id, host, createdAt)
    requires if seen == [] then vm.id !in t.vms else HoldsHighest(t, vm.id, seen)
    requires OnePerRevision(seen + [vm])
    ensures UpsertVm(t, vm).Success? && HoldsHighest(UpsertVm(t, vm).value.0, vm.id, seen + [vm])
  {
    var all := seen + [vm];
    assert vm in all;
    if seen != [] {
      var best :| best in seen && t.vms[vm.id].record == Persisted(best);
      assert best in all;
    }
  }

  /** Deliveries of one incarnation, in any order, with any repetition and among
      any other transactions, all succeed and end at the highest revision. */
  lemma {:induction false} DeliveriesConverge(p: Policy, t: Tables, run: seq<Event>, id: Uuid, host: HostId, createdAt: Time,
                                              seen: seq<VmRecord>)
    requires SoundRows(t) && OnlyDeliveries(run, id, host, createdAt)
    requires forall s | s in seen :: OfIncarnation(s, id, host, createdAt)
    requires if seen == [] then id !in t.vms else HoldsHighest(t, id, seen)
    requires OnePerRevision(seen + Delivered(run, id))
    ensures AllDeliveriesSucceed(p, t, run, id)
    ensures var all := seen + Delivered(run, id);
      if all == [] then id !in Replay(p, t, run).vms else HoldsHighest(Replay(p, t, run), id, all)
    decreases |run|
  {
    if run == [] {
      assert seen + Delivered(run, id) == seen;
    } else {
      var e, rest := run[0], run[1..];
      StepIsEpoch(p, t, e, id);
      FewerDeliveries(run, id, host, createdAt);
      if Touches(e.op, id) {
        var vm := e.op.v.vm;
        assert seen + Delivered(run, id) == (seen + [vm]) + Delivered(rest, id);
        OnePerRevisionOfPrefix(seen + [vm], Delivered(rest, id));
        DeliverOne(t, vm, host, createdAt, seen);
        DeliveriesConverge(p, Apply(p, t, e), rest, id, host, createdAt, seen + [vm]);
      } else {
        UntouchedRow(p, t, e, id);
        DeliveriesConverge(p, Apply(p, t, e), rest, id, host, createdAt, seen);
      }
    }
  }

  lemma FewerDeliveries(run: seq<Event>, id: Uuid, host: HostId, createdAt: Time)
    requires run != [] && OnlyDeliveries(run, id, host, createdAt)
    ensures OnlyDeliveries(run[1..], id, host, createdAt)
    ensures Touches(run[0].op, id) ==> run[0].op.v.OpUpsertVm? && OfIncarnation(run[0].op.v.vm, id, host, createdAt)
  {
    assert run[0] in run;
  }

  lemma OnePerRevisionOfPrefix(a: seq<VmRecord>, b: seq<VmRecord>)
    requires OnePerRevision(a + b)
    ensures OnePerRevision(a)
  {
    assert forall vm | vm in a :: vm in a + b;
  }

  /** The same, from a database without the VM: two runs that deliver the same
      records in whatever order store the same record. */
  lemma OrderDoesNotMatter(p: Policy, t: Tables, t': Tables, run: seq<Event>, run': seq<Event>, id: Uuid, host: HostId, createdAt: Time)
    requires SoundRows(t) && id !in t.vms && SoundRows(t') && id !in t'.vms
    requires OnlyDeliveries(run, id, host, createdAt) && OnlyDeliveries(run', id, host, createdAt)
    requires OnePerRevision(Delivered(run, id)) && Delivered(run, id) != []
    requires forall vm :: vm in Delivered(run, id) <==> vm in Delivered(run', id)
    ensures id in Replay(p, t, run).vms && id in Replay(p, t', run').vms
    ensures Replay(p, t, run).vms[id].record == Replay(p, t', run').vms[id].record
  {
    var a, b := Delivered(run, id), Delivered(run', id);
    assert a[0] in b;
    assert [] + a == a && [] + b == b;
    DeliveriesConverge(p, t, run, id, host, createdAt, []);
    DeliveriesConverge(p, t', run', id, host, createdAt, []);
    HighestIsUnique(Replay(p, t, run), Replay(p, t', run'), id, a, b);
  }

  lemma HighestIsUnique(t: Tables, t': Tables, id: Uuid, a: seq<VmRecord>, b: seq<VmRecord>)
    requires HoldsHighest(t, id, a) && HoldsHighest(t', id, b) && OnePerRevision(a) && forall vm :: vm in a <==> vm in b
    ensures t.vms[id].record == t'.vms[id].record
  {
    var vm :| vm in a && t.vms[id].record == Persisted(vm);
    var vm' :| vm' in b && t'.vms[id].record == Persisted(vm');
    assert vm.revision <= vm'.revision <= vm.revision;
  }

  /** Delivering again a record that already took part changes nothing at all. */
  lemma RedeliveryIsNoop(t: Tables, vm: VmRecord, host: HostId, createdAt: Time, seen: seq<VmRecord>)
    requires SoundRows(t) && vm in seen && OnePerRevision(seen)
    requires forall s | s in seen :: OfIncarnation(s, vm.id, host, createdAt)
    requires HoldsHighest(t, vm.id, seen)
    ensures UpsertVm(t, vm) == Success((t, t.vms[vm.id].generation))
  {
    var best :| best in seen && t.vms[vm.id].record == Persisted(best);
  }
}
