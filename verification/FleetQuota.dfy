/** What a reservation reserves: when slots are given, that they are held, and how
    many of them a limit has. */
module FleetQuota {
  import opened Results
  import opened FleetTables
  import opened VmStore
  import opened AdmissionStore
  import opened FleetRuns
  import opened FleetAdmission

  // What counts

  /** The statuses that need no slot. */
  lemma IdleStatuses(status: VmStatus)
    ensures IsActive(status) <==> status !in {Hibernated, Stopped, Error}
  {
  }

  /** The limit is the tenant's maximum, as far as a BIGINT can count. */
  lemma LimitIsMaximum(maxVms: nat, n: nat)
    ensures n < Limit(maxVms) <==> n < maxVms && n < I64_MAX
  {
  }

  predicate HasRoom(vms: map<Uuid, VmRow>, q: Admission, now: Time, owner: OwnerKey, maxVms: nat) {
    Usage(vms, q.reservations, owner, now) < maxVms && Usage(vms, q.reservations, owner, now) < I64_MAX
  }

  predicate IsReserved(q: Admission, id: Uuid, now: Time) {
    id in q.reservations && q.reservations[id].expiresAt > now
  }

  /** Reservations other than that of `id`: the live ones stay, the others go. */
  ghost predicate OthersPurged(q: Admission, q': Admission, now: Time, id: Uuid) {
    && (forall i | i != id :: i in q'.reservations <==> IsReserved(q, i, now))
    && (forall i | i != id && i in q'.reservations :: q'.reservations[i] == q.reservations[i])
  }

  lemma UsageOfPurged(vms: map<Uuid, VmRow>, r: Reservations, owner: OwnerKey, now: Time)
    ensures Usage(vms, PurgeExpired(r, now), owner, now) == Usage(vms, r, owner, now)
  {
    PurgeKeepsLive(r, owner, now);
  }

  // Reserving

  predicate IdIsFree(vms: map<Uuid, VmRow>, q: Admission, now: Time, id: Uuid) {
    id !in vms && id !in q.forks && !IsReserved(q, id, now)
  }

  /** A slot is reserved exactly when the id is free and the tenant uses less than
      its maximum. Then the id has that reservation, every other live reservation
      stands as it was, and expired ones are gone. */
  lemma ReserveOutcome(vms: map<Uuid, VmRow>, q: Admission, now: Time, owner: OwnerKey, id: Uuid, maxVms: nat, expiresAt: Time)
    ensures var tx := ReserveVmQuota(vms, q, now, owner, id, maxVms, expiresAt); var free := IdIsFree(vms, q, now, id);
      && (tx.Success? <==> free && HasRoom(vms, q, now, owner, maxVms))
      && (tx.Failure? ==> tx.error == if free then QuotaExceeded else Conflict)
      && (tx.Success? ==>
            && tx.value.0.forks == q.forks && OthersPurged(q, tx.value.0, now, id)
            && id in tx.value.0.reservations && tx.value.0.reservations[id] == Reservation(owner, expiresAt))
  {
    UsageOfPurged(vms, q.reservations, owner, now);
    LimitIsMaximum(maxVms, Usage(vms, q.reservations, owner, now));
  }

  /** Who is reserved for, at any later time. */
  lemma LiveAfterReserve(q: Admission, q': Admission, now: Time, from: OwnerKey, id: Uuid, expiresAt: Time, owner: OwnerKey, later: Time)
    requires now <= later && !IsReserved(q, id, now) && OthersPurged(q, q', now, id)
    requires id in q'.reservations && q'.reservations[id] == Reservation(from, expiresAt)
    ensures var live, live' := LiveReservations(q.reservations, owner, later), LiveReservations(q'.reservations, owner, later);
      id !in live && live' == if from == owner && expiresAt > later then live + {id} else live
  {
    var live, live' := LiveReservations(q.reservations, owner, later), LiveReservations(q'.reservations, owner, later);
    forall i ensures i in live' <==> i in live || (i == id && from == owner && expiresAt > later) {
      if i != id { assert i in q'.reservations <==> IsReserved(q, i, now); }
    }
  }

  /** A reservation that lasts counts for one slot of its tenant and for nobody
      else, from now on until it ends. */
  lemma ReservationCountsOnce(vms: map<Uuid, VmRow>, q: Admission, now: Time, from: OwnerKey, id: Uuid, maxVms: nat, expiresAt: Time,
                              owner: OwnerKey, later: Time)
    requires now <= later && ReserveVmQuota(vms, q, now, from, id, maxVms, expiresAt).Success?
    ensures var q' := ReserveVmQuota(vms, q, now, from, id, maxVms, expiresAt).value.0;
      Usage(vms, q'.reservations, owner, later) == Usage(vms, q.reservations, owner, later) + One(from == owner && expiresAt > later)
  {
    ReserveOutcome(vms, q, now, from, id, maxVms, expiresAt);
    LiveAfterReserve(q, ReserveVmQuota(vms, q, now, from, id, maxVms, expiresAt).value.0, now, from, id, expiresAt, owner, later);
    SizeWith(LiveReservations(q.reservations, owner, later), id);
  }

  /** Giving a slot back drops the tenant's own reservation of that id only. */
  lemma ReleaseOutcome(q: Admission, owner: OwnerKey, id: Uuid)
    ensures var tx := ReleaseVmQuota(q, owner, id);
      && tx.Success? && tx.value.0.forks == q.forks
      && (forall i :: i in tx.value.0.reservations <==> i in q.reservations && !(i == id && q.reservations[i].ownerKey == owner))
      && (forall i | i in tx.value.0.reservations :: tx.value.0.reservations[i] == q.reservations[i])
  {
  }

  // A row of reservations

  predicate Reserves(e: Event, owner: OwnerKey) {
    e.op.OnAdmission? && e.op.q.OpReserveQuota? && e.op.q.owner == owner
  }

  predicate IsGiven(t: Tables, e: Event, owner: OwnerKey) {
    Reserves(e, owner) && ReserveVmQuota(t.vms, t.admission, e.now, owner, e.op.q.vmId, e.op.q.maxVms, e.op.q.expiresAt).Success?
  }

  ghost function Given(p: Policy, t: Tables, run: seq<Event>, owner: OwnerKey): nat
    decreases |run|
  {
    if run == [] then 0 else One(IsGiven(t, run[0], owner)) + Given(p, Apply(p, t, run[0]), run[1..], owner)
  }

  /** Nothing but reservations touches VMs and admission; those of `owner` are under
      one maximum and last beyond `end`. */
  predicate RowOfReserves(run: seq<Event>, owner: OwnerKey, maxVms: nat, end: Time) {
    forall e | e in run ::
      && e.now <= end && !e.op.OnVms? && (e.op.OnAdmission? ==> e.op.q.OpReserveQuota?)
      && (Reserves(e, owner) ==> e.op.q.maxVms == maxVms && e.op.q.expiresAt > end)
  }

  lemma ReserveStep(p: Policy, t: Tables, e: Event, owner: OwnerKey, maxVms: nat, end: Time)
    requires RowOfReserves([e], owner, maxVms, end)
    ensures UsageAt(Apply(p, t, e), owner, end) == UsageAt(t, owner, end) + One(IsGiven(t, e, owner))
    ensures IsGiven(t, e, owner) ==> UsageAt(t, owner, end) < maxVms
  {
    assert e in [e];
    if e.op.OnAdmission? {
      var q := e.op.q;
      ReserveOutcome(t.vms, t.admission, e.now, q.owner, q.vmId, q.maxVms, q.expiresAt);
      if ReserveVmQuota(t.vms, t.admission, e.now, q.owner, q.vmId, q.maxVms, q.expiresAt).Success? {
        ReservationCountsOnce(t.vms, t.admission, e.now, q.owner, q.vmId, q.maxVms, q.expiresAt, owner, end);
      }
      TimeOnlyFreesSlots(t, owner, e.now, end);
    } else {
      OthersLeaveUsage(p, t, e);
    }
  }

  lemma OthersLeaveUsage(p: Policy, t: Tables, e: Event)
    requires !e.op.OnVms? && !e.op.OnAdmission?
    ensures Apply(p, t, e).vms == t.vms && Apply(p, t, e).admission == t.admission
  {
  }

  /** Every slot that is given is used, and the last one is within the maximum. */
  lemma {:induction false} GivenSlotsAreUsed(p: Policy, t: Tables, run: seq<Event>, owner: OwnerKey, maxVms: nat, end: Time)
    requires RowOfReserves(run, owner, maxVms, end)
    ensures UsageAt(Replay(p, t, run), owner, end) == UsageAt(t, owner, end) + Given(p, t, run, owner)
    ensures Given(p, t, run, owner) > 0 ==> UsageAt(Replay(p, t, run), owner, end) <= maxVms
    decreases |run|
  {
    if run != [] {
      ReserveStep(p, t, run[0], owner, maxVms, end);
      GivenSlotsAreUsed(p, Apply(p, t, run[0]), run[1..], owner, maxVms, end);
    }
  }

  function Left(maxVms: nat, used: nat): nat {
    if used >= maxVms then 0 else maxVms - used
  }

  /** However many reservations are asked for in a row, by any tenants, no more of a
      tenant's are given than its maximum leaves. */
  lemma AtMostWhatIsLeft(p: Policy, t: Tables, run: seq<Event>, owner: OwnerKey, maxVms: nat, end: Time)
    requires RowOfReserves(run, owner, maxVms, end)
    ensures Given(p, t, run, owner) <= Left(maxVms, UsageAt(t, owner, end))
  {
    GivenSlotsAreUsed(p, t, run, owner, maxVms, end);
  }

  /** All of the tenant, for different ids that are free, while no reservation ends. */
  ghost predicate FreshRow(t: Tables, run: seq<Event>, owner: OwnerKey, end: Time) {
    && (forall e | e in run :: Reserves(e, owner) && Unused(t, e.op.q.vmId))
    && (forall i, j | 0 <= i < j < |run| && Reserves(run[i], owner) && Reserves(run[j], owner) :: run[i].op.q.vmId != run[j].op.q.vmId)
    && (forall id | id in t.admission.reservations :: t.admission.reservations[id].expiresAt > end)
  }

  predicate Unused(t: Tables, id: Uuid) {
    id !in t.vms && id !in t.admission.forks && id !in t.admission.reservations
  }

  function Min(a: nat, b: nat): nat {
    if a <= b then a else b
  }

  lemma UsageLasts(t: Tables, owner: OwnerKey, now: Time, end: Time)
    requires now <= end && forall id | id in t.admission.reservations :: t.admission.reservations[id].expiresAt > end
    ensures UsageAt(t, owner, now) == UsageAt(t, owner, end)
  {
    var r := t.admission.reservations;
    var live, lasting := LiveReservations(r, owner, now), LiveReservations(r, owner, end);
    forall id ensures id in live <==> id in lasting {
      if id in r { assert r[id].expiresAt > end; }
    }
    assert live == lasting;
  }

  lemma GivenToFree(t: Tables, e: Event, owner: OwnerKey, maxVms: nat, end: Time)
    requires RowOfReserves([e], owner, maxVms, end) && FreshRow(t, [e], owner, end) && maxVms <= I64_MAX
    ensures IsGiven(t, e, owner) <==> UsageAt(t, owner, end) < maxVms
  {
    assert e in [e];
    UsageLasts(t, owner, e.now, end);
    ReserveOutcome(t.vms, t.admission, e.now, owner, e.op.q.vmId, maxVms, e.op.q.expiresAt);
  }

  lemma ReservedRows(p: Policy, t: Tables, e: Event, owner: OwnerKey, end: Time)
    requires Reserves(e, owner) && e.now <= end && e.op.q.expiresAt > end
    requires forall id | id in t.admission.reservations :: t.admission.reservations[id].expiresAt > end
    ensures var t' := Apply(p, t, e);
      && t'.vms == t.vms && t'.admission.forks == t.admission.forks
      && forall id | id in t'.admission.reservations ::
           (id in t.admission.reservations || id == e.op.q.vmId) && t'.admission.reservations[id].expiresAt > end
  {
    var q, t' := e.op.q, Apply(p, t, e);
    ReserveOutcome(t.vms, t.admission, e.now, owner, q.vmId, q.maxVms, q.expiresAt);
    forall id | id in t'.admission.reservations
      ensures (id in t.admission.reservations || id == q.vmId) && t'.admission.reservations[id].expiresAt > end
    {
      if IsGiven(t, e, owner) && id != q.vmId { assert IsReserved(t.admission, id, e.now); }
    }
  }

  lemma FreshStep(p: Policy, t: Tables, run: seq<Event>, owner: OwnerKey, maxVms: nat, end: Time)
    requires run != [] && RowOfReserves(run, owner, maxVms, end) && FreshRow(t, run, owner, end)
    ensures FreshRow(Apply(p, t, run[0]), run[1..], owner, end)
  {
    var e, t' := run[0], Apply(p, t, run[0]);
    assert e in run;
    ReservedRows(p, t, e, owner, end);
    forall e' | e' in run[1..] ensures Reserves(e', owner) && Unused(t', e'.op.q.vmId) {
      var j :| 1 <= j < |run| && run[j] == e';
      assert e' in run && Reserves(run[0], owner) && Reserves(run[j], owner);
    }
  }

  /** And of those for free ids exactly as many are given as the maximum leaves. */
  lemma {:induction false} ExactlyWhatIsLeft(p: Policy, t: Tables, run: seq<Event>, owner: OwnerKey, maxVms: nat, end: Time)
    requires RowOfReserves(run, owner, maxVms, end) && FreshRow(t, run, owner, end) && maxVms <= I64_MAX
    ensures Given(p, t, run, owner) == Min(|run|, Left(maxVms, UsageAt(t, owner, end)))
    decreases |run|
  {
    if run != [] {
      assert run[0] in run;
      GivenToFree(t, run[0], owner, maxVms, end);
      FreshStep(p, t, run, owner, maxVms, end);
      ReserveStep(p, t, run[0], owner, maxVms, end);
      ExactlyWhatIsLeft(p, Apply(p, t, run[0]), run[1..], owner, maxVms, end);
    }
  }

  // Forks

  /** The fork operation of the child exists and is the one asked for. */
  predicate IsKnown(q: Admission, r: ForkRequest, status: ForkStatus) {
    r.child in q.forks &&
    var f := q.forks[r.child];
    && f.source == r.source && f.ownerKey == r.ownerKey && f.sourceHost == r.sourceHost && f.targetHost == r.targetHost
    && f.status == status
  }

  predicate IsMine(q: Admission, r: ForkRequest, now: Time) {
    IsReserved(q, r.child, now) && q.reservations[r.child].ownerKey == r.ownerKey
  }

  /** What each answer to a fork claim means. */
  predicate Deserves(vms: map<Uuid, VmRow>, q: Admission, now: Time, r: ForkRequest, maxVms: nat, outcome: ClaimOutcome) {
    var room := !IsReserved(q, r.child, now) && HasRoom(vms, q, now, r.ownerKey, maxVms);
    match outcome
    case ClaimCommitted => IsKnown(q, r, Committed)
    case ClaimInProgress => IsKnown(q, r, Preparing) && q.forks[r.child].session == r.session && IsMine(q, r, now)
    case ClaimNew => r.child !in q.forks && r.child !in vms && (IsMine(q, r, now) || room)
    case ClaimResumed =>
      IsKnown(q, r, Preparing) && (if IsMine(q, r, now) then q.forks[r.child].session != r.session
                                   else room || (r.child in vms && !IsReserved(q, r.child, now)))
  }

  /** A fork claim gets the answer it deserves, and fails exactly when it deserves
      none. */
  lemma ClaimAnswer(vms: map<Uuid, VmRow>, q: Admission, now: Time, r: ForkRequest, maxVms: nat, expiresAt: Time, outcome: ClaimOutcome)
    ensures var tx := ClaimFork(vms, q, now, r, maxVms, expiresAt);
      (tx.Success? && tx.value.1 == outcome) <==> Deserves(vms, q, now, r, maxVms, outcome)
  {
    UsageOfPurged(vms, q.reservations, r.ownerKey, now);
    LimitIsMaximum(maxVms, Usage(vms, q.reservations, r.ownerKey, now));
  }

  /** A granted claim stores the operation for its session, and the child is a VM
      already or holds the tenant's reservation until the new end. Nothing else
      changes but expired reservations. */
  lemma GrantedChildHasASlot(vms: map<Uuid, VmRow>, q: Admission, now: Time, r: ForkRequest, maxVms: nat, expiresAt: Time)
    requires Granted(ClaimFork(vms, q, now, r, maxVms, expiresAt))
    ensures var q' := ClaimFork(vms, q, now, r, maxVms, expiresAt).value.0;
      && OthersPurged(q, q', now, r.child)
      && (r.child in q'.reservations <==> r.child !in vms || IsReserved(q, r.child, now))
      && (r.child in q'.reservations ==> q'.reservations[r.child] == Reservation(r.ownerKey, expiresAt))
      && r.child in q'.forks && q'.forks == q.forks[r.child := q'.forks[r.child]]
      && q'.forks[r.child] == Fork(r.source, r.ownerKey, r.sourceHost, r.targetHost, r.session, Preparing, q'.forks[r.child].childCreatedAt)
  {
  }

  /** A claim that is not granted changes nothing but expired reservations. */
  lemma UngrantedClaimChangesNothing(vms: map<Uuid, VmRow>, q: Admission, now: Time, r: ForkRequest, maxVms: nat, expiresAt: Time)
    requires var tx := ClaimFork(vms, q, now, r, maxVms, expiresAt); tx.Success? && !Granted(tx)
    ensures ClaimFork(vms, q, now, r, maxVms, expiresAt).value.0 == q.(reservations := PurgeExpired(q.reservations, now))
  {
    var q' := ClaimFork(vms, q, now, r, maxVms, expiresAt).value.0;
    assert q'.forks == q.forks;
  }

  /** A commit succeeds exactly for the operation with that source and tenant that is
      not committed with another creation time, and stores that time. */
  lemma CommitOutcome(q: Admission, child: Uuid, source: Uuid, owner: OwnerKey, at: Time)
    requires SoundForks(q)
    ensures var tx := CommitFork(q, child, source, owner, at);
      && (tx.Success? <==>
            && child in q.forks && q.forks[child].source == source && q.forks[child].ownerKey == owner
            && q.forks[child].childCreatedAt in {None, Some(Normalize(at))})
      && (tx.Success? ==>
            tx.value.0 == q.(forks := q.forks[child := q.forks[child].(status := Committed, childCreatedAt := Some(Normalize(at)))]))
  {
  }

  /** Once committed, the operation is answered as committed after every run. */
  lemma CommittedForGood(p: Policy, t: Tables, run: seq<Event>, r: ForkRequest, now: Time, maxVms: nat, expiresAt: Time)
    requires SoundForks(t.admission) && IsKnown(t.admission, r, Committed)
    ensures var t' := Replay(p, t, run); var tx := ClaimFork(t'.vms, t'.admission, now, r, maxVms, expiresAt);
      tx.Success? && tx.value.1 == ClaimCommitted
      && t'.admission.forks[r.child].childCreatedAt == t.admission.forks[r.child].childCreatedAt
  {
    ForksAreNeverRebound(p, t, run);
    var t' := Replay(p, t, run);
    ClaimAnswer(t'.vms, t'.admission, now, r, maxVms, expiresAt, ClaimCommitted);
  }
}
