/** Tenant quota and the fork protocol over runs. */
module FleetAdmission {
  import opened Results
  import opened FleetTables
  import opened VmStore
  import opened AdmissionStore
  import opened FleetRuns

  // No VM counted twice

  /** No id is both a tenant's VM and a reservation of the same tenant. */
  ghost predicate CountedOnce(t: Tables) {
    forall id | id in t.vms && id in t.admission.reservations ::
      t.vms[id].record.ownerKey != Some(t.admission.reservations[id].ownerKey)
  }

  lemma AdmissionStepCountsOnce(t: Tables, now: Time, op: AdmissionOp)
    requires CountedOnce(t)
    ensures CountedOnce(t.(admission := ApplyAdmission(t, now, op)))
  {
    match op
    case OpClaimFork(r, max, expires) => ClaimForkCountsOnce(t.vms, t.admission, now, r, max, expires);
    case _ =>
  }

  lemma ClaimForkCountsOnce(vms: map<Uuid, VmRow>, q: Admission, now: Time, r: ForkRequest, maxVms: nat, expiresAt: Time)
    ensures var q' := After(q, ClaimFork(vms, q, now, r, maxVms, expiresAt));
      forall id | id in q'.reservations && id in vms :: id in q.reservations && q'.reservations[id].ownerKey == q.reservations[id].ownerKey
  {
  }

  lemma StepCountsOnce(p: Policy, t: Tables, e: Event)
    requires CountedOnce(t)
    ensures CountedOnce(Apply(p, t, e))
  {
    match e.op
    case OnAdmission(op) => AdmissionStepCountsOnce(t, e.now, op);
    case OnVms(op) => VmStepCountsOnce(t, e.now, op);
    case _ =>
  }

  lemma VmStepCountsOnce(t: Tables, now: Time, op: VmOp)
    requires CountedOnce(t)
    ensures CountedOnce(ApplyVm(t, now, op))
  {
  }

  lemma {:induction false} NoVmIsCountedTwice(p: Policy, t: Tables, run: seq<Event>)
    requires CountedOnce(t)
    ensures CountedOnce(Replay(p, t, run))
    decreases |run|
  {
    if run != [] {
      StepCountsOnce(p, t, run[0]);
      NoVmIsCountedTwice(p, Apply(p, t, run[0]), run[1..]);
    }
  }

  // Usage

  function UsageAt(t: Tables, owner: OwnerKey, now: Time): nat {
    Usage(t.vms, t.admission.reservations, owner, now)
  }

  lemma SubsetSize<T>(a: set<T>, b: set<T>)
    requires a <= b
    ensures |a| <= |b|
  {
    assert b == a + (b - a);
  }

  lemma UsageOnlyFalls(vms: map<Uuid, VmRow>, vms': map<Uuid, VmRow>, r: Reservations, r': Reservations, owner: OwnerKey, now: Time, now': Time)
    requires ActiveVms(vms', owner) <= ActiveVms(vms, owner)
    requires LiveReservations(r', owner, now') <= LiveReservations(r, owner, now)
    ensures Usage(vms', r', owner, now') <= Usage(vms, r, owner, now)
  {
    SubsetSize(ActiveVms(vms', owner), ActiveVms(vms, owner));
    SubsetSize(LiveReservations(r', owner, now'), LiveReservations(r, owner, now));
  }

  /** Publishing `vm` makes it active for `owner` for the first time, or again. */
  predicate NewlyActive(vms: map<Uuid, VmRow>, vm: VmRecord, owner: OwnerKey) {
    IsActive(vm.status) && vm.ownerKey == Some(owner) && vm.id !in ActiveVms(vms, owner)
  }

  /** A publication that activates a VM does so under its own live reservation. */
  predicate Backed(t: Tables, now: Time, vm: VmRecord, owner: OwnerKey) {
    NewlyActive(t.vms, vm, owner) ==> vm.id in LiveReservations(t.admission.reservations, owner, now)
  }

  lemma PublishedActive(vms: map<Uuid, VmRow>, row: VmRow, owner: OwnerKey)
    ensures var active, active' := ActiveVms(vms, owner), ActiveVms(vms[row.record.id := row], owner);
      active' == if row.record.ownerKey == Some(owner) && IsActive(row.record.status) then active + {row.record.id} else active - {row.record.id}
  {
  }

  lemma PublishedLive(q: Admission, id: Uuid, from: Option<OwnerKey>, owner: OwnerKey, now: Time)
    ensures var live, live' := LiveReservations(q.reservations, owner, now), LiveReservations(DropReservation(q, id, from).reservations, owner, now);
      live' == if from == Some(owner) then live - {id} else live
  {
  }

  function One(b: bool): nat {
    if b then 1 else 0
  }

  lemma SizeWith<T>(s: set<T>, x: T)
    ensures |s + {x}| == |s| + One(x !in s) && |s - {x}| + One(x in s) == |s|
  {
    assert s - {x} + (if x in s then {x} else {}) == s;
    if x in s { assert s + {x} == s; }
  }

  /** A publication that writes the row raises the tenant's usage exactly when
      it activates a VM that holds no live reservation. */
  lemma PublicationUsage(t: Tables, row: VmRow, owner: OwnerKey, now: Time)
    ensures var t' := PutVm(t, row); var backed := Backed(t, now, row.record, owner);
      && (UsageAt(t', owner, now) <= UsageAt(t, owner, now) <==> backed)
      && (!backed ==> UsageAt(t', owner, now) == UsageAt(t, owner, now) + 1)
  {
    PublishedActive(t.vms, row, owner);
    PublishedLive(t.admission, row.record.id, row.record.ownerKey, owner, now);
    SizeWith(ActiveVms(t.vms, owner), row.record.id);
    SizeWith(LiveReservations(t.admission.reservations, owner, now), row.record.id);
  }

  /** Published without a reservation, one VM is too many for a tenant that may
      have none. */
  lemma UnbackedPublicationExceedsLimit(now: Time)
    ensures var vm := VmRecord(7, "host", Some("tenant"), None, Running, 1, VmShape(None, 1, 1, "kernel", None, false, ""), None, now, now);
      && UpsertVm(EMPTY, vm).Success? && UsageAt(EMPTY, "tenant", now) <= Limit(0)
      && UsageAt(UpsertVm(EMPTY, vm).value.0, "tenant", now) > Limit(0)
  {
    var vm := VmRecord(7, "host", Some("tenant"), None, Running, 1, VmShape(None, 1, 1, "kernel", None, false, ""), None, now, now);
    assert ActiveVms(EMPTY.vms, "tenant") == {} && LiveReservations(EMPTY.admission.reservations, "tenant", now) == {};
    PublicationUsage(EMPTY, VmRow(Persisted(vm), 1), "tenant", now);
  }

  lemma PurgeKeepsLive(r: Reservations, owner: OwnerKey, now: Time)
    ensures LiveReservations(PurgeExpired(r, now), owner, now) == LiveReservations(r, owner, now)
  {
  }

  /** Writing one reservation of `from` into purged reservations. */
  lemma ReservedLive(r: Reservations, id: Uuid, from: OwnerKey, expiresAt: Time, owner: OwnerKey, now: Time)
    requires id in r ==> r[id].ownerKey == from && r[id].expiresAt > now
    ensures var live, live' := LiveReservations(r, owner, now), LiveReservations(r[id := Reservation(from, expiresAt)], owner, now);
      live' <= if from == owner then live + {id} else live
  {
  }

  /** A slot is only taken below the limit, so it is only filled up to it. */
  lemma TakeSlotWithinLimit(vms: map<Uuid, VmRow>, r: Reservations, now: Time, from: OwnerKey, id: Uuid, maxVms: nat, expiresAt: Time,
                            owner: OwnerKey, limit: nat)
    requires id !in r && Usage(vms, r, owner, now) <= limit && (from == owner ==> Limit(maxVms) <= limit)
    requires TakeSlot(vms, r, now, from, id, maxVms, expiresAt).Success?
    ensures Usage(vms, TakeSlot(vms, r, now, from, id, maxVms, expiresAt).value, owner, now) <= limit
  {
    ReservedLive(r, id, from, expiresAt, owner, now);
    var live := LiveReservations(r, owner, now);
    var live' := LiveReservations(r[id := Reservation(from, expiresAt)], owner, now);
    SubsetSize(live', if from == owner then live + {id} else live);
    SizeWith(live, id);
  }

  lemma ReserveWithinLimit(vms: map<Uuid, VmRow>, q: Admission, now: Time, from: OwnerKey, id: Uuid, maxVms: nat, expiresAt: Time,
                           owner: OwnerKey, limit: nat)
    requires Usage(vms, q.reservations, owner, now) <= limit && (from == owner ==> Limit(maxVms) <= limit)
    ensures Usage(vms, After(q, ReserveVmQuota(vms, q, now, from, id, maxVms, expiresAt)).reservations, owner, now) <= limit
  {
    PurgeKeepsLive(q.reservations, owner, now);
    if ReserveVmQuota(vms, q, now, from, id, maxVms, expiresAt).Success? {
      TakeSlotWithinLimit(vms, PurgeExpired(q.reservations, now), now, from, id, maxVms, expiresAt, owner, limit);
    }
  }

  /** Who gets a reservation stays within the limit it was checked against. */
  lemma ReservedWithinLimit(vms: map<Uuid, VmRow>, q: Admission, now: Time, owner: OwnerKey, id: Uuid, maxVms: nat, expiresAt: Time)
    requires ReserveVmQuota(vms, q, now, owner, id, maxVms, expiresAt).Success?
    ensures Usage(vms, ReserveVmQuota(vms, q, now, owner, id, maxVms, expiresAt).value.0.reservations, owner, now) <= Limit(maxVms)
  {
    TakeSlotWithinLimit(vms, PurgeExpired(q.reservations, now), now, owner, id, maxVms, expiresAt, owner, Limit(maxVms));
  }

  lemma HoldSlotWithinLimit(vms: map<Uuid, VmRow>, r: Reservations, now: Time, f: ForkRequest, outcome: ClaimOutcome, restarted: bool,
                            maxVms: nat, expiresAt: Time, owner: OwnerKey, limit: nat)
    requires Usage(vms, r, owner, now) <= limit && (f.ownerKey == owner ==> Limit(maxVms) <= limit)
    requires f.child in r ==> r[f.child].expiresAt > now
    requires HoldChildSlot(vms, r, now, f, outcome, restarted, maxVms, expiresAt).Success?
    ensures Usage(vms, HoldChildSlot(vms, r, now, f, outcome, restarted, maxVms, expiresAt).value.0, owner, now) <= limit
  {
    if f.child in r {
      ReservedLive(r, f.child, f.ownerKey, expiresAt, owner, now);
      var r' := r[f.child := Reservation(f.ownerKey, expiresAt)];
      assert LiveReservations(r', owner, now) <= LiveReservations(r, owner, now);
      UsageOnlyFalls(vms, vms, r, r', owner, now, now);
    } else if f.child !in vms {
      TakeSlotWithinLimit(vms, r, now, f.ownerKey, f.child, maxVms, expiresAt, owner, limit);
    }
  }

  lemma ClaimForkWithinLimit(vms: map<Uuid, VmRow>, q: Admission, now: Time, f: ForkRequest, maxVms: nat, expiresAt: Time,
                             owner: OwnerKey, limit: nat)
    requires Usage(vms, q.reservations, owner, now) <= limit && (f.ownerKey == owner ==> Limit(maxVms) <= limit)
    ensures Usage(vms, After(q, ClaimFork(vms, q, now, f, maxVms, expiresAt)).reservations, owner, now) <= limit
  {
    PurgeKeepsLive(q.reservations, owner, now);
    var purged, known := PurgeExpired(q.reservations, now), f.child in q.forks;
    var outcome, restarted := if known then ClaimResumed else ClaimNew, known && q.forks[f.child].session != f.session;
    if HoldChildSlot(vms, purged, now, f, outcome, restarted, maxVms, expiresAt).Success? {
      HoldSlotWithinLimit(vms, purged, now, f, outcome, restarted, maxVms, expiresAt, owner, limit);
    }
  }

  // Quota over runs

  predicate WritesRow(t: Tables, vm: VmRecord) {
    UpsertVm(t, vm).Success? && (vm.id !in t.vms || t.vms[vm.id].record.revision < vm.revision)
  }

  /** What the quota theorem asks of each transaction: admissions use the
      tenant's limit, and publications that activate a VM are backed. */
  predicate Obeys(t: Tables, e: Event, owner: OwnerKey, limit: nat) {
    match e.op
    case OnAdmission(OpReserveQuota(o, _, max, _)) => o == owner ==> Limit(max) <= limit
    case OnAdmission(OpClaimFork(r, max, _)) => r.ownerKey == owner ==> Limit(max) <= limit
    case OnVms(OpUpsertVm(vm)) => WritesRow(t, vm) ==> Backed(t, e.now, vm, owner)
    case _ => true
  }

  lemma TimeOnlyFreesSlots(t: Tables, owner: OwnerKey, now: Time, now': Time)
    requires now <= now'
    ensures UsageAt(t, owner, now') <= UsageAt(t, owner, now)
  {
    UsageOnlyFalls(t.vms, t.vms, t.admission.reservations, t.admission.reservations, owner, now, now');
  }

  lemma AdmissionStepWithinLimit(t: Tables, now: Time, op: AdmissionOp, owner: OwnerKey, limit: nat)
    requires UsageAt(t, owner, now) <= limit && Obeys(t, Event(now, OnAdmission(op)), owner, limit)
    ensures Usage(t.vms, ApplyAdmission(t, now, op).reservations, owner, now) <= limit
  {
    match op
    case OpReserveQuota(o, id, max, expires) => ReserveWithinLimit(t.vms, t.admission, now, o, id, max, expires, owner, limit);
    case OpClaimFork(r, max, expires) => ClaimForkWithinLimit(t.vms, t.admission, now, r, max, expires, owner, limit);
    case OpReleaseQuota(o, id) => UsageOnlyFalls(t.vms, t.vms, t.admission.reservations, ApplyAdmission(t, now, op).reservations, owner, now, now);
    case OpCommitFork(_, _, _, _) =>
  }

  lemma VmStepWithinLimit(t: Tables, now: Time, op: VmOp, owner: OwnerKey, limit: nat)
    requires UsageAt(t, owner, now) <= limit && Obeys(t, Event(now, OnVms(op)), owner, limit)
    ensures UsageAt(ApplyVm(t, now, op), owner, now) <= limit
  {
    match op
    case OpUpsertVm(vm) =>
      if WritesRow(t, vm) {
        var row := VmRow(Persisted(vm), if vm.id in t.vms then t.vms[vm.id].generation + 1 else 1);
        assert UpsertVm(t, vm).value.0 == PutVm(t, row);
        PublicationUsage(t, row, owner, now);
      }
    case _ =>
      UsageOnlyFalls(t.vms, ApplyVm(t, now, op).vms, t.admission.reservations, ApplyVm(t, now, op).admission.reservations, owner, now, now);
  }

  lemma StepWithinLimit(p: Policy, t: Tables, e: Event, owner: OwnerKey, limit: nat)
    requires UsageAt(t, owner, e.now) <= limit && Obeys(t, e, owner, limit)
    ensures UsageAt(Apply(p, t, e), owner, e.now) <= limit
  {
    match e.op
    case OnAdmission(op) => AdmissionStepWithinLimit(t, e.now, op, owner, limit);
    case OnVms(op) => VmStepWithinLimit(t, e.now, op, owner, limit);
    case _ =>
  }

  ghost predicate ObeysThroughout(p: Policy, t: Tables, run: seq<Event>, owner: OwnerKey, limit: nat)
    decreases |run|
  {
    run != [] ==> Obeys(t, run[0], owner, limit) && ObeysThroughout(p, Apply(p, t, run[0]), run[1..], owner, limit)
  }

  ghost predicate WithinLimitThroughout(p: Policy, t: Tables, run: seq<Event>, owner: OwnerKey, limit: nat)
    decreases |run|
  {
    run != [] ==>
      var next := Apply(p, t, run[0]);
      UsageAt(next, owner, run[0].now) <= limit && WithinLimitThroughout(p, next, run[1..], owner, limit)
  }

  /** Active VMs plus live reservations never exceed the tenant's limit, in any
      run whose publications are backed. */
  lemma {:induction false} QuotaIsNeverExceeded(p: Policy, t: Tables, run: seq<Event>, owner: OwnerKey, limit: nat, start: Time)
    requires Clocked(run) && (run != [] ==> start <= run[0].now)
    requires UsageAt(t, owner, start) <= limit && ObeysThroughout(p, t, run, owner, limit)
    ensures WithinLimitThroughout(p, t, run, owner, limit)
    decreases |run|
  {
    if run != [] {
      TimeOnlyFreesSlots(t, owner, start, run[0].now);
      StepWithinLimit(p, t, run[0], owner, limit);
      QuotaIsNeverExceeded(p, Apply(p, t, run[0]), run[1..], owner, limit, run[0].now);
    }
  }

  // Forks

  /** Only a committed fork knows when its child was created. */
  ghost predicate SoundForks(q: Admission) {
    forall c | c in q.forks :: q.forks[c].status == Committed <==> q.forks[c].childCreatedAt.Some?
  }

  /** A fork row is never dropped or rebound; it may commit, once. */
  ghost predicate ForkEpoch(q: Admission, q': Admission) {
    forall c | c in q.forks ::
      && c in q'.forks
      && var f, f' := q.forks[c], q'.forks[c];
         && f'.source == f.source && f'.ownerKey == f.ownerKey && f'.sourceHost == f.sourceHost && f'.targetHost == f.targetHost
         && (f.status == Committed ==> f'.status == Committed)
         && (f.childCreatedAt.Some? ==> f'.childCreatedAt == f.childCreatedAt)
  }

  lemma StepIsForkEpoch(p: Policy, t: Tables, e: Event)
    requires SoundForks(t.admission)
    ensures SoundForks(Apply(p, t, e).admission) && ForkEpoch(t.admission, Apply(p, t, e).admission)
  {
    match e.op
    case OnAdmission(op) => AdmissionStepIsForkEpoch(t, e.now, op);
    case OnVms(op) => VmStepKeepsForks(t, e.now, op);
    case _ =>
  }

  lemma VmStepKeepsForks(t: Tables, now: Time, op: VmOp)
    ensures ApplyVm(t, now, op).admission.forks == t.admission.forks
  {
  }

  lemma AdmissionStepIsForkEpoch(t: Tables, now: Time, op: AdmissionOp)
    requires SoundForks(t.admission)
    ensures SoundForks(ApplyAdmission(t, now, op)) && ForkEpoch(t.admission, ApplyAdmission(t, now, op))
  {
  }

  /** Over every run a fork row keeps its source, owner and hosts, goes at most
      from preparing to committed, and keeps its child's creation time; and its
      child id can never again be reserved by an unrelated create. */
  lemma {:induction false} ForksAreNeverRebound(p: Policy, t: Tables, run: seq<Event>)
    requires SoundForks(t.admission)
    ensures SoundForks(Replay(p, t, run).admission) && ForkEpoch(t.admission, Replay(p, t, run).admission)
    decreases |run|
  {
    if run != [] {
      StepIsForkEpoch(p, t, run[0]);
      ForksAreNeverRebound(p, Apply(p, t, run[0]), run[1..]);
    }
  }

  lemma ForkedIdIsNeverReserved(p: Policy, t: Tables, run: seq<Event>, child: Uuid, now: Time, owner: OwnerKey, maxVms: nat, expiresAt: Time)
    requires SoundForks(t.admission) && child in t.admission.forks
    ensures var t' := Replay(p, t, run); ReserveVmQuota(t'.vms, t'.admission, now, owner, child, maxVms, expiresAt) == Failure(Conflict)
  {
    ForksAreNeverRebound(p, t, run);
  }

  // One grant per boot session

  predicate SlotIsLive(q: Admission, child: Uuid, owner: OwnerKey, now: Time) {
    child in LiveReservations(q.reservations, owner, now)
  }

  /** A repeated claim by the session that holds the operation is told to wait
      exactly when the child's slot is still live. */
  lemma RepeatedClaim(vms: map<Uuid, VmRow>, q: Admission, now: Time, r: ForkRequest, maxVms: nat, expiresAt: Time)
    requires r.child in q.forks && SameFork(q.forks[r.child], r)
    requires q.forks[r.child].status == Preparing && q.forks[r.child].session == r.session
    ensures var tx := ClaimFork(vms, q, now, r, maxVms, expiresAt);
      (tx.Success? && tx.value.1 == ClaimInProgress) <==> SlotIsLive(q, r.child, r.ownerKey, now)
  {
  }

  predicate Granted(tx: Tx<Admission, ClaimOutcome>) {
    tx.Success? && (tx.value.1 == ClaimNew || tx.value.1 == ClaimResumed)
  }

  /** A granted claim records its session as the one entitled to prepare. */
  lemma GrantRecordsSession(vms: map<Uuid, VmRow>, q: Admission, now: Time, r: ForkRequest, maxVms: nat, expiresAt: Time)
    requires Granted(ClaimFork(vms, q, now, r, maxVms, expiresAt))
    ensures var q' := ClaimFork(vms, q, now, r, maxVms, expiresAt).value.0;
      r.child in q'.forks && q'.forks[r.child].session == r.session && q'.forks[r.child].ownerKey == r.ownerKey
  {
  }

  predicate Claims(op: Op, child: Uuid) {
    op.OnAdmission? && op.q.OpClaimFork? && op.q.request.child == child
  }

  /** Whenever the child is claimed, its slot is live and the claimant is `session`. */
  ghost predicate SameSessionSlotLive(p: Policy, t: Tables, run: seq<Event>, child: Uuid, session: Option<Uuid>)
    decreases |run|
  {
    run != [] ==>
      && (Claims(run[0].op, child) ==>
            && run[0].op.q.request.session == session
            && child in t.admission.forks && SlotIsLive(t.admission, child, t.admission.forks[child].ownerKey, run[0].now))
      && SameSessionSlotLive(p, Apply(p, t, run[0]), run[1..], child, session)
  }

  /** The answer to a claim of a child whose fork operation exists: refused when
      it names another operation, otherwise committed or in progress. */
  predicate AnsweredWithoutGrant(t: Tables, now: Time, r: ForkRequest, maxVms: nat, expiresAt: Time) {
    r.child in t.admission.forks &&
    var tx, fork := ClaimFork(t.vms, t.admission, now, r, maxVms, expiresAt), t.admission.forks[r.child];
    if !SameFork(fork, r) then tx == Failure(Conflict)
    else tx.Success? && tx.value.1 == if fork.status == Committed then ClaimCommitted else ClaimInProgress
  }

  ghost predicate NeverGranted(p: Policy, t: Tables, run: seq<Event>, child: Uuid)
    decreases |run|
  {
    run != [] ==>
      && (Claims(run[0].op, child) ==>
            AnsweredWithoutGrant(t, run[0].now, run[0].op.q.request, run[0].op.q.maxVms, run[0].op.q.expiresAt))
      && NeverGranted(p, Apply(p, t, run[0]), run[1..], child)
  }

  lemma SessionStays(p: Policy, t: Tables, e: Event, child: Uuid, session: Option<Uuid>)
    requires child in t.admission.forks && t.admission.forks[child].session == session
    requires Claims(e.op, child) ==> e.op.q.request.session == session
    ensures child in Apply(p, t, e).admission.forks && Apply(p, t, e).admission.forks[child].session == session
  {
    match e.op
    case OnVms(op) => VmStepKeepsForks(t, e.now, op);
    case OnAdmission(op) => AdmissionKeepsSession(t, e.now, op, child, session);
    case _ =>
  }

  lemma AdmissionKeepsSession(t: Tables, now: Time, op: AdmissionOp, child: Uuid, session: Option<Uuid>)
    requires child in t.admission.forks && t.admission.forks[child].session == session
    requires Claims(OnAdmission(op), child) ==> op.request.session == session
    ensures child in ApplyAdmission(t, now, op).forks && ApplyAdmission(t, now, op).forks[child].session == session
  {
  }

  /** Once a session holds the operation, it is not granted again while its slot
      stays live and no other session claims: every later claim is answered in
      progress, committed, or refused for naming another operation. */
  lemma {:induction false} OneGrantPerSession(p: Policy, t: Tables, run: seq<Event>, child: Uuid, session: Option<Uuid>)
    requires child in t.admission.forks && t.admission.forks[child].session == session
    requires SameSessionSlotLive(p, t, run, child, session)
    ensures NeverGranted(p, t, run, child)
    decreases |run|
  {
    if run != [] {
      SessionStays(p, t, run[0], child, session);
      if Claims(run[0].op, child) {
        NotGrantedAgain(t, run[0].now, run[0].op.q.request, run[0].op.q.maxVms, run[0].op.q.expiresAt);
      }
      OneGrantPerSession(p, Apply(p, t, run[0]), run[1..], child, session);
    }
  }

  lemma NotGrantedAgain(t: Tables, now: Time, r: ForkRequest, maxVms: nat, expiresAt: Time)
    requires r.child in t.admission.forks && t.admission.forks[r.child].session == r.session
    requires SlotIsLive(t.admission, r.child, t.admission.forks[r.child].ownerKey, now)
    ensures AnsweredWithoutGrant(t, now, r, maxVms, expiresAt)
  {
  }

  predicate GrantsClaim(t: Tables, e: Event, child: Uuid) {
    Claims(e.op, child) && Granted(ClaimFork(t.vms, t.admission, e.now, e.op.q.request, e.op.q.maxVms, e.op.q.expiresAt))
  }

  ghost function GrantCount(p: Policy, t: Tables, run: seq<Event>, child: Uuid): nat
    decreases |run|
  {
    if run == [] then 0 else One(GrantsClaim(t, run[0], child)) + GrantCount(p, Apply(p, t, run[0]), run[1..], child)
  }

  lemma {:induction false} NoMoreGrants(p: Policy, t: Tables, run: seq<Event>, child: Uuid)
    requires NeverGranted(p, t, run, child)
    ensures GrantCount(p, t, run, child) == 0
    decreases |run|
  {
    if run != [] { NoMoreGrants(p, Apply(p, t, run[0]), run[1..], child); }
  }

  /** Only `session` claims the child, and after it has been granted the operation
      the child's slot is live at every claim. */
  ghost predicate OneClaimant(p: Policy, t: Tables, run: seq<Event>, child: Uuid, session: Option<Uuid>)
    decreases |run|
  {
    run != [] ==>
      && (Claims(run[0].op, child) ==> run[0].op.q.request.session == session)
      && if GrantsClaim(t, run[0], child) then SameSessionSlotLive(p, Apply(p, t, run[0]), run[1..], child, session)
         else OneClaimant(p, Apply(p, t, run[0]), run[1..], child, session)
  }

  /** Over a whole run such a session is granted the operation at most once. */
  lemma {:induction false} GrantedAtMostOnce(p: Policy, t: Tables, run: seq<Event>, child: Uuid, session: Option<Uuid>)
    requires OneClaimant(p, t, run, child, session)
    ensures GrantCount(p, t, run, child) <= 1
    decreases |run|
  {
    if run != [] {
      var e, next := run[0], Apply(p, t, run[0]);
      if GrantsClaim(t, e, child) {
        GrantRecordsSession(t.vms, t.admission, e.now, e.op.q.request, e.op.q.maxVms, e.op.q.expiresAt);
        OneGrantPerSession(p, next, run[1..], child, session);
        NoMoreGrants(p, next, run[1..], child);
      } else {
        GrantedAtMostOnce(p, next, run[1..], child, session);
      }
    }
  }
}
