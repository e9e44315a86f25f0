/** Lease exclusion over whole runs: leader terms and repair-lease tokens. */
module FleetLeases {
  import opened Results
  import opened FleetTables
  import opened ArtifactStore
  import opened VmStore
  import opened ReplicationStore
  import opened LeaderStore
  import opened FleetRuns
  import opened FleetGraphRuns
  import opened FleetCascades
  import opened FleetReplication
  import opened FleetRepairs

  /** A heartbeat is stored as it came, and touches no other host. */
  lemma HeartbeatOutcome(p: Policy, t: Tables, now: Time, id: HostId, host: Host)
    ensures Apply(p, t, Event(now, OnFleet(OpUpsertHost(id, host)))) == t.(hosts := t.hosts[id := host])
  {
  }

  // Leader terms

  predicate AsksToLead(e: Event) {
    e.op.OnFleet? && e.op.f.OpAcquireLeader?
  }

  /** The event makes its node the leader, or renews its term. */
  predicate GrantsLead(leader: Option<Leader>, e: Event) {
    AsksToLead(e) && TryAcquireLeader(leader, e.now, e.op.f.node, e.op.f.ttlSeconds).value.1
  }

  predicate FixedTtl(run: seq<Event>, ttl: int) {
    forall i | 0 <= i < |run| && AsksToLead(run[i]) :: run[i].op.f.ttlSeconds == ttl
  }

  /** The node still leads, at least until `end`; or `end` has passed. */
  predicate Term(leader: Option<Leader>, clock: Time, node: string, end: Time) {
    (leader.Some? && leader.value.node == node && leader.value.expiresAt >= end) || clock > end
  }

  lemma OthersLeaveLeader(p: Policy, t: Tables, e: Event)
    requires !AsksToLead(e)
    ensures Apply(p, t, e).leader == t.leader
  {
  }

  lemma LeaderStep(p: Policy, t: Tables, e: Event)
    requires AsksToLead(e)
    ensures Apply(p, t, e).leader == TryAcquireLeader(t.leader, e.now, e.op.f.node, e.op.f.ttlSeconds).value.0
  {
  }

  lemma {:induction false} TermLasts(p: Policy, t: Tables, run: seq<Event>, ttl: int, i: nat, k: nat)
    requires Clocked(run) && FixedTtl(run, ttl) && i < k <= |run| && GrantsLead(Before(p, t, run, i).leader, run[i])
    ensures Term(Before(p, t, run, k).leader, run[k - 1].now, run[i].op.f.node, run[i].now + ttl * NANOS_PER_SECOND)
    decreases k
  {
    var last := run[k - 1];
    OneMore(p, t, run, k - 1);
    if i < k - 1 { TermLasts(p, t, run, ttl, i, k - 1); }
    if AsksToLead(last) {
      LeaderStep(p, Before(p, t, run, k - 1), last);
    } else {
      OthersLeaveLeader(p, Before(p, t, run, k - 1), last);
    }
  }

  /** In any run with one ttl, the terms of two different leaders are apart:
      the later one starts after the earlier one has ended. */
  lemma TermsNeverOverlap(p: Policy, t: Tables, run: seq<Event>, ttl: int, i: nat, j: nat)
    requires Clocked(run) && FixedTtl(run, ttl) && i < j < |run|
    requires GrantsLead(Before(p, t, run, i).leader, run[i]) && GrantsLead(Before(p, t, run, j).leader, run[j])
    requires run[i].op.f.node != run[j].op.f.node
    ensures run[i].now + ttl * NANOS_PER_SECOND < run[j].now
  {
    TermLasts(p, t, run, ttl, i, j);
  }

  /** A node is made leader exactly when nobody leads, it leads already, or the
      leader's term has ended; it then leads until its ttl has passed, and
      otherwise the leader stays. */
  lemma LeadIsGrantedExactlyWhen(p: Policy, t: Tables, e: Event)
    requires AsksToLead(e)
    ensures GrantsLead(t.leader, e)
      <==> t.leader == None || t.leader.value.node == e.op.f.node || t.leader.value.expiresAt < e.now
    ensures Apply(p, t, e) ==
      if GrantsLead(t.leader, e) then t.(leader := Some(Leader(e.op.f.node, e.now + e.op.f.ttlSeconds * NANOS_PER_SECOND))) else t
  {
  }

  // Repair leases: one repairer at a time

  /** The lease that a granted event asked for. */
  function LeaseOf(r: ReplicationOp): RepairLease
    requires r.OpAcquireLease?
  {
    RepairLease(r.host, r.session, r.token, r.expiresAt)
  }

  /** The holder of `lease` releases it, or renews it to an earlier end. */
  predicate GivesUp(e: Event, a: Uuid, lease: RepairLease) {
    e.op.OnReplication? &&
    match e.op.r
    case OpReleaseLease(a', host, session, token) => a' == a && RepairLease(host, session, token, lease.expiresAt) == lease
    case OpRenewLease(a', host, session, token, expiresAt) =>
      a' == a && RepairLease(host, session, token, lease.expiresAt) == lease && expiresAt < lease.expiresAt
    case _ => false
  }

  /** `lease` still stands, perhaps renewed to a later end. */
  predicate Stands(g: Graph, a: Uuid, lease: RepairLease) {
    a in g.leases && g.leases[a].(expiresAt := lease.expiresAt) == lease && g.leases[a].expiresAt >= lease.expiresAt
  }

  lemma ReplicationStepLeavesLease(p: Policy, t: Tables, now: Time, op: ReplicationOp, a: Uuid, lease: RepairLease)
    requires Stands(t.graph, a, lease) && now <= lease.expiresAt && !GivesUp(Event(now, OnReplication(op)), a, lease)
    ensures Stands(ApplyReplication(p, t, now, op), a, lease)
  {
    match op
    case OpUpsertReplica(rec) =>
      if StoreReplica(t.graph, rec).Success? { assert StoreReplica(t.graph, rec).value.leases == t.graph.leases; }
    case _ =>
  }

  /** Before its end a lease falls only with its artifact or by its own holder. */
  lemma StepLeavesLease(p: Policy, t: Tables, e: Event, a: Uuid, lease: RepairLease)
    requires Stands(t.graph, a, lease) && e.now <= lease.expiresAt && !GivesUp(e, a, lease)
    requires a in Apply(p, t, e).graph.artifacts
    ensures Stands(Apply(p, t, e).graph, a, lease)
  {
    match e.op
    case OnArtifacts(OpInsertArtifact(art)) => InsertKeepsLeases(p, t.hosts, t.graph, e.now, art);
    case OnArtifacts(op) => ArtifactStepKeeps(p, t, e.now, op);
    case OnVms(op) => VmStepKeeps(t, e.now, op);
    case OnReplication(op) => ReplicationStepLeavesLease(p, t, e.now, op, a, lease);
    case _ =>
  }

  /** Event `k` does not give the lease up, and leaves its artifact. */
  predicate Spares(p: Policy, t: Tables, run: seq<Event>, k: nat, a: Uuid, lease: RepairLease)
    requires k < |run|
  {
    !GivesUp(run[k], a, lease) && a in Before(p, t, run, k + 1).graph.artifacts
  }

  /** So do all events between `i` and `j`. */
  ghost predicate Unbroken(p: Policy, t: Tables, run: seq<Event>, i: nat, j: nat, a: Uuid, lease: RepairLease)
    requires j <= |run|
  {
    forall k | i < k < j :: Spares(p, t, run, k, a, lease)
  }

  lemma GrantStands(p: Policy, t: Tables, e: Event, a: Uuid)
    requires IsGranted(p, t, e, a)
    ensures Stands(Apply(p, t, e).graph, a, LeaseOf(e.op.r)) && a in Apply(p, t, e).graph.artifacts
  {
  }

  lemma GrantStandsAfter(p: Policy, t: Tables, run: seq<Event>, a: Uuid, i: nat)
    requires i < |run| && IsGranted(p, Before(p, t, run, i), run[i], a)
    ensures Stands(Before(p, t, run, i + 1).graph, a, LeaseOf(run[i].op.r))
  {
    OneMore(p, t, run, i);
    GrantStands(p, Before(p, t, run, i), run[i], a);
  }

  lemma SparedStands(p: Policy, t: Tables, run: seq<Event>, a: Uuid, k: nat, lease: RepairLease)
    requires k < |run| && Spares(p, t, run, k, a, lease)
    requires Stands(Before(p, t, run, k).graph, a, lease) && run[k].now <= lease.expiresAt
    ensures Stands(Before(p, t, run, k + 1).graph, a, lease)
  {
    OneMore(p, t, run, k);
    StepLeavesLease(p, Before(p, t, run, k), run[k], a, lease);
  }

  lemma {:induction false} LeaseLasts(p: Policy, t: Tables, run: seq<Event>, a: Uuid, i: nat, k: nat)
    requires Clocked(run) && i < k <= |run| && IsGranted(p, Before(p, t, run, i), run[i], a)
    requires Unbroken(p, t, run, i, k, a, LeaseOf(run[i].op.r))
    ensures Stands(Before(p, t, run, k).graph, a, LeaseOf(run[i].op.r)) || run[k - 1].now > run[i].op.r.expiresAt
    decreases k
  {
    if i == k - 1 {
      GrantStandsAfter(p, t, run, a, i);
    } else {
      var lease := LeaseOf(run[i].op.r);
      LeaseLasts(p, t, run, a, i, k - 1);
      assert Spares(p, t, run, k - 1, a, lease);
      if run[k - 1].now <= lease.expiresAt { SparedStands(p, t, run, a, k - 1, lease); }
    }
  }

  lemma NoGrantOverStanding(p: Policy, t: Tables, e: Event, a: Uuid, lease: RepairLease)
    requires Stands(t.graph, a, lease) && e.now <= lease.expiresAt
    ensures !IsGranted(p, t, e, a)
  {
  }

  /** In any run, of two grants for one artifact the later one comes after the
      earlier lease has ended, unless its holder gave it up or the artifact was
      deleted in between. */
  lemma OneRepairerAtATime(p: Policy, t: Tables, run: seq<Event>, a: Uuid, i: nat, j: nat)
    requires Clocked(run) && i < j < |run|
    requires IsGranted(p, Before(p, t, run, i), run[i], a) && IsGranted(p, Before(p, t, run, j), run[j], a)
    requires Unbroken(p, t, run, i, j, a, LeaseOf(run[i].op.r))
    ensures run[i].op.r.expiresAt < run[j].now
  {
    LeaseLasts(p, t, run, a, i, j);
    if run[j].now <= run[i].op.r.expiresAt { NoGrantOverStanding(p, Before(p, t, run, j), run[j], a, LeaseOf(run[i].op.r)); }
  }

  /** A repair lease is granted exactly when the host is current, the artifact is
      available but degraded, a copy there would be of use, and no lease stands.
      The grant writes that lease and nothing else; a refusal writes nothing. */
  lemma LeaseIsGrantedExactlyWhen(p: Policy, t: Tables, e: Event, up: set<HostId>)
    requires e.op.OnReplication? && e.op.r.OpAcquireLease? && FreshAre(t.hosts, e.now, up)
    ensures var r, g := e.op.r, t.graph;
      IsGranted(p, t, e, r.artifact) <==>
        && r.host in t.hosts && t.hosts[r.host].healthy && t.hosts[r.host].bootSession == Some(r.session)
        && t.hosts[r.host].lastHeartbeat >= e.now - 15 * NANOS_PER_SECOND
        && r.artifact in g.artifacts && g.artifacts[r.artifact].status == Available && g.artifacts[r.artifact].replication == Degraded
        && Useful(p, g, r.artifact, up, Grant(r.host, r.domain))
        && (r.artifact in g.leases ==> g.leases[r.artifact].expiresAt < e.now)
    ensures Apply(p, t, e) ==
      if IsGranted(p, t, e, e.op.r.artifact) then t.(graph := t.graph.(leases := t.graph.leases[e.op.r.artifact := LeaseOf(e.op.r)])) else t
  {
    var r, g := e.op.r, t.graph;
    LiveAreCopies(t.hosts, g, r.artifact, None, e.now, up);
    var copies := CopiesOn(g, r.artifact, up);
    assert SameDomain(g, copies, r.domain) != {} <==> r.domain in Domains(g, copies) by {
      if r.domain in Domains(g, copies) {
        var k :| k in copies && k in g.replicas && g.replicas[k].failureDomain == r.domain;
        assert k in SameDomain(g, copies, r.domain);
      }
      if SameDomain(g, copies, r.domain) != {} {
        var k :| k in SameDomain(g, copies, r.domain);
        assert g.replicas[k].failureDomain in Domains(g, copies);
      }
    }
  }

  /** Renewal moves the end of the lease, and release drops it, exactly for the
      host, session and token that hold it; for others neither changes anything. */
  lemma OnlyHoldersRenewOrRelease(g: Graph, a: Uuid, host: HostId, session: Uuid, token: Uuid, expiresAt: Time)
    ensures var holds := a in g.leases && g.leases[a] == RepairLease(host, session, token, g.leases[a].expiresAt);
      && RenewRepairLease(g, a, host, session, token, expiresAt)
         == Success((if holds then g.(leases := g.leases[a := RepairLease(host, session, token, expiresAt)]) else g, holds))
      && ReleaseRepairLease(g, a, host, session, token) == Success((if holds then g.(leases := g.leases - {a}) else g, ()))
  {
  }

  /** Leases are of artifacts that are there. */
  ghost predicate LeasesAnchored(g: Graph) {
    forall a | a in g.leases :: a in g.artifacts
  }

  lemma InsertAnchorsLeases(p: Policy, hosts: map<HostId, Host>, g: Graph, now: Time, art: ArtifactRecord)
    requires LeasesAnchored(g)
    ensures LeasesAnchored(After(g, InsertArtifact(p, hosts, g, now, art)))
  {
    InsertKeepsLeases(p, hosts, g, now, art);
    InsertArtifactGrows(p, hosts, g, now, art);
  }

  lemma ReplicationStepAnchorsLeases(p: Policy, t: Tables, now: Time, op: ReplicationOp)
    requires LeasesAnchored(t.graph)
    ensures LeasesAnchored(ApplyReplication(p, t, now, op))
  {
    match op
    case OpUpsertReplica(rec) =>
      if UpsertArtifactReplica(p, t.hosts, t.graph, now, rec).Success? { UpsertShape(p, t.hosts, t.graph, now, rec); }
    case _ =>
  }

  /** A deleted artifact takes its lease along. */
  lemma StepAnchorsLeases(p: Policy, t: Tables, e: Event)
    requires LeasesAnchored(t.graph)
    ensures LeasesAnchored(Apply(p, t, e).graph)
  {
    match e.op
    case OnArtifacts(OpInsertArtifact(art)) => InsertAnchorsLeases(p, t.hosts, t.graph, e.now, art);
    case OnArtifacts(op) => ArtifactStepKeeps(p, t, e.now, op);
    case OnVms(op) => VmStepKeeps(t, e.now, op);
    case OnReplication(op) => ReplicationStepAnchorsLeases(p, t, e.now, op);
    case _ =>
  }

  // Repair tokens

  /** The token does not hold the artifact's lease. */
  predicate Superseded(g: Graph, a: Uuid, token: Uuid) {
    a in g.leases ==> g.leases[a].token != token
  }

  predicate Issues(e: Event, a: Uuid, token: Uuid) {
    e.op.OnReplication? && e.op.r.OpAcquireLease? && e.op.r.artifact == a && e.op.r.token == token
  }

  lemma InsertKeepsLeases(p: Policy, hosts: map<HostId, Host>, g: Graph, now: Time, art: ArtifactRecord)
    ensures After(g, InsertArtifact(p, hosts, g, now, art)).leases == g.leases
  {
    if art.spec.parent.Some? { AcquireKeeps(g, art.spec.ownerKey, art.spec.parent.value, true); }
  }

  lemma ReplicationStepKeepsSuperseded(p: Policy, t: Tables, now: Time, op: ReplicationOp, a: Uuid, token: Uuid)
    requires Superseded(t.graph, a, token) && !Issues(Event(now, OnReplication(op)), a, token)
    ensures Superseded(ApplyReplication(p, t, now, op), a, token)
  {
    match op
    case OpUpsertReplica(rec) =>
      if StoreReplica(t.graph, rec).Success? { assert StoreReplica(t.graph, rec).value.leases == t.graph.leases; }
    case _ =>
  }

  lemma StepKeepsSuperseded(p: Policy, t: Tables, e: Event, a: Uuid, token: Uuid)
    requires Superseded(t.graph, a, token) && !Issues(e, a, token)
    ensures Superseded(Apply(p, t, e).graph, a, token)
  {
    match e.op
    case OnArtifacts(OpInsertArtifact(art)) => InsertKeepsLeases(p, t.hosts, t.graph, e.now, art);
    case OnArtifacts(op) => ArtifactStepKeeps(p, t, e.now, op);
    case OnVms(op) => VmStepKeeps(t, e.now, op);
    case OnReplication(op) => ReplicationStepKeepsSuperseded(p, t, e.now, op, a, token);
    case _ =>
  }

  /** A token that lost the lease is dead: while nobody issues it again, it
      renews and releases nothing, after any run. */
  lemma {:induction false} SupersededForever(p: Policy, t: Tables, run: seq<Event>, a: Uuid, token: Uuid)
    requires Superseded(t.graph, a, token) && (forall e | e in run :: !Issues(e, a, token))
    ensures var g := Replay(p, t, run).graph;
      && Superseded(g, a, token)
      && (forall host, session, expiresAt :: RenewRepairLease(g, a, host, session, token, expiresAt) == Success((g, false)))
      && (forall host, session :: ReleaseRepairLease(g, a, host, session, token) == Success((g, ())))
    decreases |run|
  {
    if run != [] {
      StepKeepsSuperseded(p, t, run[0], a, token);
      SupersededForever(p, Apply(p, t, run[0]), run[1..], a, token);
    }
  }

  /** Once a lease has passed to a new token, the host that held it before can
      neither renew nor release it, however long it was away. */
  lemma ReplacedTokenIsDead(p: Policy, t: Tables, run: seq<Event>, a: Uuid)
    requires a in t.graph.leases && run != [] && a in Apply(p, t, run[0]).graph.leases
    requires var token := t.graph.leases[a].token;
      Apply(p, t, run[0]).graph.leases[a].token != token && forall e | e in run[1..] :: !Issues(e, a, token)
    ensures var g, prior := Replay(p, t, run).graph, t.graph.leases[a];
      && (forall expiresAt :: RenewRepairLease(g, a, prior.hostId, prior.bootSession, prior.token, expiresAt) == Success((g, false)))
      && ReleaseRepairLease(g, a, prior.hostId, prior.bootSession, prior.token) == Success((g, ()))
  {
    SupersededForever(p, Apply(p, t, run[0]), run[1..], a, t.graph.leases[a].token);
  }
}
