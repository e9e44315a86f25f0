/** The progress that repairs make: every leased copy brings an artifact closer
    to its replication minima. */
module FleetRepairs {
  import opened Results
  import opened FleetTables
  import opened ArtifactStore
  import opened ReplicationStore
  import opened FleetRuns
  import opened FleetCascades
  import opened FleetReplication

  // What is missing

  /** The verified copies of `a` on a set of hosts. */
  function CopiesOn(g: Graph, a: Uuid, up: set<HostId>): set<ReplicaKey> {
    set k | k in g.replicas && k.artifact == a && g.replicas[k].status == Available && g.replicas[k].verifiedAt.Some? && k.host in up
  }

  function Short(wanted: nat, have: nat): nat {
    if have >= wanted then 0 else wanted - have
  }

  /** Copies and failure domains still missing, while exactly the hosts `up` are fresh. */
  function Deficit(p: Policy, g: Graph, a: Uuid, up: set<HostId>): nat {
    Short(p.minReplicas, |CopiesOn(g, a, up)|) + Short(p.minDomains, |Domains(g, CopiesOn(g, a, up))|)
  }

  ghost predicate FreshAre(hosts: map<HostId, Host>, now: Time, up: set<HostId>) {
    forall h :: Fresh(hosts, h, Cutoff(now)) <==> h in up
  }

  lemma LiveAreCopies(hosts: map<HostId, Host>, g: Graph, a: Uuid, owner: Option<OwnerKey>, now: Time, up: set<HostId>)
    requires FreshAre(hosts, now, up)
    requires owner.Some? ==> ReplicasAnchored(g) && Owned(g, a, owner.value)
    ensures LiveReplicas(hosts, g, a, owner, Cutoff(now)) == CopiesOn(g, a, up)
  {
  }

  lemma SameReplicasSameDeficit(p: Policy, g: Graph, g': Graph, a: Uuid, up: set<HostId>)
    requires SameReplicas(g, g', a)
    ensures CopiesOn(g', a, up) == CopiesOn(g, a, up)
    ensures Domains(g', CopiesOn(g', a, up)) == Domains(g, CopiesOn(g, a, up))
    ensures Deficit(p, g', a, up) == Deficit(p, g, a, up)
  {
    assert CopiesOn(g', a, up) == CopiesOn(g, a, up);
    assert Domains(g', CopiesOn(g', a, up)) == Domains(g, CopiesOn(g, a, up));
  }

  lemma NothingMissing(p: Policy, g: Graph, a: Uuid, up: set<HostId>)
    requires CopiesOn(g, a, up) != {}
    ensures StateOf(p, g, CopiesOn(g, a, up)) == Ready <==> Deficit(p, g, a, up) == 0
  {
  }

  /** The state that a set of copies amounts to, told by what is missing. */
  function StateFor(p: Policy, g: Graph, a: Uuid, up: set<HostId>): ReplicationState {
    if CopiesOn(g, a, up) == {} then Pending else if Deficit(p, g, a, up) == 0 then Ready else Degraded
  }

  lemma StateTellsDeficit(p: Policy, g: Graph, a: Uuid, up: set<HostId>)
    ensures StateOf(p, g, CopiesOn(g, a, up)) == StateFor(p, g, a, up)
  {
    if CopiesOn(g, a, up) != {} { NothingMissing(p, g, a, up); }
  }

  /** After a refresh an available artifact is cached as pending, degraded or ready
      by the copies on fresh hosts it lacks, and any other as pending. */
  lemma RefreshTellsDeficit(p: Policy, t: Tables, e: Event, a: Uuid, now: Time, up: set<HostId>)
    requires ReplicasAnchored(t.graph) && a in t.graph.artifacts && FreshAre(t.hosts, now, up)
    requires e.op == OnReplication(OpRefresh(Cutoff(now)))
    ensures var g' := Apply(p, t, e).graph;
      a in g'.artifacts && g'.artifacts[a].replication == if t.graph.artifacts[a].status == Available then StateFor(p, t.graph, a, up) else Pending
  {
    LiveAreCopies(t.hosts, t.graph, a, Some(t.graph.artifacts[a].spec.ownerKey), now, up);
    StateTellsDeficit(p, t.graph, a, up);
  }

  // Grants

  /** The host and failure domain a lease was granted for. */
  datatype Grant = Grant(host: HostId, domain: string)

  /** A copy on that host, in that domain, would be of use. */
  predicate Useful(p: Policy, g: Graph, a: Uuid, up: set<HostId>, grant: Grant) {
    var copies := CopiesOn(g, a, up); var domains := Domains(g, copies);
    && grant.host in up && ReplicaKey(a, grant.host) !in copies
    && !Meets(p, |copies|, |domains|)
    && (grant.domain in domains ==> |domains| >= p.minDomains)
  }

  /** What the grant of a lease says about the copies there are. */
  lemma GrantMeansShort(p: Policy, hosts: map<HostId, Host>, g: Graph, now: Time, a: Uuid, host: HostId, session: Uuid, domain: string,
                        token: Uuid, expiresAt: Time, up: set<HostId>)
    requires FreshAre(hosts, now, up)
    requires TryAcquireRepairLease(p, hosts, g, now, a, host, session, domain, token, expiresAt).value.1 == Some(token)
    ensures Useful(p, g, a, up, Grant(host, domain))
  {
    LiveAreCopies(hosts, g, a, None, now, up);
    var copies := CopiesOn(g, a, up);
    if domain in Domains(g, copies) {
      var k :| k in copies && k in g.replicas && g.replicas[k].failureDomain == domain;
      assert k in SameDomain(g, copies, domain);
    }
  }

  lemma StaysUseful(p: Policy, g: Graph, g': Graph, a: Uuid, up: set<HostId>, grant: Grant)
    requires SameReplicas(g, g', a) && Useful(p, g, a, up, grant)
    ensures Useful(p, g', a, up, grant)
  {
    SameReplicasSameDeficit(p, g, g', a, up);
  }

  // Fulfilment

  /** A verified copy stored on a host that is up joins the others, and so does
      its domain. */
  lemma StoredCopy(g: Graph, g': Graph, a: Uuid, host: HostId, row: Replica, up: set<HostId>)
    requires g'.replicas == g.replicas[ReplicaKey(a, host) := row] && Verified(row) && host in up
    requires ReplicaKey(a, host) !in CopiesOn(g, a, up)
    ensures CopiesOn(g', a, up) == CopiesOn(g, a, up) + {ReplicaKey(a, host)}
    ensures Domains(g', CopiesOn(g', a, up)) == Domains(g, CopiesOn(g, a, up)) + {row.failureDomain}
  {
    var copies, key := CopiesOn(g, a, up), ReplicaKey(a, host);
    assert CopiesOn(g', a, up) == copies + {key};
    assert Domains(g', copies + {key}) == Domains(g, copies) + {row.failureDomain} by {
      assert forall k | k in copies :: g'.replicas[k] == g.replicas[k];
      assert g'.replicas[key].failureDomain in Domains(g', copies + {key});
      forall d | d in Domains(g, copies) ensures d in Domains(g', copies + {key}) {
        var k :| k in copies && k in g.replicas && g.replicas[k].failureDomain == d;
        assert g'.replicas[k].failureDomain == d;
      }
    }
  }

  lemma MoreCopiesLessDeficit<K, D>(p: Policy, copies: set<K>, domains: set<D>, k: K, d: D)
    requires k !in copies && !Meets(p, |copies|, |domains|) && (d in domains ==> |domains| >= p.minDomains)
    ensures Short(p.minReplicas, |copies + {k}|) + Short(p.minDomains, |domains + {d}|)
            < Short(p.minReplicas, |copies|) + Short(p.minDomains, |domains|)
  {
    assert d in domains ==> domains + {d} == domains;
  }

  /** The verified copy that a useful grant asked for. */
  predicate Fulfils(p: Policy, g: Graph, up: set<HostId>, rec: ReplicaRecord) {
    Verified(rec.row) && Useful(p, g, rec.artifact, up, Grant(rec.hostId, rec.row.failureDomain))
  }

  /** Storing it strictly lowers the deficit. */
  lemma RepairLowersDeficit(p: Policy, hosts: map<HostId, Host>, g: Graph, now: Time, rec: ReplicaRecord, up: set<HostId>)
    requires ReplicasAnchored(g) && Fulfils(p, g, up, rec) && UpsertArtifactReplica(p, hosts, g, now, rec).Success?
    ensures var g' := UpsertArtifactReplica(p, hosts, g, now, rec).value.0;
      && Deficit(p, g', rec.artifact, up) < Deficit(p, g, rec.artifact, up)
      && ReplicaKey(rec.artifact, rec.hostId) in CopiesOn(g', rec.artifact, up)
  {
    var a, g' := rec.artifact, UpsertArtifactReplica(p, hosts, g, now, rec).value.0;
    UpsertShape(p, hosts, g, now, rec);
    assert g'.replicas == g.replicas[ReplicaKey(a, rec.hostId) := rec.row];
    StoredCopy(g, g', a, rec.hostId, rec.row, up);
    var copies := CopiesOn(g, a, up);
    MoreCopiesLessDeficit(p, copies, Domains(g, copies), ReplicaKey(a, rec.hostId), rec.row.failureDomain);
  }

  lemma ReportedState(p: Policy, hosts: map<HostId, Host>, g: Graph, now: Time, rec: ReplicaRecord, up: set<HostId>)
    requires FreshAre(hosts, now, up) && ReplicasAnchored(g) && UpsertArtifactReplica(p, hosts, g, now, rec).Success?
    ensures var tx := UpsertArtifactReplica(p, hosts, g, now, rec).value; tx.1 == StateOf(p, tx.0, CopiesOn(tx.0, rec.artifact, up))
  {
    StateIsCounted(p, hosts, g, now, rec);
    var stored, after := StoreReplica(g, rec).value, UpsertArtifactReplica(p, hosts, g, now, rec).value.0;
    assert ReplicasAnchored(stored);
    LiveAreCopies(hosts, stored, rec.artifact, Some(rec.row.ownerKey), now, up);
    SameReplicasSameDeficit(p, stored, after, rec.artifact, up);
  }

  /** A stored copy is answered, and cached, with the state that the copies on fresh
      hosts amount to. */
  lemma UpsertTellsDeficit(p: Policy, t: Tables, e: Event, up: set<HostId>)
    requires ReplicasAnchored(t.graph) && FreshAre(t.hosts, e.now, up) && e.op.OnReplication? && e.op.r.OpUpsertReplica?
    ensures var tx, rec := UpsertArtifactReplica(p, t.hosts, t.graph, e.now, e.op.r.replica), e.op.r.replica; tx.Success? ==>
      && tx.value.1 == StateFor(p, tx.value.0, rec.artifact, up)
      && rec.artifact in tx.value.0.artifacts && tx.value.0.artifacts[rec.artifact].replication == tx.value.1
  {
    var rec := e.op.r.replica;
    if UpsertArtifactReplica(p, t.hosts, t.graph, e.now, rec).Success? {
      ReportedState(p, t.hosts, t.graph, e.now, rec, up);
      UpsertShape(p, t.hosts, t.graph, e.now, rec);
      StateTellsDeficit(p, UpsertArtifactReplica(p, t.hosts, t.graph, e.now, rec).value.0, rec.artifact, up);
    }
  }

  /** And the artifact is reported and cached as ready exactly when nothing is
      missing any more. */
  lemma RepairedIsReady(p: Policy, hosts: map<HostId, Host>, g: Graph, now: Time, rec: ReplicaRecord, up: set<HostId>)
    requires FreshAre(hosts, now, up) && ReplicasAnchored(g) && Fulfils(p, g, up, rec)
    requires UpsertArtifactReplica(p, hosts, g, now, rec).Success?
    ensures var tx := UpsertArtifactReplica(p, hosts, g, now, rec).value;
      && (tx.1 == Ready <==> Deficit(p, tx.0, rec.artifact, up) == 0)
      && rec.artifact in tx.0.artifacts && tx.0.artifacts[rec.artifact].replication == tx.1
  {
    RepairLowersDeficit(p, hosts, g, now, rec, up);
    NothingMissing(p, UpsertArtifactReplica(p, hosts, g, now, rec).value.0, rec.artifact, up);
    ReportedState(p, hosts, g, now, rec, up);
    UpsertShape(p, hosts, g, now, rec);
  }

  // Repairs in a run

  /** The event is granted the repair lease of `a`. */
  predicate IsGranted(p: Policy, t: Tables, e: Event, a: Uuid) {
    e.op.OnReplication? && e.op.r.OpAcquireLease? && e.op.r.artifact == a &&
    var r := e.op.r;
    TryAcquireRepairLease(p, t.hosts, t.graph, e.now, a, r.host, r.session, r.domain, r.token, r.expiresAt).value.1 == Some(r.token)
  }

  /** The event stores a verified copy of `a` that one of `grants` asked for. */
  predicate IsRepair(p: Policy, t: Tables, e: Event, a: Uuid, grants: set<Grant>) {
    e.op.OnReplication? && e.op.r.OpUpsertReplica? &&
    var rec := e.op.r.replica;
    && rec.artifact == a && Verified(rec.row) && Grant(rec.hostId, rec.row.failureDomain) in grants
    && UpsertArtifactReplica(p, t.hosts, t.graph, e.now, rec).Success?
  }

  /** The grants issued since the replicas of `a` last changed. */
  function GrantsAfter(p: Policy, t: Tables, e: Event, a: Uuid, grants: set<Grant>): set<Grant> {
    if IsRepair(p, t, e, a, grants) then {}
    else if IsGranted(p, t, e, a) then grants + {Grant(e.op.r.host, e.op.r.domain)}
    else grants
  }

  /** A run in which exactly the hosts `up` are fresh all along and only repairs
      change the replicas of `a`. */
  ghost predicate RepairRun(p: Policy, t: Tables, run: seq<Event>, a: Uuid, up: set<HostId>, grants: set<Grant>)
    decreases |run|
  {
    run != [] ==>
      && FreshAre(t.hosts, run[0].now, up)
      && (IsRepair(p, t, run[0], a, grants) || SameReplicas(t.graph, Apply(p, t, run[0]).graph, a))
      && RepairRun(p, Apply(p, t, run[0]), run[1..], a, up, GrantsAfter(p, t, run[0], a, grants))
  }

  ghost function Repairs(p: Policy, t: Tables, run: seq<Event>, a: Uuid, grants: set<Grant>): nat
    decreases |run|
  {
    if run == [] then 0
    else (if IsRepair(p, t, run[0], a, grants) then 1 else 0)
         + Repairs(p, Apply(p, t, run[0]), run[1..], a, GrantsAfter(p, t, run[0], a, grants))
  }

  /** Every repair of the run caches `a` as ready exactly when nothing is missing. */
  ghost predicate ReadyWhenComplete(p: Policy, t: Tables, run: seq<Event>, a: Uuid, up: set<HostId>, grants: set<Grant>)
    decreases |run|
  {
    run != [] ==>
      var next := Apply(p, t, run[0]);
      && (IsRepair(p, t, run[0], a, grants) ==>
            && a in next.graph.artifacts
            && (next.graph.artifacts[a].replication == Ready <==> Deficit(p, next.graph, a, up) == 0))
      && ReadyWhenComplete(p, next, run[1..], a, up, GrantsAfter(p, t, run[0], a, grants))
  }

  ghost predicate AllUseful(p: Policy, g: Graph, a: Uuid, up: set<HostId>, grants: set<Grant>) {
    forall grant | grant in grants :: Useful(p, g, a, up, grant)
  }

  lemma RepairStep(p: Policy, t: Tables, e: Event, a: Uuid, up: set<HostId>, grants: set<Grant>)
    requires ReplicasAnchored(t.graph) && FreshAre(t.hosts, e.now, up) && AllUseful(p, t.graph, a, up, grants)
    requires IsRepair(p, t, e, a, grants)
    ensures var g' := Apply(p, t, e).graph;
      && Deficit(p, g', a, up) < Deficit(p, t.graph, a, up) && a in g'.artifacts
      && (g'.artifacts[a].replication == Ready <==> Deficit(p, g', a, up) == 0)
  {
    var rec := e.op.r.replica;
    assert Apply(p, t, e).graph == UpsertArtifactReplica(p, t.hosts, t.graph, e.now, rec).value.0;
    RepairLowersDeficit(p, t.hosts, t.graph, e.now, rec, up);
    RepairedIsReady(p, t.hosts, t.graph, e.now, rec, up);
  }

  lemma OtherStep(p: Policy, t: Tables, e: Event, a: Uuid, up: set<HostId>, grants: set<Grant>)
    requires FreshAre(t.hosts, e.now, up) && AllUseful(p, t.graph, a, up, grants)
    requires !IsRepair(p, t, e, a, grants) && SameReplicas(t.graph, Apply(p, t, e).graph, a)
    ensures Deficit(p, Apply(p, t, e).graph, a, up) == Deficit(p, t.graph, a, up)
    ensures AllUseful(p, Apply(p, t, e).graph, a, up, GrantsAfter(p, t, e, a, grants))
  {
    var g' := Apply(p, t, e).graph;
    SameReplicasSameDeficit(p, t.graph, g', a, up);
    if IsGranted(p, t, e, a) {
      GrantMeansShort(p, t.hosts, t.graph, e.now, a, e.op.r.host, e.op.r.session, e.op.r.domain, e.op.r.token, e.op.r.expiresAt, up);
    }
    forall grant | grant in GrantsAfter(p, t, e, a, grants) ensures Useful(p, g', a, up, grant) {
      StaysUseful(p, t.graph, g', a, up, grant);
    }
  }

  lemma StepStaysUseful(p: Policy, t: Tables, e: Event, a: Uuid, up: set<HostId>, grants: set<Grant>)
    requires ReplicasAnchored(t.graph) && FreshAre(t.hosts, e.now, up) && AllUseful(p, t.graph, a, up, grants)
    requires IsRepair(p, t, e, a, grants) || SameReplicas(t.graph, Apply(p, t, e).graph, a)
    ensures ReplicasAnchored(Apply(p, t, e).graph) && AllUseful(p, Apply(p, t, e).graph, a, up, GrantsAfter(p, t, e, a, grants))
  {
    StepStaysAnchored(p, t, e);
    if !IsRepair(p, t, e, a, grants) { OtherStep(p, t, e, a, up, grants); }
  }

  lemma {:induction false} RepairsLowerDeficit(p: Policy, t: Tables, run: seq<Event>, a: Uuid, up: set<HostId>, grants: set<Grant>)
    requires ReplicasAnchored(t.graph) && AllUseful(p, t.graph, a, up, grants) && RepairRun(p, t, run, a, up, grants)
    ensures Repairs(p, t, run, a, grants) + Deficit(p, Replay(p, t, run).graph, a, up) <= Deficit(p, t.graph, a, up)
    ensures ReadyWhenComplete(p, t, run, a, up, grants)
    decreases |run|
  {
    if run != [] {
      var e := run[0];
      StepStaysUseful(p, t, e, a, up, grants);
      if IsRepair(p, t, e, a, grants) {
        RepairStep(p, t, e, a, up, grants);
      } else {
        OtherStep(p, t, e, a, up, grants);
      }
      RepairsLowerDeficit(p, Apply(p, t, e), run[1..], a, up, GrantsAfter(p, t, e, a, grants));
    }
  }

  /** From any reachable state: while the same hosts stay fresh and only repairs
      touch the replicas of an artifact, it takes at most its deficit of repairs,
      and each repair leaves it ready exactly when nothing is missing. */
  lemma RepairsFinish(p: Policy, before: seq<Event>, run: seq<Event>, a: Uuid, up: set<HostId>)
    requires RepairRun(p, Replay(p, EMPTY, before), run, a, up, {})
    ensures var t := Replay(p, EMPTY, before);
      && Repairs(p, t, run, a, {}) + Deficit(p, Replay(p, t, run).graph, a, up) <= Deficit(p, t.graph, a, up)
      && ReadyWhenComplete(p, t, run, a, up, {})
  {
    RunStaysAnchored(p, EMPTY, before);
    RepairsLowerDeficit(p, Replay(p, EMPTY, before), run, a, up, {});
  }

  lemma {:induction false} LastRepairMakesReady(p: Policy, t: Tables, run: seq<Event>, e: Event, a: Uuid, up: set<HostId>, grants: set<Grant>)
    requires ReplicasAnchored(t.graph) && AllUseful(p, t.graph, a, up, grants) && RepairRun(p, t, run + [e], a, up, grants)
    requires Repairs(p, t, run + [e], a, grants) == Repairs(p, t, run, a, grants) + 1
    requires Deficit(p, Replay(p, t, run + [e]).graph, a, up) == 0
    ensures var g := Replay(p, t, run + [e]).graph; a in g.artifacts && g.artifacts[a].replication == Ready
    decreases |run|
  {
    var all := run + [e];
    if run == [] {
      assert all[0] == e && all[1..] == [];
      assert Replay(p, Apply(p, t, e), []) == Apply(p, t, e);
      RepairStep(p, t, e, a, up, grants);
    } else {
      assert all[0] == run[0] && all[1..] == run[1..] + [e];
      StepStaysUseful(p, t, run[0], a, up, grants);
      LastRepairMakesReady(p, Apply(p, t, run[0]), run[1..], e, a, up, GrantsAfter(p, t, run[0], a, grants));
    }
  }

  /** So after as many repairs as its deficit the artifact is ready. */
  lemma EnoughRepairsMakeReady(p: Policy, before: seq<Event>, run: seq<Event>, last: Event, a: Uuid, up: set<HostId>)
    requires var t := Replay(p, EMPTY, before);
      && RepairRun(p, t, run + [last], a, up, {})
      && Repairs(p, t, run + [last], a, {}) == Repairs(p, t, run, a, {}) + 1 == Deficit(p, t.graph, a, up)
    ensures var g := Replay(p, Replay(p, EMPTY, before), run + [last]).graph; a in g.artifacts && g.artifacts[a].replication == Ready
  {
    RunStaysAnchored(p, EMPTY, before);
    RepairsFinish(p, before, run + [last], a, up);
    LastRepairMakesReady(p, Replay(p, EMPTY, before), run, last, a, up, {});
  }
}
