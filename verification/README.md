# Tarit: a verified model

This project models, in Dafny 4.11, the parts of Tarit where correctness
depends on many operations working together, and proves what those parts
promise. It has five subjects.

**The fleet control plane** (`orch/crates/tarit-fleet/src/lib.rs`).
`PostgresFleet` keeps the state of all nodes in PostgreSQL. Each public method
is one transaction over shared tables: hosts, VMs, artifacts, replicas, repair
leases, branches, hibernations, VM artifact references, volumes, attachments,
fork operations, quota reservations and the leader row.

- `FleetTables.dfy` holds the rows and tables. `ArtifactStore.dfy` and
  `FleetStores.dfy` give each transaction as a function from tables to tables,
  where an error is a rollback.
- `PostgresFleet.dfy` is the store as an object: imperative methods that commit
  by assigning `db`. The object keeps a log of its calls, and its tables are
  always where that run of transactions leads.
- `FleetRuns.dfy` defines runs: any sequence of transactions, each with its
  clock time. The theorems about runs are in `FleetGraph.dfy`,
  `FleetGraphRuns.dfy`, `FleetGcSafety.dfy`, `FleetOwnership.dfy`,
  `FleetBranches.dfy`, `FleetVolumes.dfy`, `FleetAdmission.dfy`,
  `FleetReplication.dfy`, `FleetRepairs.dfy` and `FleetLeases.dfy`. When each
  transaction succeeds, and what it leaves, is in `FleetReferences.dfy`,
  `FleetOutcomes.dfy`, `FleetBinding.dfy` and `FleetQuota.dfy`.
- `LockOrder.dfy` looks inside `bind_vm_volumes`, at the row locks that
  concurrent binds take.

**The integrity manifest** (`proto/src/integrity.rs`): `Bytes.dfy` and
`Manifest.dfy`, with `ManifestLayout.dfy`. The codec is proved to be a bijection between accepted byte
strings and manifests.

**The TypeScript PTY client** (`sdk/typescript/src/tarit.ts`): `PtyClient.dfy`
and `PtyDelivery.dfy`.
Queue, waiting reads, timers and the message chain as a state machine, and the
class that performs its steps.

**PTY frames** (`proto/src/pty.rs` and `vmm/guest/agent/vmm-agent.c`):
`PtyFraming.dfy`. Two writers and two readers of one format.

**The guest agent's exec channel** (`vmm/guest/agent/vmm-agent.c`):
`AgentStream.dfy` and `AgentWords.dfy`. A dispatch loop over a stream that mixes
binary requests and text lines, and the splitting of commands into words.

`dafny verify dfyconfig.toml` checks the whole project.

## Reading the fleet theorems

`Graph`, `Storage` and `Admission` are the three groups of tables that
transactions touch together. `Tx` is the outcome of a transaction: the tables to
commit and the answer, or an error. `Replay(p, t, run)` is the state after a
run from `t`. `Holders(g, a)` is the set of rows that refer to artifact `a`:
child artifacts, branch heads, hibernations and VM references. A theorem about
"every run" has no bound on its length and no restriction on its transactions
beyond those its `requires` clauses name.

These promises turned out to hold only under a condition. Each is stated as an
if-and-only-if, with a lemma at an input where it fails:

- `encode` accepts manifests that `decode` refuses: `DecodeOfEncode` names them,
  `SomeManifestsAreWriteOnly` shows one.
- The replication state stored with a new artifact differs from a recount when
  its first host is not fresh: `NewArtifactAgrees`, `FirstHostMayBeStale`.
- The state stored by a replica upsert differs from a recount when the artifact
  is not available and a live copy is counted: `UpsertedReplicaAgrees`,
  `StagingArtifactMayLookReplicated`.
- A publication that activates a VM without a live reservation goes past the
  tenant's limit: `PublicationUsage`, `UnbackedPublicationExceedsLimit`.
- A volume that is deleted and created again under its id answers to an old
  deletion claim: `ClaimedDeletionIsSafe`, `RecreatedVolumeFoolsClaim`.
- A text line of fewer than three bytes makes the agent lose bytes behind it:
  `WhereALineEnds`, `ShortLineLosesRequest`.
- The host sends exec requests that the agent refuses: `RequestIsRun`,
  `OverlongRequestStops`.
- A command is cut at its first NUL byte: `RunWhole`, `CommandIsCutAtNul`.

## Model

| member | source | states |
|---|---|---|
| `PostgresFleet.PostgresFleet.InsertArtifact` | orch/crates/tarit-fleet/src/lib.rs:864-989 | publishing an artifact is one transaction of the log with the source's answer; after success the artifact is there with its content; any parent it newly refers to was the tenant's, available and ready |
| `PostgresFleet.PostgresFleet.DeleteArtifactIfUnreferenced` | orch/crates/tarit-fleet/src/lib.rs:1601-1650 | deletes one unreferenced artifact and hands its reference back; never fails for a missing reference or a RESTRICT check |
| `PostgresFleet.PostgresFleet.InsertBranch` | orch/crates/tarit-fleet/src/lib.rs:1362-1447 | after success the answer is the stored branch; any head newly referred to was the tenant's, available and ready |
| `PostgresFleet.PostgresFleet.UpdateBranchHead` | orch/crates/tarit-fleet/src/lib.rs:1480-1560 | compare-and-swap of a head, one transaction of the log; a new head was the tenant's, available and ready; never fails for a missing reference |
| `PostgresFleet.PostgresFleet.DeleteBranch` | orch/crates/tarit-fleet/src/lib.rs:1562-1599 | after success the row is gone and every other branch, hibernation and reference stands; never fails for a missing reference or a RESTRICT check, and leaves no artifact newly at zero |
| `PostgresFleet.PostgresFleet.UpsertHibernation` | orch/crates/tarit-fleet/src/lib.rs:604-700 | binds or rebinds a hibernation; an artifact newly bound was the tenant's, available, ready and made from that VM; never fails for a missing reference |
| `PostgresFleet.PostgresFleet.DeleteHibernation` | orch/crates/tarit-fleet/src/lib.rs:766-795 | after success exactly that binding is gone; never fails for a missing reference or a RESTRICT check, and leaves no artifact newly at zero |
| `PostgresFleet.PostgresFleet.AcquireVmArtifactRef` | orch/crates/tarit-fleet/src/lib.rs:800-851 | one reference per VM incarnation, idempotent; an artifact newly referred to was the tenant's and available |
| `PostgresFleet.PostgresFleet.ReleaseVmArtifactRefTx` | orch/crates/tarit-fleet/src/lib.rs:3380-3423 | equals the specification of releasing a VM's reference and collecting |
| `PostgresFleet.PostgresFleet.ReleaseVmArtifactRef` | orch/crates/tarit-fleet/src/lib.rs:855-862 | after success exactly that reference is gone; never fails for a missing reference or a RESTRICT check, and leaves no artifact newly at zero |
| `PostgresFleet.PostgresFleet.UpsertVm` | orch/crates/tarit-fleet/src/lib.rs:251-350 | claims an id or advances the same incarnation; after success the row has the answered generation and at least the delivered revision |
| `PostgresFleet.PostgresFleet.ClaimHibernatedVm` | orch/crates/tarit-fleet/src/lib.rs:388-471 | moves a hibernated VM off a stale host under all guards; after success the row is the target's |
| `PostgresFleet.PostgresFleet.DeleteVm` | orch/crates/tarit-fleet/src/lib.rs:1654-1712 | after success the row, its hibernation, its reference and its attachments are gone and all other rows of these tables stand; never fails for a missing reference or a RESTRICT check, and leaves no artifact newly at zero |
| `PostgresFleet.PostgresFleet.InsertVolume` | orch/crates/tarit-fleet/src/lib.rs:1717-1783 | inserts a volume or accepts the same one again; any other collision is refused; keeps `Sound` |
| `PostgresFleet.PostgresFleet.TransitionVolume` | orch/crates/tarit-fleet/src/lib.rs:1815-1853 | compare-and-swap on status and revision; after success the stored volume is the answer, in the new status |
| `PostgresFleet.PostgresFleet.BeginVolumeDelete` | orch/crates/tarit-fleet/src/lib.rs:1857-1911 | claims an unattached volume for deletion at a new revision; keeps `Sound` |
| `PostgresFleet.PostgresFleet.DeleteVolumeMetadata` | orch/crates/tarit-fleet/src/lib.rs:1913-1940 | deletes a claimed volume; after success the row is gone and nothing was attached to it |
| `PostgresFleet.PostgresFleet.BindVmVolumes` | orch/crates/tarit-fleet/src/lib.rs:1944-2063 | binds all requested volumes or none; after success every requested row is there, and always every volume has readers only or one writer |
| `PostgresFleet.PostgresFleet.BindOrdered` | orch/crates/tarit-fleet/src/lib.rs:1978-2060 | the loop over the sorted attachments equals the recursive specification, error by error |
| `PostgresFleet.PostgresFleet.UnbindVmVolumes` | orch/crates/tarit-fleet/src/lib.rs:2126-2136 | exactly that tenant's attachments of the VM are gone |
| `PostgresFleet.PostgresFleet.ReserveVmQuota` | orch/crates/tarit-fleet/src/lib.rs:2141-2220 | after success the id holds that reservation, the tenant's usage is one higher if it lasts, and within the limit |
| `PostgresFleet.PostgresFleet.ReleaseVmQuota` | orch/crates/tarit-fleet/src/lib.rs:2466-2475 | drops the tenant's reservation; keeps `Sound` |
| `PostgresFleet.PostgresFleet.ClaimFork` | orch/crates/tarit-fleet/src/lib.rs:2225-2393 | creates, resumes or reports a fork operation; after a grant the child is a VM or holds that reservation; never takes the tenant's usage above both its old value and the limit |
| `PostgresFleet.PostgresFleet.CommitFork` | orch/crates/tarit-fleet/src/lib.rs:2431-2464 | commits a fork once, with one creation time for its child; keeps `Sound` |
| `PostgresFleet.PostgresFleet.UpsertArtifactReplica` | orch/crates/tarit-fleet/src/lib.rs:1015-1117 | stores one physical copy and recounts; after success the cached state is the answer |
| `PostgresFleet.PostgresFleet.RefreshReplicationHealth` | orch/crates/tarit-fleet/src/lib.rs:1141-1192 | recomputes every cached state and answers how many rows changed; afterwards all agree with the recount |
| `PostgresFleet.PostgresFleet.TryAcquireRepairLease` | orch/crates/tarit-fleet/src/lib.rs:1221-1315 | after a grant the host holds the lease with that token, and no unexpired lease stood before |
| `PostgresFleet.PostgresFleet.RenewRepairLease` | orch/crates/tarit-fleet/src/lib.rs:1317-1341 | extends the lease only for its holder, session and token; keeps `Sound` |
| `PostgresFleet.PostgresFleet.ReleaseRepairLease` | orch/crates/tarit-fleet/src/lib.rs:1343-1360 | drops the lease only for its holder, session and token; keeps `Sound` |
| `PostgresFleet.PostgresFleet.TryAcquireLeader` | orch/crates/tarit-fleet/src/lib.rs:2716-2733 | takes or renews the leader row when it is free, its own or expired; keeps `Sound` |
| `PostgresFleet.PostgresFleet.UpsertHost` | orch/crates/tarit-fleet/src/lib.rs:189-218 | replaces a host's health, session and heartbeat; keeps `Sound` |
| `PostgresFleet.PostgresFleet.constructor` | orch/crates/tarit-fleet/src/lib.rs:96-187 | a new store is empty, with an empty log, and sound |
| `PostgresFleet.PostgresFleet.Promises` | orch/crates/tarit-fleet/src/lib.rs:2872-3151 | after any calls on the object: counts are exact, replicas anchored, the fence holds, no VM is counted twice, and no transaction would be obstructed |
| `PostgresFleet.RunKeepsSound` | orch/crates/tarit-fleet/src/lib.rs:2872-3151 | every run keeps reference counts, anchored replicas, the volume fence, VM rows, single counting and fork rows sound together |
| `ArtifactStore.DeleteUnreferencedArtifactChain` | orch/crates/tarit-fleet/src/lib.rs:3425-3472 | the while loop terminates and equals the recursive walk, on any tables |
| `ArtifactStore.ReferredIffHeld` | orch/crates/tarit-fleet/src/lib.rs:2906-3069 | the four ON DELETE RESTRICT foreign keys fire exactly when some row holds the artifact |
| `FleetGraph.CollectDeletesLongestUnheld` | orch/crates/tarit-fleet/src/lib.rs:3425-3472 | from a consistent state the walk succeeds, deletes exactly the longest run of ancestors that nothing else holds, and changes nothing else but one count of the first survivor |
| `FleetGraph.LongestUnheldIsUnique` | orch/crates/tarit-fleet/src/lib.rs:3425-3472 | there is only one such run, so the previous statement fixes the result |
| `FleetGraph.MoveKeepsCounts` | orch/crates/tarit-fleet/src/lib.rs:604-700 | counts stay exact when one referrer moves and both ends are adjusted |
| `FleetGraphRuns.UpdateBranchHeadKeepsInv` | orch/crates/tarit-fleet/src/lib.rs:1480-1560 | moving a head keeps counts, owners and acyclicity, and never finds a reference missing |
| `FleetGraphRuns.UpsertHibernationKeepsInv` | orch/crates/tarit-fleet/src/lib.rs:604-700 | rebinding a hibernation does the same |
| `FleetGraphRuns.DeleteBranchKeepsInv` | orch/crates/tarit-fleet/src/lib.rs:1562-1599 | deleting a branch keeps the invariant, is never obstructed, and leaves no new zero count behind |
| `FleetGraphRuns.DeleteHibernationKeepsInv` | orch/crates/tarit-fleet/src/lib.rs:766-795 | deleting a hibernation does the same |
| `FleetGraphRuns.ReleaseVmRefIsClean` | orch/crates/tarit-fleet/src/lib.rs:3380-3423 | releasing a VM's reference does the same |
| `FleetGraphRuns.DeleteVmKeepsInv` | orch/crates/tarit-fleet/src/lib.rs:1654-1712 | deleting a VM does the same, and its row cascade drops nothing that is counted |
| `FleetGraphRuns.DeleteArtifactKeepsInv` | orch/crates/tarit-fleet/src/lib.rs:1601-1650 | deleting an artifact keeps the invariant and is never obstructed |
| `FleetGraphRuns.GrownIsAcyclic` | orch/crates/tarit-fleet/src/lib.rs:864-989 | a new artifact under a present parent keeps parent links acyclic |
| `FleetGcSafety.RunKeepsInv` | orch/crates/tarit-fleet/src/lib.rs:2872-3151 | every run keeps exact counts, tenant-anchored referrers and acyclic parents |
| `FleetGcSafety.ReferencesConserved` | orch/crates/tarit-fleet/src/lib.rs:864-989 | in every state reached from the empty database each count equals children plus heads plus hibernations plus VM references |
| `FleetGcSafety.ParentPathsDoNotRepeat` | orch/crates/tarit-fleet/src/lib.rs:864-989 | no path of parent links meets an artifact twice |
| `FleetGcSafety.ReachableIsNeverCollected` | orch/crates/tarit-fleet/src/lib.rs:3425-3472 | over every run, what a surviving referrer reaches by parent links stays in place, with unchanged content and status |
| `FleetGcSafety.NothingIsEverObstructed` | orch/crates/tarit-fleet/src/lib.rs:1562-1712 | after any run no transaction fails for a missing reference or a RESTRICT check |
| `FleetGcSafety.OnlyTheseLeaveArtifactsBehind` | orch/crates/tarit-fleet/src/lib.rs:1562-1712 | no deletion of a branch, hibernation, VM reference or VM leaves an artifact newly at zero; only three named transactions can |
| `FleetReferences.StepTakesRightly` | orch/crates/tarit-fleet/src/lib.rs:604-1560 | whatever the transaction and the tables, a reference newly taken is on an artifact of the same tenant that was available just before, ready unless a running VM takes it, and made from that VM if it is a hibernation's |
| `FleetReferences.EveryReferenceWasRightlyTaken` | orch/crates/tarit-fleet/src/lib.rs:604-1560 | every reference in every reachable state was taken at some event of the run, when its artifact was fit for it, and has stood ever since |
| `FleetReferences.CollectShrinks` | orch/crates/tarit-fleet/src/lib.rs:3425-3471 | the walk changes no row that refers to an artifact |
| `FleetOutcomes.InsertArtifactOutcome` | orch/crates/tarit-fleet/src/lib.rs:864-989 | an artifact is published exactly when its numbers fit, its id and locator are free and its parent is fit to be referred to; which rows that leaves |
| `FleetOutcomes.DeleteArtifactOutcome` | orch/crates/tarit-fleet/src/lib.rs:1601-1650 | in every consistent state an artifact can be deleted exactly when it is the tenant's and no row refers to it |
| `FleetOutcomes.InsertBranchOutcome` | orch/crates/tarit-fleet/src/lib.rs:1362-1447 | a branch is created exactly when id and name are free, its sources are the tenant's and its head is fit to be referred to; what a repeated creation answers |
| `FleetOutcomes.UpdateBranchHeadOutcome` | orch/crates/tarit-fleet/src/lib.rs:1480-1560 | in every consistent state a head moves exactly at the expected revision to the same or a fit artifact, and only that row changes besides counts |
| `FleetOutcomes.DeleteBranchOutcome` | orch/crates/tarit-fleet/src/lib.rs:1562-1599 | in every consistent state a tenant's branch can be deleted, and then only that row is gone; branches made from it forget their source |
| `FleetOutcomes.UpsertHibernationOutcome` | orch/crates/tarit-fleet/src/lib.rs:604-700 | in every consistent state a VM is bound exactly when it exists, the policy is its own and the artifact is bound already or fit and made from it |
| `FleetOutcomes.DeleteHibernationOutcome` | orch/crates/tarit-fleet/src/lib.rs:766-795 | in every consistent state a tenant's binding can be deleted, and then only that row is gone |
| `FleetOutcomes.AcquireVmRefOutcome` | orch/crates/tarit-fleet/src/lib.rs:800-851 | a VM gets its reference exactly when it holds that same one, or none and the artifact is available |
| `FleetOutcomes.ReleaseVmRefOutcome` | orch/crates/tarit-fleet/src/lib.rs:3380-3423 | in every consistent state a VM's reference is given back exactly when it is of that incarnation or there is none |
| `FleetOutcomes.DeleteVmOutcome` | orch/crates/tarit-fleet/src/lib.rs:1654-1712 | in every reachable state a VM is deleted exactly when the stored row and reference, if any, are of that incarnation; then all that hangs on it is gone and nothing else of these tables |
| `FleetOutcomes.StepKeepsHosted` | orch/crates/tarit-fleet/src/lib.rs:3009-3061 | every transaction keeps attachments and hibernations with VMs that are there |
| `FleetBranches.HeadsFollowRevisions` | orch/crates/tarit-fleet/src/lib.rs:1480-1560 | over every run a branch keeps name and owner, its revision never falls, and its head stands while its revision stands |
| `FleetBranches.NoUpdateIsLost` | orch/crates/tarit-fleet/src/lib.rs:1480-1560 | of all head updates that expect one revision at most one succeeds, whatever runs in between |
| `FleetOwnership.StepIsEpoch` | orch/crates/tarit-fleet/src/lib.rs:251-471 | a transaction leaves a VM row alone or raises its revision and its generation by one; the host changes only by a claim whose guards hold |
| `FleetOwnership.GenerationCountsChanges` | orch/crates/tarit-fleet/src/lib.rs:251-350 | over every run without deletion, the generation counts the changes exactly and each raises the revision |
| `FleetOwnership.StrangerIsRefused` | orch/crates/tarit-fleet/src/lib.rs:251-350 | a host that does not own the row can neither update nor delete it |
| `FleetOwnership.OldHostStaysFenced` | orch/crates/tarit-fleet/src/lib.rs:388-471 | after a claim, every upsert and delete from the old host is refused throughout every run, until a claim gives the VM back |
| `FleetOwnership.ClaimMovesRow` | orch/crates/tarit-fleet/src/lib.rs:388-471 | a successful claim leaves the row with the target, whose session is current, and changes nothing else |
| `FleetOwnership.DeliveriesConverge` | orch/crates/tarit-fleet/src/lib.rs:251-350 | upserts of one incarnation in any order, repeated, among any other transactions, all succeed and end at the highest revision |
| `FleetOwnership.OrderDoesNotMatter` | orch/crates/tarit-fleet/src/lib.rs:251-350 | two runs that deliver the same records store the same record |
| `FleetOwnership.RedeliveryIsNoop` | orch/crates/tarit-fleet/src/lib.rs:251-350 | a replayed record changes neither row nor generation |
| `FleetOwnership.PublicationOutcome` | orch/crates/tarit-fleet/src/lib.rs:251-350 | a publication succeeds exactly when the id is free or of the same incarnation without another record at its revision; what a newer and an older one leave, the reservation used up included |
| `FleetOwnership.ClaimOutcome` | orch/crates/tarit-fleet/src/lib.rs:388-471 | a hibernated VM is claimed exactly when it is the tenant's, the target is current and the VM's host is the target or stale; which columns the move changes |
| `FleetOwnership.StoredAlike` | orch/crates/tarit-fleet/src/lib.rs:3358-3363 | two records are stored alike exactly when they differ in nothing but node-local data and nanoseconds |
| `FleetOwnership.NormalizeDropsNanoseconds` | orch/crates/tarit-fleet/src/lib.rs:3372-3378 | a stored time is the microsecond the given one lies in |
| `LockOrder.BindPlansAreOrdered` | orch/crates/tarit-fleet/src/lib.rs:1963-1987 | a bind locks its VM row first and then exactly the requested volumes in ascending order |
| `LockOrder.SomeoneCanProceed` | orch/crates/tarit-fleet/src/lib.rs:1963-2063 | in every lock state with an unfinished bind, one bind can take its next lock or commit |
| `LockOrder.RunsAreBounded` | orch/crates/tarit-fleet/src/lib.rs:1963-2063 | every interleaving of lock steps is finite, with a bound known beforehand |
| `LockOrder.AllCanCommit` | orch/crates/tarit-fleet/src/lib.rs:1963-2063 | from any lock state all binds can commit |
| `LockOrder.BindsNeverDeadlock` | orch/crates/tarit-fleet/src/lib.rs:1963-2063 | any number of concurrent binds: no interleaving is endless and none gets stuck before all have finished |
| `FleetAdmission.NoVmIsCountedTwice` | orch/crates/tarit-fleet/src/lib.rs:2141-2393 | in every run no id is both a tenant's VM and that tenant's reservation |
| `FleetAdmission.PublicationUsage` | orch/crates/tarit-fleet/src/lib.rs:251-350 | a publication raises usage if and only if it activates a VM without a live reservation, and then by one |
| `FleetAdmission.UnbackedPublicationExceedsLimit` | orch/crates/tarit-fleet/src/lib.rs:251-350 | a publication without reservation takes a tenant past its limit |
| `FleetAdmission.QuotaIsNeverExceeded` | orch/crates/tarit-fleet/src/lib.rs:2141-2220 | active VMs plus live reservations stay within the limit after every step of every run whose publications are backed by reservations |
| `FleetAdmission.ForksAreNeverRebound` | orch/crates/tarit-fleet/src/lib.rs:2225-2464 | over every run a fork keeps source, owner and hosts, goes only from preparing to committed, and keeps its child's creation time |
| `FleetAdmission.ForkedIdIsNeverReserved` | orch/crates/tarit-fleet/src/lib.rs:2141-2220 | after any run a forked child id cannot be reserved |
| `FleetAdmission.RepeatedClaim` | orch/crates/tarit-fleet/src/lib.rs:2225-2393 | a repeated claim by the same session is answered in progress if and only if the child's slot is live |
| `FleetAdmission.GrantRecordsSession` | orch/crates/tarit-fleet/src/lib.rs:2225-2393 | a granted claim records the session that starts the next statement |
| `FleetAdmission.OneGrantPerSession` | orch/crates/tarit-fleet/src/lib.rs:2225-2393 | while its slot stays live and no other session claims, every later claim of a session that holds the operation is answered in progress or committed, or refused for naming another operation |
| `FleetAdmission.GrantedAtMostOnce` | orch/crates/tarit-fleet/src/lib.rs:2225-2393 | over a whole run such a session is granted the operation at most once |
| `FleetQuota.ReserveOutcome` | orch/crates/tarit-fleet/src/lib.rs:2141-2220 | a slot is reserved exactly when the id is free and the tenant below its maximum; the id then holds it, every other live reservation stands, and each refusal has its error |
| `FleetQuota.ReservationCountsOnce` | orch/crates/tarit-fleet/src/lib.rs:2192-2217 | a reservation adds one to its tenant's usage and nothing to anybody else's, at every time until it ends |
| `FleetQuota.AtMostWhatIsLeft` | orch/crates/tarit-fleet/src/lib.rs:2141-2220 | of any number of reservations in a row, by any tenants, at most as many of one tenant succeed as its maximum leaves |
| `FleetQuota.ExactlyWhatIsLeft` | orch/crates/tarit-fleet/src/lib.rs:2141-2220 | of reservations in a row for different free ids exactly as many succeed as the maximum leaves |
| `FleetQuota.ReleaseOutcome` | orch/crates/tarit-fleet/src/lib.rs:2466-2475 | exactly the tenant's own reservation of the id is dropped |
| `FleetQuota.ClaimAnswer` | orch/crates/tarit-fleet/src/lib.rs:2225-2393 | each of the four answers to a fork claim is given exactly under its condition on the tables |
| `FleetQuota.GrantedChildHasASlot` | orch/crates/tarit-fleet/src/lib.rs:2225-2393 | after a grant the operation is stored for its session, and the child is a VM already or holds the tenant's reservation until the new end |
| `FleetQuota.UngrantedClaimChangesNothing` | orch/crates/tarit-fleet/src/lib.rs:2225-2393 | a claim answered without a grant changes nothing but expired reservations |
| `FleetQuota.CommitOutcome` | orch/crates/tarit-fleet/src/lib.rs:2431-2464 | a fork is committed exactly for its source and tenant and with one creation time, which is stored |
| `FleetQuota.CommittedForGood` | orch/crates/tarit-fleet/src/lib.rs:2225-2464 | after every run a committed operation is answered as committed, with the same creation time |
| `FleetQuota.LimitIsMaximum` | orch/crates/tarit-fleet/src/lib.rs:2192-2211 | the limit is the given maximum as far as a BIGINT counts |
| `FleetQuota.IdleStatuses` | orch/crates/tarit-fleet/src/lib.rs:2195-2199 | exactly hibernated, stopped and failed VMs need no slot |
| `FleetVolumes.FenceHoldsInEveryRun` | orch/crates/tarit-fleet/src/lib.rs:1944-2063 | in every reachable state a volume without many-writer capability has readers only, or exactly one attachment, which is read-write |
| `FleetVolumes.BindAllEffect` | orch/crates/tarit-fleet/src/lib.rs:1978-2060 | a successful bind leaves exactly the requested rows beside the old ones |
| `FleetVolumes.BindFillsDevices` | orch/crates/tarit-fleet/src/lib.rs:1944-2063 | binding n different volumes to a VM without attachments uses the devices 0 to n-1, each once |
| `FleetVolumes.SortKeepsElements` | orch/crates/tarit-fleet/src/lib.rs:1976-1977 | the sorted attachments are a permutation of the requested ones in volume order |
| `FleetVolumes.RunKeepsInv` | orch/crates/tarit-fleet/src/lib.rs:1714-1783 | every run keeps the fence, distinct devices per VM, rooted attachments and distinct volume names per tenant |
| `FleetVolumes.RevisionsOnlyRise` | orch/crates/tarit-fleet/src/lib.rs:1714-1783 | while a volume exists it is never rebound to another provider resource, and its revision never falls |
| `FleetVolumes.CurrentClaimWasNeverBroken` | orch/crates/tarit-fleet/src/lib.rs:1857-1940 | a deletion claim that is current at the end of a run was current, and the volume unattached, in every state since |
| `FleetVolumes.ClaimedDeletionIsSafe` | orch/crates/tarit-fleet/src/lib.rs:1857-1940 | when a metadata deletion succeeds at the claimed revision, the claimed row stood unattached in every state since the claim if and only if nobody deleted it meanwhile |
| `FleetVolumes.PresentUnlessDeleted` | orch/crates/tarit-fleet/src/lib.rs:1913-1940 | a volume row is there throughout a run exactly when no transaction of the run deletes it |
| `FleetVolumes.RecreatedVolumeFoolsClaim` | orch/crates/tarit-fleet/src/lib.rs:1717-1940 | a run in which a volume is deleted, created again, used, and then deleted under the first claim |
| `FleetBinding.BindOutcome` | orch/crates/tarit-fleet/src/lib.rs:1944-2063 | a request is bound exactly when it has at most fifteen attachments for one VM of the tenant, each acceptable beside what is attached and all going together, in whatever order; then exactly the requested rows are added |
| `FleetBinding.BindAllIff` | orch/crates/tarit-fleet/src/lib.rs:1978-2060 | the loop that binds one by one succeeds exactly on the requests that are compatible as a whole |
| `FleetBinding.UnbindOutcome` | orch/crates/tarit-fleet/src/lib.rs:2126-2136 | exactly the tenant's attachments of that VM go |
| `FleetBinding.InsertVolumeOutcome` | orch/crates/tarit-fleet/src/lib.rs:1717-1783 | with distinct names a volume is created exactly when it is well formed and id and name are free; the same volume again is answered as stored |
| `FleetBinding.TransitionOutcome` | orch/crates/tarit-fleet/src/lib.rs:1815-1853 | a transition succeeds exactly from the expected status and revision and writes the new status and error at the next revision |
| `FleetBinding.BeginDeleteOutcome` | orch/crates/tarit-fleet/src/lib.rs:1857-1911 | a deletion is claimed exactly for an unattached volume at the expected status and revision |
| `FleetBinding.DeleteMetadataOutcome` | orch/crates/tarit-fleet/src/lib.rs:1913-1940 | a claimed row is deleted exactly at the claim's revision while unattached |
| `FleetReplication.RefreshAgrees` | orch/crates/tarit-fleet/src/lib.rs:1141-1192 | after a refresh every cached state equals the recount |
| `FleetReplication.AgreedRefreshIsNoop` | orch/crates/tarit-fleet/src/lib.rs:1141-1192 | a refresh changes no row if and only if every cached state already agrees |
| `FleetReplication.SecondRefreshChangesNothing` | orch/crates/tarit-fleet/src/lib.rs:1141-1192 | a second refresh changes nothing |
| `FleetReplication.NewArtifactAgrees` | orch/crates/tarit-fleet/src/lib.rs:930-948 | the state stored with a new artifact equals the recount exactly when the artifact is not available yet or its first host is fresh |
| `FleetReplication.FirstHostMayBeStale` | orch/crates/tarit-fleet/src/lib.rs:930-948 | an available artifact on an unknown host is cached as degraded and recounted as pending |
| `FleetReplication.UpsertedReplicaAgrees` | orch/crates/tarit-fleet/src/lib.rs:1015-1117 | the state stored by an accepted replica upsert equals the recount exactly when the artifact is available, or no other copy of its owner is verified on a fresh host and the record does not count either |
| `FleetReplication.PendingMeansNoLiveCopy` | orch/crates/tarit-fleet/src/lib.rs:1080-1104 | an upsert answers pending exactly when that condition on the tables and the record holds |
| `FleetReplication.StagingArtifactMayLookReplicated` | orch/crates/tarit-fleet/src/lib.rs:1080-1116 | a verified copy of a staging artifact is cached as ready or degraded and recounted as pending |
| `FleetReplication.CacheAgreesWithRecount` | orch/crates/tarit-fleet/src/lib.rs:930-1192 | after any run whose inserts and upserts meet these conditions beforehand the cache equals the recount, so a refresh changes no row |
| `FleetReplication.RunStaysAnchored` | orch/crates/tarit-fleet/src/lib.rs:2922-2948 | in every reachable state replicas belong to present artifacts of their owner |
| `FleetReplication.RefreshOutcome` | orch/crates/tarit-fleet/src/lib.rs:1141-1192 | a refresh rewrites cached states only and answers the number of rows it changed |
| `FleetReplication.UpsertReplicaOutcome` | orch/crates/tarit-fleet/src/lib.rs:1015-1117 | a copy is stored exactly when the artifact is the tenant's with that content, an available copy was verified and its locator is free; the row is then there |
| `FleetRepairs.GrantMeansShort` | orch/crates/tarit-fleet/src/lib.rs:1221-1315 | a lease is granted only to a host without a copy, while copies or domains are missing, and to a used domain only when domains suffice |
| `FleetRepairs.RepairLowersDeficit` | orch/crates/tarit-fleet/src/lib.rs:1047-1116 | storing the verified copy that a grant asked for strictly lowers the deficit |
| `FleetRepairs.RepairedIsReady` | orch/crates/tarit-fleet/src/lib.rs:1047-1116 | the artifact is answered and cached as ready if and only if nothing is missing any more |
| `FleetRepairs.RepairsFinish` | orch/crates/tarit-fleet/src/lib.rs:1221-1315 | in every run from a reachable state in which the same hosts stay fresh and only repairs touch an artifact's replicas, it takes at most its deficit of repairs, and each leaves it ready exactly when nothing is missing |
| `FleetRepairs.EnoughRepairsMakeReady` | orch/crates/tarit-fleet/src/lib.rs:1221-1315 | after as many repairs as its deficit the artifact is cached as ready |
| `FleetRepairs.UpsertTellsDeficit` | orch/crates/tarit-fleet/src/lib.rs:1080-1116 | a stored copy is answered with pending, degraded or ready by the copies on fresh hosts that are missing |
| `FleetRepairs.RefreshTellsDeficit` | orch/crates/tarit-fleet/src/lib.rs:1141-1192 | after a refresh an available artifact is cached by what it is missing, and any other as pending |
| `FleetCascades.CollectKeeps` | orch/crates/tarit-fleet/src/lib.rs:2922-2960 | collecting artifacts takes their replicas and leases along and leaves all others alone |
| `FleetLeases.TermsNeverOverlap` | orch/crates/tarit-fleet/src/lib.rs:2716-2733 | in every run with one ttl and a clock that does not go back, terms of different leaders are disjoint |
| `FleetLeases.SupersededForever` | orch/crates/tarit-fleet/src/lib.rs:1317-1360 | after any run that does not issue it again, a token that lost the lease renews and releases nothing |
| `FleetLeases.ReplacedTokenIsDead` | orch/crates/tarit-fleet/src/lib.rs:1290-1360 | once a lease passed to another token, its previous holder can neither renew nor release it |
| `FleetLeases.OneRepairerAtATime` | orch/crates/tarit-fleet/src/lib.rs:1221-1360 | in every run whose clock does not go back, of two grants for one artifact the later comes after the earlier lease has ended, unless its holder released or shortened it or the artifact was deleted in between |
| `FleetLeases.LeaseIsGrantedExactlyWhen` | orch/crates/tarit-fleet/src/lib.rs:1221-1315 | a repair lease is granted exactly when the host is current, the artifact available but degraded, a copy there of use and no lease unexpired; a grant writes that lease and nothing else |
| `FleetLeases.OnlyHoldersRenewOrRelease` | orch/crates/tarit-fleet/src/lib.rs:1317-1360 | renewal and release act exactly for the host, session and token that hold the lease |
| `FleetLeases.StepAnchorsLeases` | orch/crates/tarit-fleet/src/lib.rs:2941-2947 | a deleted artifact takes its repair lease along |
| `FleetLeases.LeadIsGrantedExactlyWhen` | orch/crates/tarit-fleet/src/lib.rs:2716-2733 | a node is made leader exactly when nobody leads, it leads itself or the term has ended |
| `FleetLeases.HeartbeatOutcome` | orch/crates/tarit-fleet/src/lib.rs:189-218 | a heartbeat is stored as it came and touches no other host |
| `ManifestCodec.Encode` | proto/src/integrity.rs:59-97 | encoding succeeds exactly on the encodable manifests and gives their wire form |
| `ManifestCodec.WorkingSetBitmap` | proto/src/integrity.rs:100-122 | the bitmap has one bit per RAM chunk, set exactly for the working set; any list that is not ascending or in range is refused |
| `ManifestCodec.Decode` | proto/src/integrity.rs:124-272 | the cursor-driven decoder equals the parser on every input |
| `ManifestCodec.ReadArtifact` | proto/src/integrity.rs:145-194 | one artifact header with its hashes, and the position behind it |
| `ManifestCodec.ReadByte` | proto/src/integrity.rs:220-235 | the inner bit loop collects the indices of the set bits, or finds one that is out of range |
| `ManifestCodec.ReadTrailer` | proto/src/integrity.rs:196-241 | the version 2 trailer: count, bitmap, padding bits and the empty set refused |
| `ManifestRoundTrip.DecodeOfEncode` | proto/src/integrity.rs:59-272 | for every encodable manifest, decoding its encoding gives it back if and only if it has one RAM, one metadata and at most one overlay artifact |
| `ManifestRoundTrip.SomeManifestsAreWriteOnly` | proto/src/integrity.rs:247-267 | a manifest of one overlay can be encoded and not decoded |
| `ManifestRoundTrip.EncodeOfDecode` | proto/src/integrity.rs:124-272 | every accepted byte string is the encoding of what it decodes to |
| `ManifestRoundTrip.WireIsInjective` | proto/src/integrity.rs:59-97 | different manifests have different encodings |
| `ManifestRoundTrip.AcceptedIsPrefixFree` | proto/src/integrity.rs:242-246 | no accepted byte string is a proper prefix of another |
| `ManifestFormat.ChunksCover` | proto/src/integrity.rs:288-297 | the chunk count is the least number of chunks that hold the artifact, and fails exactly on u64 overflow |
| `ManifestCodec.CountChunks` | proto/src/integrity.rs:288-297 | rounding a division up counts the chunks taken one by one, unless the addition overflows u64 |
| `ManifestFormat.ChunkSizesArePowers` | proto/src/integrity.rs:279-286 | the chunk sizes are the powers of two from 4 KiB to 4 MiB |
| `ManifestFormat.EncodableMeans` | proto/src/integrity.rs:58-122 | which manifests can be written, in terms of their fields |
| `ManifestFormat.OneOfEachMeans` | proto/src/integrity.rs:247-263 | one RAM, one metadata and at most one overlay, counted by position |
| `ManifestLayout.SampleLayout` | proto/src/integrity.rs:58-122 | the bytes of one manifest, every field at its place |
| `Bitmaps.MembersOfFlags` | proto/src/integrity.rs:112-121 | an ascending list is read back from its bitmap |
| `Bitmaps.FlagsOfMembers` | proto/src/integrity.rs:218-235 | a bitmap is rebuilt from the list read from it |
| `PtyClient.PtyConnection.OnSocketEvent` | sdk/typescript/src/tarit.ts:290-316 | every socket event extends the message chain and does nothing else |
| `PtyClient.PtyConnection.RunNextLink` | sdk/typescript/src/tarit.ts:290-316 | the next link of the chain, also when an earlier link was rejected |
| `PtyClient.PtyConnection.AcceptMessage` | sdk/typescript/src/tarit.ts:364-400 | the synchronous part of accepting a message, error by error |
| `PtyClient.PtyConnection.OnBlobDecoded` | sdk/typescript/src/tarit.ts:387-399 | the part behind the await, which a client close may have overtaken |
| `PtyClient.PtyConnection.OnCaught` | sdk/typescript/src/tarit.ts:293-296 | the catch handler fails the connection and may itself throw |
| `PtyClient.PtyConnection.ReadMessage` | sdk/typescript/src/tarit.ts:331-348 | the oldest queued message is returned before the terminal error is told; then a bad deadline or a new waiting read |
| `PtyClient.PtyConnection.OnTimer` | sdk/typescript/src/tarit.ts:340-344 | an armed timer removes its read from the waiters and rejects it |
| `PtyClient.PtyConnection.CloseByClient` | sdk/typescript/src/tarit.ts:350-362 | closes once and fails every waiting read |
| `PtyClient.PtyConnection.Fail` | sdk/typescript/src/tarit.ts:402-408 | the loop rejects every waiting read with the first error and disarms its timer |
| `PtyClient.PtyConnection.Perform` | sdk/typescript/src/tarit.ts:272-409 | every call the event loop makes is one step: the object stays where the run of its calls ends |
| `PtyClient.PtyConnection.PerformAll` | sdk/typescript/src/tarit.ts:272-409 | any sequence of calls takes the object along that run of the state machine |
| `PtyClient.PtyConnection.Promises` | sdk/typescript/src/tarit.ts:272-409 | after any calls on the object: queue and waiters are not both in use, reads settle once, and what was and can be read is what arrived, up to the client's own close |
| `PtySafety.RunKeepsInv` | sdk/typescript/src/tarit.ts:272-409 | every interleaving keeps the whole invariant |
| `PtySafety.EveryInterleaving` | sdk/typescript/src/tarit.ts:272-409 | queue and waiters are never both non-empty, no read waits after a terminal error, every read issued is settled or waiting but not both, and read messages plus queued ones are the accepted ones in order |
| `PtySafety.NeverSettledTwice` | sdk/typescript/src/tarit.ts:331-409 | no read is settled twice |
| `PtySafety.NothingIsLost` | sdk/typescript/src/tarit.ts:301-316 | when the connection ends by anything but the client's own close, reads and queue hold exactly the messages that arrived before that end |
| `PtySafety.NothingIsReordered` | sdk/typescript/src/tarit.ts:364-400 | in every state they are an initial part of the messages that arrived |
| `PtySafety.ExitIsReportedFaithfully` | sdk/typescript/src/tarit.ts:302-316 | in every state, a read that was told the session exited, or closed early, was told so rightly, and every other rejection is a timeout or the one terminal error |
| `PtySafety.CloseStoresReason` | sdk/typescript/src/tarit.ts:304-314 | the server's close stores exited if and only if an exit message arrived before it, else closed early with its code |
| `PtyDelivery.QueuedIsReadFirst` | sdk/typescript/src/tarit.ts:331-348 | in every state a read is answered by the oldest queued message; only with nothing queued is it told the error, and only on a live connection does it wait |
| `PtyDelivery.EverythingCanBeRead` | sdk/typescript/src/tarit.ts:331-334 | once the connection has ended by anything but the client's close, as many reads as are queued complete exactly what arrived before the end, and the next is told the error |
| `PtyDelivery.EveryMessageReachesAReader` | sdk/typescript/src/tarit.ts:284-348 | unless the client closes, letting the event loop run and reading the queue empty returns exactly the messages that arrived before the first end |
| `PtyDelivery.ReadsAreServedInTurn` | sdk/typescript/src/tarit.ts:331-400 | in every state the reads that returned a message and then the waiting ones are in the order they were issued |
| `PtyDelivery.NothingIsOverlooked` | sdk/typescript/src/tarit.ts:284-348 | what arrived is the socket's events of the run in order, and every read asked for is counted |
| `PtyDelivery.TimerRejectsItsRead` | sdk/typescript/src/tarit.ts:339-346 | a deadline rejects its read if that still waits, and touches no other |
| `PtyDelivery.EndAnswersEveryone` | sdk/typescript/src/tarit.ts:402-408 | the step that ends a connection rejects every waiting read, oldest first, with the error it stores |
| `PtyDelivery.ErrorIsTheFirstEnd` | sdk/typescript/src/tarit.ts:284-318 | unless the client closed first, the stored error is the reason of the first event that was not a message, told by what arrived before it |
| `PtyDelivery.CloseEndsIt` | sdk/typescript/src/tarit.ts:350-362 | after the client's close nothing waits and the connection has ended; a second close changes nothing |
| `PtyDelivery.PayloadIsWhatWasSent` | sdk/typescript/src/tarit.ts:364-391 | a binary message is its bytes, a control message an exit code of 32 bits, anything else ends the payload |
| `PtyFraming.RustWriteFrame` | proto/src/pty.rs:41-55 | appends the frame's bytes, or refuses a payload over u32 and appends nothing |
| `PtyFraming.RustReadFrame` | proto/src/pty.rs:72-92 | reads one frame as the format says, with any sizes of reads |
| `PtyFraming.AgentWriteFrame` | vmm/guest/agent/vmm-agent.c:1600-1614 | appends the same bytes, composed with shifts |
| `PtyFraming.AgentReadFrame` | vmm/guest/agent/vmm-agent.c:1571-1598 | reads one frame as the format says |
| `PtyFraming.Relay` | proto/src/pty.rs:41-92 | any frames up to 16 MiB, each written by either side, come out of any mix of the two readers exactly as they went in |
| `PtyFraming.ReadWritten` | proto/src/pty.rs:41-92 | a written frame is read back exactly when its payload is at most 16 MiB, whatever follows |
| `PtyFraming.OnlyWrittenIsRead` | proto/src/pty.rs:72-92 | whatever is read as a frame is what a writer would have written |
| `PtyFraming.StreamRoundTrip` | proto/src/pty.rs:41-92 | a stream of frames is read frame by frame, whatever comes after it |
| `Streams.Stream.ReadExact` | vmm/guest/agent/vmm-agent.c:1552-1569 | the loop over short reads returns exactly the next bytes, or reports the end of the stream |
| `Agent.ReadLineWithPrefix` | vmm/guest/agent/vmm-agent.c:597-618 | a line with its prefix: content without carriage returns, terminated in the buffer, or marked as overflow |
| `Agent.ReadRestOfLine` | vmm/guest/agent/vmm-agent.c:620-649 | the byte loop behind the prefix never writes outside the buffer and stops at the line feed |
| `Agent.ReadExecRequestFrame` | vmm/guest/agent/vmm-agent.c:926-967 | equals the request parser, and leaves the stream right behind an accepted request |
| `Agent.ServeRound` | vmm/guest/agent/vmm-agent.c:2041-2074 | one round of the dispatch loop equals its specification |
| `Agent.ServeConnection` | vmm/guest/agent/vmm-agent.c:2017-2078 | a whole connection: the actions taken, in order, for any byte stream |
| `Agent.SendRequest` | vmm/crates/vmm-core/src/vsock_exec.rs:679-696 | the host's request bytes; only lengths over u32 are refused |
| `AgentSync.WhereALineEnds` | vmm/guest/agent/vmm-agent.c:597-649 | after any text line the next round starts right behind its line feed if and only if the line has three bytes or more |
| `AgentSync.ShortLineLosesRequest` | vmm/guest/agent/vmm-agent.c:2041-2074 | a line of two bytes takes the first byte of the next request along, which is then not run |
| `AgentSync.DispatchedByPrefix` | vmm/guest/agent/vmm-agent.c:2067-2073 | each of the three prefixes leads to its own action, on exactly the text behind it; any other text to none |
| `AgentSync.RequestIsRun` | vmm/guest/agent/vmm-agent.c:926-967 | a request the host sends is run, up to its first NUL byte, if and only if it fits the agent's payload limit; otherwise the connection ends |
| `AgentSync.OnlyRequestsAreRun` | vmm/guest/agent/vmm-agent.c:926-967 | whatever is run as a request is a request as the host writes it, for that id and command |
| `AgentSync.OverlongRequestStops` | vmm/guest/agent/vmm-agent.c:941-944 | one byte over the limit ends the connection |
| `AgentSync.RunWhole` | vmm/guest/agent/vmm-agent.c:962-966 | the whole command is run if and only if it has no NUL byte |
| `AgentSync.CommandIsCutAtNul` | vmm/guest/agent/vmm-agent.c:962-966 | a command with a NUL byte inside is run without what follows it |
| `AgentSync.StaysInSync` | vmm/guest/agent/vmm-agent.c:2041-2074 | on any mix of well-formed requests and lines, the loop consumes exactly at message boundaries and handles every message in order, skipping over-long lines |
| `AgentWords.SplitWords` | vmm/guest/agent/vmm-agent.c:731-752 | every word and the final null fit the argument vector, and the vector holds exactly the words |
| `AgentWords.NextWord` | vmm/guest/agent/vmm-agent.c:748-749 | the next token, as strtok_r finds it |
| `AgentWords.AtMostEveryOtherByte` | vmm/guest/agent/vmm-agent.c:740-742 | a line of n bytes has at most (n + 1) / 2 words |
| `AgentWords.BlankSeparates` | vmm/guest/agent/vmm-agent.c:747-751 | a blank separates: the words are those on its two sides, in order |
| `AgentWords.NoBlankIsOneWord` | vmm/guest/agent/vmm-agent.c:747-751 | a text without blanks is one word |

## Left out

- Isolation: each transaction is one atomic, serializable step. Interleavings
  inside a transaction are modelled for the locks of `bind_vm_volumes` only.
- PostgreSQL itself: the pool, TLS, SQL text, row decoding, schema migration and
  connection errors. Of the schema only keys, foreign keys, cascades, uniqueness
  and checks are kept.
- Columns that no transaction reads back: display columns, `updated_at` stamps
  other than a VM's, the egress allowlist of a hibernation.
- The truncation to microseconds of timestamps other than those of VM records,
  VM references and fork commits.
- Reference counts as BIGINT: a count is an unbounded natural number here.
- The narrowing of `memory_mib` and `vcpus` to SQL integers on the way to the
  VM row.
- The order of equal keys in the unstable sort of `bind_vm_volumes`: the model
  takes one order; equal volume ids are allowed in a request.
- Snapshots, executions, shares, audit and usage events, hibernation egress
  updates, listing queries: single-row upserts and reads.
- VMs that reappear after `delete_vm`: the store keeps no tombstone, so no
  statement is made across a deletion.
- The text of error messages. Manifest errors are one value, fleet errors are
  their variants.
- `usize` overflow of manifest offsets: lengths are unbounded here; on 64-bit
  hosts the overflow branches are not reachable with inputs that fit in memory.
- SHA-256: a hash is any 32 bytes.
- JSON parsing of PTY control messages, and the socket itself: the parsed shape
  and every order of events are inputs.
- The HTTP deletion of the PTY session after a client close.
- Read and write errors, EINTR and memory exhaustion in the agent: a stream
  gives bytes in pieces of any size, or ends.
- The agent's `ignore_overflow = false` mode of reading lines, the serial
  console's `read_line`, and exec response frames.
- Deadlines in the host's exec writer, and everything the agent does with a
  command once it is dispatched.
