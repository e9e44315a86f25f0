/** Inside the binding transaction: the row locks it takes, one at a time, and
    why any number of such transactions cannot deadlock. */
module LockOrder {
  import opened FleetTables
  import opened VolumeStore
  import FleetVolumes

  datatype Lock = VmLock(vm: Uuid) | VolumeLock(volume: Uuid)

  /** The locks one bind takes: its VM row, then its volumes in sorted order. */
  function LockPlan(requested: seq<AttachmentRecord>): seq<Lock>
    requires requested != []
  {
    [VmLock(requested[0].vm)] + VolumeLocks(SortByVolume(requested))
  }

  function VolumeLocks(ordered: seq<AttachmentRecord>): seq<Lock> {
    seq(|ordered|, i requires 0 <= i < |ordered| => VolumeLock(ordered[i].volume))
  }

  /** One VM lock first, then volume locks that never go down. */
  ghost predicate Ordered(plan: seq<Lock>) {
    && plan != [] && plan[0].VmLock?
    && (forall i | 1 <= i < |plan| :: plan[i].VolumeLock?)
    && (forall i, j | 1 <= i < j < |plan| :: plan[i].volume <= plan[j].volume)
  }

  /** A bind locks its VM's row and every volume it asks for, in that order. */
  lemma BindPlansAreOrdered(requested: seq<AttachmentRecord>)
    requires requested != []
    ensures Ordered(LockPlan(requested)) && LockPlan(requested)[0] == VmLock(requested[0].vm)
    ensures forall v :: VolumeLock(v) in LockPlan(requested) <==> exists a | a in requested :: a.volume == v
  {
    FleetVolumes.SortKeepsElements(requested);
    var plan, ordered := LockPlan(requested), SortByVolume(requested);
    forall i | 1 <= i < |plan| ensures plan[i] == VolumeLock(ordered[i - 1].volume) { }
    FleetVolumes.SameElements(ordered, requested);
    forall v ensures VolumeLock(v) in plan <==> exists a | a in requested :: a.volume == v {
      if VolumeLock(v) in plan {
        var i :| 0 <= i < |plan| && plan[i] == VolumeLock(v);
        assert ordered[i - 1] in requested;
      }
      if a :| a in requested && a.volume == v {
        var i :| 0 <= i < |ordered| && ordered[i] == a;
        assert plan[i + 1] == VolumeLock(v);
      }
    }
  }

  // Lock states

  /** A transaction that has taken the first `taken` locks of its plan; `done`
      once it has committed or rolled back, which frees them all. */
  datatype Txn = Txn(plan: seq<Lock>, taken: nat, done: bool)

  predicate HasLock(x: Txn, lock: Lock) {
    !x.done && x.taken <= |x.plan| && lock in x.plan[..x.taken]
  }

  /** No row is locked by two transactions. */
  ghost predicate LockInv(s: seq<Txn>) {
    && (forall i | 0 <= i < |s| :: Ordered(s[i].plan) && s[i].taken <= |s[i].plan|)
    && (forall i, j, lock | 0 <= i < j < |s| && HasLock(s[i], lock) :: !HasLock(s[j], lock))
  }

  predicate CanTake(s: seq<Txn>, i: nat)
    requires i < |s|
  {
    !s[i].done && s[i].taken < |s[i].plan| && forall j | 0 <= j < |s| && j != i :: !HasLock(s[j], s[i].plan[s[i].taken])
  }

  predicate CanFinish(s: seq<Txn>, i: nat)
    requires i < |s|
  {
    !s[i].done && s[i].taken == |s[i].plan|
  }

  datatype Step = Take(i: nat) | Finish(i: nat) | Abort(i: nat)

  predicate Enabled(s: seq<Txn>, step: Step) {
    step.i < |s| &&
    match step
    case Take(i) => CanTake(s, i)
    case Finish(i) => CanFinish(s, i)
    case Abort(i) => !s[i].done
  }

  function Next(s: seq<Txn>, step: Step): seq<Txn>
    requires Enabled(s, step)
  {
    match step
    case Take(i) => s[i := s[i].(taken := s[i].taken + 1)]
    case Finish(i) => s[i := s[i].(done := true)]
    case Abort(i) => s[i := s[i].(done := true)]
  }

  /** Taking a lock adds that lock and no other. */
  lemma TakenLocks(x: Txn, lock: Lock)
    requires !x.done && x.taken < |x.plan|
    ensures HasLock(x.(taken := x.taken + 1), lock) <==> HasLock(x, lock) || lock == x.plan[x.taken]
  {
    assert x.plan[..x.taken + 1] == x.plan[..x.taken] + [x.plan[x.taken]];
  }

  /** `i` gives up all its locks or takes some that nobody else has. */
  lemma ReplacedKeepsLockInv(s: seq<Txn>, i: nat, x: Txn)
    requires LockInv(s) && i < |s| && x.plan == s[i].plan && x.taken <= |x.plan|
    requires forall j, lock | 0 <= j < |s| && j != i && HasLock(x, lock) :: !HasLock(s[j], lock)
    ensures LockInv(s[i := x])
  {
    var s' := s[i := x];
    forall j, k, lock | 0 <= j < k < |s'| && HasLock(s'[j], lock) ensures !HasLock(s'[k], lock) {
      if j != i && k != i {
        assert HasLock(s[j], lock) && s'[k] == s[k];
      } else if j == i {
        assert s'[k] == s[k];
      } else {
        assert HasLock(s[j], lock);
      }
    }
  }

  lemma TakeKeepsLockInv(s: seq<Txn>, i: nat)
    requires LockInv(s) && i < |s| && CanTake(s, i)
    ensures LockInv(s[i := s[i].(taken := s[i].taken + 1)])
  {
    var x := s[i].(taken := s[i].taken + 1);
    forall j, lock | 0 <= j < |s| && j != i && HasLock(x, lock) ensures !HasLock(s[j], lock) {
      TakenLocks(s[i], lock);
      if HasLock(s[i], lock) { LocksAreExclusive(s, i, j, lock); }
    }
    ReplacedKeepsLockInv(s, i, x);
  }

  lemma LocksAreExclusive(s: seq<Txn>, i: nat, j: nat, lock: Lock)
    requires LockInv(s) && i < |s| && j < |s| && i != j && HasLock(s[i], lock)
    ensures !HasLock(s[j], lock)
  {
  }

  lemma StepKeepsLockInv(s: seq<Txn>, step: Step)
    requires LockInv(s) && Enabled(s, step)
    ensures LockInv(Next(s, step))
  {
    match step
    case Take(i) => TakeKeepsLockInv(s, i);
    case Finish(i) => ReplacedKeepsLockInv(s, i, s[i].(done := true));
    case Abort(i) => ReplacedKeepsLockInv(s, i, s[i].(done := true));
  }

  // No deadlock

  /** How far up the lock order a transaction has got: nothing, its VM row, or
      the last volume it locked. */
  predicate AtMost(x: Txn, y: Txn)
    requires x.taken <= |x.plan| && y.taken <= |y.plan|
    requires x.taken >= 2 ==> x.plan[x.taken - 1].VolumeLock?
    requires y.taken >= 2 ==> y.plan[y.taken - 1].VolumeLock?
  {
    if x.taken >= 2 then y.taken >= 2 && x.plan[x.taken - 1].volume <= y.plan[y.taken - 1].volume
    else y.taken >= x.taken
  }

  lemma {:induction false} TopExists(s: seq<Txn>, n: nat) returns (top: nat)
    requires LockInv(s) && n <= |s| && exists i | 0 <= i < n :: !s[i].done
    ensures top < n && !s[top].done
    ensures forall j | 0 <= j < n && !s[j].done :: AtMost(s[j], s[top])
  {
    if i :| 0 <= i < n - 1 && !s[i].done {
      top := TopExists(s, n - 1);
      if !s[n - 1].done && !AtMost(s[n - 1], s[top]) {
        top := n - 1;
      }
    } else {
      top := n - 1;
    }
  }

  /** Whoever holds the lock that `i` waits for has got strictly further up. */
  lemma HolderIsHigher(s: seq<Txn>, i: nat, j: nat)
    requires LockInv(s) && i < |s| && j < |s| && i != j && !s[i].done && s[i].taken < |s[i].plan|
    requires HasLock(s[j], s[i].plan[s[i].taken])
    ensures !s[j].done && !AtMost(s[j], s[i])
  {
    var x, y := s[i], s[j];
    var lock := x.plan[x.taken];
    var m :| 0 <= m < y.taken && y.plan[m] == lock;
    if x.taken >= 2 {
      assert y.plan[y.taken - 1].volume >= lock.volume >= x.plan[x.taken - 1].volume;
      assert HasLock(x, x.plan[x.taken - 1]);
    }
  }

  /** While a transaction is unfinished, one of them can take its next lock or
      commit. */
  lemma SomeoneCanProceed(s: seq<Txn>) returns (i: nat)
    requires LockInv(s) && exists i | 0 <= i < |s| :: !s[i].done
    ensures i < |s| && (CanTake(s, i) || CanFinish(s, i))
  {
    i := TopExists(s, |s|);
    if s[i].taken < |s[i].plan| {
      forall j | 0 <= j < |s| && j != i ensures !HasLock(s[j], s[i].plan[s[i].taken]) {
        if HasLock(s[j], s[i].plan[s[i].taken]) { HolderIsHigher(s, i, j); }
      }
    }
  }

  // All of them finish

  /** Locks still to take, plus one commit, over all unfinished transactions. */
  function Work(s: seq<Txn>): nat {
    if s == [] then 0
    else (if s[0].done || s[0].taken > |s[0].plan| then 0 else |s[0].plan| - s[0].taken + 1) + Work(s[1..])
  }

  lemma {:induction false} WorkOfUpdate(s: seq<Txn>, i: nat, x: Txn)
    requires i < |s|
    ensures Work(s[i := x]) - Work(s) == Work([x]) - Work([s[i]])
  {
    if i > 0 {
      WorkOfUpdate(s[1..], i - 1, x);
      assert s[i := x][1..] == s[1..][i - 1 := x];
    } else {
      assert s[0 := x][1..] == s[1..];
    }
  }

  lemma StepDoesWork(s: seq<Txn>, step: Step)
    requires LockInv(s) && Enabled(s, step)
    ensures Work(Next(s, step)) < Work(s)
  {
    WorkOfUpdate(s, step.i, Next(s, step)[step.i]);
  }

  ghost predicate IsRun(s: seq<Txn>, steps: seq<Step>)
    decreases |steps|
  {
    steps == [] || (Enabled(s, steps[0]) && IsRun(Next(s, steps[0]), steps[1..]))
  }

  ghost function End(s: seq<Txn>, steps: seq<Step>): seq<Txn>
    requires IsRun(s, steps)
    decreases |steps|
  {
    if steps == [] then s else End(Next(s, steps[0]), steps[1..])
  }

  lemma {:induction false} RunsAreBounded(s: seq<Txn>, steps: seq<Step>)
    requires LockInv(s) && IsRun(s, steps)
    ensures LockInv(End(s, steps)) && |steps| + Work(End(s, steps)) <= Work(s)
    decreases |steps|
  {
    if steps != [] {
      StepKeepsLockInv(s, steps[0]);
      StepDoesWork(s, steps[0]);
      RunsAreBounded(Next(s, steps[0]), steps[1..]);
    }
  }

  /** From any lock state the transactions can all commit, one lock at a time. */
  lemma {:induction false} AllCanCommit(s: seq<Txn>) returns (steps: seq<Step>)
    requires LockInv(s)
    ensures IsRun(s, steps) && forall i | 0 <= i < |steps| :: !steps[i].Abort?
    ensures forall i | 0 <= i < |End(s, steps)| :: End(s, steps)[i].done
    decreases Work(s)
  {
    steps := [];
    if exists i | 0 <= i < |s| :: !s[i].done {
      var i := SomeoneCanProceed(s);
      var step := if CanTake(s, i) then Take(i) else Finish(i);
      StepKeepsLockInv(s, step);
      StepDoesWork(s, step);
      var rest := AllCanCommit(Next(s, step));
      steps := [step] + rest;
      assert steps[1..] == rest;
    }
  }

  function Begin(requests: seq<seq<AttachmentRecord>>): seq<Txn>
    requires forall i | 0 <= i < |requests| :: requests[i] != []
  {
    seq(|requests|, i requires 0 <= i < |requests| => Txn(LockPlan(requests[i]), 0, false))
  }

  /** Any number of binds, interleaved and rolled back in any way: no run is
      longer than the work there was at the start, and as long as a transaction
      is unfinished one of them can take its next lock or commit. */
  lemma BindsNeverDeadlock(requests: seq<seq<AttachmentRecord>>, steps: seq<Step>)
    requires forall i | 0 <= i < |requests| :: requests[i] != []
    requires IsRun(Begin(requests), steps)
    ensures |steps| <= Work(Begin(requests)) && LockInv(End(Begin(requests), steps))
    ensures var s := End(Begin(requests), steps);
      (exists i | 0 <= i < |s| :: !s[i].done) ==> exists i | 0 <= i < |s| :: CanTake(s, i) || CanFinish(s, i)
  {
    forall i | 0 <= i < |requests| ensures Ordered(LockPlan(requests[i])) {
      BindPlansAreOrdered(requests[i]);
    }
    RunsAreBounded(Begin(requests), steps);
    var s := End(Begin(requests), steps);
    if exists i | 0 <= i < |s| :: !s[i].done {
      var i := SomeoneCanProceed(s);
    }
  }
}
