/** What the readers of a PTY connection get: which read is answered, with what,
    and in which order, over every interleaving. */
module PtyDelivery {
  import opened Results
  import opened PtyProtocol
  import opened PtySafety

  lemma ReachableInv(steps: seq<Step>)
    ensures Inv(Replay(INITIAL, steps))
  {
    InitialInv();
    RunKeepsInv(INITIAL, steps);
  }

  lemma {:induction false} ReplayConcat(c: Conn, steps: seq<Step>, more: seq<Step>)
    ensures Replay(c, steps + more) == Replay(Replay(c, steps), more)
    decreases |steps|
  {
    if steps == [] {
      assert steps + more == more;
    } else {
      assert (steps + more)[0] == steps[0] && (steps + more)[1..] == steps[1..] + more;
      ReplayConcat(Apply(c, steps[0]), steps[1..], more);
    }
  }

  // What the run has seen

  /** The events of the socket, in the order the client heard of them. */
  function EventsOf(steps: seq<Step>): seq<SocketEvent> {
    if steps == [] then []
    else
      var n := |steps| - 1;
      if steps[n].DoEvent? then EventsOf(steps[..n]) + [steps[n].e] else EventsOf(steps[..n])
  }

  function ReadsIn(steps: seq<Step>): nat {
    if steps == [] then 0 else ReadsIn(steps[..|steps| - 1]) + if steps[|steps| - 1].DoRead? then 1 else 0
  }

  lemma StepSeesEvents(c: Conn, step: Step)
    ensures Apply(c, step).arrived == if step.DoEvent? then c.arrived + [step.e] else c.arrived
    ensures Apply(c, step).desk.issued == if step.DoRead? then c.desk.issued + 1 else c.desk.issued
  {
  }

  /** Every event of the socket is one the connection deals with, in its order, and
      every read asked for is one it answers. */
  lemma {:induction false} NothingIsOverlooked(steps: seq<Step>)
    ensures var c := Replay(INITIAL, steps); c.arrived == EventsOf(steps) && c.desk.issued == ReadsIn(steps)
    decreases |steps|
  {
    if steps != [] {
      var front, last := steps[..|steps| - 1], steps[|steps| - 1];
      assert steps == front + [last];
      NothingIsOverlooked(front);
      ReplayAppend(INITIAL, front, last);
      StepSeesEvents(Replay(INITIAL, front), last);
    }
  }

  /** After the client's close nothing waits and the connection has ended, as closed
      by the client unless it had ended before; a second close changes nothing. */
  lemma CloseEndsIt(steps: seq<Step>)
    ensures var c, c' := Replay(INITIAL, steps), Replay(INITIAL, steps + [DoClose]);
      && c'.closedByClient && c'.desk.waiters == [] && (c.closedByClient ==> c' == c)
      && c'.desk.error == Some(if c.desk.error.Some? then c.desk.error.value else ClosedByClient)
  {
    ReplayAppend(INITIAL, steps, DoClose);
    ReachableInv(steps);
    ReachableInv(steps + [DoClose]);
    ClosedIsEnded(steps);
  }

  lemma StepKeepsClosedEnded(c: Conn, step: Step)
    requires c.closedByClient ==> c.desk.error.Some?
    ensures Apply(c, step).closedByClient ==> Apply(c, step).desk.error.Some?
  {
    var move := StepMovesDesk(c, step);
  }

  lemma {:induction false} ClosedIsEnded(steps: seq<Step>)
    ensures var c := Replay(INITIAL, steps); c.closedByClient ==> c.desk.error.Some?
    decreases |steps|
  {
    if steps != [] {
      var front, last := steps[..|steps| - 1], steps[|steps| - 1];
      assert steps == front + [last];
      ClosedIsEnded(front);
      ReplayAppend(INITIAL, front, last);
      StepKeepsClosedEnded(Replay(INITIAL, front), last);
    }
  }

  // What a message is

  predicate IsExitOf32Bits(c: Control) {
    c.Control? && c.kind == "exit" && c.exitCode.Some? && -0x8000_0000 <= c.exitCode.value <= 0x7fff_ffff
  }

  /** A binary message is its bytes, whether it comes as a buffer or as a Blob that
      can be read. A control message is an exit with a code of 32 bits. Anything
      else, and every error or close, ends the payload. */
  lemma PayloadIsWhatWasSent(e: SocketEvent, rest: seq<SocketEvent>)
    ensures Payload([e] + rest) ==
      if e.Incoming? && e.raw.Buffer? then [Data(e.raw.bytes)] + Payload(rest)
      else if e.Incoming? && e.raw.Blob? && e.raw.readable then [Data(e.raw.bytes)] + Payload(rest)
      else if e.Incoming? && e.raw.Text? && IsExitOf32Bits(e.raw.control) then [Exit(e.raw.control.exitCode.value)] + Payload(rest)
      else []
  {
    assert ([e] + rest)[1..] == rest;
  }

  // One read

  /** In every state a read is answered by the oldest queued message. Only with
      nothing queued does it learn that the connection has ended, and only on a
      connection that lives does it wait. */
  lemma QueuedIsReadFirst(steps: seq<Step>, deadlineIsPositive: bool)
    ensures var d, d' := Replay(INITIAL, steps).desk, Replay(INITIAL, steps + [DoRead(deadlineIsPositive)]).desk;
      && d'.issued == d.issued + 1 && d'.error == d.error && d'.queued == (if d.queued == [] then [] else d.queued[1..])
      && (d.queued != [] ==> d'.settled == d.settled + [Settlement(d.issued, Resolved(d.queued[0]))])
      && (d.queued == [] && d.error.Some? ==> d'.settled == d.settled + [Settlement(d.issued, Rejected(d.error.value))])
      && (d.queued == [] && d.error.None? && !deadlineIsPositive ==>
            d'.settled == d.settled + [Settlement(d.issued, Rejected(DeadlineExceeded))])
      && (d.queued == [] && d.error.None? && deadlineIsPositive ==>
            d'.settled == d.settled && d'.waiters == d.waiters + [d.issued] && d.issued in d'.timers)
  {
    ReplayAppend(INITIAL, steps, DoRead(deadlineIsPositive));
  }

  /** A deadline rejects its read if that still waits, and touches no other. */
  lemma TimerRejectsItsRead(steps: seq<Step>, read: nat)
    ensures var d, d' := Replay(INITIAL, steps).desk, Replay(INITIAL, steps + [DoTimeout(read)]).desk;
      && (read !in d.waiters ==> d' == d)
      && (read in d.waiters ==>
            && d'.settled == d.settled + [Settlement(read, Rejected(DeadlineExceeded))]
            && (forall w :: w in d'.waiters <==> w in d.waiters && w != read)
            && d'.queued == d.queued && d'.error == d.error && d'.issued == d.issued)
  {
    ReplayAppend(INITIAL, steps, DoTimeout(read));
    ReachableInv(steps);
    var d := Replay(INITIAL, steps).desk;
    if read in d.waiters { SettleAny(d.settled, d.waiters, d.issued, read, Rejected(DeadlineExceeded)); }
  }

  /** The step that ends a connection answers every waiting read, oldest first,
      with the error it stores. */
  lemma EndAnswersEveryone(steps: seq<Step>, step: Step)
    requires Replay(INITIAL, steps).desk.error.None? && Replay(INITIAL, steps + [step]).desk.error.Some?
    ensures var d, d' := Replay(INITIAL, steps).desk, Replay(INITIAL, steps + [step]).desk;
      && d'.waiters == [] && |d'.settled| == |d.settled| + |d.waiters| && d'.settled[..|d.settled|] == d.settled
      && forall i | 0 <= i < |d.waiters| :: d'.settled[|d.settled| + i] == Settlement(d.waiters[i], Rejected(d'.error.value))
  {
    ReplayAppend(INITIAL, steps, step);
    var move := StepMovesDesk(Replay(INITIAL, steps), step);
  }

  // Reading to the end

  function Asks(deadlines: seq<bool>): seq<Step> {
    if deadlines == [] then [] else [DoRead(deadlines[0])] + Asks(deadlines[1..])
  }

  lemma ReadTakesOldest(c: Conn, deadlineIsPositive: bool)
    requires c.desk.queued != []
    ensures var c' := Apply(c, DoRead(deadlineIsPositive));
      && Deliveries(c'.desk.settled) == Deliveries(c.desk.settled) + [c.desk.queued[0]]
      && c'.desk.queued == c.desk.queued[1..] && c'.desk.error == c.desk.error && c'.arrived == c.arrived
  {
    OneMoreDelivery(c.desk.settled, Settlement(c.desk.issued, Resolved(c.desk.queued[0])));
  }

  /** `c'` is `c` with the whole queue delivered. */
  ghost predicate Drained(c: Conn, c': Conn) {
    && Deliveries(c'.desk.settled) == Deliveries(c.desk.settled) + c.desk.queued
    && c'.desk.queued == [] && c'.desk.error == c.desk.error && c'.arrived == c.arrived
  }

  lemma DrainedAfterOne(c: Conn, deadlineIsPositive: bool, c': Conn)
    requires c.desk.queued != [] && Drained(Apply(c, DoRead(deadlineIsPositive)), c')
    ensures Drained(c, c')
  {
    ReadTakesOldest(c, deadlineIsPositive);
    var log, queued := Deliveries(c.desk.settled), c.desk.queued;
    assert log + [queued[0]] + queued[1..] == log + queued;
  }

  /** As many reads as there are messages in the queue return just those. */
  lemma {:induction false} ReadsDrainQueue(c: Conn, deadlines: seq<bool>)
    requires |deadlines| == |c.desk.queued|
    ensures Drained(c, Replay(c, Asks(deadlines)))
    decreases |deadlines|
  {
    if deadlines == [] {
      assert Deliveries(c.desk.settled) + c.desk.queued == Deliveries(c.desk.settled);
    } else {
      ReadTakesOldest(c, deadlines[0]);
      ReadsDrainQueue(Apply(c, DoRead(deadlines[0])), deadlines[1..]);
      assert Asks(deadlines)[0] == DoRead(deadlines[0]) && Asks(deadlines)[1..] == Asks(deadlines[1..]);
      DrainedAfterOne(c, deadlines[0], Replay(c, Asks(deadlines)));
    }
  }

  /** Once a connection has ended by anything but the client's own close, reading
      on returns everything that arrived before the end, and then the error. */
  lemma EverythingCanBeRead(steps: seq<Step>, deadlines: seq<bool>, last: bool)
    requires var d := Replay(INITIAL, steps).desk; d.error.Some? && d.error.value != ClosedByClient && |deadlines| == |d.queued|
    ensures var c, c' := Replay(INITIAL, steps), Replay(INITIAL, steps + Asks(deadlines));
      && Deliveries(c'.desk.settled) == Payload(c.arrived)
      && Replay(INITIAL, steps + Asks(deadlines) + [DoRead(last)]).desk.settled
         == c'.desk.settled + [Settlement(c'.desk.issued, Rejected(c.desk.error.value))]
  {
    NothingIsLost(steps);
    ReadsDrainQueue(Replay(INITIAL, steps), deadlines);
    ReplayConcat(INITIAL, steps, Asks(deadlines));
    QueuedIsReadFirst(steps + Asks(deadlines), last);
  }

  // Working off the chain

  /** How far the chain is from being worked off. */
  function Work(c: Conn): nat {
    3 * |c.chain| + match c.phase case Idle => 0 case Decoding(_) => 2 case Throwing(_) => 1
  }

  /** What the event loop does next, when a close of the socket never throws. */
  function Turn(c: Conn): Step {
    match c.phase case Idle => DoRunNext case Decoding(_) => DoFinishBlob case Throwing(_) => DoCatch(false)
  }

  lemma TurnWorksOff(c: Conn)
    requires Work(c) > 0
    ensures var c' := Apply(c, Turn(c)); Work(c') < Work(c) && c'.arrived == c.arrived && c'.closedByClient == c.closedByClient
  {
  }

  ghost function Turns(c: Conn): seq<Step>
    decreases Work(c)
  {
    if Work(c) == 0 then []
    else
      TurnWorksOff(c);
      [Turn(c)] + Turns(Apply(c, Turn(c)))
  }

  lemma {:induction false} TurnsWorkOff(c: Conn)
    ensures var c' := Replay(c, Turns(c));
      c'.chain == [] && c'.phase == Idle && c'.arrived == c.arrived && c'.closedByClient == c.closedByClient
    decreases Work(c)
  {
    if Work(c) > 0 {
      TurnWorksOff(c);
      TurnsWorkOff(Apply(c, Turn(c)));
      assert Turns(c)[0] == Turn(c) && Turns(c)[1..] == Turns(Apply(c, Turn(c)));
    }
  }

  /** Unless the client closes, every message that arrived before the first end is
      returned by a read: let the event loop run, then read the queue empty. */
  lemma EveryMessageReachesAReader(steps: seq<Step>, deadlines: seq<bool>)
    requires var c := Replay(INITIAL, steps); !c.closedByClient && |deadlines| == |Replay(c, Turns(c)).desk.queued|
    ensures var c := Replay(INITIAL, steps);
      Deliveries(Replay(INITIAL, steps + Turns(c) + Asks(deadlines)).desk.settled) == Payload(c.arrived)
  {
    var c := Replay(INITIAL, steps);
    var quiet := steps + Turns(c);
    TurnsWorkOff(c);
    ReplayConcat(INITIAL, steps, Turns(c));
    ReachableInv(quiet);
    var c' := Replay(INITIAL, quiet);
    assert c'.arrived == c'.done + [] + [] == c'.done;
    ReadsDrainQueue(c', deadlines);
    ReplayConcat(INITIAL, quiet, Asks(deadlines));
  }

  // Which read

  predicate Rising(list: seq<nat>) {
    forall i, j | 0 <= i < j < |list| :: list[i] < list[j]
  }

  /** The reads that returned a message, in the order they returned. */
  function Served(log: seq<Settlement>): seq<nat> {
    if log == [] then []
    else
      var n := |log| - 1;
      if log[n].outcome.Resolved? then Served(log[..n]) + [log[n].read] else Served(log[..n])
  }

  lemma OneMoreServed(log: seq<Settlement>, s: Settlement)
    ensures Served(log + [s]) == if s.outcome.Resolved? then Served(log) + [s.read] else Served(log)
  {
    assert (log + [s])[..|log|] == log;
  }

  lemma {:induction false} RejectedAreNotServed(log: seq<Settlement>, pending: seq<nat>, error: PtyError)
    ensures Served(log + RejectAll(pending, error)) == Served(log)
    decreases |pending|
  {
    if pending == [] {
      assert log + RejectAll(pending, error) == log;
    } else {
      var first := Settlement(pending[0], Rejected(error));
      RejectOneThenRest(log, pending, error);
      RejectedAreNotServed(log + [first], pending[1..], error);
      OneMoreServed(log, first);
    }
  }

  /** Served reads, then waiting reads, then the next one: in the order of issue. */
  ghost predicate FirstComeFirstServed(d: Desk) {
    Rising(Served(d.settled) + d.waiters + [d.issued])
  }

  /** A rising list stays so without a part of it. */
  lemma DropStaysRising(front: seq<nat>, part: seq<nat>, tail: seq<nat>)
    requires Rising(front + part + tail)
    ensures Rising(front + tail)
  {
    var whole, n, m := front + part + tail, |front|, |part|;
    forall i, j | 0 <= i < j < |front + tail| ensures (front + tail)[i] < (front + tail)[j] {
      assert (front + tail)[i] == whole[if i < n then i else i + m] && (front + tail)[j] == whole[if j < n then j else j + m];
    }
  }

  lemma {:induction false} WithoutDrops(list: seq<nat>, x: nat) returns (front: seq<nat>, part: seq<nat>, tail: seq<nat>)
    ensures list == front + part + tail && Without(list, x) == front + tail
  {
    if list == [] {
      front, part, tail := [], [], [];
    } else if list[0] == x {
      front, part, tail := [], [x], list[1..];
    } else {
      front, part, tail := WithoutDrops(list[1..], x);
      front := [list[0]] + front;
    }
  }

  lemma NextIsRising(list: seq<nat>, next: nat)
    requires Rising(list + [next])
    ensures Rising(list + [next] + [next + 1]) && Rising(list + [next + 1])
  {
    var longer := list + [next] + [next + 1];
    forall i, j | 0 <= i < j < |longer| ensures longer[i] < longer[j] {
      assert i <= |list| && longer[i] == (list + [next])[i];
      if j <= |list| { assert longer[j] == (list + [next])[j]; } else if i < |list| { assert (list + [next])[i] < (list + [next])[|list|]; }
    }
    DropStaysRising(list, [next], [next + 1]);
  }

  lemma HandedServesFirst(d: Desk, m: PtyMessage)
    requires FirstComeFirstServed(d)
    ensures FirstComeFirstServed(Handed(d, m))
  {
    if d.waiters != [] {
      OneMoreServed(d.settled, Settlement(d.waiters[0], Resolved(m)));
      assert Served(d.settled) + [d.waiters[0]] + d.waiters[1..] == Served(d.settled) + d.waiters;
    }
  }

  lemma ReadServesFirst(d: Desk, deadlineIsPositive: bool)
    requires FirstComeFirstServed(d) && NobodyWaitsInVain(d)
    ensures FirstComeFirstServed(Read(d, deadlineIsPositive))
  {
    var d', served, next := Read(d, deadlineIsPositive), Served(d.settled), d.issued;
    NextIsRising(served + d.waiters, next);
    if d'.settled == d.settled {
      assert served + (d.waiters + [next]) == served + d.waiters + [next];
    } else {
      OneMoreServed(d.settled, d'.settled[|d.settled|]);
      if d.queued != [] { assert served + [next] + [] == served + [] + [next]; }
    }
  }

  lemma EndServesFirst(d: Desk, error: PtyError)
    requires FirstComeFirstServed(d)
    ensures FirstComeFirstServed(Failed(d, error))
  {
    var served := Served(d.settled);
    RejectedAreNotServed(d.settled, d.waiters, if d.error.Some? then d.error.value else error);
    DropStaysRising(served, d.waiters, [d.issued]);
    assert served + [] == served;
  }

  lemma TimeoutServesFirst(d: Desk, read: nat)
    requires FirstComeFirstServed(d)
    ensures FirstComeFirstServed(Timeout(d, read))
  {
    var served, next := Served(d.settled), [d.issued];
    OneMoreServed(d.settled, Settlement(read, Rejected(DeadlineExceeded)));
    var front, part, tail := WithoutDrops(d.waiters, read);
    assert served + d.waiters + next == (served + front) + part + (tail + next);
    DropStaysRising(served + front, part, tail + next);
    assert served + (front + tail) + next == (served + front) + (tail + next);
  }

  lemma MoveServesFirst(d: Desk, move: DeskMove)
    requires FirstComeFirstServed(d) && NobodyWaitsInVain(d)
    ensures FirstComeFirstServed(Moved(d, move))
  {
    match move
    case Stay =>
    case Lose(error) => EndServesFirst(d, error);
    case Take(m) => HandedServesFirst(d, m);
    case Ask(positive) => ReadServesFirst(d, positive);
    case Expire(read) => TimeoutServesFirst(d, read);
  }

  lemma {:induction false} RunServesFirst(c: Conn, steps: seq<Step>)
    requires Inv(c) && FirstComeFirstServed(c.desk)
    ensures FirstComeFirstServed(Replay(c, steps).desk)
    decreases |steps|
  {
    if steps != [] {
      var move := StepMovesDesk(c, steps[0]);
      MoveServesFirst(c.desk, move);
      StepKeepsInv(c, steps[0]);
      RunServesFirst(Apply(c, steps[0]), steps[1..]);
    }
  }

  /** In every state the reads that returned a message, in the order they returned,
      followed by those that still wait, are in the order they were issued. */
  lemma ReadsAreServedInTurn(steps: seq<Step>)
    ensures var d := Replay(INITIAL, steps).desk; Rising(Served(d.settled) + d.waiters)
  {
    InitialInv();
    RunServesFirst(INITIAL, steps);
    var d := Replay(INITIAL, steps).desk;
    var all := Served(d.settled) + d.waiters;
    assert forall i | 0 <= i < |all| :: all[i] == (all + [d.issued])[i];
  }

  // Why it ended

  /** The first event that is not a message. */
  function FirstEnd(events: seq<SocketEvent>): Option<SocketEvent> {
    if events == [] then None else if IsMessage(events[0]) then FirstEnd(events[1..]) else Some(events[0])
  }

  function Reason(end: SocketEvent, exited: bool): PtyError {
    match end
    case Incoming(_) => BadMessage
    case SocketError => SocketFailed
    case SocketClosed(code) => if exited then Exited else ClosedEarly(code)
  }

  ghost predicate ToldFirstEnd(c: Conn) {
    c.desk.error.Some? && c.desk.error.value != ClosedByClient ==>
      FirstEnd(c.arrived).Some? && c.desk.error.value == Reason(FirstEnd(c.arrived).value, HasExit(Payload(c.arrived)))
  }

  lemma {:induction false} FirstEndOf(done: seq<SocketEvent>, more: seq<SocketEvent>)
    ensures FirstEnd(done + more) == if AllMessages(done) then FirstEnd(more) else FirstEnd(done)
  {
    if done == [] {
      assert done + more == more;
    } else if IsMessage(done[0]) {
      assert (done + more)[1..] == done[1..] + more;
      assert AllMessages(done) <==> AllMessages(done[1..]);
      FirstEndOf(done[1..], more);
    }
  }

  /** A live connection meets its first end. */
  lemma FirstEndMet(c: Conn, e: SocketEvent, rest: seq<SocketEvent>)
    requires AllMessages(c.done) && !IsMessage(e) && c.arrived == c.done + [e] + rest
    ensures FirstEnd(c.arrived) == Some(e) && Payload(c.arrived) == Payload(c.done)
  {
    assert c.arrived == c.done + ([e] + rest) && ([e] + rest)[0] == e;
    FirstEndOf(c.done, [e] + rest);
    FirstFailure(c.done, e, rest);
  }

  /** After the end the error stays, whatever else arrives. */
  lemma EndStaysTold(c: Conn, step: Step)
    requires Faithful(c) && ToldFirstEnd(c) && c.desk.error.Some?
    ensures ToldFirstEnd(Apply(c, step))
  {
    var c' := Apply(c, step);
    assert c'.desk.error == c.desk.error;
    if step.DoEvent? {
      FirstEndOf(c.arrived, [step.e]);
      PayloadGrows(c.arrived, [step.e]);
    } else {
      assert c'.arrived == c.arrived;
    }
  }

  lemma RunNextTellsFirstEnd(c: Conn)
    requires Faithful(c) && KnowsExit(c) && c.desk.error.None?
    ensures ToldFirstEnd(RunNext(c))
  {
    if c.phase == Idle && c.chain != [] && !c.chain[0].Incoming? {
      Regroup(c.done, c.chain);
      FirstEndMet(c, c.chain[0], c.chain[1..]);
    } else {
      assert RunNext(c).desk.error.None?;
    }
  }

  lemma CatchTellsFirstEnd(c: Conn, closeThrows: bool)
    requires Faithful(c) && c.desk.error.None?
    ensures ToldFirstEnd(Catch(c, closeThrows))
  {
    if c.phase.Throwing? { FirstEndMet(c, Incoming(c.phase.raw), c.chain); }
  }

  lemma StepTellsFirstEnd(c: Conn, step: Step)
    requires Inv(c) && ToldFirstEnd(c)
    ensures ToldFirstEnd(Apply(c, step))
  {
    if c.desk.error.Some? {
      EndStaysTold(c, step);
    } else {
      match step
      case DoRunNext => RunNextTellsFirstEnd(c);
      case DoCatch(throws) => CatchTellsFirstEnd(c, throws);
      case DoClose => assert Close(c).desk.error == Some(ClosedByClient);
      case _ => assert Apply(c, step).desk.error.None?;
    }
  }

  lemma {:induction false} RunTellsFirstEnd(c: Conn, steps: seq<Step>)
    requires Inv(c) && ToldFirstEnd(c)
    ensures ToldFirstEnd(Replay(c, steps))
    decreases |steps|
  {
    if steps != [] {
      StepTellsFirstEnd(c, steps[0]);
      StepKeepsInv(c, steps[0]);
      RunTellsFirstEnd(Apply(c, steps[0]), steps[1..]);
    }
  }

  /** Unless the client closed first, the stored error is the reason of the first
      event that was not a message, told by what arrived before it. */
  lemma ErrorIsTheFirstEnd(steps: seq<Step>)
    ensures var c := Replay(INITIAL, steps);
      c.desk.error.Some? && c.desk.error.value != ClosedByClient ==>
        FirstEnd(c.arrived).Some? && c.desk.error.value == Reason(FirstEnd(c.arrived).value, HasExit(Payload(c.arrived)))
  {
    InitialInv();
    RunTellsFirstEnd(INITIAL, steps);
  }
}
