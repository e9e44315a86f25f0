/** The TypeScript PTY client as a state machine: one step per uninterrupted
    stretch of JavaScript. */
module PtyProtocol {
  import opened Results
  import opened Bytes

  // Messages

  datatype PtyMessage = Data(bytes: seq<Byte>) | Exit(exitCode: int)

  /** A control message after JSON parsing; `exitCode` is None when the field is
      not an integer. */
  datatype Control = Malformed | Unknown | Control(kind: string, exitCode: Option<int>)

  datatype Raw = Text(control: Control) | Buffer(bytes: seq<Byte>) | Blob(bytes: seq<Byte>, readable: bool) | Unsupported

  datatype SocketEvent = Incoming(raw: Raw) | SocketError | SocketClosed(code: int)

  datatype PtyError = ClosedByClient | Exited | ClosedEarly(code: int) | SocketFailed | BadMessage | DeadlineExceeded

  predicate IsExit(c: Control) {
    c.Control? && c.kind == "exit" && c.exitCode.Some? && -0x8000_0000 <= c.exitCode.value < 0x8000_0000
  }

  /** What a raw message means, if it is well formed. */
  function Decoded(raw: Raw): Option<PtyMessage> {
    match raw
    case Text(control) => if IsExit(control) then Some(Exit(control.exitCode.value)) else None
    case Buffer(bytes) => Some(Data(bytes))
    case Blob(bytes, readable) => if readable then Some(Data(bytes)) else None
    case Unsupported => None
  }

  predicate IsMessage(e: SocketEvent) {
    e.Incoming? && Decoded(e.raw).Some?
  }

  /** The messages that arrive before the first failure or close. */
  function Payload(events: seq<SocketEvent>): seq<PtyMessage> {
    if events == [] || !IsMessage(events[0]) then [] else [Decoded(events[0].raw).value] + Payload(events[1..])
  }

  // State

  datatype Outcome = Resolved(message: PtyMessage) | Rejected(error: PtyError)

  datatype Settlement = Settlement(read: nat, outcome: Outcome)

  /** Messages and reads meeting each other. `timers` are the reads whose
      deadline timer is armed, `issued` numbers the reads, `settled` is what
      their callers saw, in order, and `accepted` is what came in. */
  datatype Desk = Desk(queued: seq<PtyMessage>, waiters: seq<nat>, timers: set<nat>, error: Option<PtyError>,
                       issued: nat, settled: seq<Settlement>, accepted: seq<PtyMessage>)

  function RejectAll(pending: seq<nat>, error: PtyError): (log: seq<Settlement>)
    ensures |log| == |pending|
    ensures forall i | 0 <= i < |pending| :: log[i] == Settlement(pending[i], Rejected(error))
  {
    if pending == [] then [] else [Settlement(pending[0], Rejected(error))] + RejectAll(pending[1..], error)
  }

  /** Fail every waiting read; the first error stays. */
  function Failed(d: Desk, error: PtyError): Desk {
    var first := if d.error.Some? then d.error.value else error;
    d.(error := Some(first), waiters := [], timers := d.timers - (set w | w in d.waiters), settled := d.settled + RejectAll(d.waiters, first))
  }

  /** Hand a message to the oldest waiting read, or keep it. */
  function Handed(d: Desk, m: PtyMessage): Desk {
    if d.waiters == [] then d.(queued := d.queued + [m], accepted := d.accepted + [m])
    else
      var w := d.waiters[0];
      d.(waiters := d.waiters[1..], timers := d.timers - {w}, settled := d.settled + [Settlement(w, Resolved(m))],
         accepted := d.accepted + [m])
  }

  /** The answer a read gets at once, if any. */
  function Immediate(d: Desk, deadlineIsPositive: bool): Option<Outcome> {
    if d.queued != [] then Some(Resolved(d.queued[0]))
    else if d.error.Some? then Some(Rejected(d.error.value))
    else if !deadlineIsPositive then Some(Rejected(DeadlineExceeded))
    else None
  }

  function Read(d: Desk, deadlineIsPositive: bool): Desk {
    match Immediate(d, deadlineIsPositive)
    case Some(outcome) =>
      d.(queued := if d.queued == [] then [] else d.queued[1..], issued := d.issued + 1,
         settled := d.settled + [Settlement(d.issued, outcome)])
    case None => d.(waiters := d.waiters + [d.issued], timers := d.timers + {d.issued}, issued := d.issued + 1)
  }

  function Without(list: seq<nat>, x: nat): seq<nat> {
    if list == [] then [] else if list[0] == x then list[1..] else [list[0]] + Without(list[1..], x)
  }

  /** An armed timer fires. */
  function Timeout(d: Desk, read: nat): Desk {
    if read !in d.timers then d
    else d.(waiters := Without(d.waiters, read), timers := d.timers - {read},
            settled := d.settled + [Settlement(read, Rejected(DeadlineExceeded))])
  }

  // The connection

  /** Where the head of the message chain is: waiting for its turn, inside a Blob
      conversion, or thrown and not caught yet. */
  datatype Phase = Idle | Decoding(raw: Raw) | Throwing(raw: Raw)

  /** `broken` marks a chain whose last promise was rejected; `arrived` and
      `done` are the events received and those dealt with. */
  datatype Conn = Conn(desk: Desk, sawExit: bool, closedByClient: bool, chain: seq<SocketEvent>, phase: Phase, broken: bool,
                       arrived: seq<SocketEvent>, done: seq<SocketEvent>)

  const INITIAL := Conn(Desk([], [], {}, None, 0, [], []), false, false, [], Idle, false, [], [])

  function CloseReason(c: Conn, code: int): PtyError {
    if c.closedByClient then ClosedByClient else if c.sawExit then Exited else ClosedEarly(code)
  }

  function OnEvent(c: Conn, e: SocketEvent): Conn {
    c.(chain := c.chain + [e], arrived := c.arrived + [e])
  }

  /** The synchronous part of accepting a message. */
  function Accept(c: Conn, raw: Raw): Conn {
    var passed := c.(done := c.done + [Incoming(raw)]);
    if c.desk.error.Some? then passed
    else if raw.Blob? then c.(phase := Decoding(raw))
    else if Decoded(raw).None? then c.(phase := Throwing(raw))
    else passed.(sawExit := c.sawExit || raw.Text?, desk := Handed(c.desk, Decoded(raw).value))
  }

  /** The next link of the chain takes its turn. A broken chain passes over
      everything but the catch of the next message. */
  function RunNext(c: Conn): Conn {
    if c.phase != Idle || c.chain == [] then c
    else
      var e, next := c.chain[0], c.(chain := c.chain[1..]);
      if e.Incoming? then if c.broken then next.(phase := Throwing(e.raw)) else Accept(next, e.raw)
      else
        var passed := next.(done := c.done + [e]);
        if c.broken then passed
        else passed.(desk := Failed(c.desk, if e.SocketError? then SocketFailed else CloseReason(c, e.code)))
  }

  function FinishBlob(c: Conn): Conn {
    if !c.phase.Decoding? then c
    else if Decoded(c.phase.raw).None? then c.(phase := Throwing(c.phase.raw))
    else
      var passed := c.(phase := Idle, done := c.done + [Incoming(c.phase.raw)]);
      if c.desk.error.Some? then passed else passed.(desk := Handed(c.desk, Decoded(c.phase.raw).value))
  }

  /** The catch handler fails the connection and closes the socket, which may
      throw in turn. */
  function Catch(c: Conn, closeThrows: bool): Conn {
    if !c.phase.Throwing? then c
    else c.(phase := Idle, broken := closeThrows, done := c.done + [Incoming(c.phase.raw)], desk := Failed(c.desk, BadMessage))
  }

  function Close(c: Conn): Conn {
    if c.closedByClient then c else c.(closedByClient := true, desk := Failed(c.desk, ClosedByClient))
  }

  datatype Step = DoEvent(e: SocketEvent) | DoRunNext | DoFinishBlob | DoCatch(closeThrows: bool) | DoRead(deadlineIsPositive: bool)
                | DoTimeout(read: nat) | DoClose

  function Apply(c: Conn, step: Step): Conn {
    match step
    case DoEvent(e) => OnEvent(c, e)
    case DoRunNext => RunNext(c)
    case DoFinishBlob => FinishBlob(c)
    case DoCatch(throws) => Catch(c, throws)
    case DoRead(deadline) => c.(desk := Read(c.desk, deadline))
    case DoTimeout(read) => c.(desk := Timeout(c.desk, read))
    case DoClose => Close(c)
  }

  function Replay(c: Conn, steps: seq<Step>): Conn
    decreases |steps|
  {
    if steps == [] then c else Replay(Apply(c, steps[0]), steps[1..])
  }

  lemma {:induction false} ReplayAppend(c: Conn, steps: seq<Step>, step: Step)
    ensures Replay(c, steps + [step]) == Apply(Replay(c, steps), step)
    decreases |steps|
  {
    if steps == [] {
      assert [] + [step] == [step] && [step][1..] == [];
      assert Replay(Apply(c, step), []) == Apply(c, step);
    } else {
      assert (steps + [step])[0] == steps[0] && (steps + [step])[1..] == steps[1..] + [step];
      ReplayAppend(Apply(c, steps[0]), steps[1..], step);
    }
  }
}

/** What holds in every interleaving of messages, reads, timeouts, errors and
    closes. */
module PtySafety {
  import opened Results
  import opened PtyProtocol

  // Queue and waiters

  /** Messages never wait for reads while reads wait for messages, and no read
      waits once the connection has failed. */
  ghost predicate NobodyWaitsInVain(d: Desk) {
    (d.queued == [] || d.waiters == []) && (d.error.Some? ==> d.waiters == [])
  }

  // Settlement

  function ReadsOf(log: seq<Settlement>): seq<nat> {
    if log == [] then [] else ReadsOf(log[..|log| - 1]) + [log[|log| - 1].read]
  }

  /** The reads 0 to n-1, once each. */
  function FirstReads(n: nat): (all: multiset<nat>)
    ensures forall x: nat :: all[x] == if x < n then 1 else 0
  {
    if n == 0 then multiset{} else FirstReads(n - 1) + multiset{n - 1}
  }

  /** Every read issued is settled or waiting, never both and never twice. */
  ghost predicate Accounted(log: seq<Settlement>, waiters: seq<nat>, issued: nat) {
    multiset(ReadsOf(log)) + multiset(waiters) == FirstReads(issued)
  }

  /** And it has an armed timer exactly while it waits. */
  ghost predicate SettledOnce(d: Desk) {
    Accounted(d.settled, d.waiters, d.issued) && forall w :: w in d.timers <==> w in d.waiters
  }

  lemma OneMoreSettled(log: seq<Settlement>, s: Settlement)
    ensures multiset(ReadsOf(log + [s])) == multiset(ReadsOf(log)) + multiset{s.read}
  {
    assert (log + [s])[..|log|] == log;
  }

  lemma HeadAndTail(list: seq<nat>)
    requires list != []
    ensures multiset(list) == multiset{list[0]} + multiset(list[1..])
  {
    assert list == [list[0]] + list[1..];
  }

  /** The oldest waiting read is settled and does not wait any more. */
  lemma SettleOldest(log: seq<Settlement>, waiters: seq<nat>, issued: nat, outcome: Outcome)
    requires Accounted(log, waiters, issued) && waiters != []
    ensures Accounted(log + [Settlement(waiters[0], outcome)], waiters[1..], issued)
    ensures waiters[0] !in waiters[1..]
  {
    OneMoreSettled(log, Settlement(waiters[0], outcome));
    HeadAndTail(waiters);
    assert FirstReads(issued)[waiters[0]] <= 1;
    assert waiters[0] !in multiset(waiters[1..]);
  }

  lemma RejectOneThenRest(log: seq<Settlement>, pending: seq<nat>, error: PtyError)
    requires pending != []
    ensures log + RejectAll(pending, error) == (log + [Settlement(pending[0], Rejected(error))]) + RejectAll(pending[1..], error)
  {
  }

  lemma {:induction false} SettleAll(log: seq<Settlement>, waiters: seq<nat>, issued: nat, error: PtyError)
    requires Accounted(log, waiters, issued)
    ensures Accounted(log + RejectAll(waiters, error), [], issued)
    decreases |waiters|
  {
    if waiters == [] {
      assert log + RejectAll(waiters, error) == log;
    } else {
      var first := Settlement(waiters[0], Rejected(error));
      SettleOldest(log, waiters, issued, Rejected(error));
      SettleAll(log + [first], waiters[1..], issued, error);
      RejectOneThenRest(log, waiters, error);
    }
  }

  lemma {:induction false} WithoutOne(list: seq<nat>, x: nat)
    requires x in list
    ensures multiset(list) == multiset{x} + multiset(Without(list, x))
  {
    HeadAndTail(list);
    if list[0] != x {
      WithoutOne(list[1..], x);
      var shorter := Without(list[1..], x);
      assert multiset([list[0]] + shorter) == multiset{list[0]} + multiset(shorter);
    }
  }

  /** Any waiting read is settled and does not wait any more. */
  lemma SettleAny(log: seq<Settlement>, waiters: seq<nat>, issued: nat, read: nat, outcome: Outcome)
    requires Accounted(log, waiters, issued) && read in waiters
    ensures Accounted(log + [Settlement(read, outcome)], Without(waiters, read), issued)
    ensures forall w :: w in Without(waiters, read) <==> w in waiters && w != read
  {
    OneMoreSettled(log, Settlement(read, outcome));
    WithoutOne(waiters, read);
    assert FirstReads(issued)[read] <= 1;
    var rest := Without(waiters, read);
    assert read !in multiset(rest);
    forall w ensures w in rest <==> w in waiters && w != read {
      assert w in multiset(rest) <==> w in multiset(waiters) && w != read;
    }
  }

  lemma HandedSettles(d: Desk, m: PtyMessage)
    requires SettledOnce(d)
    ensures SettledOnce(Handed(d, m))
  {
    if d.waiters != [] {
      SettleOldest(d.settled, d.waiters, d.issued, Resolved(m));
      assert d.waiters == [d.waiters[0]] + d.waiters[1..];
    }
  }

  lemma IssueOne(log: seq<Settlement>, waiters: seq<nat>, issued: nat, outcome: Outcome)
    requires Accounted(log, waiters, issued)
    ensures Accounted(log + [Settlement(issued, outcome)], waiters, issued + 1)
    ensures Accounted(log, waiters + [issued], issued + 1)
  {
    OneMoreSettled(log, Settlement(issued, outcome));
    assert multiset(waiters + [issued]) == multiset(waiters) + multiset{issued};
  }

  lemma ReadSettles(d: Desk, deadlineIsPositive: bool)
    requires SettledOnce(d)
    ensures SettledOnce(Read(d, deadlineIsPositive))
  {
    var now := Immediate(d, deadlineIsPositive);
    IssueOne(d.settled, d.waiters, d.issued, if now.Some? then now.value else Rejected(DeadlineExceeded));
  }

  // Order

  /** The messages that reads have returned, in the order they returned them. */
  function Deliveries(log: seq<Settlement>): seq<PtyMessage> {
    if log == [] then []
    else
      var n := |log| - 1;
      if log[n].outcome.Resolved? then Deliveries(log[..n]) + [log[n].outcome.message] else Deliveries(log[..n])
  }

  /** Read messages and queued messages are the accepted ones, in order. */
  ghost predicate InOrder(d: Desk) {
    Deliveries(d.settled) + d.queued == d.accepted
  }

  lemma OneMoreDelivery(log: seq<Settlement>, s: Settlement)
    ensures Deliveries(log + [s]) == if s.outcome.Resolved? then Deliveries(log) + [s.outcome.message] else Deliveries(log)
  {
    assert (log + [s])[..|log|] == log;
  }

  lemma {:induction false} RejectionsDeliverNothing(log: seq<Settlement>, pending: seq<nat>, error: PtyError)
    ensures Deliveries(log + RejectAll(pending, error)) == Deliveries(log)
    decreases |pending|
  {
    if pending == [] {
      assert log + RejectAll(pending, error) == log;
    } else {
      var first := Settlement(pending[0], Rejected(error));
      RejectOneThenRest(log, pending, error);
      RejectionsDeliverNothing(log + [first], pending[1..], error);
      OneMoreDelivery(log, first);
    }
  }

  lemma FailedInOrder(d: Desk, error: PtyError)
    requires InOrder(d)
    ensures InOrder(Failed(d, error))
  {
    RejectionsDeliverNothing(d.settled, d.waiters, if d.error.Some? then d.error.value else error);
  }

  lemma HandedInOrder(d: Desk, m: PtyMessage)
    requires InOrder(d) && NobodyWaitsInVain(d)
    ensures InOrder(Handed(d, m))
  {
    if d.waiters == [] {
      assert Deliveries(d.settled) + (d.queued + [m]) == Deliveries(d.settled) + d.queued + [m];
    } else {
      OneMoreDelivery(d.settled, Settlement(d.waiters[0], Resolved(m)));
      assert Deliveries(d.settled) + [] == Deliveries(d.settled);
      assert Deliveries(d.settled) + [m] + [] == d.accepted + [m];
    }
  }

  lemma ReadInOrder(d: Desk, deadlineIsPositive: bool)
    requires InOrder(d)
    ensures InOrder(Read(d, deadlineIsPositive))
  {
    match Immediate(d, deadlineIsPositive)
    case None =>
    case Some(outcome) =>
      OneMoreDelivery(d.settled, Settlement(d.issued, outcome));
      if d.queued != [] { assert Deliveries(d.settled) + d.queued == Deliveries(d.settled) + [d.queued[0]] + d.queued[1..]; }
  }

  // Rejections

  /** Every rejected read ran out of time or was told the one terminal error. */
  ghost predicate OneError(d: Desk) {
    forall i | 0 <= i < |d.settled| :: RightlyRejected(d.settled[i].outcome, d.error)
  }

  predicate RightlyRejected(outcome: Outcome, error: Option<PtyError>) {
    outcome.Rejected? ==> outcome.error == DeadlineExceeded || error == Some(outcome.error)
  }

  // Any step

  ghost predicate DeskInv(d: Desk) {
    NobodyWaitsInVain(d) && SettledOnce(d) && InOrder(d) && OneError(d)
  }

  /** What a step can do to the desk. */
  datatype DeskMove = Stay | Lose(error: PtyError) | Take(message: PtyMessage) | Ask(deadlineIsPositive: bool) | Expire(read: nat)

  function Moved(d: Desk, move: DeskMove): Desk {
    match move
    case Stay => d
    case Lose(error) => Failed(d, error)
    case Take(m) => Handed(d, m)
    case Ask(positive) => Read(d, positive)
    case Expire(read) => Timeout(d, read)
  }

  lemma StepMovesDesk(c: Conn, step: Step) returns (move: DeskMove)
    ensures Apply(c, step).desk == Moved(c.desk, move) && (move.Take? ==> c.desk.error.None?)
  {
    match step
    case DoEvent(e) => move := Stay;
    case DoRunNext => move := RunNextMovesDesk(c);
    case DoFinishBlob =>
      move := if c.phase.Decoding? && Decoded(c.phase.raw).Some? && c.desk.error.None? then Take(Decoded(c.phase.raw).value) else Stay;
    case DoCatch(throws) => move := if c.phase.Throwing? then Lose(BadMessage) else Stay;
    case DoRead(positive) => move := Ask(positive);
    case DoTimeout(read) => move := Expire(read);
    case DoClose => move := if c.closedByClient then Stay else Lose(ClosedByClient);
  }

  lemma RunNextMovesDesk(c: Conn) returns (move: DeskMove)
    ensures RunNext(c).desk == Moved(c.desk, move) && (move.Take? ==> c.desk.error.None?)
  {
    move := Stay;
    if c.phase == Idle && c.chain != [] && !c.broken {
      match c.chain[0]
      case Incoming(raw) =>
        if c.desk.error.None? && !raw.Blob? && Decoded(raw).Some? { move := Take(Decoded(raw).value); }
      case SocketError => move := Lose(SocketFailed);
      case SocketClosed(code) => move := Lose(CloseReason(c, code));
    }
  }

  lemma MoveKeepsOneError(d: Desk, move: DeskMove)
    requires OneError(d)
    ensures OneError(Moved(d, move))
  {
    var d' := Moved(d, move);
    forall i | 0 <= i < |d'.settled| ensures RightlyRejected(d'.settled[i].outcome, d'.error) {
      if i < |d.settled| { assert d'.settled[i] == d.settled[i] && RightlyRejected(d.settled[i].outcome, d.error); }
    }
  }

  lemma FailedKeepsDeskInv(d: Desk, error: PtyError)
    requires DeskInv(d)
    ensures NobodyWaitsInVain(Failed(d, error)) && SettledOnce(Failed(d, error)) && InOrder(Failed(d, error))
  {
    SettleAll(d.settled, d.waiters, d.issued, if d.error.Some? then d.error.value else error);
    FailedInOrder(d, error);
  }

  lemma TimeoutKeepsDeskInv(d: Desk, read: nat)
    requires DeskInv(d)
    ensures NobodyWaitsInVain(Timeout(d, read)) && SettledOnce(Timeout(d, read)) && InOrder(Timeout(d, read))
  {
    if read in d.timers { SettleAny(d.settled, d.waiters, d.issued, read, Rejected(DeadlineExceeded)); }
    OneMoreDelivery(d.settled, Settlement(read, Rejected(DeadlineExceeded)));
  }

  lemma MoveKeepsDeskInv(d: Desk, move: DeskMove)
    requires DeskInv(d) && (move.Take? ==> d.error.None?)
    ensures DeskInv(Moved(d, move))
  {
    MoveKeepsOneError(d, move);
    match move
    case Stay =>
    case Lose(error) => FailedKeepsDeskInv(d, error);
    case Take(m) =>
      HandedSettles(d, m);
      HandedInOrder(d, m);
    case Ask(positive) =>
      ReadSettles(d, positive);
      ReadInOrder(d, positive);
    case Expire(read) => TimeoutKeepsDeskInv(d, read);
  }

  // Nothing is lost

  ghost predicate AllMessages(events: seq<SocketEvent>) {
    forall i | 0 <= i < |events| :: IsMessage(events[i])
  }

  lemma {:induction false} PayloadGrows(a: seq<SocketEvent>, b: seq<SocketEvent>)
    ensures if AllMessages(a) then Payload(a + b) == Payload(a) + Payload(b) else Payload(a + b) == Payload(a)
  {
    if a == [] {
      assert a + b == b;
    } else if IsMessage(a[0]) {
      assert (a + b)[1..] == a[1..] + b;
      PayloadGrows(a[1..], b);
      assert AllMessages(a) <==> AllMessages(a[1..]);
    }
  }

  ghost function InHand(phase: Phase): seq<SocketEvent> {
    if phase == Idle then [] else [Incoming(phase.raw)]
  }

  /** While the connection lives, everything dealt with so far was a message and
      was accepted. A failure other than the client's own close leaves exactly
      the messages that arrived before the first failure or close. */
  ghost predicate Faithful(c: Conn) {
    && c.arrived == c.done + InHand(c.phase) + c.chain
    && match c.desk.error
       case None =>
         && !c.broken && !c.closedByClient && AllMessages(c.done) && c.desk.accepted == Payload(c.done)
         && (c.phase.Decoding? ==> c.phase.raw.Blob?)
         && (c.phase.Throwing? ==> Decoded(c.phase.raw).None?)
       case Some(ClosedByClient) => c.closedByClient && c.desk.accepted <= Payload(c.arrived)
       case Some(_) => !AllMessages(c.arrived) && c.desk.accepted == Payload(c.arrived)
  }

  lemma EventStaysFaithful(c: Conn, e: SocketEvent)
    requires Faithful(c)
    ensures Faithful(OnEvent(c, e))
  {
    PayloadGrows(c.arrived, [e]);
    assert c.done + InHand(c.phase) + (c.chain + [e]) == c.done + InHand(c.phase) + c.chain + [e];
    if !AllMessages(c.arrived) {
      var i :| 0 <= i < |c.arrived| && !IsMessage(c.arrived[i]);
      assert (c.arrived + [e])[i] == c.arrived[i];
    }
  }

  /** The first failure of a live connection. */
  lemma FirstFailure(done: seq<SocketEvent>, e: SocketEvent, rest: seq<SocketEvent>)
    requires AllMessages(done) && !IsMessage(e)
    ensures !AllMessages(done + [e] + rest) && Payload(done + [e] + rest) == Payload(done)
  {
    var all := done + [e] + rest;
    assert all[|done|] == e;
    assert all == done + ([e] + rest);
    PayloadGrows(done, [e] + rest);
  }

  lemma OneMoreMessage(done: seq<SocketEvent>, e: SocketEvent)
    requires AllMessages(done) && IsMessage(e)
    ensures AllMessages(done + [e]) && Payload(done + [e]) == Payload(done) + [Decoded(e.raw).value]
  {
    PayloadGrows(done, [e]);
    assert Payload([e]) == [Decoded(e.raw).value] + Payload([]);
  }

  lemma HandedAccepts(d: Desk, m: PtyMessage)
    ensures Handed(d, m).accepted == d.accepted + [m] && Handed(d, m).error == d.error
  {
  }

  /** Taking the head of the chain in hand, or dealing with it. */
  lemma Regroup(done: seq<SocketEvent>, chain: seq<SocketEvent>)
    requires chain != []
    ensures done + [] + chain == done + [chain[0]] + chain[1..]
    ensures done + [] + chain == (done + [chain[0]]) + [] + chain[1..]
  {
  }

  lemma AcceptStaysFaithful(c: Conn)
    requires Faithful(c) && c.phase == Idle && c.chain != [] && c.chain[0].Incoming? && !c.broken
    ensures Faithful(RunNext(c))
  {
    var e := c.chain[0];
    Regroup(c.done, c.chain);
    if c.desk.error.None? && IsMessage(e) {
      OneMoreMessage(c.done, e);
      HandedAccepts(c.desk, Decoded(e.raw).value);
    }
  }

  lemma RunNextStaysFaithful(c: Conn)
    requires Faithful(c)
    ensures Faithful(RunNext(c))
  {
    if c.phase == Idle && c.chain != [] {
      Regroup(c.done, c.chain);
      if c.chain[0].Incoming? {
        if !c.broken { AcceptStaysFaithful(c); }
      } else if c.desk.error.None? {
        FirstFailure(c.done, c.chain[0], c.chain[1..]);
      }
    }
  }

  lemma Settled(done: seq<SocketEvent>, e: SocketEvent, chain: seq<SocketEvent>)
    ensures done + [e] + chain == (done + [e]) + [] + chain
  {
  }

  lemma FinishBlobStaysFaithful(c: Conn)
    requires Faithful(c)
    ensures Faithful(FinishBlob(c))
  {
    if c.phase.Decoding? {
      var e := Incoming(c.phase.raw);
      Settled(c.done, e, c.chain);
      if c.desk.error.None? && IsMessage(e) {
        OneMoreMessage(c.done, e);
        HandedAccepts(c.desk, Decoded(e.raw).value);
      }
    }
  }

  lemma CatchStaysFaithful(c: Conn, closeThrows: bool)
    requires Faithful(c)
    ensures Faithful(Catch(c, closeThrows))
  {
    if c.phase.Throwing? {
      var e := Incoming(c.phase.raw);
      Settled(c.done, e, c.chain);
      if c.desk.error.None? { FirstFailure(c.done, e, c.chain); }
    }
  }

  lemma CloseStaysFaithful(c: Conn)
    requires Faithful(c)
    ensures Faithful(Close(c))
  {
    if !c.closedByClient && c.desk.error.None? {
      assert c.arrived == c.done + (InHand(c.phase) + c.chain);
      PayloadGrows(c.done, InHand(c.phase) + c.chain);
    }
  }

  lemma StepStaysFaithful(c: Conn, step: Step)
    requires Faithful(c)
    ensures Faithful(Apply(c, step))
  {
    match step
    case DoEvent(e) => EventStaysFaithful(c, e);
    case DoRunNext => RunNextStaysFaithful(c);
    case DoFinishBlob => FinishBlobStaysFaithful(c);
    case DoCatch(throws) => CatchStaysFaithful(c, throws);
    case DoRead(deadline) =>
    case DoTimeout(read) =>
    case DoClose => CloseStaysFaithful(c);
  }

  // The exit message

  ghost predicate HasExit(messages: seq<PtyMessage>) {
    exists i | 0 <= i < |messages| :: messages[i].Exit?
  }

  lemma OneMoreHasExit(messages: seq<PtyMessage>, m: PtyMessage)
    ensures HasExit(messages + [m]) <==> HasExit(messages) || m.Exit?
  {
    var longer := messages + [m];
    assert longer[|messages|] == m;
    assert forall i | 0 <= i < |messages| :: longer[i] == messages[i];
  }

  /** The connection has seen an exit exactly when one was accepted. */
  ghost predicate KnowsExit(c: Conn) {
    (c.sawExit <==> HasExit(c.desk.accepted)) && (c.phase.Decoding? ==> c.phase.raw.Blob?)
  }

  lemma HandedKnowsExit(d: Desk, m: PtyMessage)
    ensures HasExit(Handed(d, m).accepted) <==> HasExit(d.accepted) || m.Exit?
  {
    HandedAccepts(d, m);
    OneMoreHasExit(d.accepted, m);
  }

  lemma StepKnowsExit(c: Conn, step: Step)
    requires KnowsExit(c)
    ensures KnowsExit(Apply(c, step))
  {
    match step
    case DoRunNext =>
      if c.chain != [] && c.chain[0].Incoming? && Decoded(c.chain[0].raw).Some? { HandedKnowsExit(c.desk, Decoded(c.chain[0].raw).value); }
    case DoFinishBlob =>
      if c.phase.Decoding? && Decoded(c.phase.raw).Some? { HandedKnowsExit(c.desk, Decoded(c.phase.raw).value); }
    case _ => assert Apply(c, step).desk.accepted == c.desk.accepted;
  }

  /** A connection that failed as exited has accepted an exit message, and one
      that failed as closed early has not. */
  ghost predicate TrueReason(d: Desk) {
    && (d.error == Some(Exited) ==> HasExit(d.accepted))
    && (d.error.Some? && d.error.value.ClosedEarly? ==> !HasExit(d.accepted))
  }

  lemma StepKeepsTrueReason(c: Conn, step: Step)
    requires KnowsExit(c) && TrueReason(c.desk)
    ensures TrueReason(Apply(c, step).desk)
  {
    if c.desk.error.Some? {
      assert Apply(c, step).desk.error == c.desk.error && Apply(c, step).desk.accepted == c.desk.accepted;
    } else if Apply(c, step).desk.error.Some? {
      assert Apply(c, step).desk.accepted == c.desk.accepted;
    }
  }

  // Runs

  ghost predicate Inv(c: Conn) {
    DeskInv(c.desk) && Faithful(c) && KnowsExit(c) && TrueReason(c.desk)
  }

  lemma InitialInv()
    ensures Inv(INITIAL)
  {
    assert multiset(ReadsOf([])) == multiset{};
  }

  lemma StepKeepsInv(c: Conn, step: Step)
    requires Inv(c)
    ensures Inv(Apply(c, step))
  {
    var move := StepMovesDesk(c, step);
    MoveKeepsDeskInv(c.desk, move);
    StepStaysFaithful(c, step);
    StepKnowsExit(c, step);
    StepKeepsTrueReason(c, step);
  }

  lemma {:induction false} RunKeepsInv(c: Conn, steps: seq<Step>)
    requires Inv(c)
    ensures Inv(Replay(c, steps))
    decreases |steps|
  {
    if steps != [] {
      StepKeepsInv(c, steps[0]);
      RunKeepsInv(Apply(c, steps[0]), steps[1..]);
    }
  }

  /** In every interleaving: queue and waiters are never both in use, no read
      waits on a failed connection, every read issued is settled or waiting but
      not both, and reads return the accepted messages in order. */
  lemma EveryInterleaving(steps: seq<Step>)
    ensures var d := Replay(INITIAL, steps).desk;
      && (d.queued == [] || d.waiters == [])
      && (d.error.Some? ==> d.waiters == [])
      && multiset(ReadsOf(d.settled)) + multiset(d.waiters) == FirstReads(d.issued)
      && Deliveries(d.settled) + d.queued == d.accepted
  {
    InitialInv();
    RunKeepsInv(INITIAL, steps);
  }

  /** No read is ever settled twice. */
  lemma NeverSettledTwice(steps: seq<Step>, i: nat, j: nat)
    requires i < j < |Replay(INITIAL, steps).desk.settled|
    ensures var log := Replay(INITIAL, steps).desk.settled; log[i].read != log[j].read
  {
    EveryInterleaving(steps);
    var d := Replay(INITIAL, steps).desk;
    assert FirstReads(d.issued)[d.settled[i].read] <= 1;
    TwiceInLog(d.settled, i, j);
  }

  lemma {:induction false} TwiceInLog(log: seq<Settlement>, i: nat, j: nat)
    requires i < j < |log|
    ensures log[i].read in multiset(ReadsOf(log)) && (log[i].read == log[j].read ==> multiset(ReadsOf(log))[log[i].read] >= 2)
  {
    var n := |log| - 1;
    InLog(log[..n], i);
    if j < n { TwiceInLog(log[..n], i, j); }
  }

  lemma {:induction false} InLog(log: seq<Settlement>, i: nat)
    requires i < |log|
    ensures multiset(ReadsOf(log))[log[i].read] >= 1
  {
    var n := |log| - 1;
    if i < n { InLog(log[..n], i); }
  }

  /** When a connection ends by anything but the client's own close, the reads
      that returned and the messages still queued are exactly the messages that
      arrived before that end. */
  lemma NothingIsLost(steps: seq<Step>)
    ensures var c := Replay(INITIAL, steps);
      c.desk.error.Some? && c.desk.error.value != ClosedByClient ==>
      Deliveries(c.desk.settled) + c.desk.queued == Payload(c.arrived)
  {
    InitialInv();
    RunKeepsInv(INITIAL, steps);
  }

  /** The server's close of a live connection stores the reason that fits the
      messages which arrived before it. */
  lemma CloseStoresReason(steps: seq<Step>, code: int)
    requires var c := Replay(INITIAL, steps); c.desk.error.None? && c.phase == Idle && c.chain != [] && c.chain[0] == SocketClosed(code)
    ensures var c := Replay(INITIAL, steps);
      RunNext(c).desk.error == Some(if HasExit(Payload(c.done)) then Exited else ClosedEarly(code))
  {
    InitialInv();
    RunKeepsInv(INITIAL, steps);
  }

  /** And in every state a read that was told the session exited, or closed
      early, was told so rightly: an exit message was among those accepted, or
      was not. */
  lemma ExitIsReportedFaithfully(steps: seq<Step>, i: nat)
    requires i < |Replay(INITIAL, steps).desk.settled|
    ensures var d := Replay(INITIAL, steps).desk; var accepted := Deliveries(d.settled) + d.queued; var outcome := d.settled[i].outcome;
      && (outcome == Rejected(Exited) ==> HasExit(accepted))
      && (outcome.Rejected? && outcome.error.ClosedEarly? ==> !HasExit(accepted))
      && (outcome.Rejected? ==> outcome.error == DeadlineExceeded || d.error == Some(outcome.error))
  {
    InitialInv();
    RunKeepsInv(INITIAL, steps);
    var d := Replay(INITIAL, steps).desk;
    assert RightlyRejected(d.settled[i].outcome, d.error);
  }

  /** In every state, also after the client's own close, what was and can be read
      is an initial part of what arrived. */
  lemma NothingIsReordered(steps: seq<Step>)
    ensures var c := Replay(INITIAL, steps); Deliveries(c.desk.settled) + c.desk.queued <= Payload(c.arrived)
  {
    InitialInv();
    RunKeepsInv(INITIAL, steps);
    var c := Replay(INITIAL, steps);
    assert c.arrived == c.done + (InHand(c.phase) + c.chain);
    PayloadGrows(c.done, InHand(c.phase) + c.chain);
  }
}

/** The connection object. A method is one uninterrupted stretch of JavaScript;
    `settled` records what happens to the promises that reads return. The event
    loop calls them through `Perform`, in any order, and `steps` is the list of
    those calls: the object is always where that run of the state machine ends. */
module PtyClient {
  import opened Results
  import opened PtyProtocol
  import opened PtySafety
  import opened PtyDelivery

  class PtyConnection {
    var queued: seq<PtyMessage>
    var waiters: seq<nat>
    var timers: set<nat>
    var terminalError: Option<PtyError>
    var sawExit: bool
    var closedByClient: bool
    var messageChain: seq<SocketEvent>
    var phase: Phase
    var broken: bool
    var issued: nat
    var settled: seq<Settlement>
    ghost var accepted: seq<PtyMessage>
    ghost var arrived: seq<SocketEvent>
    ghost var done: seq<SocketEvent>
    ghost var steps: seq<Step>

    ghost function TheDesk(): Desk
      reads this
    {
      Desk(queued, waiters, timers, terminalError, issued, settled, accepted)
    }

    ghost function State(): Conn
      reads this
    {
      Conn(TheDesk(), sawExit, closedByClient, messageChain, phase, broken, arrived, done)
    }

    ghost predicate Valid()
      reads this
    {
      State() == Replay(INITIAL, steps)
    }

    constructor ()
      ensures Valid() && steps == []
    {
      queued, waiters, timers, terminalError := [], [], {}, None;
      sawExit, closedByClient, messageChain, phase, broken := false, false, [], Idle, false;
      issued, settled, accepted, arrived, done, steps := 0, [], [], [], [], [];
    }

    /** Each socket event extends the chain. */
    method OnSocketEvent(e: SocketEvent)
      modifies this
      ensures State() == OnEvent(old(State()), e) && steps == old(steps)
    {
      messageChain := messageChain + [e];
      arrived := arrived + [e];
    }

    /** Reject all waiting reads; the first error is the one that stays. */
    method Fail(error: PtyError)
      modifies `terminalError, `waiters, `timers, `settled
      ensures TheDesk() == Failed(old(TheDesk()), error)
    {
      if terminalError == None { terminalError := Some(error); }
      var pending, first := waiters, terminalError.value;
      ghost var log := RejectAll(pending, first);
      waiters := [];
      for i := 0 to |pending|
        invariant waiters == [] && terminalError == Some(first)
        invariant forall w :: w in timers <==> w in old(timers) && w !in pending[..i]
        invariant settled == old(settled) + log[..i]
      {
        assert pending[..i + 1] == pending[..i] + [pending[i]] && log[..i + 1] == log[..i] + [log[i]];
        timers := timers - {pending[i]};
        settled := settled + [Settlement(pending[i], Rejected(first))];
      }
      assert pending[..|pending|] == pending && log[..|pending|] == log;
      assert timers == old(timers) - set w | w in pending;
    }

    /** Give a message to the oldest waiting read, or queue it. */
    method Hand(m: PtyMessage)
      modifies `queued, `waiters, `timers, `settled, `accepted
      ensures TheDesk() == Handed(old(TheDesk()), m)
    {
      accepted := accepted + [m];
      if waiters == [] {
        queued := queued + [m];
      } else {
        var w := waiters[0];
        waiters := waiters[1..];
        timers := timers - {w};
        settled := settled + [Settlement(w, Resolved(m))];
      }
    }

    /** The next link of the message chain. */
    method RunNextLink()
      modifies this
      ensures State() == RunNext(old(State())) && steps == old(steps)
    {
      if phase != Idle || messageChain == [] { return; }
      var e := messageChain[0];
      messageChain := messageChain[1..];
      if e.Incoming? {
        if broken {
          phase := Throwing(e.raw);
        } else {
          AcceptMessage(e.raw);
        }
      } else {
        if !broken { EndWith(e); }
        done := done + [e];
      }
    }

    /** The socket failed or was closed. */
    method EndWith(e: SocketEvent)
      requires !e.Incoming?
      modifies `terminalError, `waiters, `timers, `settled
      ensures TheDesk() == Failed(old(TheDesk()), if e.SocketError? then SocketFailed else CloseReason(old(State()), e.code))
    {
      if e.SocketError? {
        Fail(SocketFailed);
      } else if closedByClient {
        Fail(ClosedByClient);
      } else if sawExit {
        Fail(Exited);
      } else {
        Fail(ClosedEarly(e.code));
      }
    }

    method AcceptMessage(raw: Raw)
      modifies `queued, `waiters, `timers, `settled, `accepted, `sawExit, `phase, `done
      ensures State() == Accept(old(State()), raw)
    {
      if terminalError.Some? {
        done := done + [Incoming(raw)];
        return;
      }
      match raw
      case Blob(_, _) => phase := Decoding(raw);
      case Unsupported => phase := Throwing(raw);
      case Buffer(bytes) => HandOver(raw, Data(bytes));
      case Text(control) =>
        if IsExit(control) {
          sawExit := true;
          HandOver(raw, Exit(control.exitCode.value));
        } else {
          phase := Throwing(raw);
        }
    }

    method HandOver(raw: Raw, m: PtyMessage)
      modifies `queued, `waiters, `timers, `settled, `accepted, `done
      ensures TheDesk() == Handed(old(TheDesk()), m) && done == old(done) + [Incoming(raw)]
    {
      Hand(m);
      done := done + [Incoming(raw)];
    }

    /** A Blob conversion ends; the client may have closed meanwhile. */
    method OnBlobDecoded()
      modifies this
      ensures State() == FinishBlob(old(State())) && steps == old(steps)
    {
      if !phase.Decoding? { return; }
      var raw := phase.raw;
      var message := Decoded(raw);
      if message == None {
        phase := Throwing(raw);
        return;
      }
      phase := Idle;
      if terminalError == None {
        HandOver(raw, message.value);
      } else {
        done := done + [Incoming(raw)];
      }
    }

    /** The catch of a failed message. */
    method OnCaught(closeThrows: bool)
      modifies this
      ensures State() == Catch(old(State()), closeThrows) && steps == old(steps)
    {
      if !phase.Throwing? { return; }
      Fail(BadMessage);
      done := done + [Incoming(phase.raw)];
      phase, broken := Idle, closeThrows;
    }

    method ReadMessage(deadlineIsPositive: bool) returns (read: nat)
      modifies this
      ensures State() == Apply(old(State()), DoRead(deadlineIsPositive)) && steps == old(steps) && read == old(issued)
      ensures old(queued) != [] ==> settled == old(settled) + [Settlement(read, Resolved(old(queued)[0]))] && queued == old(queued)[1..]
      ensures old(queued) == [] && old(terminalError).Some? ==> settled == old(settled) + [Settlement(read, Rejected(old(terminalError).value))]
    {
      read := issued;
      issued := issued + 1;
      if queued != [] {
        settled := settled + [Settlement(read, Resolved(queued[0]))];
        queued := queued[1..];
      } else if terminalError.Some? {
        settled := settled + [Settlement(read, Rejected(terminalError.value))];
      } else if !deadlineIsPositive {
        settled := settled + [Settlement(read, Rejected(DeadlineExceeded))];
      } else {
        timers := timers + {read};
        waiters := waiters + [read];
      }
    }

    /** indexOf, then splice. */
    static method RemoveFirst(list: seq<nat>, x: nat) returns (rest: seq<nat>)
      ensures rest == Without(list, x)
    {
      var i := 0;
      while i < |list| && list[i] != x
        invariant i <= |list| && Without(list, x) == list[..i] + Without(list[i..], x)
      {
        assert list[i..][1..] == list[i + 1..] && list[..i + 1] == list[..i] + [list[i]];
        i := i + 1;
      }
      if i == |list| { return list; }
      assert list[i..][1..] == list[i + 1..];
      rest := list[..i] + list[i + 1..];
    }

    /** The deadline timer of a read fires, if it is still armed. */
    method OnTimer(read: nat)
      modifies this
      ensures State() == Apply(old(State()), DoTimeout(read)) && steps == old(steps)
    {
      if read !in timers { return; }
      timers := timers - {read};
      waiters := RemoveFirst(waiters, read);
      settled := settled + [Settlement(read, Rejected(DeadlineExceeded))];
    }

    method CloseByClient()
      modifies this
      ensures State() == Close(old(State())) && steps == old(steps)
    {
      if closedByClient { return; }
      closedByClient := true;
      Fail(ClosedByClient);
    }

    // Any order of calls

    method Perform(step: Step)
      requires Valid()
      modifies this
      ensures Valid() && steps == old(steps) + [step]
    {
      match step {
        case DoEvent(e) => OnSocketEvent(e);
        case DoRunNext => RunNextLink();
        case DoFinishBlob => OnBlobDecoded();
        case DoCatch(throws) => OnCaught(throws);
        case DoRead(deadline) => var _ := ReadMessage(deadline);
        case DoTimeout(read) => OnTimer(read);
        case DoClose => CloseByClient();
      }
      ReplayAppend(INITIAL, steps, step);
      steps := steps + [step];
    }

    /** Any sequence of calls takes the object along that run. */
    method PerformAll(run: seq<Step>)
      requires Valid()
      modifies this
      ensures Valid() && steps == old(steps) + run
    {
      for i := 0 to |run|
        invariant Valid() && steps == old(steps) + run[..i]
      {
        Perform(run[i]);
        assert run[..i + 1] == run[..i] + [run[i]];
      }
      assert run[..|run|] == run;
    }

    /** So the object keeps, after any calls, what every run keeps. */
    lemma Promises()
      requires Valid()
      ensures queued == [] || waiters == []
      ensures terminalError.Some? ==> waiters == []
      ensures multiset(ReadsOf(settled)) + multiset(waiters) == FirstReads(issued)
      ensures Deliveries(settled) + queued <= Payload(arrived)
      ensures terminalError.Some? && terminalError.value != ClosedByClient ==> Deliveries(settled) + queued == Payload(arrived)
      ensures Rising(Served(settled) + waiters)
    {
      ReadsAreServedInTurn(steps);
      EveryInterleaving(steps);
      NothingIsReordered(steps);
      NothingIsLost(steps);
      assert State().desk == TheDesk();
    }
  }
}
