/** The guest agent's exec channel: binary requests and text lines mixed on one
    stream. */
module AgentProtocol {
  import opened Bytes

  const NUL: Byte := 0
  const LF: Byte := 10
  const CR: Byte := 13

  const MAGIC: seq<Byte> := [0x56, 0x45, 0x58, 0x32]
  const VERSION: Byte := 2
  const REQUEST: Byte := 1
  const MAX_PAYLOAD := 1024 * 1024
  const LINE_MAX_LEN := 4096

  // Lines

  /** Carriage returns are dropped wherever they stand. */
  function NoCr(text: seq<Byte>): (kept: seq<Byte>)
    ensures |kept| <= |text|
  {
    if text == [] then []
    else
      var n := |text| - 1;
      if text[n] == CR then NoCr(text[..n]) else NoCr(text[..n]) + [text[n]]
  }

  /** A buffer seen as a C string. */
  function CString(buffer: seq<Byte>): (text: seq<Byte>)
    ensures text <= buffer
  {
    if buffer == [] || buffer[0] == NUL then [] else [buffer[0]] + CString(buffer[1..])
  }

  /** The first line feed at or after `from`, or the end. */
  function LineEnd(b: seq<Byte>, from: nat): (e: nat)
    requires from <= |b|
    ensures from <= e <= |b| && (e < |b| ==> b[e] == LF) && forall i | from <= i < e :: b[i] != LF
    decreases |b| - from
  {
    if from == |b| || b[from] == LF then from else LineEnd(b, from + 1)
  }

  datatype LineRead = NoLine | Line(content: seq<Byte>, rest: seq<Byte>)

  /** A line whose first four bytes were taken off the stream beforehand: when
      the line ends inside them, what stood behind it is lost. */
  function ParseLine(b: seq<Byte>): LineRead
    requires |b| >= 4
  {
    var e := LineEnd(b, 0);
    if e < 4 then Line(NoCr(b[..e]), b[4..])
    else if e == |b| then NoLine
    else Line(NoCr(b[..e]), b[e + 1..])
  }

  const EXEC_PREFIX: seq<Byte> := [0x56, 0x4d, 0x4d, 0x5f, 0x45, 0x58, 0x45, 0x43, 0x3a]
  const PROBE_PREFIX: seq<Byte> := [0x56, 0x4d, 0x4d, 0x5f, 0x50, 0x52, 0x4f, 0x42, 0x45, 0x3a]
  const REPAIR_NET_PREFIX: seq<Byte> :=
    [0x56, 0x4d, 0x4d, 0x5f, 0x52, 0x45, 0x50, 0x41, 0x49, 0x52, 0x5f, 0x4e, 0x45, 0x54, 0x3a]

  /** What the agent does with a message; an unmatched line has no effect. */
  datatype Action =
    | RunChunked(id: nat, command: seq<Byte>)
    | RunCommand(command: seq<Byte>)
    | RunProbe(token: seq<Byte>)
    | RepairNetwork(request: seq<Byte>)
    | Unmatched(line: seq<Byte>)

  function Dispatch(line: seq<Byte>): Action {
    if EXEC_PREFIX <= line then RunCommand(line[|EXEC_PREFIX|..])
    else if PROBE_PREFIX <= line then RunProbe(line[|PROBE_PREFIX|..])
    else if REPAIR_NET_PREFIX <= line then RepairNetwork(line[|REPAIR_NET_PREFIX|..])
    else Unmatched(line)
  }

  // Requests

  datatype RequestRead = BadRequest | Good(id: nat, command: seq<Byte>, rest: seq<Byte>)

  /** A request frame, from behind its magic. */
  function ParseRequest(b: seq<Byte>): RequestRead {
    if |b| < 6 || b[0] != VERSION || b[1] != REQUEST then BadRequest
    else
      var len := FromBigEndian(b[2..6]);
      if len < 12 || len > MAX_PAYLOAD || |b| < 6 + len || FromBigEndian(b[14..18]) != len - 12 then BadRequest
      else Good(FromBigEndian(b[6..14]), b[18..6 + len], b[6 + len..])
  }

  // The loop

  datatype Step = Stop | Skip(rest: seq<Byte>) | Act(action: Action, rest: seq<Byte>)

  /** One round of the dispatch loop. */
  function Round(b: seq<Byte>): (step: Step)
    ensures !step.Stop? ==> |step.rest| < |b|
  {
    if |b| < 4 then Stop
    else if b[..4] == MAGIC then
      match ParseRequest(b[4..]) { case BadRequest => Stop case Good(id, command, rest) => Act(RunChunked(id, CString(command)), rest) }
    else
      match ParseLine(b) {
        case NoLine => Stop
        case Line(content, rest) =>
          if |content| >= LINE_MAX_LEN || CString(content) == [] then Skip(rest) else Act(Dispatch(CString(content)), rest)
      }
  }

  /** Everything the agent does on one connection. */
  function Serve(b: seq<Byte>): seq<Action>
    decreases |b|
  {
    match Round(b)
    case Stop => []
    case Skip(rest) => Serve(rest)
    case Act(action, rest) => [action] + Serve(rest)
  }
}

/** What comes out for what went in. */
module AgentSync {
  import opened Bytes
  import opened AgentProtocol

  // Lines

  predicate Plain(text: seq<Byte>) {
    NUL !in text && CR !in text && LF !in text
  }

  lemma {:induction false} PlainKeepsAll(text: seq<Byte>)
    requires Plain(text)
    ensures NoCr(text) == text
  {
    if text != [] {
      var n := |text| - 1;
      assert text == text[..n] + [text[n]];
      PlainKeepsAll(text[..n]);
    }
  }

  lemma {:induction false} WithoutNul(text: seq<Byte>)
    requires NUL !in text
    ensures CString(text) == text
  {
    if text != [] { WithoutNul(text[1..]); }
  }

  lemma EndOfLine(text: seq<Byte>, rest: seq<Byte>)
    requires LF !in text
    ensures LineEnd(text + [LF] + rest, 0) == |text|
  {
    var b := text + [LF] + rest;
    assert b[|text|] == LF;
    assert forall i | 0 <= i < |text| :: b[i] == text[i] && text[i] in text;
  }

  /** After any line, with or without carriage returns or NUL bytes, the next
      round starts right behind its line feed if the line has three bytes or
      more, and otherwise that many bytes further on. */
  lemma WhereALineEnds(text: seq<Byte>, rest: seq<Byte>)
    requires LF !in text && |text| + 1 + |rest| >= 4 && (text + [LF] + rest)[..4] != MAGIC
    ensures var content, next := NoCr(text), if |text| >= 3 then rest else rest[3 - |text|..];
      && Round(text + [LF] + rest) == (if |content| >= LINE_MAX_LEN || CString(content) == [] then Skip(next)
                                       else Act(Dispatch(CString(content)), next))
      && (next == rest <==> |text| >= 3)
  {
    LineParts(text, rest);
  }

  lemma LineParts(text: seq<Byte>, rest: seq<Byte>)
    requires LF !in text && |text| + 1 + |rest| >= 4
    ensures ParseLine(text + [LF] + rest) == Line(NoCr(text), if |text| >= 3 then rest else rest[3 - |text|..])
  {
    EndOfLine(text, rest);
    AroundTheLineFeed(text, rest);
  }

  lemma AroundTheLineFeed(text: seq<Byte>, rest: seq<Byte>)
    requires |text| + 1 + |rest| >= 4
    ensures var b := text + [LF] + rest;
      b[..|text|] == text && b[|text| + 1..] == rest && (|text| <= 3 ==> b[4..] == rest[3 - |text|..])
  {
  }

  /** Each prefix leads to its own action, on exactly what follows it. */
  lemma DispatchedByPrefix(text: seq<Byte>)
    ensures Dispatch(EXEC_PREFIX + text) == RunCommand(text)
    ensures Dispatch(PROBE_PREFIX + text) == RunProbe(text)
    ensures Dispatch(REPAIR_NET_PREFIX + text) == RepairNetwork(text)
    ensures !(EXEC_PREFIX <= text) && !(PROBE_PREFIX <= text) && !(REPAIR_NET_PREFIX <= text) ==> Dispatch(text) == Unmatched(text)
  {
    assert (PROBE_PREFIX + text)[4] != EXEC_PREFIX[4];
    assert (REPAIR_NET_PREFIX + text)[4] != EXEC_PREFIX[4] && (REPAIR_NET_PREFIX + text)[4] != PROBE_PREFIX[4];
  }

  // Requests

  ghost function RequestBytes(id: U64, command: seq<Byte>): seq<Byte> {
    MAGIC + [VERSION, REQUEST] + BigEndian(12 + |command|, 4) + BigEndian(id, 8) + BigEndian(|command|, 4) + command
  }

  lemma RequestParts(id: U64, command: seq<Byte>, rest: seq<Byte>)
    ensures var b := RequestBytes(id, command) + rest;
      && |b| == 22 + |command| + |rest| && b[..4] == MAGIC && b[4] == VERSION && b[5] == REQUEST
      && b[6..10] == BigEndian(12 + |command|, 4) && b[10..18] == BigEndian(id, 8) && b[18..22] == BigEndian(|command|, 4)
      && b[22..22 + |command|] == command && b[22 + |command|..] == rest
  {
  }

  lemma BehindMagic(b: seq<Byte>, n: nat)
    requires 22 + n <= |b|
    ensures var r := b[4..];
      && r[0] == b[4] && r[1] == b[5] && r[2..6] == b[6..10] && r[6..14] == b[10..18] && r[14..18] == b[18..22]
      && r[18..18 + n] == b[22..22 + n] && r[18 + n..] == b[22 + n..]
  {
  }

  lemma RequestFromFields(r: seq<Byte>, id: U64, command: seq<Byte>, rest: seq<Byte>)
    requires 12 + |command| <= 0xffff_ffff && |r| == 18 + |command| + |rest| && r[0] == VERSION && r[1] == REQUEST
    requires r[2..6] == BigEndian(12 + |command|, 4) && r[6..14] == BigEndian(id, 8) && r[14..18] == BigEndian(|command|, 4)
    requires r[18..18 + |command|] == command && r[18 + |command|..] == rest
    ensures ParseRequest(r) == if 12 + |command| <= MAX_PAYLOAD then Good(id, command, rest) else BadRequest
  {
    Spans();
    assert FromBigEndian(r[2..6]) == 12 + |command| && FromBigEndian(r[14..18]) == |command| && FromBigEndian(r[6..14]) == id;
  }

  /** A request is run exactly when it fits the agent's payload limit, up to its
      first NUL byte; a longer one, which the host does not refuse to send, ends
      the connection. */
  lemma RequestIsRun(id: U64, command: seq<Byte>, rest: seq<Byte>)
    requires 12 + |command| <= 0xffff_ffff
    ensures Round(RequestBytes(id, command) + rest)
            == if 12 + |command| <= MAX_PAYLOAD then Act(RunChunked(id, CString(command)), rest) else Stop
  {
    RequestParts(id, command, rest);
    RunFromFields(RequestBytes(id, command) + rest, id, command, rest);
  }

  lemma RunFromFields(b: seq<Byte>, id: U64, command: seq<Byte>, rest: seq<Byte>)
    requires 12 + |command| <= 0xffff_ffff
    requires |b| == 22 + |command| + |rest| && b[..4] == MAGIC && b[4] == VERSION && b[5] == REQUEST
    requires b[6..10] == BigEndian(12 + |command|, 4) && b[10..18] == BigEndian(id, 8) && b[18..22] == BigEndian(|command|, 4)
    requires b[22..22 + |command|] == command && b[22 + |command|..] == rest
    ensures Round(b) == if 12 + |command| <= MAX_PAYLOAD then Act(RunChunked(id, CString(command)), rest) else Stop
  {
    BehindMagic(b, |command|);
    RequestFromFields(b[4..], id, command, rest);
  }

  /** And nothing else is run as a request: what leads to one is a request as the
      host writes it, for that id and command, and the rest is left. */
  lemma OnlyRequestsAreRun(b: seq<Byte>) returns (command: seq<Byte>)
    requires Round(b).Act? && Round(b).action.RunChunked?
    ensures var step := Round(b);
      && step.action.id <= 0xffff_ffff_ffff_ffff && 12 + |command| <= MAX_PAYLOAD
      && b == RequestBytes(step.action.id, command) + step.rest && step.action.command == CString(command)
  {
    var r := b[4..];
    assert b[..4] == MAGIC && ParseRequest(r).Good?;
    command := ParseRequest(r).command;
    GoodRequest(r);
    assert b == MAGIC + r;
    var step := Round(b);
    Reassociate(BigEndian(12 + |command|, 4), BigEndian(step.action.id, 8), BigEndian(|command|, 4), command, step.rest);
  }

  lemma Reassociate(len: seq<Byte>, id: seq<Byte>, size: seq<Byte>, command: seq<Byte>, rest: seq<Byte>)
    ensures MAGIC + ([VERSION, REQUEST] + len + id + size + command + rest) == (MAGIC + [VERSION, REQUEST] + len + id + size + command) + rest
  {
  }

  lemma GoodRequest(r: seq<Byte>)
    requires ParseRequest(r).Good?
    ensures var q := ParseRequest(r);
      && q.id <= 0xffff_ffff_ffff_ffff && 12 + |q.command| <= MAX_PAYLOAD
      && r == [VERSION, REQUEST] + BigEndian(12 + |q.command|, 4) + BigEndian(q.id, 8) + BigEndian(|q.command|, 4) + q.command + q.rest
  {
    var len := FromBigEndian(r[2..6]);
    Spans();
    RequestSpelling(r, len);
    assert r == [VERSION, REQUEST] + r[2..6] + r[6..14] + r[14..18] + r[18..6 + len] + r[6 + len..];
  }

  lemma RequestSpelling(r: seq<Byte>, len: nat)
    requires |r| >= 18 && 12 <= len <= MAX_PAYLOAD && FromBigEndian(r[2..6]) == len && FromBigEndian(r[14..18]) == len - 12
    ensures r[2..6] == BigEndian(len, 4) && r[6..14] == BigEndian(FromBigEndian(r[6..14]), 8) && r[14..18] == BigEndian(len - 12, 4)
  {
    Spans();
    BigSpellingIsUnique(r[2..6], BigEndian(len, 4));
    BigSpellingIsUnique(r[6..14], BigEndian(FromBigEndian(r[6..14]), 8));
    BigSpellingIsUnique(r[14..18], BigEndian(len - 12, 4));
  }

  /** The whole command is run exactly when it has no NUL byte. */
  lemma {:induction false} RunWhole(command: seq<Byte>)
    ensures CString(command) == command <==> NUL !in command
  {
    if command != [] && command[0] != NUL {
      RunWhole(command[1..]);
      assert command == [command[0]] + command[1..];
    }
  }

  /** One byte too many ends the connection. */
  lemma OverlongRequestStops(id: U64, rest: seq<Byte>)
    ensures Round(RequestBytes(id, seq(MAX_PAYLOAD - 11, _ => NUL)) + rest) == Stop
  {
    RequestIsRun(id, seq(MAX_PAYLOAD - 11, _ => NUL), rest);
  }

  /** A command with a NUL byte inside is run without what follows it. */
  lemma CommandIsCutAtNul(id: U64, rest: seq<Byte>)
    ensures Round(RequestBytes(id, [0x6c, 0x73, NUL, 0x2f]) + rest) == Act(RunChunked(id, [0x6c, 0x73]), rest)
  {
    var command: seq<Byte> := [0x6c, 0x73, NUL, 0x2f];
    assert command[1..][1..][0] == NUL;
    assert CString(command[1..][1..]) == [];
    assert CString(command[1..]) == [0x73] + CString(command[1..][1..]);
    assert CString(command) == [0x6c] + CString(command[1..]);
    assert CString(command) == [0x6c, 0x73];
    RequestIsRun(id, command, rest);
  }

  lemma NoMagicNoRequest(b: seq<Byte>)
    requires |b| >= 4 ==> b[..4] != MAGIC
    ensures !(Round(b).Act? && Round(b).action.RunChunked?)
  {
  }

  /** The line "ok" takes the first byte of the request behind it along, and what
      is left of the request is not run. */
  lemma ShortLineLosesRequest(id: U64, command: seq<Byte>)
    ensures var text: seq<Byte> := [0x6f, 0x6b]; var request := RequestBytes(id, command);
      && Round(text + [LF] + request) == Act(Unmatched(text), request[1..])
      && !(Round(request[1..]).Act? && Round(request[1..]).action.RunChunked?)
  {
    var text: seq<Byte> := [0x6f, 0x6b];
    var request := RequestBytes(id, command);
    assert |request| >= 22 && request[1] == MAGIC[1] by {
      RequestParts(id, command, []);
      assert request + [] == request && request[1] == request[..4][1];
    }
    ShortLineRound(text, request);
    assert request[1..][..4][0] != MAGIC[0];
    NoMagicNoRequest(request[1..]);
  }

  lemma ShortLineRound(text: seq<Byte>, rest: seq<Byte>)
    requires text == [0x6f, 0x6b] && |rest| >= 1
    ensures Round(text + [LF] + rest) == Act(Unmatched(text), rest[1..])
  {
    assert (text + [LF] + rest)[..4][0] != MAGIC[0];
    PlainKeepsAll(text);
    WithoutNul(text);
    WhereALineEnds(text, rest);
    assert text[0] != EXEC_PREFIX[0] && text[0] != PROBE_PREFIX[0] && text[0] != REPAIR_NET_PREFIX[0];
  }

  // Mixed streams

  datatype Message = Request(id: U64, command: seq<Byte>) | Text(line: seq<Byte>)

  predicate WellFormed(m: Message) {
    match m
    case Request(_, command) => 12 + |command| <= MAX_PAYLOAD
    case Text(line) => Plain(line) && |line| >= 3 && !(MAGIC <= line)
  }

  ghost function MessageBytes(m: Message): seq<Byte> {
    match m
    case Request(id, command) => RequestBytes(id, command)
    case Text(line) => line + [LF]
  }

  function Effect(m: Message): seq<Action> {
    match m
    case Request(id, command) => [RunChunked(id, CString(command))]
    case Text(line) => if |line| < LINE_MAX_LEN then [Dispatch(line)] else []
  }

  lemma NotMagic(line: seq<Byte>, rest: seq<Byte>)
    requires Plain(line) && |line| >= 3 && !(MAGIC <= line)
    ensures (line + [LF] + rest)[..4] != MAGIC
  {
    var b := line + [LF] + rest;
    if |line| >= 4 {
      assert b[..4] == line[..4];
    } else {
      assert b[3] == LF;
    }
  }

  lemma OneLine(line: seq<Byte>, rest: seq<Byte>)
    requires WellFormed(Text(line))
    ensures Round(line + [LF] + rest) == if |line| < LINE_MAX_LEN then Act(Dispatch(line), rest) else Skip(rest)
  {
    NotMagic(line, rest);
    PlainKeepsAll(line);
    WithoutNul(line);
    WhereALineEnds(line, rest);
  }

  lemma OneMessage(m: Message, rest: seq<Byte>)
    requires WellFormed(m)
    ensures Serve(MessageBytes(m) + rest) == Effect(m) + Serve(rest)
  {
    match m
    case Request(id, command) => RequestIsRun(id, command, rest);
    case Text(line) => OneLine(line, rest);
  }

  ghost function AllBytes(messages: seq<Message>): seq<Byte> {
    if messages == [] then [] else MessageBytes(messages[0]) + AllBytes(messages[1..])
  }

  function AllEffects(messages: seq<Message>): seq<Action> {
    if messages == [] then [] else Effect(messages[0]) + AllEffects(messages[1..])
  }

  /** On any mix of well-formed requests and lines the loop stops only at
      message boundaries and handles every message in order; lines that are too
      long are skipped and nothing after them is lost. */
  lemma {:induction false} StaysInSync(messages: seq<Message>, rest: seq<Byte>)
    requires forall m | m in messages :: WellFormed(m)
    ensures Serve(AllBytes(messages) + rest) == AllEffects(messages) + Serve(rest)
  {
    if messages == [] {
      assert AllBytes(messages) + rest == rest;
    } else {
      assert messages[0] in messages;
      StaysInSync(messages[1..], rest);
      var more := AllBytes(messages[1..]) + rest;
      Associative(MessageBytes(messages[0]), AllBytes(messages[1..]), rest);
      SyncStep(messages[0], more, AllEffects(messages[1..]), Serve(rest));
    }
  }

  lemma SyncStep(m: Message, more: seq<Byte>, effects: seq<Action>, last: seq<Action>)
    requires WellFormed(m) && Serve(more) == effects + last
    ensures Serve(MessageBytes(m) + more) == Effect(m) + effects + last
  {
    OneMessage(m, more);
  }
}

/** The agent's loops, and the host side that feeds them. */
module Agent {
  import opened Bytes
  import opened Streams
  import opened AgentProtocol
  import opened AgentSync

  // Reading a line

  /** The buffer after `consumed`: all of it without carriage returns, or as
      much as fits and the overflow mark. */
  ghost predicate Buffered(buffer: seq<Byte>, len: nat, overflow: bool, consumed: seq<Byte>) {
    var kept := NoCr(consumed);
    && |buffer| == LINE_MAX_LEN && len < LINE_MAX_LEN && LF !in consumed
    && (overflow <==> |kept| >= LINE_MAX_LEN)
    && (!overflow ==> len == |kept| && buffer[..len] == kept)
    && (overflow ==> len == LINE_MAX_LEN - 1)
  }

  lemma OneByteMore(consumed: seq<Byte>, c: Byte)
    ensures NoCr(consumed + [c]) == if c == CR then NoCr(consumed) else NoCr(consumed) + [c]
  {
    assert (consumed + [c])[..|consumed|] == consumed;
  }

  method StoreByte(line: array<Byte>, len: nat, overflow: bool, c: Byte, ghost consumed: seq<Byte>) returns (len': nat, overflow': bool)
    requires Buffered(line[..], len, overflow, consumed) && c != LF
    modifies line
    ensures Buffered(line[..], len', overflow', consumed + [c])
  {
    OneByteMore(consumed, c);
    len', overflow' := len, overflow;
    if c != CR {
      if len + 1 < line.Length {
        line[len] := c;
        len' := len + 1;
      } else {
        overflow' := true;
      }
    }
  }

  /** What a finished read leaves in the buffer: a C string, unless it is 1. */
  ghost predicate Terminated(buffer: seq<Byte>, content: seq<Byte>, rc: int) {
    && rc == (if |content| >= LINE_MAX_LEN then 1 else 0)
    && (rc == 0 ==> |content| < |buffer| && buffer[..|content|] == content && buffer[|content|] == NUL)
  }

  /** Write the terminator and report. */
  method EndLine(line: array<Byte>, len: nat, overflow: bool, ghost consumed: seq<Byte>) returns (rc: int)
    requires Buffered(line[..], len, overflow, consumed)
    modifies line
    ensures Terminated(line[..], NoCr(consumed), rc)
  {
    ghost var before := line[..];
    line[len] := NUL;
    assert line[..] == before[len := NUL];
    rc := if overflow then 1 else 0;
  }

  method ReadLineWithPrefix(s: Stream, prefix: seq<Byte>, line: array<Byte>) returns (rc: int)
    requires |prefix| == 4 && line.Length == LINE_MAX_LEN
    modifies s, line
    ensures match ParseLine(prefix + old(s.data))
      case NoLine => rc == -1
      case Line(content, rest) => s.data == rest && Terminated(line[..], content, rc)
  {
    var len: nat, overflow := 0, false;
    for i := 0 to 4
      invariant s.data == old(s.data) && Buffered(line[..], len, overflow, prefix[..i])
    {
      var c := prefix[i];
      if c == LF {
        rc := EndLine(line, len, overflow, prefix[..i]);
        EndsHere(prefix + s.data, prefix[..i]);
        return;
      }
      assert prefix[..i + 1] == prefix[..i] + [c];
      len, overflow := StoreByte(line, len, overflow, c, prefix[..i]);
    }
    assert prefix[..4] == prefix;
    rc := ReadRestOfLine(s, line, len, overflow, prefix);
  }

  /** The endless loop behind the prefix, one byte per read. */
  method ReadRestOfLine(s: Stream, line: array<Byte>, startLen: nat, startOverflow: bool, ghost prefix: seq<Byte>) returns (rc: int)
    requires |prefix| == 4 && Buffered(line[..], startLen, startOverflow, prefix)
    modifies s, line
    ensures match ParseLine(prefix + old(s.data))
      case NoLine => rc == -1
      case Line(content, rest) => s.data == rest && Terminated(line[..], content, rc)
  {
    var len, overflow := startLen, startOverflow;
    ghost var b, consumed := prefix + s.data, prefix;
    while true
      invariant 4 <= |consumed| && consumed + s.data == b && Buffered(line[..], len, overflow, consumed)
      decreases |s.data|
    {
      var got := s.Read(1);
      if got == [] {
        NeverEnds(b);
        return -1;
      }
      var c := got[0];
      assert b == consumed + [c] + s.data;
      if c == LF {
        rc := EndLine(line, len, overflow, consumed);
        EndsHere(b, consumed);
        return;
      }
      len, overflow := StoreByte(line, len, overflow, c, consumed);
      consumed := consumed + [c];
    }
  }

  lemma EndsHere(b: seq<Byte>, consumed: seq<Byte>)
    requires |b| >= 4 && LF !in consumed && consumed + [LF] <= b
    ensures ParseLine(b) == Line(NoCr(consumed), if |consumed| < 4 then b[4..] else b[|consumed| + 1..])
  {
    assert b == consumed + [LF] + b[|consumed| + 1..];
    EndOfLine(consumed, b[|consumed| + 1..]);
    assert b[..|consumed|] == consumed;
  }

  lemma NeverEnds(b: seq<Byte>)
    requires |b| >= 4 && LF !in b
    ensures ParseLine(b) == NoLine
  {
    assert LineEnd(b, 0) == |b|;
  }

  // Reading a request

  method ReadExecRequestFrame(s: Stream) returns (r: RequestRead)
    modifies s
    ensures match ParseRequest(old(s.data))
      case BadRequest => r == BadRequest
      case Good(id, command, rest) => r == Good(id, command, rest) && s.data == rest
  {
    ghost var b := old(s.data);
    var ok, header := s.ReadExact(6);
    if !ok || header[0] != VERSION || header[1] != REQUEST { return BadRequest; }
    var len := header[2] as nat * 0x100_0000 + header[3] as nat * 0x1_0000 + header[4] as nat * 0x100 + header[5] as nat;
    FourBytes(b[2..6]);
    if len < 12 || len > MAX_PAYLOAD { return BadRequest; }
    var complete, payload := s.ReadExact(len);
    if !complete { return BadRequest; }
    PayloadParts(b, len, payload);
    var id := ReadBigEndian(payload[..8]);
    var commandLen := payload[8] as nat * 0x100_0000 + payload[9] as nat * 0x1_0000 + payload[10] as nat * 0x100 + payload[11] as nat;
    FourBytes(payload[8..12]);
    if commandLen != len - 12 { return BadRequest; }
    r := Good(id, payload[12..12 + commandLen], s.data);
  }

  lemma PayloadParts(b: seq<Byte>, len: nat, payload: seq<Byte>)
    requires 12 <= len && 6 + len <= |b| && payload == b[6..][..len]
    ensures payload[..8] == b[6..14] && payload[8..12] == b[14..18] && payload[12..len] == b[18..6 + len] && b[6..][len..] == b[6 + len..]
  {
    assert payload == b[6..6 + len];
    assert payload[..8] == b[6..14];
    assert payload[8..12] == b[14..18];
    assert payload[12..len] == b[18..6 + len];
    assert b[6..][len..] == b[6 + len..];
  }

  // The dispatch loop

  lemma {:induction false} StringInBuffer(buffer: seq<Byte>, content: seq<Byte>)
    requires content + [NUL] <= buffer
    ensures CString(buffer) == CString(content)
  {
    if content != [] && content[0] != NUL {
      assert buffer[0] == content[0] && content[1..] + [NUL] <= buffer[1..];
      StringInBuffer(buffer[1..], content[1..]);
    }
  }

  /** One round: take four bytes, and read on as what they announce. */
  method ServeRound(s: Stream, line: array<Byte>) returns (stop: bool, actions: seq<Action>)
    requires line.Length == LINE_MAX_LEN
    modifies s, line
    ensures match Round(old(s.data))
      case Stop => stop
      case Skip(rest) => !stop && actions == [] && s.data == rest
      case Act(action, rest) => !stop && actions == [action] && s.data == rest
  {
    ghost var b := s.data;
    var ok, prefix := s.ReadExact(4);
    stop, actions := true, [];
    if !ok { return; }
    if prefix == MAGIC {
      var request := ReadExecRequestFrame(s);
      if request == BadRequest { return; }
      actions := [RunChunked(request.id, CString(request.command))];
    } else {
      assert prefix + s.data == b;
      var rc := ReadLineWithPrefix(s, prefix, line);
      if rc < 0 { return; }
      LineInBuffer(b, line[..], rc);
      if rc == 0 && line[0] != NUL {
        actions := [Dispatch(CString(line[..]))];
      }
    }
    stop := false;
  }

  /** Serve one connection until the peer closes it or a request is malformed. */
  method ServeConnection(s: Stream) returns (actions: seq<Action>)
    modifies s
    ensures actions == Serve(old(s.data))
  {
    var line := new Byte[LINE_MAX_LEN];
    actions := [];
    while true
      invariant Serve(old(s.data)) == actions + Serve(s.data)
      decreases |s.data|
    {
      ServeOne(s.data, actions);
      var stop, more := ServeRound(s, line);
      if stop { return; }
      actions := actions + more;
    }
  }

  lemma ServeOne(b: seq<Byte>, before: seq<Action>)
    ensures match Round(b)
      case Stop => before + Serve(b) == before
      case Skip(rest) => before + Serve(b) == before + [] + Serve(rest)
      case Act(action, rest) => before + Serve(b) == before + [action] + Serve(rest)
  {
    if Round(b).Skip? { assert before + [] == before; }
  }

  lemma LineInBuffer(b: seq<Byte>, buffer: seq<Byte>, rc: int)
    requires |b| >= 4 && |buffer| == LINE_MAX_LEN && ParseLine(b).Line? && Terminated(buffer, ParseLine(b).content, rc)
    ensures rc == 0 ==> CString(buffer) == CString(ParseLine(b).content)
    ensures rc == 0 && buffer[0] != NUL <==> |ParseLine(b).content| < LINE_MAX_LEN && CString(ParseLine(b).content) != []
  {
    var content := ParseLine(b).content;
    if rc == 0 {
      assert buffer[..|content| + 1] == content + [NUL];
      StringInBuffer(buffer, content);
    }
  }

  // The host

  /** Send a request the way the host does; it does not know the agent's limit. */
  method SendRequest(s: Stream, id: U64, command: seq<Byte>) returns (ok: bool)
    modifies s
    ensures ok == (12 + |command| <= 0xffff_ffff)
    ensures s.data == old(s.data) + if ok then RequestBytes(id, command) else []
  {
    if |command| > 0xffff_ffff { return false; }
    Spans();
    var payload := ToBigEndian(id, 8);
    var commandLen := ToBigEndian(|command|, 4);
    payload := payload + commandLen;
    payload := payload + command;
    if |payload| > 0xffff_ffff { return false; }
    var len := ToBigEndian(|payload|, 4);
    s.Write(MAGIC + [VERSION, REQUEST] + len);
    s.Write(payload);
    Regroup(old(s.data), MAGIC + [VERSION, REQUEST] + len, BigEndian(id, 8), commandLen, command);
    ok := true;
  }

  lemma Regroup(before: seq<Byte>, header: seq<Byte>, a: seq<Byte>, b: seq<Byte>, c: seq<Byte>)
    ensures before + header + (a + b + c) == before + (header + a + b + c)
  {
  }
}
