/** A byte stream whose reads may return fewer bytes than asked for. */
module Streams {
  import opened Bytes

  class Stream {
    /** Bytes written and not read yet. */
    var data: seq<Byte>

    constructor ()
      ensures data == []
    {
      data := [];
    }

    method Write(bytes: seq<Byte>)
      modifies this
      ensures data == old(data) + bytes
    {
      data := data + bytes;
    }

    /** One read call: some bytes, or none at the end of the stream. */
    method Read(max: nat) returns (got: seq<Byte>)
      requires max > 0
      modifies this
      ensures got + data == old(data) && |got| <= max && (got == [] <==> old(data) == [])
    {
      if data == [] { return []; }
      var n :| 1 <= n <= |data| && n <= max by { assert 1 <= |data| && 1 <= max; }
      got := data[..n];
      data := data[n..];
    }

    /** Read until `len` bytes are there, or the stream ends. */
    method ReadExact(len: nat) returns (ok: bool, buffer: seq<Byte>)
      modifies this
      ensures ok == (|old(data)| >= len)
      ensures if ok then buffer == old(data)[..len] && data == old(data)[len..] else data == []
    {
      buffer := [];
      while |buffer| < len
        invariant |buffer| <= len && buffer + data == old(data)
      {
        var got := Read(len - |buffer|);
        if got == [] {
          ok := false;
          return;
        }
        buffer := buffer + got;
      }
      ok := true;
    }
  }
}

/** Frames of an interactive terminal: two writers, two readers, one format. */
module PtyFraming {
  import opened Bytes
  import opened Streams

  const MAX_FRAME_LEN := 16 * 1024 * 1024
  const HEADER_LEN := 5

  datatype Frame = Frame(kind: Byte, payload: seq<Byte>)

  datatype Outcome = Got(frame: Frame) | EndOfStream | TooLarge

  ghost function FrameBytes(f: Frame): seq<Byte> {
    [f.kind] + BigEndian(|f.payload|, 4) + f.payload
  }

  /** What a reader makes of a stream, and what it leaves of it. */
  ghost function ReadOne(b: seq<Byte>): (Outcome, seq<Byte>) {
    if |b| < HEADER_LEN then (EndOfStream, [])
    else
      var len := FromBigEndian(b[1..HEADER_LEN]);
      if len > MAX_FRAME_LEN then (TooLarge, b[HEADER_LEN..])
      else if |b| < HEADER_LEN + len then (EndOfStream, [])
      else (Got(Frame(b[0], b[HEADER_LEN..HEADER_LEN + len])), b[HEADER_LEN + len..])
  }

  // Format

  /** Whatever follows, a written frame is read back exactly when its payload is
      at most 16 MiB; a longer one is refused and leaves its payload unread. */
  lemma ReadWritten(f: Frame, rest: seq<Byte>)
    requires |f.payload| <= 0xffff_ffff
    ensures ReadOne(FrameBytes(f) + rest) == if |f.payload| <= MAX_FRAME_LEN then (Got(f), rest) else (TooLarge, f.payload + rest)
  {
    var b, n := FrameBytes(f) + rest, |f.payload|;
    Spans();
    assert b[1..HEADER_LEN] == BigEndian(n, 4);
    assert b[HEADER_LEN..] == f.payload + rest;
    assert b[HEADER_LEN..HEADER_LEN + n] == f.payload && b[HEADER_LEN + n..] == rest;
  }

  /** And only written frames are read. */
  lemma OnlyWrittenIsRead(b: seq<Byte>)
    requires ReadOne(b).0.Got?
    ensures var (got, rest) := ReadOne(b); b == FrameBytes(got.frame) + rest && |got.frame.payload| <= MAX_FRAME_LEN
  {
    var n := FromBigEndian(b[1..HEADER_LEN]);
    Spans();
    BigSpellingIsUnique(b[1..HEADER_LEN], BigEndian(n, 4));
    assert b == [b[0]] + b[1..HEADER_LEN] + b[HEADER_LEN..HEADER_LEN + n] + b[HEADER_LEN + n..];
  }

  ghost function AllBytes(frames: seq<Frame>): seq<Byte> {
    if frames == [] then [] else FrameBytes(frames[0]) + AllBytes(frames[1..])
  }

  /** The frames a reader gets before it stops. */
  ghost function ReadAll(b: seq<Byte>): seq<Frame>
    decreases |b|
  {
    var (got, rest) := ReadOne(b);
    if !got.Got? then [] else [got.frame] + ReadAll(rest)
  }

  lemma ReadOneMore(f: Frame, more: seq<Byte>)
    requires |f.payload| <= MAX_FRAME_LEN
    ensures ReadAll(FrameBytes(f) + more) == [f] + ReadAll(more)
  {
    ReadWritten(f, more);
  }

  /** A stream of frames is read frame by frame, whatever comes after it. */
  lemma {:induction false} StreamRoundTrip(frames: seq<Frame>, rest: seq<Byte>)
    requires forall f | f in frames :: |f.payload| <= MAX_FRAME_LEN
    ensures ReadAll(AllBytes(frames) + rest) == frames + ReadAll(rest)
  {
    if frames == [] {
      assert AllBytes(frames) + rest == rest;
    } else {
      StreamRoundTrip(frames[1..], rest);
      StreamStep(frames, rest, ReadAll(rest));
    }
  }

  lemma StreamStep(frames: seq<Frame>, rest: seq<Byte>, last: seq<Frame>)
    requires frames != [] && |frames[0].payload| <= MAX_FRAME_LEN && ReadAll(AllBytes(frames[1..]) + rest) == frames[1..] + last
    ensures ReadAll(AllBytes(frames) + rest) == frames + last
  {
    Associative(FrameBytes(frames[0]), AllBytes(frames[1..]), rest);
    ReadOneMore(frames[0], AllBytes(frames[1..]) + rest);
    assert frames + last == [frames[0]] + (frames[1..] + last);
  }

  // The Rust side

  method RustWriteFrame(s: Stream, kind: Byte, payload: seq<Byte>) returns (ok: bool)
    modifies s
    ensures ok == (|payload| <= 0xffff_ffff)
    ensures s.data == old(s.data) + if ok then FrameBytes(Frame(kind, payload)) else []
  {
    if |payload| > 0xffff_ffff { return false; }
    Spans();
    var len := ToBigEndian(|payload|, 4);
    s.Write([kind] + len);
    s.Write(payload);
    ok := true;
  }

  method RustReadFrame(s: Stream) returns (r: Outcome)
    modifies s
    ensures (r, s.data) == ReadOne(old(s.data))
  {
    var ok, header := s.ReadExact(HEADER_LEN);
    if !ok { return EndOfStream; }
    ghost var b := old(s.data);
    assert header[1..HEADER_LEN] == b[1..HEADER_LEN];
    var len := ReadBigEndian(header[1..HEADER_LEN]);
    if len > MAX_FRAME_LEN { return TooLarge; }
    var complete, payload := s.ReadExact(len);
    if !complete { return EndOfStream; }
    assert payload == b[HEADER_LEN..HEADER_LEN + len];
    r := Got(Frame(header[0], payload));
  }

  // The guest agent's side

  method AgentWriteFrame(s: Stream, kind: Byte, payload: seq<Byte>)
    requires |payload| <= 0xffff_ffff
    modifies s
    ensures s.data == old(s.data) + FrameBytes(Frame(kind, payload))
  {
    var len := |payload|;
    FourShifts(len);
    s.Write([kind, len / 0x100_0000, len / 0x1_0000 % 256, len / 0x100 % 256, len % 256]);
    if len > 0 { s.Write(payload); }
    assert [kind] + BigEndian(len, 4) == [kind, len / 0x100_0000, len / 0x1_0000 % 256, len / 0x100 % 256, len % 256];
  }

  method AgentReadFrame(s: Stream) returns (r: Outcome)
    modifies s
    ensures (r, s.data) == ReadOne(old(s.data))
  {
    var ok, header := s.ReadExact(HEADER_LEN);
    if !ok { return EndOfStream; }
    ghost var b := old(s.data);
    var len := header[1] as nat * 0x100_0000 + header[2] as nat * 0x1_0000 + header[3] as nat * 0x100 + header[4] as nat;
    FourBytes(b[1..HEADER_LEN]);
    if len > MAX_FRAME_LEN { return TooLarge; }
    var complete, payload := s.ReadExact(len);
    if !complete { return EndOfStream; }
    assert payload == b[HEADER_LEN..HEADER_LEN + len];
    r := Got(Frame(header[0], payload));
  }

  // Both

  datatype Side = Rust | Agent

  /** Any frames, each written by either writer, come out of any mix of the two
      readers as they went in, and nothing is left over. */
  method Relay(frames: seq<Frame>, writers: seq<Side>, readers: seq<Side>) returns (received: seq<Frame>)
    requires |writers| == |frames| == |readers| && forall f | f in frames :: |f.payload| <= MAX_FRAME_LEN
    ensures received == frames
  {
    var s := new Stream();
    for i := 0 to |frames|
      invariant s.data == AllBytes(frames[..i])
    {
      assert frames[i] in frames;
      if writers[i] == Rust {
        var _ := RustWriteFrame(s, frames[i].kind, frames[i].payload);
      } else {
        AgentWriteFrame(s, frames[i].kind, frames[i].payload);
      }
      AppendFrame(frames, i);
    }
    assert frames[..|frames|] == frames;
    received := [];
    for i := 0 to |frames|
      invariant received == frames[..i] && s.data == AllBytes(frames[i..])
    {
      assert frames[i..][0] == frames[i] && frames[i..][1..] == frames[i + 1..];
      ReadWritten(frames[i], AllBytes(frames[i + 1..]));
      var got;
      if readers[i] == Rust { got := RustReadFrame(s); } else { got := AgentReadFrame(s); }
      received := received + [got.frame];
    }
  }

  lemma {:induction false} AppendFrame(frames: seq<Frame>, i: nat)
    requires i < |frames|
    ensures AllBytes(frames[..i + 1]) == AllBytes(frames[..i]) + FrameBytes(frames[i])
  {
    if i == 0 {
      assert AllBytes(frames[..1]) == FrameBytes(frames[0]) + AllBytes([]);
    } else {
      AppendFrame(frames[1..], i - 1);
      Associative(FrameBytes(frames[0]), AllBytes(frames[1..][..i - 1]), FrameBytes(frames[i]));
      assert frames[..i + 1][1..] == frames[1..][..i] && frames[..i][1..] == frames[1..][..i - 1];
    }
  }
}
