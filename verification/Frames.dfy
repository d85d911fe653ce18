/** The wire frames between relay and sidecar, the sidecar's reassembly of a chunked byte stream,
    and the relay's sequential reader.

    Frame: version u8, length u32 (big endian, everything behind it), seq u32, op u8, status u8, payload. */
module Frames {
  import opened Bits
  import opened Options

  const PROTOCOL_VERSION: Byte := 1
  const HEADER_BYTES: nat := 11

  datatype Frame = Frame(seqNo: nat, op: Byte, status: Byte, payload: seq<Byte>)

  /** What both encoders can represent. */
  ghost predicate WellFormed(f: Frame) {
    f.seqNo < TWO32 && 6 + |f.payload| < TWO32
  }

  // ---- big-endian u32

  function PutUint32(n: nat): (b: seq<Byte>)
    ensures |b| == 4
  {
    [n / 0x100_0000 % 256, n / 0x1_0000 % 256, n / 0x100 % 256, n % 256]
  }

  function Uint32(b: seq<Byte>): (n: nat)
    requires |b| == 4
    ensures n < TWO32
  {
    var (b0: int, b1: int, b2: int, b3: int) := (b[0], b[1], b[2], b[3]);
    b0 * 0x100_0000 + b1 * 0x1_0000 + b2 * 0x100 + b3
  }

  lemma Uint32RoundTrip(n: nat)
    requires n < TWO32
    ensures Uint32(PutUint32(n)) == n
  {
    assert n / 0x100 == n / 0x1_0000 * 0x100 + n / 0x100 % 0x100;
    assert n / 0x1_0000 == n / 0x100_0000 * 0x100 + n / 0x1_0000 % 0x100;
  }

  lemma TopDigit(hi: nat, lo: nat)
    requires lo < 256
    ensures (hi * 256 + lo) / 256 == hi && (hi * 256 + lo) % 256 == lo
  {
  }

  lemma Uint32Injective(b: seq<Byte>)
    requires |b| == 4
    ensures PutUint32(Uint32(b)) == b
  {
    var (b0: int, b1: int, b2: int, b3: int) := (b[0], b[1], b[2], b[3]);
    var n := Uint32(b);
    var h2, h1 := (b0 * 256 + b1) * 256 + b2, b0 * 256 + b1;
    TopDigit(h2, b3);
    TopDigit(h1, b2);
    TopDigit(b0, b1);
    assert n == h2 * 256 + b3;
    assert n / 0x1_0000 == n / 256 / 256 == h1;
    assert n / 0x100_0000 == n / 0x1_0000 / 256 == b0;
  }

  // ---- encoding

  function Header(f: Frame): (b: seq<Byte>)
    ensures |b| == HEADER_BYTES
  {
    [PROTOCOL_VERSION] + PutUint32(6 + |f.payload|) + PutUint32(f.seqNo) + [f.op, f.status]
  }

  function Encode(f: Frame): (b: seq<Byte>)
    ensures |b| == HEADER_BYTES + |f.payload|
  {
    Header(f) + f.payload
  }

  /** A bulk copy to a fixed offset. */
  method CopyTo(out: array<Byte>, at: nat, b: seq<Byte>)
    requires at + |b| <= out.Length
    modifies out
    ensures out[..] == old(out[..at]) + b + old(out[at + |b|..])
  {
    for k := 0 to |b|
      invariant out[..at] == old(out[..at]) && out[at..at + k] == b[..k]
      invariant out[at + k..] == old(out[at + k..])
    {
      out[at + k] := b[k];
    }
    assert out[..] == out[..at] + out[at..at + |b|] + out[at + |b|..];
  }

  method WriteHeader(out: array<Byte>, f: Frame)
    requires HEADER_BYTES <= out.Length
    modifies out
    ensures out[..HEADER_BYTES] == Header(f)
  {
    out[0] := PROTOCOL_VERSION;
    CopyTo(out, 1, PutUint32(6 + |f.payload|));
    CopyTo(out, 5, PutUint32(f.seqNo));
    out[9] := f.op;
    out[10] := f.status;
  }

  /** The relay writes the fields at fixed offsets; a length beyond 32 bits is cut off. */
  method BuildFrame(f: Frame) returns (out: array<Byte>)
    ensures fresh(out) && out[..] == Encode(f)
  {
    out := new Byte[HEADER_BYTES + |f.payload|](_ => 0);
    WriteHeader(out, f);
    CopyTo(out, HEADER_BYTES, f.payload);
  }

  /** Node's buffers refuse a number beyond 32 bits, and then there is no frame. */
  method NodeWriteUint32(out: array<Byte>, n: nat, at: nat) returns (ok: bool)
    requires at + 4 <= out.Length
    modifies out
    ensures ok <==> n < TWO32
    ensures ok ==> out[..] == old(out[..at]) + PutUint32(n) + old(out[at + 4..])
  {
    ok := n < TWO32;
    if ok {
      CopyTo(out, at, PutUint32(n));
    }
  }

  /** The sidecar does the same, but throws on what the relay would cut off. */
  method NodeBuildFrame(f: Frame) returns (r: Option<array<Byte>>)
    ensures r.Some? <==> WellFormed(f)
    ensures r.Some? ==> fresh(r.value) && r.value[..] == Encode(f)
  {
    var out := new Byte[HEADER_BYTES + |f.payload|](_ => 0);
    out[0] := PROTOCOL_VERSION;
    var ok := NodeWriteUint32(out, 6 + |f.payload|, 1);
    if !ok {
      return None;
    }
    ok := NodeWriteUint32(out, f.seqNo, 5);
    if !ok {
      return None;
    }
    out[9] := f.op;
    out[10] := f.status;
    assert out[..HEADER_BYTES] == Header(f);
    CopyTo(out, HEADER_BYTES, f.payload);
    r := Some(out);
  }

  function Concat(chunks: seq<seq<Byte>>): seq<Byte> {
    if chunks == [] then [] else chunks[0] + Concat(chunks[1..])
  }

  function Encoded(fs: seq<Frame>): seq<seq<Byte>> {
    seq(|fs|, k requires 0 <= k < |fs| => Encode(fs[k]))
  }

  /** The bytes on the wire when the frames are sent one after another. */
  function EncodeAll(fs: seq<Frame>): seq<Byte> {
    Concat(Encoded(fs))
  }

  // ---- the sidecar

  /** What one call of the data handler leaves behind. A thrown version or header error is not
      caught, so the process is gone: `crashed`. */
  datatype Stream = Stream(buffer: seq<Byte>, handled: seq<Frame>, crashed: bool)

  const Fresh: Stream := Stream([], [], false)

  /** The size of the first frame in the buffer, once all of it is there. */
  function FirstFrame(buffer: seq<Byte>): (n: Option<nat>)
    ensures n.Some? ==> 5 <= n.value <= |buffer|
  {
    if |buffer| < 5 then None
    else
      var total := 5 + Uint32(buffer[1..5]);
      if |buffer| < total then None else Some(total)
  }

  /** `processFrame` can read its header: right version, and op still inside the frame. */
  predicate HeaderOk(b: seq<Byte>) {
    |b| >= 10 && b[0] == PROTOCOL_VERSION
  }

  /** The header and payload that `processFrame` dispatches on. The status byte is not looked at. */
  function Decoded(b: seq<Byte>): Frame
    requires HeaderOk(b)
  {
    Frame(Uint32(b[5..9]), b[9], if |b| > 10 then b[10] else 0, if |b| > HEADER_BYTES then b[HEADER_BYTES..] else [])
  }

  /** Cut the first frame off and process it. */
  function Step(s: Stream): Stream
    requires FirstFrame(s.buffer).Some?
  {
    var n := FirstFrame(s.buffer).value;
    var frame, rest := s.buffer[..n], s.buffer[n..];
    if HeaderOk(frame) then Stream(rest, s.handled + [Decoded(frame)], false)
    else Stream(rest, s.handled, true)
  }

  function Drain(s: Stream): Stream
    decreases |s.buffer|
  {
    if s.crashed || FirstFrame(s.buffer).None? then s else Drain(Step(s))
  }

  /** One `data` event. */
  function OnData(s: Stream, chunk: seq<Byte>): Stream {
    if s.crashed then s else Drain(s.(buffer := s.buffer + chunk))
  }

  function OnChunks(s: Stream, chunks: seq<seq<Byte>>): Stream
    decreases |chunks|
  {
    if chunks == [] then s else OnChunks(OnData(s, chunks[0]), chunks[1..])
  }

  class Connection {
    var buffer: seq<Byte>
    var handled: seq<Frame>
    var crashed: bool

    function View(): Stream
      reads this
    {
      Stream(buffer, handled, crashed)
    }

    constructor ()
      ensures View() == Fresh
    {
      buffer, handled, crashed := [], [], false;
    }

    /** The reassembly loop: as many whole frames as the buffer holds. */
    method Data(chunk: seq<Byte>)
      modifies this
      ensures View() == OnData(old(View()), chunk)
    {
      if crashed {
        return;
      }
      buffer := buffer + chunk;
      while true
        invariant !crashed && Drain(View()) == OnData(old(View()), chunk)
        decreases |buffer|
      {
        if |buffer| < 5 {
          return;
        }
        var length := Uint32(buffer[1..5]);
        var total := 1 + 4 + length;
        if |buffer| < total {
          return;
        }
        ghost var next := Step(View());
        var frame := buffer[..total];
        buffer := buffer[total..];
        if !HeaderOk(frame) {
          crashed := true;
          assert View() == next;
          return;
        }
        handled := handled + [Decoded(frame)];
        assert View() == next;
      }
    }
  }

  lemma FirstFrameStable(b: seq<Byte>, more: seq<Byte>)
    requires FirstFrame(b).Some?
    ensures FirstFrame(b + more) == FirstFrame(b)
    ensures (b + more)[..FirstFrame(b).value] == b[..FirstFrame(b).value]
    ensures (b + more)[FirstFrame(b).value..] == b[FirstFrame(b).value..] + more
  {
    assert (b + more)[1..5] == b[1..5];
  }

  /** Stopping for more bytes and going on later is the same as having had them at once,
      up to the unread bytes of a crashed stream. */
  lemma {:induction false} DrainThenMore(s: Stream, more: seq<Byte>)
    requires !s.crashed
    ensures Same(OnData(Drain(s), more), Drain(s.(buffer := s.buffer + more)))
    decreases |s.buffer|
  {
    if FirstFrame(s.buffer).Some? {
      FirstFrameStable(s.buffer, more);
      if !Step(s).crashed {
        DrainThenMore(Step(s), more);
      }
    }
  }

  /** Nobody reads the buffer of a crashed process. */
  ghost predicate Same(a: Stream, b: Stream) {
    a.handled == b.handled && a.crashed == b.crashed && (a.crashed || a.buffer == b.buffer)
  }

  lemma OnDataTwice(s: Stream, x: seq<Byte>, y: seq<Byte>)
    ensures Same(OnData(OnData(s, x), y), OnData(s, x + y))
  {
    if !s.crashed {
      DrainThenMore(s.(buffer := s.buffer + x), y);
      assert s.buffer + x + y == s.buffer + (x + y);
    }
  }

  /** No whole frame is waiting in the buffer. */
  ghost predicate Settled(s: Stream) {
    s.crashed || FirstFrame(s.buffer).None?
  }

  /** For every byte stream and every way to cut it into chunks, what the sidecar has handled and
      what it still holds depend only on the bytes. */
  lemma {:induction false} ChunkingIsInvisible(s: Stream, chunks: seq<seq<Byte>>)
    requires Settled(s)
    ensures Same(OnChunks(s, chunks), OnData(s, Concat(chunks)))
    decreases |chunks|
  {
    if chunks == [] {
      assert s.buffer + [] == s.buffer;
    } else {
      if !s.crashed {
        DrainSettles(s.(buffer := s.buffer + chunks[0]));
      }
      ChunkingIsInvisible(OnData(s, chunks[0]), chunks[1..]);
      OnDataTwice(s, chunks[0], Concat(chunks[1..]));
    }
  }

  lemma {:induction false} DrainSettles(s: Stream)
    ensures Settled(Drain(s))
    decreases |s.buffer|
  {
    if !Settled(s) {
      DrainSettles(Step(s));
    }
  }

  // ---- both readers get the frames that were sent

  lemma EncodedLayout(f: Frame, rest: seq<Byte>)
    requires WellFormed(f)
    ensures var b := Encode(f) + rest;
      && Uint32(b[1..5]) == 6 + |f.payload| && Uint32(b[5..9]) == f.seqNo
      && b[0] == PROTOCOL_VERSION && b[9] == f.op && b[10] == f.status
      && b[HEADER_BYTES..HEADER_BYTES + |f.payload|] == f.payload
      && b[|Encode(f)|..] == rest
  {
    Uint32RoundTrip(6 + |f.payload|);
    Uint32RoundTrip(f.seqNo);
    var b := Encode(f) + rest;
    assert b[1..5] == PutUint32(6 + |f.payload|);
    assert b[5..9] == PutUint32(f.seqNo);
  }

  /** `b` is one whole frame, and the sidecar reads it as `f`. */
  ghost predicate Represents(b: seq<Byte>, f: Frame) {
    FirstFrame(b) == Some(|b|) && HeaderOk(b) && Decoded(b) == f
  }

  lemma EncodeRepresents(f: Frame)
    requires WellFormed(f)
    ensures Represents(Encode(f), f)
  {
    EncodedLayout(f, []);
    assert Encode(f) + [] == Encode(f);
    assert Encode(f)[HEADER_BYTES..] == f.payload;
  }

  lemma DrainFirst(handled: seq<Frame>, b: seq<Byte>, f: Frame, rest: seq<Byte>)
    requires Represents(b, f)
    ensures Drain(Stream(b + rest, handled, false)) == Drain(Stream(rest, handled + [f], false))
  {
    FirstFrameStable(b, rest);
    assert b[..|b|] == b && b[|b|..] + rest == rest;
    assert Step(Stream(b + rest, handled, false)) == Stream(rest, handled + [f], false);
  }

  lemma {:induction false} DrainRepresented(handled: seq<Frame>, blocks: seq<seq<Byte>>, fs: seq<Frame>)
    requires |blocks| == |fs| && forall k :: 0 <= k < |fs| ==> Represents(blocks[k], fs[k])
    ensures Drain(Stream(Concat(blocks), handled, false)) == Stream([], handled + fs, false)
    decreases |fs|
  {
    if fs == [] {
      assert handled + fs == handled;
    } else {
      DrainRepresented(handled + [fs[0]], blocks[1..], fs[1..]);
      assert handled + [fs[0]] + fs[1..] == handled + fs;
      DrainFirst(handled, blocks[0], fs[0], Concat(blocks[1..]));
    }
  }

  lemma EncodedRepresents(fs: seq<Frame>)
    requires forall k :: 0 <= k < |fs| ==> WellFormed(fs[k])
    ensures |Encoded(fs)| == |fs| && forall k :: 0 <= k < |fs| ==> Represents(Encoded(fs)[k], fs[k])
  {
    forall k | 0 <= k < |fs|
      ensures Represents(Encoded(fs)[k], fs[k])
    {
      EncodeRepresents(fs[k]);
    }
  }

  /** However the bytes of well-formed frames are chunked, the sidecar handles exactly those
      frames in order and ends with an empty buffer. */
  lemma {:induction false} SidecarHandlesSentFrames(fs: seq<Frame>, chunks: seq<seq<Byte>>)
    requires forall k :: 0 <= k < |fs| ==> WellFormed(fs[k])
    requires Concat(chunks) == EncodeAll(fs)
    ensures OnChunks(Fresh, chunks) == Stream([], fs, false)
  {
    ChunkingIsInvisible(Fresh, chunks);
    assert Fresh.buffer + EncodeAll(fs) == EncodeAll(fs);
    EncodedRepresents(fs);
    DrainRepresented([], Encoded(fs), fs);
    assert [] + fs == fs;
  }

  // ---- the relay's reader

  datatype GoRead = Got(frame: Frame, rest: seq<Byte>) | CleanEof | UnexpectedEof | InvalidFrame

  function ReadFrame(b: seq<Byte>): GoRead {
    if b == [] then CleanEof
    else if |b| < HEADER_BYTES then UnexpectedEof
    else if b[0] != PROTOCOL_VERSION then InvalidFrame
    else
      var bodyLen := Uint32(b[1..5]);
      if bodyLen < 6 then InvalidFrame
      else
        var end := HEADER_BYTES + bodyLen - 6;
        if |b| < end then InvalidFrame
        else Got(Frame(Uint32(b[5..9]), b[9], b[10], b[HEADER_BYTES..end]), b[end..])
  }

  function ReadAll(b: seq<Byte>): (r: (seq<Frame>, GoRead))
    decreases |b|
  {
    var r := ReadFrame(b);
    if !r.Got? then ([], r)
    else
      var more := ReadAll(r.rest);
      ([r.frame] + more.0, more.1)
  }

  lemma {:induction false} ReadAllFirst(b: seq<Byte>, f: Frame, rest: seq<Byte>)
    requires ReadFrame(b) == Got(f, rest)
    ensures ReadAll(b) == ([f] + ReadAll(rest).0, ReadAll(rest).1)
  {
  }

  lemma {:induction false} ReadAllMore(frames: seq<Frame>, b: seq<Byte>)
    ensures match ReadFrame(b)
      case Got(f, rest) => frames + ReadAll(b).0 == frames + [f] + ReadAll(rest).0 && ReadAll(b).1 == ReadAll(rest).1
      case r => frames + ReadAll(b).0 == frames && ReadAll(b).1 == r
  {
    var r := ReadFrame(b);
    if r.Got? {
      ReadAllFirst(b, r.frame, r.rest);
      assert frames + ([r.frame] + ReadAll(r.rest).0) == frames + [r.frame] + ReadAll(r.rest).0;
    }
  }

  /** The read loop over a stream that is then closed: the frames and how it ended. */
  method ReadLoop(stream: seq<Byte>) returns (frames: seq<Frame>, ended: GoRead)
    ensures (frames, ended) == ReadAll(stream)
    ensures !ended.Got?
  {
    frames := [];
    var b := stream;
    assert [] + ReadAll(stream).0 == ReadAll(stream).0;
    while true
      invariant ReadAll(stream) == (frames + ReadAll(b).0, ReadAll(b).1)
      decreases |b|
    {
      var r := ReadFrame(b);
      ReadAllMore(frames, b);
      if !r.Got? {
        return frames, r;
      }
      frames := frames + [r.frame];
      b := r.rest;
    }
  }

  lemma ReadsFirst(f: Frame, rest: seq<Byte>)
    requires WellFormed(f)
    ensures ReadFrame(Encode(f) + rest) == Got(f, rest)
  {
    EncodedLayout(f, rest);
  }

  /** The reader accepts exactly the encodings of well-formed frames. */
  lemma ReadFrameInverts(b: seq<Byte>, f: Frame, rest: seq<Byte>)
    ensures ReadFrame(b) == Got(f, rest) <==> WellFormed(f) && b == Encode(f) + rest
  {
    if ReadFrame(b) == Got(f, rest) {
      Uint32Injective(b[1..5]);
      Uint32Injective(b[5..9]);
      assert Header(f) == b[..HEADER_BYTES];
      assert b == b[..HEADER_BYTES] + f.payload + rest;
    } else if WellFormed(f) && b == Encode(f) + rest {
      ReadsFirst(f, rest);
      assert false;
    }
  }

  lemma EncodeAllFirst(fs: seq<Frame>)
    requires fs != []
    ensures EncodeAll(fs) == Encode(fs[0]) + EncodeAll(fs[1..])
  {
    assert Encoded(fs)[1..] == Encoded(fs[1..]);
  }

  lemma {:induction false} RelayReadsSentFrames(fs: seq<Frame>)
    requires forall k :: 0 <= k < |fs| ==> WellFormed(fs[k])
    ensures ReadAll(EncodeAll(fs)) == (fs, CleanEof)
    decreases |fs|
  {
    if fs != [] {
      var rest := EncodeAll(fs[1..]);
      EncodeAllFirst(fs);
      ReadsFirst(fs[0], rest);
      ReadAllFirst(EncodeAll(fs), fs[0], rest);
      RelayReadsSentFrames(fs[1..]);
      assert fs == [fs[0]] + fs[1..];
    }
  }

  // ---- streams that break off or go wrong

  lemma {:induction false} RelayReadsThenEnds(fs: seq<Frame>, tail: seq<Byte>)
    requires forall k :: 0 <= k < |fs| ==> WellFormed(fs[k])
    requires !ReadFrame(tail).Got?
    ensures ReadAll(EncodeAll(fs) + tail) == (fs, ReadFrame(tail))
    decreases |fs|
  {
    if fs == [] {
      assert EncodeAll(fs) + tail == tail;
    } else {
      var rest := EncodeAll(fs[1..]) + tail;
      EncodeAllFirst(fs);
      assert EncodeAll(fs) + tail == Encode(fs[0]) + rest;
      ReadsFirst(fs[0], rest);
      ReadAllFirst(EncodeAll(fs) + tail, fs[0], rest);
      RelayReadsThenEnds(fs[1..], tail);
      assert fs == [fs[0]] + fs[1..];
    }
  }

  lemma ReadsTruncated(f: Frame, k: nat)
    requires WellFormed(f) && k < |Encode(f)|
    ensures ReadFrame(Encode(f)[..k]) == if k == 0 then CleanEof else if k < HEADER_BYTES then UnexpectedEof else InvalidFrame
  {
    EncodedLayout(f, []);
    assert Encode(f) + [] == Encode(f);
    if k >= HEADER_BYTES {
      assert Encode(f)[..k][1..5] == Encode(f)[1..5];
    }
  }

  /** The sidecar goes away in the middle of a stream: the relay has every frame sent in full, and the end
      is clean only between frames, unexpected inside a header, and an invalid frame inside a payload. */
  lemma RelayReadsTruncatedStream(fs: seq<Frame>, f: Frame, k: nat)
    requires (forall j :: 0 <= j < |fs| ==> WellFormed(fs[j])) && WellFormed(f) && k < |Encode(f)|
    ensures ReadAll(EncodeAll(fs) + Encode(f)[..k]) ==
      (fs, if k == 0 then CleanEof else if k < HEADER_BYTES then UnexpectedEof else InvalidFrame)
  {
    ReadsTruncated(f, k);
    RelayReadsThenEnds(fs, Encode(f)[..k]);
  }

  lemma BehindSentFrames(fs: seq<Frame>, more: seq<Byte>)
    requires forall k :: 0 <= k < |fs| ==> WellFormed(fs[k])
    ensures Same(OnData(Fresh, EncodeAll(fs) + more), Drain(Stream(more, fs, false)))
  {
    var all := [EncodeAll(fs)];
    assert all[1..] == [] && Concat(all) == EncodeAll(fs) + Concat([]) == EncodeAll(fs);
    SidecarHandlesSentFrames(fs, all);
    assert OnData(Fresh, EncodeAll(fs)) == Stream([], fs, false);
    OnDataTwice(Fresh, EncodeAll(fs), more);
    assert [] + more == more;
  }

  lemma DrainWhole(handled: seq<Frame>, b: seq<Byte>, rest: seq<Byte>)
    requires FirstFrame(b) == Some(|b|)
    ensures var s := Drain(Stream(b + rest, handled, false));
      if HeaderOk(b) then s == Drain(Stream(rest, handled + [Decoded(b)], false)) else s == Stream(rest, handled, true)
  {
    FirstFrameStable(b, rest);
    assert b[..|b|] == b && b[|b|..] + rest == rest;
  }

  /** A frame of a foreign version, or one too short for an op, takes the sidecar down, and no other whole
      frame does. What came before it has been handled, nothing behind it is. */
  lemma BadFrameCrashesIff(fs: seq<Frame>, bad: seq<Byte>, rest: seq<Byte>)
    requires forall k :: 0 <= k < |fs| ==> WellFormed(fs[k])
    requires |bad| >= 5 && |bad| == 5 + Uint32(bad[1..5])
    ensures var s := OnData(Fresh, EncodeAll(fs) + (bad + rest));
      if bad[0] != PROTOCOL_VERSION || |bad| < 10
      then s.crashed && s.handled == fs
      else Same(s, Drain(Stream(rest, fs + [Decoded(bad)], false)))
  {
    BehindSentFrames(fs, bad + rest);
    DrainWhole(fs, bad, rest);
  }

  // ---- answers

  /** The bytes of a thrown error's message. A JavaScript string is far shorter than 2^32 bytes. */
  type ErrorText = m: seq<Byte> | 6 + |m| < TWO32

  datatype Handled = Reply(payload: seq<Byte>) | Fails(message: ErrorText)

  const STATUS_OK: Byte := 0
  const STATUS_ERR: Byte := 1

  /** The sidecar copies seq and op; the op's handler decides status and payload. An answer that no
      frame can hold makes the frame builder throw `tooLong`, which is answered like any other error. */
  function Respond(f: Frame, handle: (Byte, seq<Byte>) -> Handled, tooLong: ErrorText): (r: Frame)
    ensures WellFormed(f) ==> WellFormed(r)
  {
    match handle(f.op, f.payload)
    case Reply(p) =>
      if 6 + |p| < TWO32 then Frame(f.seqNo, f.op, STATUS_OK, p) else Frame(f.seqNo, f.op, STATUS_ERR, tooLong)
    case Fails(m) => Frame(f.seqNo, f.op, STATUS_ERR, m)
  }

  function Responses(fs: seq<Frame>, handle: (Byte, seq<Byte>) -> Handled, tooLong: ErrorText): seq<Frame> {
    seq(|fs|, k requires 0 <= k < |fs| => Respond(fs[k], handle, tooLong))
  }

  /** Requests sent in any chunks and answers read back: the relay gets, in order, one answer per
      request, with the request's own sequence number and op, and it is an error exactly if the
      handler failed or its result does not fit a frame. */
  lemma {:induction false} RoundTripEchoesSequence(fs: seq<Frame>, chunks: seq<seq<Byte>>,
                                                   handle: (Byte, seq<Byte>) -> Handled, tooLong: ErrorText)
    requires forall k :: 0 <= k < |fs| ==> WellFormed(fs[k])
    requires Concat(chunks) == EncodeAll(fs)
    ensures var answers := ReadAll(EncodeAll(Responses(OnChunks(Fresh, chunks).handled, handle, tooLong)));
      && answers.1 == CleanEof && |answers.0| == |fs|
      && forall k :: 0 <= k < |fs| ==>
           var a, h := answers.0[k], handle(fs[k].op, fs[k].payload);
           && a.seqNo == fs[k].seqNo && a.op == fs[k].op
           && (a.status == STATUS_OK <==> h.Reply? && 6 + |h.payload| < TWO32)
           && (a.status == STATUS_OK ==> a.payload == h.payload)
           && (a.status != STATUS_OK ==> a.status == STATUS_ERR && a.payload == if h.Fails? then h.message else tooLong)
  {
    SidecarHandlesSentFrames(fs, chunks);
    RelayReadsSentFrames(Responses(fs, handle, tooLong));
  }
}
