/** y-protocols sync messages: varuint type, varuint length, payload. The sidecar writes and reads
    them, the Go relay parses them for routing and for the durable log, the Python SDK for storage. */
module SyncMessages {
  import opened Bits
  import opened Options
  import opened Varuint

  const SYNC_ENVELOPE: Byte := 0
  const MSG_UPDATE: nat := 2

  // ---- the loops

  class Decoder {
    const buf: seq<Byte>
    var pos: nat

    constructor (buf: seq<Byte>)
      ensures this.buf == buf && pos == 0
    {
      this.buf := buf;
      pos := 0;
    }

    /** None stands for a thrown error, after which the position is not used again. */
    method ReadUint() returns (r: Option<nat>)
      modifies this
      ensures match ReadVarUint(Js, buf, old(pos))
        case Read(v, next) => r == Some(v) && pos == next
        case _ => r == None
    {
      var n, shift := 0, 0;
      while true
        invariant ReadVarUint(Js, buf, old(pos)) == ReadFrom(Js, buf, pos, n, shift)
        decreases |buf| - pos
      {
        if pos >= |buf| {
          return None;
        }
        var b := buf[pos];
        pos := pos + 1;
        n := BitOr(n, Shifted(Js, b, shift));
        if b < 128 {
          return Some(n);
        }
        shift := shift + 7;
        if shift > 35 {
          return None;
        }
      }
    }

    method ReadBytes() returns (r: Option<seq<Byte>>)
      modifies this
      ensures match JsReadBytes(buf, old(pos))
        case Some(bytes) => r == Some(bytes.0) && pos == bytes.1
        case None => r == None
    {
      var len := ReadUint();
      if len.None? || pos + len.value > |buf| {
        return None;
      }
      r := Some(buf[pos..pos + len.value]);
      pos := pos + len.value;
    }
  }

  class Encoder {
    var chunks: seq<Byte>
    var length: nat

    ghost predicate Valid()
      reads this
    {
      length == |chunks|
    }

    constructor ()
      ensures Valid() && chunks == []
    {
      chunks, length := [], 0;
    }

    method WriteUint(v: nat)
      requires Valid()
      modifies this
      ensures Valid() && chunks == old(chunks) + Write(v)
    {
      var n: nat := v;
      while n > 127
        invariant Valid() && old(chunks) + Write(v) == chunks + Write(n)
      {
        ModBound(n, TWO32);
        chunks := chunks + [128 + n % 128];
        length := length + 1;
        n := n % TWO32 / 128;
      }
      chunks := chunks + [n % 128];
      length := length + 1;
    }

    method WriteBytes(bytes: seq<Byte>)
      requires Valid()
      modifies this
      ensures Valid() && chunks == old(chunks) + Write(|bytes|) + bytes
    {
      WriteUint(|bytes|);
      chunks := chunks + bytes;
      length := length + |bytes|;
    }
  }

  method GoReadVarUint(buf: seq<Byte>, from: nat) returns (r: ReadResult)
    ensures r == ReadVarUint(Go, buf, from)
  {
    var n, shift, off := 0, 0, from;
    while true
      invariant ReadVarUint(Go, buf, from) == ReadFrom(Go, buf, off, n, shift)
      decreases |buf| - off
    {
      if off >= |buf| {
        return Eof;
      }
      var b := buf[off];
      off := off + 1;
      n := BitOr(n, Shifted(Go, b, shift));
      if b < 128 {
        return Read(n, off);
      }
      shift := shift + 7;
      if shift > 63 {
        return Overflow;
      }
    }
  }

  method PyReadVarUint(data: seq<Byte>, from: nat) returns (value: nat, pos: nat)
    ensures Read(value, pos) == ReadVarUint(Py, data, from)
  {
    value, pos := 0, from;
    var shift := 0;
    while pos < |data|
      invariant ReadVarUint(Py, data, from) == ReadFrom(Py, data, pos, value, shift)
      decreases |data| - pos
    {
      var b := data[pos];
      value := BitOr(value, Shifted(Py, b, shift));
      pos := pos + 1;
      if b < 128 {
        return;
      }
      shift := shift + 7;
    }
  }

  // ---- the parsers

  /** The bytes and the position behind them. */
  function JsReadBytes(buf: seq<Byte>, pos: nat): Option<(seq<Byte>, nat)> {
    match ReadVarUint(Js, buf, pos)
    case Read(len, at) =>
      if at + len > |buf| then None else Some((buf[at..at + len], at + len))
    case _ => None
  }

  datatype Parsed = Message(kind: nat, payload: seq<Byte>) | Refused | Panics

  /** The sidecar: types 0 to 2 carry one byte array, other types are refused. */
  function JsDecode(body: seq<Byte>): Parsed {
    match ReadVarUint(Js, body, 0)
    case Read(kind, off) =>
      var bytes := JsReadBytes(body, off);
      if kind > 2 || bytes.None? then Refused else Message(kind, bytes.value.0)
    case _ => Refused
  }

  /** Two's complement conversion to a 64-bit int. */
  function ToInt64(x: int): int {
    var m := x % TWO64;
    if m < TWO63 then m else m - TWO64
  }

  /** The relay. The end of the payload is computed in wrapping 64-bit arithmetic; a wrapped end
      passes the length test and the slice expression panics. */
  function GoSubMessage(body: seq<Byte>): Parsed {
    match ReadVarUint(Go, body, 0)
    case Read(kind, off) =>
      if kind > 2 then Refused
      else (match ReadVarUint(Go, body, off)
            case Read(len, at) =>
              var end := ToInt64(at + ToInt64(len));
              if end > |body| then Refused
              else if end < at then Panics
              else Message(kind, body[at..end])
            case _ => Refused)
    case _ => Refused
  }

  /** The Python SDK, on the whole frame: None unless it is a sync update. */
  function PyExtract(data: seq<Byte>): Option<seq<Byte>> {
    if |data| < 2 then None
    else
      var envelope := ReadVarUint(Py, data, 0);
      if envelope.value != 0 then None
      else
        var kind := ReadVarUint(Py, data, envelope.next);
        if kind.value != 2 then None
        else
          var len := ReadVarUint(Py, data, kind.next);
          if len.next + len.value > |data| then None
          else Some(data[len.next..len.next + len.value])
  }

  // ---- every party extracts the update that was framed

  /** A sync body as the encoder builds it. */
  function Body(kind: nat, payload: seq<Byte>): seq<Byte> {
    Write(kind) + Write(|payload|) + payload
  }

  /** A written number, read between any other bytes, in any dialect. */
  lemma {:induction false} ReadsBetween(d: Dialect, before: seq<Byte>, n: nat, behind: seq<Byte>)
    ensures ReadVarUint(d, before + Write(n) + behind, |before|) == Read(n % TWO32, |before + Write(n)|)
  {
    assert Holds(before + Write(n) + behind, |before|, Write(n));
    ReadBackWritten(d, before + Write(n) + behind, |before|, n);
  }

  lemma Regroup<T>(a: seq<T>, b: seq<T>, c: seq<T>, d: seq<T>)
    ensures a + (b + c + d) == a + b + (c + d) && a + (b + c + d) == a + b + c + d
  {
  }

  /** The first and the second number of a body behind `before`. */
  lemma {:induction false} BodyReadsKind(d: Dialect, before: seq<Byte>, kind: nat, payload: seq<Byte>)
    ensures ReadVarUint(d, before + Body(kind, payload), |before|) == Read(kind % TWO32, |before + Write(kind)|)
  {
    ReadsBetween(d, before, kind, Write(|payload|) + payload);
    Regroup(before, Write(kind), Write(|payload|), payload);
  }

  lemma {:induction false} BodyReadsLength(d: Dialect, before: seq<Byte>, kind: nat, payload: seq<Byte>)
    ensures ReadVarUint(d, before + Body(kind, payload), |before + Write(kind)|)
         == Read(|payload| % TWO32, |before + Write(kind) + Write(|payload|)|)
  {
    ReadsBetween(d, before + Write(kind), |payload|, payload);
    Regroup(before, Write(kind), Write(|payload|), payload);
  }

  /** The number of payload bytes a reader takes. */
  function Taken(payload: seq<Byte>): seq<Byte> {
    payload[..|payload| % TWO32]
  }

  lemma TailSlice(before: seq<Byte>, payload: seq<Byte>, k: nat)
    requires k <= |payload|
    ensures (before + payload)[|before|..|before| + k] == payload[..k]
  {
  }

  lemma SmallInt64(x: nat)
    requires x < TWO63
    ensures ToInt64(x) == x
  {
  }

  /** What the encoder writes as a byte array the decoder reads back, and goes on right behind it. */
  lemma {:induction false} BytesReadBack(before: seq<Byte>, bytes: seq<Byte>, behind: seq<Byte>)
    requires |bytes| < TWO32
    ensures JsReadBytes(before + Write(|bytes|) + bytes + behind, |before|)
         == Some((bytes, |before + Write(|bytes|) + bytes|))
  {
    var head := before + Write(|bytes|);
    ReadsBetween(Js, before, |bytes|, bytes + behind);
    assert head + bytes + behind == head + (bytes + behind);
    ModBound(|bytes|, TWO32);
    TailSlice(head, bytes + behind, |bytes|);
    assert (bytes + behind)[..|bytes|] == bytes;
  }

  lemma JsDecodesBody(kind: nat, payload: seq<Byte>)
    requires kind <= 2
    ensures JsDecode(Body(kind, payload)) == Message(kind, Taken(payload))
  {
    BodyReadsKind(Js, [], kind, payload);
    BodyReadsLength(Js, [], kind, payload);
    assert [] + Body(kind, payload) == Body(kind, payload) && [] + Write(kind) == Write(kind);
    ModBound(|payload|, TWO32);
    TailSlice(Write(kind) + Write(|payload|), payload, |payload| % TWO32);
  }

  lemma GoMessage(body: seq<Byte>, kind: nat, off: nat, len: nat, at: nat)
    requires ReadVarUint(Go, body, 0) == Read(kind, off) && ReadVarUint(Go, body, off) == Read(len, at)
    requires kind <= 2 && at + len <= |body| && at + len < TWO63
    ensures GoSubMessage(body) == Message(kind, body[at..at + len])
  {
    SmallInt64(len);
    SmallInt64(at + len);
  }

  lemma GoParsesBody(kind: nat, payload: seq<Byte>)
    requires kind <= 2
    ensures GoSubMessage(Body(kind, payload)) == Message(kind, Taken(payload))
  {
    BodyReadsKind(Go, [], kind, payload);
    BodyReadsLength(Go, [], kind, payload);
    assert [] + Body(kind, payload) == Body(kind, payload) && [] + Write(kind) == Write(kind);
    ModBound(|payload|, TWO32);
    WriteIsShort(kind);
    WriteIsShort(|payload|);
    GoMessage(Body(kind, payload), kind, |Write(kind)|, |payload| % TWO32, |Write(kind) + Write(|payload|)|);
    TailSlice(Write(kind) + Write(|payload|), payload, |payload| % TWO32);
  }

  lemma PyExtractsFrame(payload: seq<Byte>)
    ensures PyExtract([SYNC_ENVELOPE] + Body(MSG_UPDATE, payload)) == Some(Taken(payload))
  {
    var data := [SYNC_ENVELOPE] + Body(MSG_UPDATE, payload);
    BodyReadsKind(Py, [SYNC_ENVELOPE], MSG_UPDATE, payload);
    BodyReadsLength(Py, [SYNC_ENVELOPE], MSG_UPDATE, payload);
    assert Holds(data, 0, Write(0));
    ReadBackWritten(Py, data, 0, 0);
    ModBound(|payload|, TWO32);
    assert Write(0) == [0] && Write(MSG_UPDATE) == [2];
    var head := [SYNC_ENVELOPE] + Write(MSG_UPDATE) + Write(|payload|);
    assert data == head + payload;
    TailSlice(head, payload, |payload| % TWO32);
  }

  /** A framed update reaches the sidecar's document, the relay's log and the Python SDK byte for
      byte, if and only if it is shorter than 2^32 bytes. */
  lemma UpdateExtractedByAll(update: seq<Byte>)
    ensures |update| < TWO32 <==> JsDecode(Body(MSG_UPDATE, update)) == Message(MSG_UPDATE, update)
    ensures |update| < TWO32 <==> GoSubMessage(Body(MSG_UPDATE, update)) == Message(MSG_UPDATE, update)
    ensures |update| < TWO32 <==> PyExtract([SYNC_ENVELOPE] + Body(MSG_UPDATE, update)) == Some(update)
  {
    JsDecodesBody(MSG_UPDATE, update);
    GoParsesBody(MSG_UPDATE, update);
    PyExtractsFrame(update);
    ModBound(|update|, TWO32);
    assert |update| < TWO32 ==> Taken(update) == update;
    assert |Taken(update)| < TWO32;
  }

  // ---- the relay's parser on every input

  /** The number a Go reader returns is in the buffer, and a uint64. */
  lemma GoReadBounds(buf: seq<Byte>, pos: nat)
    ensures var r := ReadVarUint(Go, buf, pos); r.Read? ==> r.next <= |buf| && r.value < TWO64
  {
    if EndOf(buf, pos).Some? {
      ReadFromShape(Go, buf, pos, 0, 0);
    } else {
      ReadFromUnterminated(Go, buf, pos, 0, 0);
    }
  }

  /** The end of a payload in wrapping arithmetic: right below 2^63, in front of its start otherwise. */
  lemma WrappedEnd(at: nat, len: nat)
    requires at < TWO63 && len < TWO64
    ensures var end := ToInt64(at + ToInt64(len)); if at + len < TWO63 then end == at + len else end < at
  {
  }

  /** For every body a Go program can hold: a message if and only if its type is known and its payload
      is all there; a panic if and only if the end of the payload is beyond 2^63. */
  lemma GoSubMessageExact(body: seq<Byte>)
    requires |body| < TWO63
    ensures match (ReadVarUint(Go, body, 0))
      case Read(kind, off) =>
        (match ReadVarUint(Go, body, off)
         case Read(len, at) =>
           GoSubMessage(body) ==
             if kind > 2 then Refused
             else if at + len >= TWO63 then Panics
             else if at + len > |body| then Refused
             else Message(kind, body[at..at + len])
         case _ => GoSubMessage(body) == Refused)
      case _ => GoSubMessage(body) == Refused
  {
    match ReadVarUint(Go, body, 0) {
      case Read(kind, off) =>
        match ReadVarUint(Go, body, off) {
          case Read(len, at) =>
            GoReadBounds(body, off);
            WrappedEnd(at, len);
          case _ =>
        }
      case _ =>
    }
  }

  // ---- the Python SDK on every frame, and all three together

  /** For every frame: an update is extracted if and only if the envelope says sync, the type says update
      and the announced bytes are all there; it is those bytes. Missing final bytes do not matter. */
  lemma {:induction false} PyExtractExact(data: seq<Byte>)
    ensures var kind := GroupsEnd(data, 0);
      var length := GroupsEnd(data, kind);
      var at, n := GroupsEnd(data, length), Groups(data, length);
      PyExtract(data) ==
        if |data| >= 2 && Groups(data, 0) == 0 && Groups(data, kind) == MSG_UPDATE && at + n <= |data|
        then Some(data[at..at + n]) else None
  {
    PyReadMeans(data, 0);
    PyReadMeans(data, GroupsEnd(data, 0));
    PyReadMeans(data, GroupsEnd(data, GroupsEnd(data, 0)));
  }

  /** A number from `pos` to `next` that every reader takes and holds. */
  ghost predicate Plain(buf: seq<Byte>, pos: nat, value: nat, next: nat) {
    EndOf(buf, pos) == Some(next) && next <= pos + 6 && Value(buf, pos) == value < TWO32
  }

  lemma PlainReads(d: Dialect, buf: seq<Byte>, pos: nat, value: nat, next: nat)
    requires Plain(buf, pos, value, next)
    ensures ReadVarUint(d, buf, pos) == Read(value, next)
  {
    ReadVarUintExact(d, buf, pos);
  }

  lemma {:induction false} PlainBehind(before: Byte, buf: seq<Byte>, pos: nat)
    requires EndOf(buf, pos).Some?
    ensures EndOf([before] + buf, pos + 1) == Some(EndOf(buf, pos).value + 1)
    ensures Value([before] + buf, pos + 1) == Value(buf, pos)
    decreases |buf| - pos
  {
    if buf[pos] >= 128 {
      PlainBehind(before, buf, pos + 1);
    }
  }

  lemma JsGoAgree(body: seq<Byte>, kind: nat, off: nat, len: nat, at: nat)
    requires |body| < TWO63 && Plain(body, 0, kind, off) && Plain(body, off, len, at)
    ensures JsDecode(body) == GoSubMessage(body) ==
      if kind <= 2 && at + len <= |body| then Message(kind, body[at..at + len]) else Refused
  {
    PlainReads(Js, body, 0, kind, off);
    PlainReads(Js, body, off, len, at);
    PlainReads(Go, body, 0, kind, off);
    PlainReads(Go, body, off, len, at);
    SmallInt64(len);
    SmallInt64(at + len);
  }

  lemma SliceBehindByte(before: Byte, body: seq<Byte>, at: nat, len: nat)
    requires at + len <= |body|
    ensures ([before] + body)[at + 1..at + 1 + len] == body[at..at + len]
  {
    var data := [before] + body;
    assert data[1..] == body;
    assert data[at + 1..at + 1 + len] == data[1..][at..at + len];
  }

  lemma PyAgrees(body: seq<Byte>, kind: nat, off: nat, len: nat, at: nat)
    requires Plain(body, 0, kind, off) && Plain(body, off, len, at)
    ensures PyExtract([SYNC_ENVELOPE] + body) ==
      if kind == MSG_UPDATE && at + len <= |body| then Some(body[at..at + len]) else None
  {
    var data := [SYNC_ENVELOPE] + body;
    PlainBehind(SYNC_ENVELOPE, body, 0);
    PlainBehind(SYNC_ENVELOPE, body, off);
    assert EndOf(data, 0) == Some(1) && Value(data, 0) == 0;
    PlainReads(Py, data, 0, 0, 1);
    PlainReads(Py, data, 1, kind, off + 1);
    PlainReads(Py, data, off + 1, len, at + 1);
    if at + len <= |body| {
      SliceBehindByte(SYNC_ENVELOPE, body, at, len);
    }
  }

  /** Whoever wrote the body: if its two numbers are terminated, of at most six bytes and below 2^32, then
      sidecar and relay read the same message or refuse alike, and the Python SDK stores an update exactly
      if that message is one. */
  lemma ParsersAgree(body: seq<Byte>, kind: nat, off: nat, len: nat, at: nat)
    requires |body| < TWO63 && Plain(body, 0, kind, off) && Plain(body, off, len, at)
    ensures JsDecode(body) == GoSubMessage(body)
    ensures forall p :: PyExtract([SYNC_ENVELOPE] + body) == Some(p) <==> GoSubMessage(body) == Message(MSG_UPDATE, p)
  {
    JsGoAgree(body, kind, off, len, at);
    PyAgrees(body, kind, off, len, at);
  }

  /** Not so on truncated frames: Python takes one that ends behind the type for an empty update, and
      the others refuse it. */
  lemma TruncatedUpdateIsStored()
    ensures PyExtract([SYNC_ENVELOPE, 2]) == Some([])
    ensures JsDecode([2]) == GoSubMessage([2]) == Refused
  {
    var data := [SYNC_ENVELOPE, 2];
    assert GroupsEnd(data, 0) == 1 && GroupsEnd(data, 1) == GroupsEnd(data, 2) == 2;
    assert Groups(data, 0) == Groups(data, 2) == 0 && Groups(data, 1) == 2;
    PyExtractExact(data);
    assert data[2..2] == [];
    PlainReads(Js, [2], 0, 2, 1);
    PlainReads(Go, [2], 0, 2, 1);
  }

  lemma {:induction false} OneBehindZeroGroups(buf: seq<Byte>, pos: nat, groups: nat)
    requires pos + groups < |buf| && buf[pos + groups] == 1
    requires forall k :: pos <= k < pos + groups ==> buf[k] == 128
    ensures EndOf(buf, pos) == Some(pos + groups + 1) && Value(buf, pos) == Shl(1, 7 * groups)
    decreases groups
  {
    if groups > 0 {
      OneBehindZeroGroups(buf, pos + 1, groups - 1);
      ShlShl(1, 7 * (groups - 1), 7);
      Shl8(Shl(1, 7 * (groups - 1)));
    }
  }

  const HUGE_LENGTH: seq<Byte> := [2, 128, 128, 128, 128, 128, 128, 128, 128, 128, 1]

  /** Eleven bytes are enough: an update that announces 2^63 bytes. The sidecar refuses them. */
  lemma HugeLengthPanics()
    ensures GoSubMessage(HUGE_LENGTH) == Panics && JsDecode(HUGE_LENGTH) == Refused
  {
    var b := HUGE_LENGTH;
    OneBehindZeroGroups(b, 1, 9);
    ShlConstants(1);
    assert Shl(1, 64) == 2 * Shl(1, 63);
    ReadVarUintExact(Go, b, 0);
    ReadVarUintExact(Go, b, 1);
    ReadVarUintExact(Js, b, 0);
    ReadVarUintExact(Js, b, 1);
    GoSubMessageExact(b);
  }
}
