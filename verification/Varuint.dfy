/** lib0 variable-length integers as the Node sidecar writes them and as the sidecar, the Go relay
    and the Python SDK read them, each with its own integer width. */
module Varuint {
  import opened Bits
  import opened Options

  /** The three readers: JavaScript's 32-bit shifts, Go's uint64, Python's unbounded integers. */
  datatype Dialect = Js | Go | Py

  datatype ReadResult = Read(value: nat, next: nat) | Eof | Overflow

  // ---- what the bytes mean

  /** The offset behind the first byte without a continuation bit. */
  function EndOf(buf: seq<Byte>, pos: nat): (e: Option<nat>)
    ensures e.Some? ==> pos < e.value <= |buf|
    decreases |buf| - pos
  {
    if pos >= |buf| then None
    else if buf[pos] < 128 then Some(pos + 1)
    else EndOf(buf, pos + 1)
  }

  /** The number written from `pos` on, seven bits a byte, lowest first. */
  function Value(buf: seq<Byte>, pos: nat): nat
    requires EndOf(buf, pos).Some?
    decreases |buf| - pos
  {
    if buf[pos] < 128 then buf[pos] else buf[pos] - 128 + 128 * Value(buf, pos + 1)
  }

  // ---- the readers

  /** `(b & 0x7f) << shift` in the given arithmetic. JavaScript takes the shift count modulo 32. */
  function Shifted(d: Dialect, b: Byte, shift: nat): nat {
    match d
    case Js => Shl(b % 128, shift % 32) % TWO32
    case Go => Shl(b % 128, shift) % TWO64
    case Py => Shl(b % 128, shift)
  }

  function MaxShift(d: Dialect): Option<nat> {
    match d case Js => Some(35) case Go => Some(63) case Py => None
  }

  function Modulus(d: Dialect): Option<nat> {
    match d case Js => Some(TWO32) case Go => Some(TWO64) case Py => None
  }

  ghost predicate Fits(d: Dialect, n: nat) {
    Modulus(d).None? || n < Modulus(d).value
  }

  function ReadFrom(d: Dialect, buf: seq<Byte>, pos: nat, n: nat, shift: nat): (r: ReadResult)
    ensures d.Py? ==> r.Read?
    ensures r.Read? ==> r.next >= pos
    decreases |buf| - pos
  {
    if pos >= |buf| then if d.Py? then Read(n, pos) else Eof
    else
      var n' := BitOr(n, Shifted(d, buf[pos], shift));
      if buf[pos] < 128 then Read(n', pos + 1)
      else if MaxShift(d).Some? && shift + 7 > MaxShift(d).value then Overflow
      else ReadFrom(d, buf, pos + 1, n', shift + 7)
  }

  function ReadVarUint(d: Dialect, buf: seq<Byte>, pos: nat): ReadResult {
    ReadFrom(d, buf, pos, 0, 0)
  }

  // ---- what each reader returns, on every input

  /** The shift stays in the range the reader allows. */
  ghost predicate ShiftOk(d: Dialect, shift: nat) {
    match d case Js => shift <= 28 || shift == 35 case Go => shift <= 63 case Py => true
  }

  lemma {:induction false} ShiftedBound(d: Dialect, b: Byte, shift: nat)
    requires ShiftOk(d, shift)
    ensures Fits(d, Shifted(d, b, shift))
    ensures ShiftOk(d, shift + 7) ==> Shifted(d, b, shift) <= Shl(b % 128, shift)
    ensures Fits(d, Shl(b % 128, shift)) ==> Shifted(d, b, shift) == Shl(b % 128, shift)
  {
    if d.Js? && shift == 35 {
      SixthByte(b % 128);
    } else if d.Js? {
      assert shift % 32 == shift;
      ModBound(Shl(b % 128, shift), TWO32);
    } else if d.Go? {
      ModBound(Shl(b % 128, shift), TWO64);
    }
  }

  lemma ModBound(x: nat, m: nat)
    requires m > 0
    ensures 0 <= x % m < m && x % m <= x && (x < m ==> x % m == x)
  {
  }

  /** JavaScript shifts a sixth byte by 35 modulo 32 places; only zero bits survive that. */
  lemma {:induction false} SixthByte(g: nat)
    requires g < 128
    ensures Shl(g, 3) % TWO32 < TWO32
    ensures Shl(g, 35) < TWO32 ==> Shl(g, 3) % TWO32 == Shl(g, 35)
  {
    Shl8(g);
    ShlNonzero(g, 35);
    ShlShl(1, 32, 3);
    ShlConstants(1);
    Shl8(TWO32);
  }

  /** One more group is exact while the total fits ... */
  lemma {:induction false} StepIsExact(d: Dialect, b: Byte, n: nat, shift: nat)
    requires n < Shl(1, shift) && ShiftOk(d, shift)
    requires Fits(d, n + Shl(b % 128, shift))
    ensures BitOr(n, Shifted(d, b, shift)) == n + Shl(b % 128, shift)
  {
    BitOrDisjoint(n, b % 128, shift);
    ShiftedBound(d, b, shift);
  }

  /** ... and never leaves the reader's integers, nor the bits read so far. */
  lemma StepIsBounded(d: Dialect, b: Byte, n: nat, shift: nat)
    requires n < Shl(1, shift) && Fits(d, n) && ShiftOk(d, shift)
    ensures Fits(d, BitOr(n, Shifted(d, b, shift)))
    ensures ShiftOk(d, shift + 7) ==> BitOr(n, Shifted(d, b, shift)) < Shl(1, shift + 7)
  {
    var y := Shifted(d, b, shift);
    ShiftedBound(d, b, shift);
    if d.Js? {
      ShlConstants(1);
      BitOrBound(n, y, 32);
    } else if d.Go? {
      ShlConstants(1);
      BitOrBound(n, y, 64);
    }
    if ShiftOk(d, shift + 7) {
      ShlGroupBound(n, b % 128, shift);
      BitOrBound(n, y, shift + 7);
    }
  }

  /** How many bytes a reader accepts: six in JavaScript, ten in Go, any number in Python. */
  ghost predicate ReadsGroups(d: Dialect, groups: nat) {
    match d case Js => groups <= 6 case Go => groups <= 10 case Py => true
  }

  /** A number of acceptable length is consumed whole, and the result fits the reader's integers. */
  lemma {:induction false} ReadFromShape(d: Dialect, buf: seq<Byte>, pos: nat, n: nat, g: nat)
    requires n < Shl(1, 7 * g) && Fits(d, n) && EndOf(buf, pos).Some? && ShiftOk(d, 7 * g)
    ensures var e, r := EndOf(buf, pos).value, ReadFrom(d, buf, pos, n, 7 * g);
      if ReadsGroups(d, g + e - pos) then r.Read? && r.next == e && Fits(d, r.value) else r == Overflow
    decreases |buf| - pos
  {
    StepIsBounded(d, buf[pos], n, 7 * g);
    if buf[pos] >= 128 && ShiftOk(d, 7 * (g + 1)) {
      ReadFromShape(d, buf, pos + 1, BitOr(n, Shifted(d, buf[pos], 7 * g)), g + 1);
    }
  }

  /** After a byte with a continuation bit the total `t` is the same, seven bits further on. */
  lemma StepKeepsTotal(d: Dialect, b: Byte, n: nat, shift: nat, v: nat, t: nat) returns (n': nat)
    requires b >= 128 && n < Shl(1, shift) && ShiftOk(d, shift)
    requires t == n + Shl(b - 128 + 128 * v, shift) && Fits(d, t)
    ensures n' == BitOr(n, Shifted(d, b, shift)) && t == n' + Shl(v, shift + 7)
    ensures ShiftOk(d, shift + 7) ==> n' < Shl(1, shift + 7)
  {
    n' := BitOr(n, Shifted(d, b, shift));
    ShlGroup(b - 128, v, shift);
    assert b % 128 == b - 128;
    StepIsExact(d, b, n, shift);
    StepIsBounded(d, b, n, shift);
  }

  /** `t` is the number read so far together with the one still to be read. */
  ghost predicate Total(d: Dialect, buf: seq<Byte>, pos: nat, n: nat, shift: nat, t: nat) {
    && EndOf(buf, pos).Some? && n < Shl(1, shift) && ShiftOk(d, shift)
    && t == n + Shl(Value(buf, pos), shift) && Fits(d, t)
  }

  lemma {:induction false} FinalByte(d: Dialect, buf: seq<Byte>, pos: nat, n: nat, shift: nat, t: nat)
    requires Total(d, buf, pos, n, shift, t) && buf[pos] < 128
    ensures ReadFrom(d, buf, pos, n, shift) == Read(t, pos + 1)
  {
    StepIsExact(d, buf[pos], n, shift);
  }

  lemma ReadFromContinues(d: Dialect, buf: seq<Byte>, pos: nat, n: nat, shift: nat, g: nat)
    requires pos < |buf| && buf[pos] >= 128 && shift == 7 * g && ShiftOk(d, shift)
    requires ReadFrom(d, buf, pos, n, shift).Read?
    ensures ShiftOk(d, shift + 7)
    ensures ReadFrom(d, buf, pos, n, shift) == ReadFrom(d, buf, pos + 1, BitOr(n, Shifted(d, buf[pos], shift)), shift + 7)
  {
  }

  lemma ContinuationByte(d: Dialect, buf: seq<Byte>, pos: nat, n: nat, shift: nat, g: nat, t: nat) returns (n': nat)
    requires Total(d, buf, pos, n, shift, t) && buf[pos] >= 128 && shift == 7 * g
    requires ReadFrom(d, buf, pos, n, shift).Read?
    ensures Total(d, buf, pos + 1, n', shift + 7, t)
    ensures ReadFrom(d, buf, pos, n, shift) == ReadFrom(d, buf, pos + 1, n', shift + 7)
  {
    ReadFromContinues(d, buf, pos, n, shift, g);
    var v := Value(buf, pos + 1);
    assert Value(buf, pos) == buf[pos] - 128 + 128 * v;
    n' := StepKeepsTotal(d, buf[pos], n, shift, v, t);
  }

  /** The result is the written number when that fits the reader's integers. */
  lemma {:induction false} ReadFromValue(d: Dialect, buf: seq<Byte>, pos: nat, n: nat, g: nat, t: nat)
    requires Total(d, buf, pos, n, 7 * g, t) && ReadFrom(d, buf, pos, n, 7 * g).Read?
    ensures ReadFrom(d, buf, pos, n, 7 * g).value == t
    decreases |buf| - pos
  {
    if buf[pos] < 128 {
      FinalByte(d, buf, pos, n, 7 * g, t);
    } else {
      var n' := ContinuationByte(d, buf, pos, n, 7 * g, g, t);
      ReadFromValue(d, buf, pos + 1, n', g + 1, t);
    }
  }

  /** Without a final byte, JavaScript and Go fail; Python returns what it has at the end of the buffer. */
  lemma {:induction false} ReadFromUnterminated(d: Dialect, buf: seq<Byte>, pos: nat, n: nat, shift: nat)
    requires EndOf(buf, pos).None?
    ensures if d.Py? then ReadFrom(d, buf, pos, n, shift).Read? && ReadFrom(d, buf, pos, n, shift).next >= |buf|
            else !ReadFrom(d, buf, pos, n, shift).Read?
    decreases |buf| - pos
  {
    if pos < |buf| {
      ReadFromUnterminated(d, buf, pos + 1, BitOr(n, Shifted(d, buf[pos], shift)), shift + 7);
    }
  }

  /** On every buffer: a reader succeeds on the numbers of acceptable length, consumes exactly
      their bytes, and is right exactly when the number fits its integers. */
  lemma {:induction false} ReadVarUintExact(d: Dialect, buf: seq<Byte>, pos: nat)
    ensures EndOf(buf, pos).Some? && ReadsGroups(d, EndOf(buf, pos).value - pos) ==>
      && ReadVarUint(d, buf, pos).Read?
      && ReadVarUint(d, buf, pos).next == EndOf(buf, pos).value
      && (ReadVarUint(d, buf, pos).value == Value(buf, pos) <==> Fits(d, Value(buf, pos)))
    ensures EndOf(buf, pos).Some? && !ReadsGroups(d, EndOf(buf, pos).value - pos) ==>
      ReadVarUint(d, buf, pos) == Overflow
    ensures EndOf(buf, pos).None? && !d.Py? ==> !ReadVarUint(d, buf, pos).Read?
  {
    if EndOf(buf, pos).Some? {
      ReadFromShape(d, buf, pos, 0, 0);
      if Fits(d, Value(buf, pos)) && ReadVarUint(d, buf, pos).Read? {
        ReadFromValue(d, buf, pos, 0, 0, Value(buf, pos));
      }
    } else {
      ReadFromUnterminated(d, buf, pos, 0, 0);
    }
  }

  // ---- Python's reader, which does not mind a missing final byte

  /** The groups from `pos` on, up to a final byte or the end of the buffer. */
  function Groups(buf: seq<Byte>, pos: nat): nat
    decreases |buf| - pos
  {
    if pos >= |buf| then 0
    else if buf[pos] < 128 then buf[pos]
    else buf[pos] - 128 + 128 * Groups(buf, pos + 1)
  }

  function GroupsEnd(buf: seq<Byte>, pos: nat): (e: nat)
    ensures pos <= e && (pos <= |buf| ==> e <= |buf|)
    decreases |buf| - pos
  {
    if pos >= |buf| then pos
    else if buf[pos] < 128 then pos + 1
    else GroupsEnd(buf, pos + 1)
  }

  lemma {:induction false} GroupsOfTerminated(buf: seq<Byte>, pos: nat)
    requires EndOf(buf, pos).Some?
    ensures Groups(buf, pos) == Value(buf, pos) && GroupsEnd(buf, pos) == EndOf(buf, pos).value
    decreases |buf| - pos
  {
    if buf[pos] >= 128 {
      GroupsOfTerminated(buf, pos + 1);
    }
  }

  lemma {:induction false} PyReadsFrom(buf: seq<Byte>, pos: nat, n: nat, shift: nat)
    requires n < Shl(1, shift)
    ensures ReadFrom(Py, buf, pos, n, shift) == Read(n + Shl(Groups(buf, pos), shift), GroupsEnd(buf, pos))
    decreases |buf| - pos
  {
    if pos >= |buf| {
      ShlAdd(0, 0, shift);
    } else if buf[pos] < 128 {
      StepIsExact(Py, buf[pos], n, shift);
    } else {
      var v := Groups(buf, pos + 1);
      assert Groups(buf, pos) == buf[pos] - 128 + 128 * v;
      var n' := StepKeepsTotal(Py, buf[pos], n, shift, v, n + Shl(Groups(buf, pos), shift));
      PyReadsFrom(buf, pos + 1, n', shift + 7);
    }
  }

  /** On every buffer Python's reader returns all groups there are and stops behind them. */
  lemma {:induction false} PyReadMeans(buf: seq<Byte>, pos: nat)
    ensures ReadVarUint(Py, buf, pos) == Read(Groups(buf, pos), GroupsEnd(buf, pos))
  {
    PyReadsFrom(buf, pos, 0, 0);
  }

  // ---- the writer

  /** `while (n > 0x7f) { push(0x80 | (n & 0x7f)); n >>>= 7; } push(n & 0x7f)` with 32-bit `&` and `>>>`. */
  function Write(n: nat): seq<Byte> {
    if n > 127 then [128 + n % 128] + Write(n % TWO32 / 128) else [n]
  }

  lemma {:induction false} WriteLength(n: nat, groups: nat)
    requires 1 <= groups && n < Shl(1, 7 * groups)
    ensures 1 <= |Write(n)| <= groups
  {
    if n > 127 {
      if groups == 1 {
        ShlConstants(1);
        assert false;
      } else {
        ShlShl(1, 7 * (groups - 1), 7);
        ShlConstants(Shl(1, 7 * (groups - 1)));
        ModBound(n, TWO32);
        WriteLength(n % TWO32 / 128, groups - 1);
      }
    }
  }

  lemma {:induction false} WriteIsShort(n: nat)
    ensures 1 <= |Write(n)| <= 5
  {
    if n > 127 {
      Shl8(1);
      ShlShl(1, 7, 7);
      Shl8(128);
      ShlShl(1, 14, 7);
      Shl8(0x4000);
      ShlShl(1, 21, 7);
      Shl8(0x20_0000);
      assert Shl(1, 28) == 0x1000_0000;
      WriteLength(n % TWO32 / 128, 4);
    }
  }

  /** `w` stands in `buf` at `pos`. */
  ghost predicate Holds(buf: seq<Byte>, pos: nat, w: seq<Byte>) {
    pos + |w| <= |buf| && buf[pos..pos + |w|] == w
  }

  lemma DivModUnique(n: nat, k: nat, t: nat)
    requires n == 128 * k + t && t < 128
    ensures n / 128 == k && n % 128 == t
  {
  }

  lemma SplitGroup(n: nat)
    ensures n % TWO32 == n % 128 + 128 * (n % TWO32 / 128 % TWO32)
  {
    var q, r := n / TWO32, n % TWO32;
    var k, t := r / 128, r % 128;
    assert n == TWO32 * q + r && r == 128 * k + t;
    DivModUnique(n, 0x200_0000 * q + k, t);
    DivModUnique(r, k, t);
    ModBound(k, TWO32);
  }

  /** What is written means `n` modulo 2^32. */
  lemma {:induction false} WriteMeans(buf: seq<Byte>, pos: nat, n: nat)
    requires Holds(buf, pos, Write(n))
    ensures EndOf(buf, pos) == Some(pos + |Write(n)|)
    ensures Value(buf, pos) == n % TWO32
    decreases n
  {
    if n > 127 {
      var w, rest := Write(n), Write(n % TWO32 / 128);
      assert buf[pos] == w[0] && w[1..] == rest;
      assert buf[pos + 1..pos + 1 + |rest|] == buf[pos..pos + |w|][1..];
      WriteMeans(buf, pos + 1, n % TWO32 / 128);
      SplitGroup(n);
    } else {
      assert buf[pos] == n;
    }
  }

  /** Every reader gets back `n` modulo 2^32 from what JavaScript wrote, wherever it stands; so a
      number survives the trip exactly when it is below 2^32. */
  lemma {:induction false} ReadBackWritten(d: Dialect, buf: seq<Byte>, pos: nat, n: nat)
    requires Holds(buf, pos, Write(n))
    ensures ReadVarUint(d, buf, pos) == Read(n % TWO32, pos + |Write(n)|)
    ensures ReadVarUint(d, buf, pos) == Read(n, pos + |Write(n)|) <==> n < TWO32
  {
    WriteMeans(buf, pos, n);
    WriteIsShort(n);
    ReadVarUintExact(d, buf, pos);
  }
}
