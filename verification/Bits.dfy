/** Bytes and the little arithmetic that shifting and or-ing needs, over unbounded integers. */
module Bits {
  type Byte = b: int | 0 <= b < 256

  const TWO32: nat := 0x1_0000_0000
  const TWO63: nat := 0x8000_0000_0000_0000
  const TWO64: nat := 0x1_0000_0000_0000_0000

  function Min(x: nat, y: nat): nat {
    if x <= y then x else y
  }

  /** Left shift. */
  function Shl(x: nat, k: nat): nat {
    if k == 0 then x else 2 * Shl(x, k - 1)
  }

  /** Bitwise or. */
  function BitOr(x: nat, y: nat): nat
    decreases x + y
  {
    if x == 0 then y else if y == 0 then x
    else 2 * BitOr(x / 2, y / 2) + if x % 2 == 1 || y % 2 == 1 then 1 else 0
  }

  lemma {:induction false} ShlAdd(x: nat, y: nat, k: nat)
    ensures Shl(x + y, k) == Shl(x, k) + Shl(y, k)
  {
    if k > 0 {
      ShlAdd(x, y, k - 1);
    }
  }

  lemma {:induction false} ShlShl(x: nat, j: nat, k: nat)
    ensures Shl(Shl(x, j), k) == Shl(x, j + k)
  {
    if k > 0 {
      ShlShl(x, j, k - 1);
    }
  }

  lemma {:induction false} ShlGrows(x: nat, k: nat)
    ensures Shl(x, k) >= x
  {
    if k > 0 {
      ShlGrows(x, k - 1);
    }
  }

  lemma {:induction false} ShlConstants(x: nat)
    ensures Shl(x, 7) == 128 * x && Shl(x, 8) == 256 * x
    ensures Shl(1, 32) == TWO32 && Shl(1, 64) == TWO64
  {
    Shl8(x);
    Shl8(1);
    ShlShl(1, 8, 8);
    Shl8(256);
    ShlShl(1, 16, 8);
    Shl8(0x1_0000);
    ShlShl(1, 24, 8);
    Shl8(0x100_0000);
    ShlShl(1, 32, 8);
    Shl8(TWO32);
    ShlShl(1, 40, 8);
    Shl8(0x100_0000_0000);
    ShlShl(1, 48, 8);
    Shl8(0x1_0000_0000_0000);
    ShlShl(1, 56, 8);
    Shl8(0x100_0000_0000_0000);
  }

  lemma {:induction false} Shl8(x: nat)
    ensures Shl(x, 3) == 8 * x && Shl(x, 7) == 128 * x && Shl(x, 8) == 256 * x
  {
    assert Shl(x, 1) == 2 * x;
    assert Shl(x, 2) == 4 * x;
    assert Shl(x, 3) == 8 * x;
    assert Shl(x, 4) == 16 * x;
    assert Shl(x, 5) == 32 * x;
    assert Shl(x, 6) == 64 * x;
  }

  /** A seven-bit group followed by higher groups. */
  lemma ShlGroup(g: nat, v: nat, k: nat)
    ensures Shl(g + 128 * v, k) == Shl(g, k) + Shl(v, k + 7)
  {
    ShlAdd(g, 128 * v, k);
    ShlConstants(v);
    ShlShl(v, 7, k);
  }

  /** A seven-bit group put above bits that are below position `k` stays below position `k + 7`. */
  lemma ShlGroupBound(x: nat, g: nat, k: nat)
    requires x < Shl(1, k) && g < 128
    ensures x + Shl(g, k) < Shl(1, k + 7)
  {
    ShlGroup(0, 1, k);
    ShlAdd(0, 0, k);
    ShlAdd(g, 128 - g, k);
    ShlAdd(1, 127 - g, k);
  }

  lemma {:induction false} ShlNonzero(g: nat, k: nat)
    ensures g == 0 ==> Shl(g, k) == 0
    ensures g > 0 ==> Shl(g, k) >= Shl(1, k)
  {
    ShlAdd(0, 0, k);
    if g > 0 {
      ShlAdd(1, g - 1, k);
    }
  }

  lemma {:induction false} BitOrBound(x: nat, y: nat, k: nat)
    requires x < Shl(1, k) && y < Shl(1, k)
    ensures BitOr(x, y) < Shl(1, k)
    decreases k
  {
    if x != 0 && y != 0 {
      BitOrBound(x / 2, y / 2, k - 1);
    }
  }

  /** Or-ing in bits above all set ones is addition. */
  lemma {:induction false} BitOrDisjoint(x: nat, g: nat, k: nat)
    requires x < Shl(1, k)
    ensures BitOr(x, Shl(g, k)) == x + Shl(g, k)
    decreases k
  {
    if x != 0 && Shl(g, k) != 0 {
      BitOrDisjoint(x / 2, g, k - 1);
    }
  }
}
