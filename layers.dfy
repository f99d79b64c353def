/**
 * The 32-bit collision layer and mask words shared by physics nodes, and the
 * `set_*_bit` / `get_*_bit` helpers that flip or read one bit of them
 * (`mask |= 1 << bit`, `mask &= ~(1 << bit)`, `mask & (1 << bit)`).
 *
 * A word is a natural below 2^32; `|`, `&` and the 32-bit `~` are defined
 * bit by bit, lowest bit first. A bit index outside 0..31 makes the C++
 * shift undefined, so the helpers require an index in range.
 */
module Layers {
  const Width: nat := 32

  type Word = x: nat | x < Pow2(Width)

  /** `1 << k`. */
  function Pow2(k: nat): (r: nat)
    ensures r >= 1
  {
    if k == 0 then 1 else 2 * Pow2(k - 1)
  }

  /** Bit `k` of `x`. */
  predicate Bit(x: nat, k: nat)
  {
    if k == 0 then x % 2 == 1 else Bit(x / 2, k - 1)
  }

  /** Bitwise or. */
  function Or(a: nat, b: nat): nat
    decreases a + b
  {
    if a == 0 && b == 0 then 0
    else 2 * Or(a / 2, b / 2) + (if a % 2 == 1 || b % 2 == 1 then 1 else 0)
  }

  /** Bitwise and. */
  function And(a: nat, b: nat): nat
    decreases a + b
  {
    if a == 0 || b == 0 then 0
    else 2 * And(a / 2, b / 2) + (if a % 2 == 1 && b % 2 == 1 then 1 else 0)
  }

  /** Bitwise complement within the lowest `w` bits (`~` on a `w`-bit word). */
  function Not(x: nat, w: nat): nat
  {
    if w == 0 then 0 else 2 * Not(x / 2, w - 1) + (1 - x % 2)
  }

  lemma {:induction false} Pow2Bit(i: nat, k: nat)
    ensures Bit(Pow2(i), k) <==> i == k
  {
    if i > 0 && k > 0 {
      assert Pow2(i) / 2 == Pow2(i - 1);
      Pow2Bit(i - 1, k - 1);
    } else if i > 0 {
      assert Pow2(i) % 2 == 0;
    } else if k > 0 {
      assert Pow2(i) / 2 == 0;
      ZeroBit(k - 1);
    }
  }

  lemma {:induction false} ZeroBit(k: nat)
    ensures !Bit(0, k)
  {
    if k > 0 {
      ZeroBit(k - 1);
    }
  }

  /** The last bit and the rest of `2q + d`. */
  lemma HalfAndParity(q: nat, d: nat)
    requires d < 2
    ensures (2 * q + d) % 2 == d && (2 * q + d) / 2 == q
  {
  }

  lemma {:induction false} OrBit(a: nat, b: nat, k: nat)
    ensures Bit(Or(a, b), k) <==> Bit(a, k) || Bit(b, k)
    decreases a + b
  {
    if a == 0 && b == 0 {
      ZeroBit(k);
    } else {
      var d := if a % 2 == 1 || b % 2 == 1 then 1 else 0;
      assert Or(a, b) == 2 * Or(a / 2, b / 2) + d;
      HalfAndParity(Or(a / 2, b / 2), d);
      if k > 0 {
        OrBit(a / 2, b / 2, k - 1);
      }
    }
  }

  lemma {:induction false} AndBit(a: nat, b: nat, k: nat)
    ensures Bit(And(a, b), k) <==> Bit(a, k) && Bit(b, k)
    decreases a + b
  {
    if a == 0 || b == 0 {
      ZeroBit(k);
    } else {
      var d := if a % 2 == 1 && b % 2 == 1 then 1 else 0;
      assert And(a, b) == 2 * And(a / 2, b / 2) + d;
      HalfAndParity(And(a / 2, b / 2), d);
      if k > 0 {
        AndBit(a / 2, b / 2, k - 1);
      }
    }
  }

  lemma {:induction false} NotBit(x: nat, w: nat, k: nat)
    ensures Bit(Not(x, w), k) <==> k < w && !Bit(x, k)
  {
    if w == 0 {
      ZeroBit(k);
    } else {
      HalfAndParity(Not(x / 2, w - 1), 1 - x % 2);
      if k > 0 {
        NotBit(x / 2, w - 1, k - 1);
      }
    }
  }

  /** A number is determined by its bits. */
  lemma {:induction false} BitsDetermine(a: nat, b: nat)
    requires forall k: nat :: Bit(a, k) == Bit(b, k)
    ensures a == b
    decreases a + b
  {
    if a != 0 || b != 0 {
      forall k: nat
        ensures Bit(a / 2, k) == Bit(b / 2, k)
      {
        assert Bit(a, k + 1) == Bit(b, k + 1);
      }
      BitsDetermine(a / 2, b / 2);
      assert Bit(a, 0) == Bit(b, 0);
    }
  }

  /** A number below `2^w` has no bit at or above `w`. */
  lemma {:induction false} BelowHasNoHighBits(x: nat, w: nat, k: nat)
    requires x < Pow2(w) && k >= w
    ensures !Bit(x, k)
  {
    if w == 0 {
      assert x == 0;
      ZeroBit(k);
    } else {
      BelowHasNoHighBits(x / 2, w - 1, k - 1);
    }
  }

  /** A number with no bit at or above `w` is below `2^w`. */
  lemma {:induction false} NoHighBitsIsBelow(x: nat, w: nat)
    requires forall k: nat :: k >= w ==> !Bit(x, k)
    ensures x < Pow2(w)
  {
    if w == 0 {
      if x > 0 {
        BoundBitsPositive(x);
      }
    } else {
      forall k: nat | k >= w - 1 ensures !Bit(x / 2, k) {
        assert Bit(x, k + 1) == Bit(x / 2, k);
      }
      NoHighBitsIsBelow(x / 2, w - 1);
    }
  }

  lemma {:induction false} BoundBitsPositive(x: nat)
    requires x > 0
    ensures exists k: nat :: Bit(x, k)
    decreases x
  {
    if x % 2 == 0 {
      BoundBitsPositive(x / 2);
      var k: nat :| Bit(x / 2, k);
      assert Bit(x, k + 1);
    } else {
      assert Bit(x, 0);
    }
  }

  /** `1 << bit`, the flag of one bit. */
  function Flag(bit: nat): (r: Word)
    requires bit < Width
    ensures forall k: nat :: Bit(r, k) <==> k == bit
  {
    forall k: nat ensures Bit(Pow2(bit), k) <==> k == bit { Pow2Bit(bit, k); }
    NoHighBitsIsBelow(Pow2(bit), Width);
    Pow2(bit)
  }

  /** `get_*_bit`: `mask & (1 << bit)` read as a boolean. */
  predicate GetBit(mask: Word, bit: nat)
    requires bit < Width
  {
    And(mask, Flag(bit)) != 0
  }

  /** `GetBit` is bit `bit` of the word. */
  lemma GetBitIsBit(mask: Word, bit: nat)
    requires bit < Width
    ensures GetBit(mask, bit) <==> Bit(mask, bit)
  {
    var f := Flag(bit);
    AndBit(mask, f, bit);
    if And(mask, f) != 0 {
      BoundBitsPositive(And(mask, f));
      var k: nat :| Bit(And(mask, f), k);
      AndBit(mask, f, k);
    } else {
      ZeroBit(bit);
    }
  }

  /** `mask | (1 << bit)` to set, `mask & ~(1 << bit)` to clear. */
  function Write(mask: nat, bit: nat, value: bool): nat
    requires bit < Width
  {
    if value then Or(mask, Flag(bit)) else And(mask, Not(Flag(bit), Width))
  }

  lemma WriteBit(mask: Word, bit: nat, value: bool, k: nat)
    requires bit < Width
    ensures Bit(Write(mask, bit, value), k) <==> if k == bit then value else Bit(mask, k)
  {
    var f := Flag(bit);
    OrBit(mask, f, k);
    AndBit(mask, Not(f, Width), k);
    NotBit(f, Width, k);
    if k >= Width {
      BelowHasNoHighBits(mask, Width, k);
    }
  }

  /**
   * `set_*_bit`: bit `bit` of the result is `value`, every other bit is that
   * of `mask`, and the result is again a 32-bit word.
   */
  function SetBit(mask: Word, bit: nat, value: bool): (r: Word)
    requires bit < Width
    ensures forall k: nat :: Bit(r, k) <==> if k == bit then value else Bit(mask, k)
  {
    var x := Write(mask, bit, value);
    assert forall k: nat :: Bit(x, k) <==> if k == bit then value else Bit(mask, k) by {
      forall k: nat ensures Bit(x, k) <==> if k == bit then value else Bit(mask, k) {
        WriteBit(mask, bit, value, k);
      }
    }
    forall k: nat | k >= Width ensures !Bit(x, k) {
      BelowHasNoHighBits(mask, Width, k);
    }
    NoHighBitsIsBelow(x, Width);
    x
  }

  /** `get_*_bit` after `set_*_bit` on the same bit reads the written value; other bits read as before. */
  lemma {:induction false} GetAfterSet(mask: Word, bit: nat, value: bool, other: nat)
    requires bit < Width && other < Width
    ensures GetBit(SetBit(mask, bit, value), other) == if other == bit then value else GetBit(mask, other)
  {
    GetBitIsBit(SetBit(mask, bit, value), other);
    GetBitIsBit(mask, other);
  }

  /** Writing back the bit a word already has leaves the word as it was. */
  lemma {:induction false} SetBitSame(mask: Word, bit: nat)
    requires bit < Width
    ensures SetBit(mask, bit, GetBit(mask, bit)) == mask
  {
    GetBitIsBit(mask, bit);
    BitsDetermine(SetBit(mask, bit, GetBit(mask, bit)), mask);
  }

  /** Two writes to the same bit: only the last one counts. */
  lemma {:induction false} SetBitTwice(mask: Word, bit: nat, first: bool, second: bool)
    requires bit < Width
    ensures SetBit(SetBit(mask, bit, first), bit, second) == SetBit(mask, bit, second)
  {
    BitsDetermine(SetBit(SetBit(mask, bit, first), bit, second), SetBit(mask, bit, second));
  }

  /** Writes to two different bits commute. */
  lemma {:induction false} SetBitCommutes(mask: Word, i: nat, a: bool, j: nat, b: bool)
    requires i < Width && j < Width && i != j
    ensures SetBit(SetBit(mask, i, a), j, b) == SetBit(SetBit(mask, j, b), i, a)
  {
    BitsDetermine(SetBit(SetBit(mask, i, a), j, b), SetBit(SetBit(mask, j, b), i, a));
  }
}
