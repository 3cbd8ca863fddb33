/** Machine words as the 64-bit millicode sees them: half-words (base-2^16 digits), words and
    double words are integers, and wrap-around, shifts and masks are written out.  The C operator
    `|` is a genuine bitwise function, proved to be addition where the operands share no bit. */
module Words {

  const B := 0x1_0000
  const W32 := 0x1_0000_0000
  const W64 := 0x1_0000_0000_0000_0000

  type Digit = x: int | 0 <= x < 0x1_0000
  type UInt = x: int | 0 <= x < 0x1_0000_0000
  type ULong = x: int | 0 <= x < 0x1_0000_0000_0000_0000
  type Long = x: int | -0x8000_0000_0000_0000 <= x < 0x8000_0000_0000_0000

  function Pow2(k: nat): (p: nat)
    ensures p > 0
  {
    if k == 0 then 1 else 2 * Pow2(k - 1)
  }

  function BPow(k: nat): (p: nat)
    ensures p > 0
  {
    if k == 0 then 1 else B * BPow(k - 1)
  }

  /** Unsigned wrap-around: what is left of `x` in a 32-bit or a 64-bit register. */
  function Wrap32(x: int): UInt { x % W32 }
  function Wrap64(x: int): ULong { x % W64 }

  function HHalf(x: UInt): Digit { x / B }
  function LHalf(x: UInt): Digit { x % B }
  function LHup(x: UInt): UInt { Wrap32(x * B) }
  function High(x: ULong): UInt { x / W32 }
  function Low(x: ULong): UInt { x % W32 }

  /** Bitwise inclusive or. */
  function Or(a: nat, b: nat): nat
  {
    if a == 0 && b == 0 then 0
    else 2 * Or(a / 2, b / 2) + (if a % 2 == 1 || b % 2 == 1 then 1 else 0)
  }

  function Combine(a: UInt, b: Digit): nat { Or(Wrap32(a * B), b) }

  lemma {:induction false} OrZero(x: nat)
    ensures Or(x, 0) == x
  {
    if x != 0 {
      OrZero(x / 2);
    }
  }

  lemma {:induction false} OrDisjoint(x: nat, y: nat, k: nat)
    requires y < Pow2(k)
    ensures Or(x * Pow2(k), y) == x * Pow2(k) + y
    decreases k, x
  {
    if k == 0 {
      OrZero(x);
    } else {
      var p := Pow2(k - 1);
      var a := x * Pow2(k);
      assert a == 2 * (x * p);
      assert a / 2 == x * p && a % 2 == 0;
      OrDisjoint(x, y / 2, k - 1);
      if a == 0 && y == 0 {
      } else {
        assert Or(a, y) == 2 * Or(a / 2, y / 2) + (if y % 2 == 1 then 1 else 0);
      }
    }
  }

  lemma {:induction false} OrCommutes(a: nat, b: nat)
    ensures Or(a, b) == Or(b, a)
  {
    if a != 0 || b != 0 {
      OrCommutes(a / 2, b / 2);
    }
  }

  lemma Pow2Of16()
    ensures Pow2(16) == B
  {
    assert Pow2(4) == 16;
    assert Pow2(8) == 256 by { assert Pow2(6) == 64; }
    assert Pow2(12) == 4096 by { assert Pow2(10) == 1024; }
    assert Pow2(14) == 16384;
  }

  lemma CombineIsPair(a: UInt, b: Digit)
    requires a < B
    ensures Combine(a, b) == a * B + b < W32
  {
    hide Pow2, Or;
    Pow2Of16();
    OrDisjoint(a, b, 16);
    assert Combine(a, b) == Or(a * B, b);
  }

  lemma DoubleProduct(x: int, y: int)
    ensures (2 * x) * y == 2 * (x * y)
  {
  }

  lemma {:induction false} Pow2Split(a: nat, b: nat)
    ensures Pow2(a + b) == Pow2(a) * Pow2(b)
  {
    if a != 0 {
      Pow2Split(a - 1, b);
      DoubleProduct(Pow2(a - 1), Pow2(b));
    }
  }
}
