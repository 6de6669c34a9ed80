/** Bitwise operations on unsigned machine words, written out on the naturals: bit `i`
    of the result depends only on bit `i` of the operands. */
module Bits {

  /** Number of values of a 32-bit word; C's unsigned arithmetic is taken modulo this. */
  const WORD: nat := 0x1_0000_0000

  type Word = w: nat | w < WORD

  function Pow2(k: nat): (p: nat)
    ensures p > 0
  {
    if k == 0 then 1 else 2 * Pow2(k - 1)
  }

  function And(x: nat, y: nat): nat {
    if x == 0 || y == 0 then 0 else (x % 2) * (y % 2) + 2 * And(x / 2, y / 2)
  }

  function Or(x: nat, y: nat): nat {
    if x == 0 then y
    else if y == 0 then x
    else (if x % 2 == 1 || y % 2 == 1 then 1 else 0) + 2 * Or(x / 2, y / 2)
  }

  function Xor(x: nat, y: nat): nat {
    if x == 0 then y
    else if y == 0 then x
    else (if x % 2 != y % 2 then 1 else 0) + 2 * Xor(x / 2, y / 2)
  }

  function ShiftRight(x: nat, k: nat): nat {
    if k == 0 then x else ShiftRight(x / 2, k - 1)
  }

  /** Shift of a 32-bit word: the bits pushed out on the left are lost. */
  function ShiftLeft(x: Word, k: nat): Word {
    x * Pow2(k) % WORD
  }

  function Increment(x: Word): Word {
    (x + 1) % WORD
  }

  function Decrement(x: Word): Word {
    (x + WORD - 1) % WORD
  }

  lemma {:induction false} Pow2Word()
    ensures Pow2(31) == 0x8000_0000
    ensures Pow2(32) == WORD
  {
    assert Pow2(8) == 256;
    assert Pow2(16) == 0x1_0000 by {
      assert Pow2(12) == 16 * Pow2(8);
      assert Pow2(16) == 16 * Pow2(12);
    }
    assert Pow2(24) == 0x100_0000 by {
      assert Pow2(20) == 16 * Pow2(16);
      assert Pow2(24) == 16 * Pow2(20);
    }
    assert Pow2(28) == 16 * Pow2(24);
    assert Pow2(31) == 8 * Pow2(28);
  }

  lemma {:induction false} Pow2Monotone(j: nat, k: nat)
    requires j <= k
    ensures Pow2(j) <= Pow2(k)
    ensures j < k ==> 2 * Pow2(j) <= Pow2(k)
    decreases k
  {
    if j < k {
      Pow2Monotone(j, k - 1);
    }
  }

  lemma {:induction false} Pow2Add(j: nat, k: nat)
    ensures Pow2(j + k) == Pow2(j) * Pow2(k)
  {
    if j > 0 {
      Pow2Add(j - 1, k);
      assert 2 * Pow2(j - 1) * Pow2(k) == 2 * (Pow2(j - 1) * Pow2(k));
    }
  }

  lemma {:induction false} AndAtMost(x: nat, y: nat)
    ensures And(x, y) <= y
  {
    if x != 0 && y != 0 {
      AndAtMost(x / 2, y / 2);
      assert (x % 2) * (y % 2) <= y % 2;
    }
  }

  /** A mask of `k` ones keeps the remainder modulo `2^k`. */
  lemma {:induction false} AndMask(x: nat, k: nat)
    ensures And(x, Pow2(k) - 1) == x % Pow2(k)
    decreases k
  {
    if x > 0 && k > 0 {
      AndMask(x / 2, k - 1);
      AndMaskStep(x, k);
    }
  }

  lemma AndMaskStep(x: nat, k: nat)
    requires x > 0 && k > 0
    requires And(x / 2, Pow2(k - 1) - 1) == x / 2 % Pow2(k - 1)
    ensures And(x, Pow2(k) - 1) == x % Pow2(k)
  {
    var h := Pow2(k - 1);
    calc {
      And(x, 2 * h - 1);
      { AndOdd(x, h); }
      x % 2 + 2 * And(x / 2, h - 1);
      x % 2 + 2 * (x / 2 % h);
      { HalveMod(x, h); }
      x % (2 * h);
    }
  }

  /** A mask of one bit tells whether that bit is set. */
  lemma {:induction false} AndBit(x: nat, k: nat)
    ensures And(x, Pow2(k)) != 0 <==> x / Pow2(k) % 2 == 1
    decreases k
  {
    if k > 0 {
      AndBit(x / 2, k - 1);
      DivTwice(x, Pow2(k - 1));
      AndEven(x, Pow2(k - 1));
    } else {
      assert x / 1 == x && And(x / 2, 0) == 0;
    }
  }

  lemma AndEven(x: nat, d: nat)
    ensures And(x, 2 * d) == 2 * And(x / 2, d)
  {
  }

  lemma DivTwice(x: nat, d: nat)
    requires d > 0
    ensures x / (2 * d) == x / 2 / d
  {
    var q, r := x / 2 / d, x / 2 % d;
    assert x == 2 * (d * q + r) + x % 2;
    assert x == (2 * d) * q + (2 * r + x % 2);
    ModUnique(x, 2 * d, q, 2 * r + x % 2);
  }

  lemma AndOdd(x: nat, half: nat)
    requires half > 0
    ensures And(x, 2 * half - 1) == x % 2 + 2 * And(x / 2, half - 1)
  {
    var y := 2 * half - 1;
    assert y % 2 == 1 && y / 2 == half - 1;
  }

  lemma HalveMod(x: nat, half: nat)
    requires half > 0
    ensures x % (2 * half) == x % 2 + 2 * (x / 2 % half)
  {
    var q, r := x / 2 / half, x / 2 % half;
    assert x / 2 == half * q + r;
    ModUnique(x, 2 * half, q, 2 * r + x % 2);
  }

  lemma ModUnique(x: int, d: int, q: int, r: int)
    requires 0 <= r < d
    requires x == d * q + r
    ensures x % d == r && x / d == q
  {
    var q', r' := x / d, x % d;
    assert d * (q' - q) == r - r';
    if q' != q {
      MulGap(d, q' - q);
    }
  }

  lemma MulGap(d: int, m: int)
    requires d > 0 && m != 0
    ensures d * m >= d || d * m <= -d
  {
    if m >= 1 {
      MulAtLeast(d, m);
    } else {
      MulAtLeast(d, -m);
      assert d * m == -(d * -m);
    }
  }

  lemma MulAtLeast(d: int, m: int)
    requires d > 0 && m >= 1
    ensures d * m >= d
  {
  }

  lemma {:induction false} OrBelow(x: nat, y: nat, k: nat)
    requires x < Pow2(k) && y < Pow2(k)
    ensures Or(x, y) < Pow2(k)
  {
    if x != 0 && y != 0 {
      OrBelow(x / 2, y / 2, k - 1);
    }
  }

  lemma {:induction false} OrAtLeast(x: nat, y: nat)
    ensures Or(x, y) >= y
  {
    if x != 0 && y != 0 {
      OrAtLeast(x / 2, y / 2);
    }
  }

  /** High bits present in one operand only come through unchanged. */
  lemma {:induction false} OrHigh(a: nat, b: nat, z: nat, j: nat)
    requires b < Pow2(j) && z < Pow2(j)
    ensures Or(a * Pow2(j) + b, z) == a * Pow2(j) + Or(b, z)
    decreases j
  {
    var x := a * Pow2(j) + b;
    if j == 0 {
      assert z == 0 && b == 0;
    } else if z == 0 {
    } else if x == 0 {
      assert a * Pow2(j) == 0 && b == 0;
    } else {
      Halved(a, Pow2(j - 1), b);
      OrHigh(a, b / 2, z / 2, j - 1);
    }
  }

  lemma Halved(a: nat, h: nat, b: nat)
    ensures a * (2 * h) == 2 * (a * h)
    ensures (a * (2 * h) + b) % 2 == b % 2
    ensures (a * (2 * h) + b) / 2 == a * h + b / 2
  {
    assert a * (2 * h) == 2 * (a * h);
  }

  lemma {:induction false} XorBelow(x: nat, y: nat, k: nat)
    requires x < Pow2(k) && y < Pow2(k)
    ensures Xor(x, y) < Pow2(k)
  {
    if x != 0 && y != 0 {
      XorBelow(x / 2, y / 2, k - 1);
    }
  }

  /** Exclusive-or undoes itself from either side; the XOR swap rests on this. */
  lemma {:induction false} XorCancels(x: nat, y: nat)
    ensures Xor(Xor(x, y), y) == x
    ensures Xor(x, Xor(x, y)) == y
  {
    if x == 0 {
      XorSelf(y);
    } else if y == 0 {
      XorSelf(x);
    } else {
      XorCancels(x / 2, y / 2);
      var z := Xor(x, y);
      assert z % 2 == (if x % 2 != y % 2 then 1 else 0) && z / 2 == Xor(x / 2, y / 2);
    }
  }

  lemma {:induction false} XorSelf(x: nat)
    ensures Xor(x, x) == 0
  {
    if x != 0 {
      XorSelf(x / 2);
    }
  }

  lemma {:induction false} XorCommutes(x: nat, y: nat)
    ensures Xor(x, y) == Xor(y, x)
  {
    if x != 0 && y != 0 {
      XorCommutes(x / 2, y / 2);
    }
  }
}
