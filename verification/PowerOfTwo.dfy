/** The sizing helpers of the queue: `_size` is always a power of two, so that a masked
    index is an index modulo the size and stays in step across the 32-bit wrap. */
module PowerOfTwo {
  import opened Bits

  ghost predicate IsPowerOfTwo(n: nat) {
    exists k: nat :: n == Pow2(k)
  }

  predicate PowerOfTwo(num: Word) {
    num != 0 && And(num, Decrement(num)) == 0
  }

  function CeilPowerOfTwo(num: Word): Word {
    var num := Smear(num);
    (num + WORD - ShiftRight(num, 1)) % WORD
  }

  /** Copies the leading one into every lower position. */
  function Smear(num: Word): Word {
    var num := OrShifted(num, 1);
    var num := OrShifted(num, 2);
    var num := OrShifted(num, 4);
    var num := OrShifted(num, 8);
    OrShifted(num, 16)
  }

  /** One `num |= num >> shift`. */
  function OrShifted(num: Word, shift: nat): Word {
    Pow2Word();
    ShiftRightAtMost(num, shift);
    OrBelow(num, ShiftRight(num, shift), 32);
    Or(num, ShiftRight(num, shift))
  }

  function RoundupPowerOfTwo(num: Word): Word {
    CeilPowerOfTwo(ShiftLeft(Decrement(num), 1))
  }

  function IndexOfQueue(size: Word, index: Word): nat {
    And(index, Decrement(size))
  }

  /** The `_size` the constructor chooses for a requested size. */
  function QueueSize(size: Word): Word {
    if size == 1 then 2
    else if PowerOfTwo(size) then size
    else RoundupPowerOfTwo(size)
  }

  lemma {:induction false} ShiftRightAtMost(x: nat, k: nat)
    ensures ShiftRight(x, k) <= x
    decreases k
  {
    if k > 0 {
      ShiftRightAtMost(x / 2, k - 1);
    }
  }

  lemma {:induction false} PowerOfTwoTest(num: Word)
    ensures PowerOfTwo(num) <==> IsPowerOfTwo(num)
  {
    if num != 0 {
      AndPredecessor(num);
    }
  }

  lemma {:induction false} AndPredecessor(n: nat)
    requires n > 0
    ensures And(n, n - 1) == 0 <==> IsPowerOfTwo(n)
  {
    if n == 1 {
      assert n == Pow2(0);
    } else if n % 2 == 1 {
      AndSelf(n / 2);
      assert n / 2 == (n - 1) / 2;
      forall k: nat ensures n != Pow2(k) {
      }
    } else {
      AndPredecessor(n / 2);
      assert (n - 1) / 2 == n / 2 - 1;
      if IsPowerOfTwo(n / 2) {
        var k: nat :| n / 2 == Pow2(k);
        assert n == Pow2(k + 1);
      }
      if IsPowerOfTwo(n) {
        var k: nat :| n == Pow2(k);
        assert n / 2 == Pow2(k - 1);
      }
    }
  }

  lemma {:induction false} AndSelf(n: nat)
    ensures And(n, n) == n
  {
    if n != 0 {
      AndSelf(n / 2);
    }
  }

  /** The `width` bits of `x` from its leading bit `top` downwards are all ones. */
  ghost predicate Filled(x: nat, top: nat, width: nat) {
    && x < Pow2(top + 1)
    && (if width <= top then x >= Pow2(top + 1) - Pow2(top + 1 - width) else x == Pow2(top + 1) - 1)
  }

  /** Or-ing in a copy shifted by the filled width doubles that width. */
  lemma FillDoubles(num: Word, top: nat, width: nat)
    requires width > 0 && Filled(num, top, width)
    ensures Filled(OrShifted(num, width), top, 2 * width)
  {
    var s := ShiftRight(num, width);
    ShiftRightAtMost(num, width);
    OrBelow(num, s, top + 1);
    if width > top {
      OrAtLeastLeft(num, s);
    } else {
      FillExtends(num, width, top + 1 - width);
    }
  }

  lemma FillExtends(x: nat, width: nat, j: nat)
    requires Pow2(width + j) - Pow2(j) <= x < Pow2(width + j)
    ensures var y := Or(x, ShiftRight(x, width));
      y >= Pow2(width + j) - (if width <= j then Pow2(j - width) else 1)
  {
    Pow2Add(width, j);
    ShiftBelow(x, width, Pow2(j));
    OrFilled(x, ShiftRight(x, width), width, j);
    if width <= j {
      ShiftFilled(x, width, j);
    } else {
      ShiftFilledShort(x, width, j);
    }
  }

  /** The filled bits stay, and the other operand shows in the bits below them. */
  lemma OrFilled(x: nat, s: nat, width: nat, j: nat)
    requires Pow2(width + j) - Pow2(j) <= x < Pow2(width + j) && s < Pow2(j)
    ensures Or(x, s) >= Pow2(width + j) - Pow2(j) + s
  {
    Pow2Add(width, j);
    var ones := Pow2(width) - 1;
    var b := x - (Pow2(width + j) - Pow2(j));
    assert ones * Pow2(j) == Pow2(width + j) - Pow2(j);
    OrHigh(ones, b, s, j);
    OrAtLeast(b, s);
  }

  lemma OrAtLeastLeft(x: nat, y: nat)
    ensures Or(x, y) >= x
    decreases x
  {
    if x != 0 && y != 0 {
      OrAtLeastLeft(x / 2, y / 2);
    }
  }

  lemma {:induction false} ShiftBelow(x: nat, k: nat, m: nat)
    requires x < m * Pow2(k)
    ensures ShiftRight(x, k) < m
    decreases k
  {
    if k > 0 {
      assert m * Pow2(k) == 2 * (m * Pow2(k - 1));
      ShiftBelow(x / 2, k - 1, m);
    }
  }

  lemma {:induction false} ShiftAtLeast(x: nat, k: nat, m: nat)
    requires x >= m * Pow2(k)
    ensures ShiftRight(x, k) >= m
    decreases k
  {
    if k > 0 {
      assert m * Pow2(k) == 2 * (m * Pow2(k - 1));
      ShiftAtLeast(x / 2, k - 1, m);
    }
  }

  lemma MulDifference(a: nat, b: nat, c: nat)
    requires a >= b
    ensures (a - b) * c == a * c - b * c
  {
  }

  lemma ShiftFilled(x: nat, width: nat, j: nat)
    requires width <= j && x >= Pow2(width + j) - Pow2(j)
    ensures ShiftRight(x, width) >= Pow2(j) - Pow2(j - width)
  {
    Pow2Add(j, width);
    Pow2Add(j - width, width);
    Pow2Monotone(j - width, j);
    MulDifference(Pow2(j), Pow2(j - width), Pow2(width));
    ShiftAtLeast(x, width, Pow2(j) - Pow2(j - width));
  }

  lemma ShiftFilledShort(x: nat, width: nat, j: nat)
    requires j <= width && x >= Pow2(width + j) - Pow2(j)
    ensures ShiftRight(x, width) >= Pow2(j) - 1
  {
    Pow2Add(j, width);
    Pow2Monotone(j, width);
    MulDifference(Pow2(j), 1, Pow2(width));
    ShiftAtLeast(x, width, Pow2(j) - 1);
  }

  ghost predicate LeadingBit(x: nat, top: nat) {
    Pow2(top) <= x < Pow2(top + 1)
  }

  lemma {:induction false} LeadingBitExists(x: nat) returns (top: nat)
    requires x > 0
    ensures LeadingBit(x, top)
  {
    if x == 1 {
      top := 0;
    } else {
      var t := LeadingBitExists(x / 2);
      top := t + 1;
    }
  }

  /** `ceil_power_of_two` isolates the leading bit of its argument. */
  lemma CeilPowerOfTwoMeaning(num: Word, top: nat)
    requires LeadingBit(num, top)
    ensures CeilPowerOfTwo(num) == Pow2(top)
  {
    SmearFills(num, top);
    LeadingBitSmall(num, top);
    OnesLessHalf(Smear(num), top);
  }

  lemma SmearFills(num: Word, top: nat)
    requires LeadingBit(num, top)
    ensures Filled(Smear(num), top, 32)
  {
    LeadingFilled(num, top);
    var n2 := FillsTwice(num, top, 1);
    var n8 := FillsTwice(n2, top, 4);
    FillDoubles(n8, top, 16);
  }

  lemma LeadingFilled(num: nat, top: nat)
    requires LeadingBit(num, top)
    ensures Filled(num, top, 1)
  {
  }

  lemma FillsTwice(num: Word, top: nat, width: nat) returns (num': Word)
    requires width > 0 && Filled(num, top, width)
    ensures num' == OrShifted(OrShifted(num, width), 2 * width)
    ensures Filled(num', top, 4 * width)
  {
    FillDoubles(num, top, width);
    FillDoubles(OrShifted(num, width), top, 2 * width);
    num' := OrShifted(OrShifted(num, width), 2 * width);
  }

  lemma LeadingBitSmall(num: Word, top: nat)
    requires LeadingBit(num, top)
    ensures top < 32
  {
    Pow2Word();
    if top >= 32 {
      Pow2Monotone(32, top);
    }
  }

  lemma OnesLessHalf(ones: Word, top: nat)
    requires top < 32 && Filled(ones, top, 32)
    ensures (ones + WORD - ShiftRight(ones, 1)) % WORD == Pow2(top)
  {
    HalfOfOnes(top);
    Pow2Word();
    Pow2Monotone(top, 31);
  }

  lemma HalfOfOnes(top: nat)
    ensures ShiftRight(Pow2(top + 1) - 1, 1) == Pow2(top) - 1
  {
    assert Pow2(1) == 2;
  }

  lemma CeilPowerOfTwoZero()
    ensures CeilPowerOfTwo(0) == 0
  {
    forall k: nat ensures OrShifted(0, k) == 0 {
      ShiftRightAtMost(0, k);
    }
    ShiftRightAtMost(0, 1);
  }

  /** The least power of two that is at least `n`. */
  ghost predicate LeastPowerAtLeast(p: nat, n: nat) {
    && IsPowerOfTwo(p)
    && n <= p
    && forall k: nat :: n <= Pow2(k) ==> p <= Pow2(k)
  }

  lemma LeastPowerBetween(n: nat, k: nat)
    requires Pow2(k) < n <= Pow2(k + 1)
    ensures LeastPowerAtLeast(Pow2(k + 1), n)
  {
    forall i: nat | n <= Pow2(i) ensures Pow2(k + 1) <= Pow2(i) {
      if i <= k {
        Pow2Monotone(i, k);
      } else {
        Pow2Monotone(k + 1, i);
      }
    }
  }

  /** Rounding up works for every word that is not already a power of two, up to 2^31. */
  lemma RoundupMeaning(num: Word)
    requires 2 <= num <= 0x8000_0000
    ensures LeastPowerAtLeast(RoundupPowerOfTwo(num), num)
  {
    assert Pow2(1) == 2;
    assert Decrement(num) == num - 1;
    var twice := ShiftLeft(num - 1, 1);
    assert twice == 2 * (num - 1);
    var top := LeadingBitExists(twice);
    CeilPowerOfTwoMeaning(twice, top);
    assert Pow2(top) <= twice < 2 * Pow2(top);
    assert top > 0;
    LeastPowerBetween(num, top - 1);
  }

  /** The chosen size is the least power of two at least max(size, 2) exactly when the
      request lies in 1..2^31: a request of 0 gets 2^31 slots, and above 2^31 the doubled
      word loses its top bit and the "rounded up" size is smaller than the request. */
  lemma QueueSizeExact(size: Word)
    ensures LeastPowerAtLeast(QueueSize(size), if size < 2 then 2 else size)
       <==> 1 <= size <= 0x8000_0000
  {
    Pow2Word();
    if size == 0 {
      RoundupOfZero();
    } else if size == 1 {
      assert 2 == Pow2(1);
      LeastPowerBetween(2, 0);
    } else if size <= 0x8000_0000 {
      PowerOfTwoTest(size);
      RoundupMeaning(size);
    } else {
      NoPowerAbove(size);
      RoundupTruncates(size);
    }
  }

  lemma RoundupTruncates(size: Word)
    requires size > 0x8000_0000
    ensures RoundupPowerOfTwo(size) < size
  {
    Pow2Word();
    assert Pow2(1) == 2;
    assert Decrement(size) == size - 1;
    var twice := ShiftLeft(size - 1, 1);
    assert twice == 2 * (size - 1) - WORD;
    if twice == 0 {
      CeilPowerOfTwoZero();
    } else {
      var top := LeadingBitExists(twice);
      CeilPowerOfTwoMeaning(twice, top);
    }
  }

  /** What the run invariants need of a queue size. */
  ghost predicate GoodSize(size: Word) {
    2 <= size <= 0x8000_0000 && IsPowerOfTwo(size)
  }

  /** One request alone ends in a queue without slots; all others give a usable size, which is
      as large as asked for exactly up to 2^31. */
  lemma QueueSizeGood(size: Word)
    ensures GoodSize(QueueSize(size)) <==> size != 0x8000_0001
    ensures size == 0x8000_0001 ==> QueueSize(size) == 0
    ensures QueueSize(size) >= size <==> size <= 0x8000_0000
  {
    Pow2Word();
    if size == 0 {
      RoundupOfZero();
    } else if size <= 0x8000_0000 {
      QueueSizeExact(size);
      assert QueueSize(size) <= Pow2(31);
    } else {
      NoPowerAbove(size);
      RoundupTruncates(size);
      RoundupAbove(size);
    }
  }

  lemma RoundupOfZero()
    ensures QueueSize(0) == Pow2(31)
  {
    Pow2Word();
    assert !PowerOfTwo(0) && Decrement(0) == WORD - 1;
    assert Pow2(1) == 2 && ShiftLeft(WORD - 1, 1) == WORD - 2;
    assert LeadingBit(WORD - 2, 31) by { assert Pow2(32) == 2 * Pow2(31); }
    CeilPowerOfTwoMeaning(WORD - 2, 31);
  }

  lemma NoPowerAbove(size: Word)
    requires size > 0x8000_0000
    ensures !PowerOfTwo(size)
  {
    Pow2Word();
    PowerOfTwoTest(size);
    if IsPowerOfTwo(size) {
      var k: nat :| size == Pow2(k);
      if k <= 31 { Pow2Monotone(k, 31); } else { Pow2Monotone(32, k); }
    }
  }

  lemma RoundupAbove(size: Word)
    requires size > 0x8000_0000
    ensures if size == 0x8000_0001 then RoundupPowerOfTwo(size) == 0 else GoodSize(RoundupPowerOfTwo(size))
  {
    assert Pow2(1) == 2;
    var twice := ShiftLeft(Decrement(size), 1);
    assert twice == 2 * (size - 1) - WORD;
    if twice == 0 {
      CeilPowerOfTwoZero();
    } else {
      CeilGood(twice);
    }
  }

  lemma CeilGood(num: Word)
    requires num >= 2
    ensures GoodSize(CeilPowerOfTwo(num))
  {
    var top := LeadingBitExists(num);
    CeilPowerOfTwoMeaning(num, top);
    LeadingBitSmall(num, top);
    PowerInRange(num, top);
  }

  lemma PowerInRange(num: Word, top: nat)
    requires num >= 2 && LeadingBit(num, top) && top < 32
    ensures Pow2(top) < WORD && GoodSize(Pow2(top))
  {
    Pow2Word();
    assert Pow2(1) == 2 && Pow2(0) == 1;
    assert top != 0;
    Pow2Monotone(1, top);
    Pow2Monotone(top, 31);
  }

  /** Masking with `_size - 1` is the remainder by `_size`, and reducing a ticket to a
      32-bit index first makes no difference: slot numbering is unbroken across the wrap. */
  lemma IndexOfTicket(size: Word, ticket: nat)
    requires GoodSize(size)
    ensures IndexOfQueue(size, ticket % WORD) == ticket % size < size
  {
    var k, rounds := RoundsOf(size);
    Masked(size, k, ticket % WORD);
    WordMod(ticket, size, rounds);
  }

  lemma RoundsOf(size: Word) returns (k: nat, rounds: nat)
    requires GoodSize(size)
    ensures size == Pow2(k) && rounds > 0 && size * rounds == WORD
  {
    k :| size == Pow2(k);
    Pow2Word();
    if k > 31 {
      Pow2Monotone(32, k);
    }
    rounds := Pow2(32 - k);
    Pow2Add(k, 32 - k);
  }

  lemma Masked(size: Word, k: nat, index: Word)
    requires size == Pow2(k)
    ensures IndexOfQueue(size, index) == index % size
  {
    AndMask(index, k);
    assert Decrement(size) == size - 1;
  }

  lemma WordMod(ticket: nat, size: nat, rounds: nat)
    requires size > 0 && rounds > 0 && size * rounds == WORD
    ensures ticket % WORD % size == ticket % size
  {
    ModMod(ticket, size, rounds);
  }

  lemma ModMod(x: nat, d: nat, m: nat)
    requires d > 0 && m > 0
    ensures d * m > 0
    ensures x % (d * m) % d == x % d
  {
    var q, r := x / (d * m), x % (d * m);
    assert x == (d * m) * q + r;
    assert (d * m) * q == d * (m * q);
    var q', r' := r / d, r % d;
    assert r == d * q' + r';
    assert d * (m * q) + d * q' == d * (m * q + q');
    ModUnique(x, d, m * q + q', r');
  }

  /** Tickets less than a whole round apart share a slot only if they are equal. */
  lemma SlotsDistinct(size: int, i: int, j: int)
    requires size > 0 && -size < i - j < size
    ensures i % size == j % size <==> i == j
  {
    if i % size == j % size {
      assert i == size * (i / size) + i % size;
      assert j == size * (j / size) + j % size;
      assert size * (i / size - j / size) == i - j;
      if i / size != j / size {
        MulGap(size, i / size - j / size);
      }
    }
  }
}
