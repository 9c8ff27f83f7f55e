/** Unsigned machine arithmetic shared by the other modules: 32-bit wrap-around
    and bitwise AND on natural numbers. */
module Bits {

  const TWO32: nat := 0x1_0000_0000

  type u8 = x: int | 0 <= x < 0x100
  type u32 = x: int | 0 <= x < 0x1_0000_0000

  /** The value a uint32_t holds after an unbounded result is stored into it. */
  function Low32(x: int): u32 {
    x % 0x1_0000_0000
  }

  function Low8(x: int): u8 {
    x % 0x100
  }

  function Pow2(k: nat): (p: nat)
    ensures p >= 1
  {
    if k == 0 then 1 else 2 * Pow2(k - 1)
  }

  ghost predicate IsPow2(x: nat) {
    exists k: nat :: x == Pow2(k)
  }

  /** Bitwise AND, one bit at a time. */
  function And(x: nat, y: nat): (r: nat)
    ensures r <= x && r <= y
    decreases x
  {
    if x == 0 || y == 0 then 0
    else (if x % 2 == 1 && y % 2 == 1 then 1 else 0) + 2 * And(x / 2, y / 2)
  }

  lemma {:induction false} ModPow2Step(x: nat, k: nat)
    requires k > 0
    ensures x % Pow2(k) == x % 2 + 2 * ((x / 2) % Pow2(k - 1))
  {
    var p := Pow2(k - 1);
    var h := x / 2;
    var q, r := h / p, h % p;
    assert h == q * p + r;
    assert x == q * (2 * p) + (x % 2 + 2 * r);
    ModUnique(x, 2 * p, q, x % 2 + 2 * r);
  }

  lemma MulAtLeast(a: int, m: nat)
    requires a >= 1
    ensures a * m >= m
  {
    assert (a - 1) * m >= 0;
  }

  lemma ModUnique(x: int, m: nat, q: int, r: nat)
    requires r < m
    requires x == q * m + r
    ensures x % m == r && x / m == q
  {
    var q', r' := x / m, x % m;
    var d := q - q';
    assert d * m == r' - r by {
      assert x == q' * m + r';
      assert q * m - q' * m == d * m;
    }
    if d >= 1 {
      MulAtLeast(d, m);
    } else if d <= -1 {
      assert (-d) * m == -(d * m);
      MulAtLeast(-d, m);
    }
  }

  /** Masking with size - 1 gives the slot of a power-of-two size. */
  lemma MaskSlot(x: nat, k: nat)
    ensures And(x, Pow2(k) - 1) == Slot(x, Pow2(k))
  {
    AndMask(x, k);
    SlotIsMod(x, Pow2(k));
  }

  lemma AndMask(x: nat, k: nat)
    ensures And(x, Pow2(k) - 1) == x % Pow2(k)
  {
    AndIsRem(x, k);
  }

  /** x % m, kept out of sight of the arithmetic where only its recurrence matters. */
  function Rem(x: nat, m: nat): nat
    requires m > 0
  {
    x % m
  }

  lemma {:induction false} AndIsRem(x: nat, k: nat)
    ensures And(x, Pow2(k) - 1) == Rem(x, Pow2(k))
    decreases k
  {
    hide And, Rem, Pow2;
    if x == 0 {
      RemOfZero(Pow2(k));
      ZeroAnd(Pow2(k) - 1);
    } else if k == 0 {
      OneBitLess(x);
    } else {
      AndStep(x, k);
      RemStep(x, k);
      AndIsRem(x / 2, k - 1);
    }
  }

  lemma ZeroAnd(y: nat)
    ensures And(0, y) == 0
  {
  }

  lemma OneBitLess(x: nat)
    ensures And(x, Pow2(0) - 1) == Rem(x, Pow2(0))
  {
    RemOfOne(x);
    AndZero(x);
  }

  lemma AndStep(x: nat, k: nat)
    requires x > 0 && k > 0
    ensures And(x, Pow2(k) - 1) == 2 * And(x / 2, Pow2(k - 1) - 1) + x % 2
  {
    AndOdd(x, Pow2(k - 1) - 1);
  }

  lemma RemOfZero(m: nat)
    requires m > 0
    ensures Rem(0, m) == 0
  {
    ModUnique(0, m, 0, 0);
  }

  lemma RemOfLess(x: nat, m: nat)
    requires x < m
    ensures Rem(x, m) == x
  {
    ModUnique(x, m, 0, x);
  }

  lemma RemOfOne(x: nat)
    ensures Rem(x, 1) == 0
  {
  }

  lemma RemStep(x: nat, k: nat)
    requires k > 0
    ensures Rem(x, Pow2(k)) == x % 2 + 2 * Rem(x / 2, Pow2(k - 1))
  {
    ModPow2Step(x, k);
  }

  lemma AndOdd(x: nat, m: nat)
    requires x > 0
    ensures And(x, 2 * m + 1) == 2 * And(x / 2, m) + x % 2
  {
  }

  lemma {:induction false} Pow2Monotone(j: nat, k: nat)
    requires j <= k
    ensures Pow2(j) <= Pow2(k)
  {
    if j < k {
      Pow2Monotone(j, k - 1);
    }
  }

  /** The ring's power-of-two test, read on 32-bit operands. */
  lemma {:induction false} PowerOfTwoTest(x: u32)
    requires x > 0
    ensures And(x - 1, x) == 0 <==> IsPow2(x)
  {
    if x == 1 {
      assert x == Pow2(0);
    } else if x % 2 == 1 {
      assert And(x - 1, x) == 2 * And((x - 1) / 2, x / 2);
      assert (x - 1) / 2 == x / 2;
      AndSelf(x / 2);
      forall k: nat ensures x != Pow2(k) {
        OddPow2(k);
      }
    } else {
      var h := x / 2;
      assert (x - 1) / 2 == h - 1;
      PowerOfTwoTest(h);
      if IsPow2(h) {
        var k: nat :| h == Pow2(k);
        assert x == Pow2(k + 1);
      }
      if IsPow2(x) {
        var k: nat :| x == Pow2(k);
        assert k > 0;
        assert h == Pow2(k - 1);
      }
    }
  }

  lemma AndZero(x: nat)
    ensures And(x, 0) == 0
  {
  }

  lemma OddPow2(k: nat)
    ensures k > 0 ==> Pow2(k) % 2 == 0
  {
  }

  lemma {:induction false} AndSelf(x: nat)
    ensures And(x, x) == x
  {
    if x > 0 {
      AndSelf(x / 2);
    }
  }

  /** n & 3 and n & ~3 split a 32-bit n into its remainder and its multiple of four. */
  lemma AndThree(n: u32)
    ensures And(n, 3) == n % 4
    ensures And(n, 0xFFFF_FFFC) == n - n % 4
  {
    assert Pow2(2) == 4;
    AndMask(n, 2);
    if n > 0 {
      var h := n / 2;
      assert And(n, 0xFFFF_FFFC) == 2 * And(h, 0x7FFF_FFFE);
      if h > 0 {
        var g := h / 2;
        assert And(h, 0x7FFF_FFFE) == 2 * And(g, 0x3FFF_FFFF);
        Pow2Is30();
        AndMask(g, 30);
        assert g < 0x4000_0000;
        ModUnique(g, 0x4000_0000, 0, g);
      }
    }
  }

  lemma Pow2Is30()
    ensures Pow2(30) == 0x4000_0000
    ensures Pow2(32) == 0x1_0000_0000
  {
    assert Pow2(8) == 256 by { assert Pow2(4) == 16; }
    assert Pow2(16) == 65536 by { assert Pow2(12) == 4096; }
    assert Pow2(24) == 0x100_0000 by { assert Pow2(20) == 0x10_0000; }
    assert Pow2(28) == 0x1000_0000;
    assert Pow2(30) == 0x4000_0000;
  }

  /** A power-of-two size divides 2^32, so reducing a wrapped counter modulo the size
      gives the same slot as reducing the unbounded counter. */
  lemma SlotOfLow32(x: nat, k: nat)
    requires k <= 32
    ensures Slot(Low32(x), Pow2(k)) == Slot(x, Pow2(k))
  {
    Pow2Is30();
    Pow2Split(k, 32);
    LowMod(x, Pow2(k), Pow2(32 - k));
    SlotIsMod(Low32(x), Pow2(k));
    SlotIsMod(x, Pow2(k));
  }

  lemma LowMod(x: nat, p: nat, c: nat)
    requires p > 0 && c * p == 0x1_0000_0000
    ensures Low32(x) % p == x % p
  {
    var q, y := x / 0x1_0000_0000, Low32(x);
    var qq, r := y / p, y % p;
    assert x == (q * c + qq) * p + r by {
      assert x == q * (c * p) + y;
      assert y == qq * p + r;
      assert q * (c * p) == (q * c) * p;
      Distribute(q * c, qq, p);
    }
    ModUnique(x, p, q * c + qq, r);
  }

  lemma Distribute(a: int, b: int, m: int)
    ensures (a + b) * m == a * m + b * m
  {
  }

  lemma {:induction false} Pow2Split(j: nat, k: nat)
    requires j <= k
    ensures Pow2(k) == Pow2(k - j) * Pow2(j)
  {
    if j > 0 {
      Pow2Split(j - 1, k - 1);
      var a, b := Pow2(k - j), Pow2(j - 1);
      assert Pow2(k) == 2 * (a * b) && Pow2(j) == 2 * b;
      hide Pow2;
      DoubleRight(a, b);
    }
  }

  lemma DoubleRight(a: nat, b: nat)
    ensures 2 * (a * b) == a * (2 * b)
  {
  }

  /** x modulo size, by repeated subtraction: the slot a counter value lands in. */
  function Slot(x: nat, size: nat): (r: nat)
    requires size > 0
    ensures r < size
    decreases x
  {
    if x < size then x else Slot(x - size, size)
  }

  lemma {:induction false} SlotIsMod(x: nat, size: nat)
    requires size > 0
    ensures Slot(x, size) == x % size
    decreases x
  {
    if x < size {
      ModUnique(x, size, 0, x);
    } else {
      SlotIsMod(x - size, size);
      var q, r := (x - size) / size, (x - size) % size;
      Distribute(q, 1, size);
      ModUnique(x, size, q + 1, r);
    }
  }

  /** Moving a counter on by k moves its slot on by k, going round the end at most once. */
  lemma {:induction false} SlotAdd(x: nat, k: nat, size: nat)
    requires k <= size && size > 0
    ensures Slot(x + k, size) ==
      if Slot(x, size) + k < size then Slot(x, size) + k else Slot(x, size) + k - size
    decreases x
  {
    if x >= size {
      SlotAdd(x - size, k, size);
    }
  }

  /** Two counters less than the size apart share a slot only if they are equal. */
  lemma SlotsDistinct(i: nat, j: nat, size: nat)
    requires i < j < i + size
    ensures Slot(i, size) != Slot(j, size)
  {
    SlotAdd(i, j - i, size);
  }

  /** The modular difference of two counters is their true difference while it is below 2^32. */
  lemma Difference32(a: nat, b: nat)
    requires b <= a < b + 0x1_0000_0000
    ensures Low32(Low32(a) - Low32(b)) == a - b
    ensures Low32(a) == Low32(b) <==> a == b
  {
  }

  lemma BorrowDifference32(a: nat, b: nat)
    requires b <= a < b + 0x1_0000_0000
    ensures Low32(Low32(b) - Low32(a) - 1) == 0xFFFF_FFFF - (a - b)
  {
  }

  /** The low k bits of the 32-bit complement of d. */
  lemma Complement(d: nat, k: nat)
    requires k <= 32 && d < Pow2(k)
    ensures d <= 0xFFFF_FFFF && Rem(0xFFFF_FFFF - d, Pow2(k)) == Pow2(k) - 1 - d
  {
    Pow2Is30();
    Pow2Split(k, 32);
    Pow2Monotone(k, 32);
    hide Pow2;
    RemBack(d, Pow2(32 - k), Pow2(k));
  }

  lemma RemBack(d: nat, c: nat, p: nat)
    requires c * p == 0x1_0000_0000 && d < p <= 0x1_0000_0000
    ensures Rem(0xFFFF_FFFF - d, p) == p - 1 - d
  {
    Distribute(c, -1, p);
    ModUnique(0xFFFF_FFFF - d, p, c - 1, p - 1 - d);
  }

  lemma Low32Add(a: int, m: int)
    ensures Low32(Low32(a) + m) == Low32(a + m)
  {
  }

  lemma Low32Sub(a: int, b: int)
    ensures Low32(Low32(a) - Low32(b)) == Low32(a - b)
  {
  }

  lemma Low32SubSame(d: int, x: int)
    ensures Low32(d + x - Low32(x)) == Low32(d)
  {
  }

  lemma Low32Small(x: int)
    requires 0 <= x < 0x1_0000_0000
    ensures Low32(x) == x
  {
  }
}
