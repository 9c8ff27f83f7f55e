/** CRC32C: the table-driven form that takes eight bytes at a time, and the bit-at-a-time definition
    it must agree with (section 12.1 of RFC 3720). Words are loaded little-endian. */
module Crc32c {
  import opened Bits

  datatype Word = Word(bits: bv32)

  const ZERO := Word(0)

  /** The reflected polynomial. */
  const POLY := Word(0x82F6_3B78)

  function Xor(x: Word, y: Word): Word { Word(x.bits ^ y.bits) }
  function Low(x: Word): Word { Word(x.bits & 0xff) }
  function Down8(x: Word): Word { Word(x.bits >> 8) }
  function Down16(x: Word): Word { Word(x.bits >> 16) }
  function Up8(x: Word): Word { Word(x.bits << 8) }
  function Down1(x: Word): Word { Word(x.bits >> 1) }
  predicate Odd(x: Word) { x.bits & 1 == 1 }
  function Wide(b: bv8): Word { Word(b as bv32) }

  /** One bit. */
  function Step(x: Word): Word {
    if Odd(x) then Xor(Down1(x), POLY) else Down1(x)
  }

  /** n bits. */
  function Steps(x: Word, n: nat): Word
    decreases n
  {
    if n == 0 then x else Steps(Step(x), n - 1)
  }

  /** The reference: all data, a bit at a time. */
  function Crc(crc: Word, data: seq<bv8>): Word
    decreases data
  {
    if data == [] then crc else Crc(Steps(Xor(crc, Wide(data[0])), 8), data[1..])
  }

  lemma {:induction false} CrcAppend(crc: Word, a: seq<bv8>, b: seq<bv8>)
    ensures Crc(crc, a + b) == Crc(Crc(crc, a), b)
    decreases a
  {
    hide Steps, Xor, Wide;
    if a == [] {
      assert a + b == b;
    } else {
      assert (a + b)[1..] == a[1..] + b;
      CrcAppend(Steps(Xor(crc, Wide(a[0])), 8), a[1..], b);
    }
  }

  // ---------- exclusive or ----------

  lemma XorAssoc(a: Word, b: Word, c: Word)
    ensures Xor(Xor(a, b), c) == Xor(a, Xor(b, c))
  {
  }

  lemma XorComm(a: Word, b: Word)
    ensures Xor(a, b) == Xor(b, a)
  {
  }

  lemma XorSelf(a: Word)
    ensures Xor(a, a) == ZERO
  {
  }

  lemma XorZero(a: Word)
    ensures Xor(a, ZERO) == a && Xor(ZERO, a) == a
  {
  }

  lemma XorSwap(a: Word, b: Word, c: Word)
    ensures Xor(Xor(a, b), c) == Xor(Xor(a, c), b)
  {
    hide Xor;
    XorAssoc(a, b, c);
    XorComm(b, c);
    XorAssoc(a, c, b);
  }

  lemma XorPairs(a: Word, b: Word, c: Word, d: Word)
    ensures Xor(Xor(a, b), Xor(c, d)) == Xor(Xor(a, c), Xor(b, d))
  {
    hide Xor;
    XorAssoc(a, b, Xor(c, d));
    XorAssoc(b, c, d);
    XorComm(b, c);
    XorAssoc(c, b, d);
    XorAssoc(a, c, Xor(b, d));
  }

  // ---------- linearity ----------

  lemma OddXor(a: Word, b: Word)
    ensures Odd(Xor(a, b)) == (Odd(a) != Odd(b))
  {
  }

  lemma Down1Xor(a: Word, b: Word)
    ensures Down1(Xor(a, b)) == Xor(Down1(a), Down1(b))
  {
  }

  lemma StepXor(x: Word, y: Word)
    ensures Step(Xor(x, y)) == Xor(Step(x), Step(y))
  {
    hide Xor, Odd, Down1;
    OddXor(x, y);
    Down1Xor(x, y);
    var a, b := Down1(x), Down1(y);
    XorSwap(a, b, POLY);
    XorAssoc(a, b, POLY);
    XorPairs(a, POLY, b, POLY);
    XorSelf(POLY);
    XorZero(Xor(a, b));
  }

  /** Any number of steps is linear over exclusive or. */
  lemma {:induction false} StepsXor(x: Word, y: Word, n: nat)
    ensures Steps(Xor(x, y), n) == Xor(Steps(x, n), Steps(y, n))
    decreases n
  {
    hide Step, Xor;
    if n > 0 {
      StepXor(x, y);
      StepsXor(Step(x), Step(y), n - 1);
    }
  }

  lemma {:induction false} StepsAdd(x: Word, m: nat, n: nat)
    ensures Steps(x, m + n) == Steps(Steps(x, m), n)
    decreases m
  {
    hide Step;
    if m > 0 {
      StepsAdd(Step(x), m - 1, n);
    }
  }

  // ---------- a byte at a time ----------

  lemma EvenStep(p: bv32, q: bv32)
    requires p & 1 == 0 && p >> 1 == q
    ensures Step(Word(p)) == Word(q)
  {
  }

  lemma Halves(p: bv32)
    ensures p & 0x3 == 0 ==> p & 1 == 0 && (p >> 1) & 1 == 0
    ensures p & 0xf == 0 ==> p & 0x3 == 0 && (p >> 2) & 0x3 == 0
    ensures p & 0xff == 0 ==> p & 0xf == 0 && (p >> 4) & 0xf == 0
    ensures (p >> 1) >> 1 == p >> 2 && (p >> 2) >> 2 == p >> 4 && (p >> 4) >> 4 == p >> 8
  {
  }

  lemma TwoSteps(p: bv32, q: bv32)
    requires p & 0x3 == 0 && p >> 2 == q
    ensures Steps(Word(p), 2) == Word(q)
  {
    hide Step;
    Halves(p);
    EvenStep(p, p >> 1);
    EvenStep(p >> 1, q);
    assert Steps(Word(p), 2) == Steps(Word(p >> 1), 1) == Steps(Word(q), 0);
  }

  lemma FourSteps(p: bv32, q: bv32)
    requires p & 0xf == 0 && p >> 4 == q
    ensures Steps(Word(p), 4) == Word(q)
  {
    hide Step, Steps;
    Halves(p);
    TwoSteps(p, p >> 2);
    TwoSteps(p >> 2, q);
    StepsAdd(Word(p), 2, 2);
  }

  lemma EightBits(p: bv32, q: bv32)
    requires p & 0xff == 0 && p >> 8 == q
    ensures Steps(Word(p), 8) == Word(q)
  {
    hide Step, Steps;
    Halves(p);
    FourSteps(p, p >> 4);
    FourSteps(p >> 4, q);
    StepsAdd(Word(p), 4, 4);
  }

  /** Eight steps shift out a zero byte. */
  lemma ShiftOut(w: Word)
    requires w.bits & 0xff == 0
    ensures Steps(w, 8) == Down8(w)
  {
    hide Steps, Down8;
    DownBits(w);
    EightBits(w.bits, Down8(w).bits);
  }

  lemma DownBits(w: Word)
    ensures Down8(w).bits == w.bits >> 8
  {
  }

  lemma SplitByte(x: Word)
    ensures x == Xor(Up8(Down8(x)), Low(x))
  {
  }

  lemma LowOfUp(x: Word)
    ensures Up8(x).bits & 0xff == 0
  {
  }

  lemma DownUpDown(x: Word)
    ensures Down8(Up8(Down8(x))) == Down8(x)
  {
  }

  /** Eight steps: the upper bytes move down, the lowest byte is replaced by its remainder. */
  lemma EightSteps(x: Word)
    ensures Steps(x, 8) == Xor(Down8(x), Steps(Low(x), 8))
  {
    hide Step, Steps, Down8, Up8, Low, Xor;
    SplitByte(x);
    LowOfUp(Down8(x));
    DownUpDown(x);
    ShiftOut(Up8(Down8(x)));
    StepsXor(Up8(Down8(x)), Low(x), 8);
  }

  // ---------- the tables ----------

  /** crc32c_tables[k][b] */
  function Table(k: nat, b: Word): Word {
    if k == 0 then Steps(b, 8)
    else Xor(Down8(Table(k - 1, b)), Table(0, Low(Table(k - 1, b))))
  }

  /** Table k holds the remainder of a byte followed by k zero bytes. */
  lemma {:induction false} TableIsSteps(k: nat, b: Word)
    ensures Table(k, b) == Steps(b, 8 * (k + 1))
  {
    hide Steps, Step, Xor, Down8, Low;
    if k > 0 {
      TableIsSteps(k - 1, b);
      EightSteps(Table(k - 1, b));
      StepsAdd(b, 8 * k, 8);
    }
  }

  /** Tables are linear, so each has its 256 entries from the eight of its powers of two. */
  lemma TableXor(k: nat, a: Word, b: Word)
    ensures Table(k, Xor(a, b)) == Xor(Table(k, a), Table(k, b))
  {
    hide Table, Steps, Xor;
    TableIsSteps(k, a);
    TableIsSteps(k, b);
    TableIsSteps(k, Xor(a, b));
    StepsXor(a, b, 8 * (k + 1));
  }

  lemma EightMore(a0: bv32, a1: bv32, a2: bv32, a3: bv32, a4: bv32, a5: bv32, a6: bv32, a7: bv32, a8: bv32)
    requires Follows(a0, a1) && Follows(a1, a2) && Follows(a2, a3) && Follows(a3, a4)
    requires Follows(a4, a5) && Follows(a5, a6) && Follows(a6, a7) && Follows(a7, a8)
    ensures Steps(Word(a0), 8) == Word(a8)
  {
    hide Steps;
    OneStep(a0, a1, 8);
    OneStep(a1, a2, 7);
    OneStep(a2, a3, 6);
    OneStep(a3, a4, 5);
    OneStep(a4, a5, 4);
    OneStep(a5, a6, 3);
    OneStep(a6, a7, 2);
    OneStep(a7, a8, 1);
    NoStep(Word(a8));
  }

  predicate Follows(x: bv32, y: bv32) {
    y == if x & 1 == 1 then (x >> 1) ^ 0x82F6_3B78 else x >> 1
  }

  lemma OneStep(x: bv32, y: bv32, n: nat)
    requires Follows(x, y) && n >= 1
    ensures Steps(Word(x), n) == Steps(Word(y), n - 1)
  {
    assert Step(Word(x)) == Word(y);
  }

  lemma NoStep(w: Word)
    ensures Steps(w, 0) == w
  {
  }

  /** The eight entries of the first table at the powers of two. */
  lemma SourceEntries()
    ensures Table(0, Word(0x0000_0001)) == Word(0xF26B_8303)
    ensures Table(0, Word(0x0000_0002)) == Word(0xE13B_70F7)
    ensures Table(0, Word(0x0000_0004)) == Word(0xC79A_971F)
    ensures Table(0, Word(0x0000_0008)) == Word(0x8AD9_58CF)
    ensures Table(0, Word(0x0000_0010)) == Word(0x105E_C76F)
    ensures Table(0, Word(0x0000_0020)) == Word(0x20BD_8EDE)
    ensures Table(0, Word(0x0000_0040)) == Word(0x417B_1DBC)
    ensures Table(0, Word(0x0000_0080)) == Word(0x82F6_3B78)
  {
    hide Step, Steps, Xor;
    EightMore(0x0000_0001, 0x82F6_3B78, 0x417B_1DBC, 0x20BD_8EDE, 0x105E_C76F, 0x8AD9_58CF, 0xC79A_971F, 0xE13B_70F7, 0xF26B_8303);
    EightMore(0x0000_0002, 0x0000_0001, 0x82F6_3B78, 0x417B_1DBC, 0x20BD_8EDE, 0x105E_C76F, 0x8AD9_58CF, 0xC79A_971F, 0xE13B_70F7);
    EightMore(0x0000_0004, 0x0000_0002, 0x0000_0001, 0x82F6_3B78, 0x417B_1DBC, 0x20BD_8EDE, 0x105E_C76F, 0x8AD9_58CF, 0xC79A_971F);
    EightMore(0x0000_0008, 0x0000_0004, 0x0000_0002, 0x0000_0001, 0x82F6_3B78, 0x417B_1DBC, 0x20BD_8EDE, 0x105E_C76F, 0x8AD9_58CF);
    EightMore(0x0000_0010, 0x0000_0008, 0x0000_0004, 0x0000_0002, 0x0000_0001, 0x82F6_3B78, 0x417B_1DBC, 0x20BD_8EDE, 0x105E_C76F);
    EightMore(0x0000_0020, 0x0000_0010, 0x0000_0008, 0x0000_0004, 0x0000_0002, 0x0000_0001, 0x82F6_3B78, 0x417B_1DBC, 0x20BD_8EDE);
    EightMore(0x0000_0040, 0x0000_0020, 0x0000_0010, 0x0000_0008, 0x0000_0004, 0x0000_0002, 0x0000_0001, 0x82F6_3B78, 0x417B_1DBC);
    EightMore(0x0000_0080, 0x0000_0040, 0x0000_0020, 0x0000_0010, 0x0000_0008, 0x0000_0004, 0x0000_0002, 0x0000_0001, 0x82F6_3B78);
  }

  /** CRC32_UPD */
  function Upd(crc: Word, n: nat): Word
    requires n >= 1
  {
    Xor(Table(n, Low(crc)), Table(n - 1, Low(Down8(crc))))
  }

  /** crc32c_u32 */
  function CrcU32(data: Word, init: Word): Word {
    var crc := Xor(init, data);
    Xor(Upd(crc, 3), Upd(Down16(crc), 1))
  }

  /** crc32c_u64, given the two halves of its data. */
  function CrcU64(lo: Word, hi: Word, init: Word): Word {
    var crc := Xor(init, lo);
    Xor(Xor(Upd(crc, 7), Upd(Down16(crc), 5)), Xor(Upd(hi, 3), Upd(Down16(hi), 1)))
  }

  lemma TopIsByte(x: Word)
    ensures Down8(Down8(x)) == Down16(x) && Low(Down8(Down16(x))) == Down8(Down16(x))
  {
  }

  /** The bytes of a word through four tables are 8 * k + 32 steps of the word. */
  lemma FourTables(x: Word, k: nat)
    ensures Xor(Upd(x, k + 3), Upd(Down16(x), k + 1)) == Steps(x, 8 * k + 32)
  {
    hide Steps, Step, Xor, Down8, Down16, Low, Table;
    var x1, x2, x3 := Down8(x), Down16(x), Down8(Down16(x));
    TopIsByte(x);
    Peel(x, 8 * k + 24);
    Peel(x1, 8 * k + 16);
    Peel(x2, 8 * k + 8);
    TableIsSteps(k + 3, Low(x));
    TableIsSteps(k + 2, Low(x1));
    TableIsSteps(k + 1, Low(x2));
    TableIsSteps(k, Low(x3));
    FourTerms(Steps(Low(x), 8 * k + 32), Steps(Low(x1), 8 * k + 24), Steps(Low(x2), 8 * k + 16), Steps(x3, 8 * k + 8));
  }

  /** n + 8 steps of a word: its lowest byte through n + 8 steps, the others through n. */
  lemma Peel(x: Word, n: nat)
    ensures Steps(x, n + 8) == Xor(Steps(Low(x), n + 8), Steps(Down8(x), n))
  {
    hide Steps, Step, Xor, Down8, Low;
    EightSteps(x);
    StepsAdd(x, 8, n);
    StepsXor(Down8(x), Steps(Low(x), 8), n);
    StepsAdd(Low(x), 8, n);
    XorComm(Steps(Down8(x), n), Steps(Low(x), n + 8));
  }

  lemma FourTerms(a: Word, b: Word, c: Word, d: Word)
    ensures Xor(Xor(a, b), Xor(c, d)) == Xor(a, Xor(b, Xor(c, d)))
  {
    XorAssoc(a, b, Xor(c, d));
  }

  /** One 32-bit word at a time is 32 steps. */
  lemma U32IsSteps(data: Word, init: Word)
    ensures CrcU32(data, init) == Steps(Xor(init, data), 32)
  {
    hide Steps, Xor, Upd, Down16;
    FourTables(Xor(init, data), 0);
  }

  /** One 64-bit word at a time is 32 steps for each half. */
  lemma U64IsSteps(lo: Word, hi: Word, init: Word)
    ensures CrcU64(lo, hi, init) == Steps(Xor(Steps(Xor(init, lo), 32), hi), 32)
  {
    hide Steps, Xor, Upd, Down16;
    var x := Xor(init, lo);
    FourTables(x, 4);
    FourTables(hi, 0);
    StepsXor(Steps(x, 32), hi, 32);
    StepsAdd(x, 32, 32);
  }

  // ---------- words and bytes ----------

  ghost predicate Fits8(d: Word) { d.bits & 0xffff_ff00 == 0 }
  ghost predicate Fits16(d: Word) { d.bits & 0xffff_0000 == 0 }
  ghost predicate Fits24(d: Word) { d.bits & 0xff00_0000 == 0 }

  lemma WideFits(b: bv8)
    ensures Fits8(Wide(b))
  {
  }

  lemma FitsMore(d: Word)
    ensures Fits8(d) ==> Fits24(d)
    ensures Fits16(d) ==> Fits24(d)
  {
  }

  lemma TwoFit(a: Word, d: Word)
    requires Fits8(a) && Fits8(d)
    ensures Fits16(Xor(a, Up8(d)))
  {
  }

  lemma ThreeFit(a: Word, d: Word)
    requires Fits8(a) && Fits16(d)
    ensures Fits24(Xor(a, Up8(d)))
  {
  }

  lemma DownUp(d: Word)
    requires Fits24(d)
    ensures Down8(Up8(d)) == d
  {
  }

  /** Data that comes in eight steps later can be brought in now, a byte further up. */
  lemma Early(x: Word, d: Word, n: nat)
    requires Fits24(d)
    ensures Steps(Xor(Steps(x, 8), d), n) == Steps(Xor(x, Up8(d)), 8 + n)
  {
    hide Steps, Xor, Up8, Down8, Fits24;
    DownUp(d);
    LowOfUp(d);
    ShiftOut(Up8(d));
    StepsXor(x, Up8(d), 8);
    StepsAdd(Xor(x, Up8(d)), 8, n);
  }

  /** A little-endian load. */
  function Load(b0: bv8, b1: bv8, b2: bv8, b3: bv8): Word {
    Xor(Wide(b0), Up8(Xor(Wide(b1), Up8(Xor(Wide(b2), Up8(Wide(b3)))))))
  }

  /** Four bytes, a bit at a time, are 32 steps of the word they load as. */
  lemma FourBytes(crc: Word, b0: bv8, b1: bv8, b2: bv8, b3: bv8)
    ensures Crc(crc, [b0, b1, b2, b3]) == Steps(Xor(crc, Load(b0, b1, b2, b3)), 32)
  {
    hide Steps, Xor, Up8, Wide, Fits8, Fits16, Fits24;
    var w0, w1, w2, w3 := Wide(b0), Wide(b1), Wide(b2), Wide(b3);
    var s1 := Steps(Xor(crc, w0), 8);
    var s2 := Steps(Xor(s1, w1), 8);
    var s3 := Steps(Xor(s2, w2), 8);
    assert Crc(crc, [b0, b1, b2, b3]) == Steps(Xor(s3, w3), 8) by { Unroll(crc, b0, b1, b2, b3); }
    WideFits(b1); WideFits(b2); WideFits(b3);
    FitsMore(w3);
    Early(Xor(s2, w2), w3, 8);
    var d2 := Xor(w2, Up8(w3));
    XorAssoc(s2, w2, Up8(w3));
    TwoFit(w2, w3);
    FitsMore(d2);
    Early(Xor(s1, w1), d2, 16);
    var d1 := Xor(w1, Up8(d2));
    XorAssoc(s1, w1, Up8(d2));
    ThreeFit(w1, d2);
    Early(Xor(crc, w0), d1, 24);
    XorAssoc(crc, w0, Up8(d1));
  }

  lemma Unroll(crc: Word, b0: bv8, b1: bv8, b2: bv8, b3: bv8)
    ensures var s1 := Steps(Xor(crc, Wide(b0)), 8);
      var s2 := Steps(Xor(s1, Wide(b1)), 8);
      var s3 := Steps(Xor(s2, Wide(b2)), 8);
      Crc(crc, [b0, b1, b2, b3]) == Steps(Xor(s3, Wide(b3)), 8)
  {
    hide Steps, Xor, Wide;
    var s1 := Steps(Xor(crc, Wide(b0)), 8);
    var s2 := Steps(Xor(s1, Wide(b1)), 8);
    var s3 := Steps(Xor(s2, Wide(b2)), 8);
    assert [b0, b1, b2, b3][1..] == [b1, b2, b3] && [b1, b2, b3][1..] == [b2, b3] && [b2, b3][1..] == [b3] && [b3][1..] == [];
    assert Crc(crc, [b0, b1, b2, b3]) == Crc(s1, [b1, b2, b3]) == Crc(s2, [b2, b3]) == Crc(s3, [b3]);
    assert Crc(s3, [b3]) == Crc(Steps(Xor(s3, Wide(b3)), 8), []);
  }

  /** The table lookups on a word agree with the reference on its bytes. */
  lemma U32IsCrc(crc: Word, b: seq<bv8>)
    requires |b| == 4
    ensures CrcU32(Load(b[0], b[1], b[2], b[3]), crc) == Crc(crc, b)
  {
    hide Steps, Xor, Load, Crc, CrcU32;
    U32IsSteps(Load(b[0], b[1], b[2], b[3]), crc);
    FourBytes(crc, b[0], b[1], b[2], b[3]);
    assert b == [b[0], b[1], b[2], b[3]];
  }

  lemma U64IsCrc(crc: Word, b: seq<bv8>)
    requires |b| == 8
    ensures CrcU64(Load(b[0], b[1], b[2], b[3]), Load(b[4], b[5], b[6], b[7]), crc) == Crc(crc, b)
  {
    hide Steps, Xor, Load, Crc, CrcU64;
    var lo, hi := Load(b[0], b[1], b[2], b[3]), Load(b[4], b[5], b[6], b[7]);
    U64IsSteps(lo, hi, crc);
    FourBytes(crc, b[0], b[1], b[2], b[3]);
    FourBytes(Steps(Xor(crc, lo), 32), b[4], b[5], b[6], b[7]);
    var front, back := [b[0], b[1], b[2], b[3]], [b[4], b[5], b[6], b[7]];
    assert b == front + back;
    CrcAppend(crc, front, back);
  }

  // ---------- the whole hash ----------

  /** The zero bytes odp_hash_crc32c adds: a tail of one to three bytes is filled up to four, a tail of
      five to seven to eight. */
  function PadLen(n: nat): nat {
    var r := n % 8;
    if r == 0 || r == 4 then 0 else if r < 4 then 4 - r else 8 - r
  }

  function ZeroBytes(n: nat): (r: seq<bv8>)
    ensures |r| == n
  {
    seq(n, _ => 0)
  }

  /** A uint64_t, and the two words a union sees in it on a little-endian processor. */
  datatype Quad = Quad(bits: bv64)

  function LowHalf(t: Quad): Word { Word((t.bits & 0xffff_ffff) as bv32) }
  function HighHalf(t: Quad): Word { Word((t.bits >> 32) as bv32) }
  function Or(a: Quad, b: Quad): Quad { Quad(a.bits | b.bits) }
  function Extended(w: Word): Quad { Quad(w.bits as bv64) }
  function At0(b: bv8): Quad { Quad(b as bv64) }
  function At8(b: bv8): Quad { Quad((b as bv64) << 8) }
  function At16(b: bv8): Quad { Quad((b as bv64) << 16) }
  function At32(b: bv8): Quad { Quad((b as bv64) << 32) }
  function At40(b: bv8): Quad { Quad((b as bv64) << 40) }
  function At48(b: bv8): Quad { Quad((b as bv64) << 48) }

  const NONE := Quad(0)

  lemma OrHalves(a: Quad, b: Quad)
    ensures LowHalf(Or(a, b)).bits == LowHalf(a).bits | LowHalf(b).bits
    ensures HighHalf(Or(a, b)).bits == HighHalf(a).bits | HighHalf(b).bits
  {
  }

  lemma WordHalves(w: Word)
    ensures LowHalf(Extended(w)) == w && HighHalf(Extended(w)) == ZERO
  {
  }

  lemma ByteHalves(b: bv8)
    ensures LowHalf(At32(b)) == ZERO && HighHalf(At32(b)).bits == b as bv32
    ensures LowHalf(At40(b)) == ZERO && HighHalf(At40(b)).bits == (b as bv32) << 8
    ensures LowHalf(At48(b)) == ZERO && HighHalf(At48(b)).bits == (b as bv32) << 16
  {
  }

  lemma SmallHalves(b: bv8)
    ensures LowHalf(At0(b)).bits == b as bv32 && LowHalf(At8(b)).bits == (b as bv32) << 8 && LowHalf(At16(b)).bits == (b as bv32) << 16
  {
  }

  lemma NoByte()
    ensures At48(0) == NONE && At40(0) == NONE && At16(0) == NONE && At8(0) == NONE
  {
  }

  lemma OrNone(a: Quad)
    ensures Or(NONE, a) == a
  {
  }

  /** Three bytes put together by shifting and or-ing are a load with a zero byte on top. */
  lemma ThreeLoad(b0: bv8, b1: bv8, b2: bv8)
    ensures ((b2 as bv32) << 16) | ((b1 as bv32) << 8) | (b0 as bv32) == Load(b0, b1, b2, 0).bits
  {
    LoadBits(b0, b1, b2);
  }

  lemma LoadBits(b0: bv8, b1: bv8, b2: bv8)
    ensures Load(b0, b1, b2, 0).bits == (b0 as bv32) ^ (((b1 as bv32) ^ (((b2 as bv32) ^ 0) << 8)) << 8)
  {
  }

  /** The words of an assembled tail of five to seven bytes; absent bytes count as zero. */
  lemma QuadTail(w: Word, b4: bv8, b5: bv8, b6: bv8)
    ensures var t := Or(Or(Or(At48(b6), At40(b5)), At32(b4)), Extended(w));
      LowHalf(t) == w && HighHalf(t) == Load(b4, b5, b6, 0)
  {
    var t1 := Or(At48(b6), At40(b5));
    var t2 := Or(t1, At32(b4));
    ByteHalves(b4);
    ByteHalves(b5);
    ByteHalves(b6);
    WordHalves(w);
    OrHalves(At48(b6), At40(b5));
    OrHalves(t1, At32(b4));
    OrHalves(t2, Extended(w));
    ThreeLoad(b4, b5, b6);
    hide LowHalf, HighHalf, Or, Extended, At32, At40, At48, Load;
  }

  /** The word of an assembled tail of one to three bytes. */
  lemma WordTail(b0: bv8, b1: bv8, b2: bv8)
    ensures LowHalf(Or(Or(At16(b2), At8(b1)), At0(b0))) == Load(b0, b1, b2, 0)
  {
    SmallHalves(b0);
    SmallHalves(b1);
    SmallHalves(b2);
    OrHalves(At16(b2), At8(b1));
    OrHalves(Or(At16(b2), At8(b1)), At0(b0));
    ThreeLoad(b0, b1, b2);
    hide LowHalf, Or, At0, At8, At16, Load;
  }

  /** The switch of odp_hash_crc32c on the length of the tail, with its fall-through cases: the CRC of the tail
      filled up with zero bytes. */
  method HashTail(data: array<bv8>, p: nat, init: Word) returns (crc: Word)
    requires p <= data.Length < p + 8
    ensures crc == Crc(init, data[p..] + ZeroBytes(PadLen(data.Length - p)))
  {
    hide Steps, Xor, Load, Crc, CrcU64, CrcU32, Wide, Or, LowHalf, HighHalf, Extended, At0, At8, At16, At32, At40, At48;
    var n := data.Length - p;
    ghost var tail := data[p..] + ZeroBytes(PadLen(n));
    NoByte();
    if n >= 5 {
      crc := HashLongTail(data, p, init);
    } else if n == 4 {
      U32IsCrc(init, tail);
      crc := CrcU32(Load(data[p], data[p + 1], data[p + 2], data[p + 3]), init);
    } else if n >= 1 {
      crc := HashShortTail(data, p, init);
    } else {
      CrcEmpty(init);
      assert tail == [];
      crc := init;
    }
  }

  method HashLongTail(data: array<bv8>, p: nat, init: Word) returns (crc: Word)
    requires p + 5 <= data.Length < p + 8
    ensures crc == Crc(init, data[p..] + ZeroBytes(PadLen(data.Length - p)))
  {
    hide Steps, Xor, Load, Crc, CrcU64, CrcU32, Wide, Or, LowHalf, HighHalf, Extended, At32, At40, At48;
    var n := data.Length - p;
    ghost var tail := data[p..] + ZeroBytes(PadLen(n));
    NoByte();
    OrNone(At48(tail[6]));
    OrNone(At40(tail[5]));
    OrNone(NONE);
    var temp := NONE;
    if n == 7 {
      temp := Or(temp, At48(data[p + 6]));
    }
    OrNone(At32(tail[4]));
    if n >= 6 {
      temp := Or(temp, At40(data[p + 5]));
    }
    temp := Or(temp, At32(data[p + 4]));
    var w := Load(data[p], data[p + 1], data[p + 2], data[p + 3]);
    temp := Or(temp, Extended(w));
    QuadTail(w, tail[4], tail[5], tail[6]);
    crc := CrcU64(LowHalf(temp), HighHalf(temp), init);
    U64IsCrc(init, tail);
  }

  method HashShortTail(data: array<bv8>, p: nat, init: Word) returns (crc: Word)
    requires p + 1 <= data.Length < p + 4
    ensures crc == Crc(init, data[p..] + ZeroBytes(PadLen(data.Length - p)))
  {
    hide Steps, Xor, Load, Crc, CrcU64, CrcU32, Wide, Or, LowHalf, HighHalf, At0, At8, At16;
    var n := data.Length - p;
    ghost var tail := data[p..] + ZeroBytes(PadLen(n));
    NoByte();
    OrNone(At16(tail[2]));
    OrNone(At8(tail[1]));
    OrNone(NONE);
    OrNone(At0(tail[0]));
    var temp := NONE;
    if n == 3 {
      temp := Or(temp, At16(data[p + 2]));
    }
    if n >= 2 {
      temp := Or(temp, At8(data[p + 1]));
    }
    temp := Or(temp, At0(data[p]));
    WordTail(tail[0], tail[1], tail[2]);
    crc := CrcU32(LowHalf(temp), init);
    U32IsCrc(init, tail);
  }

  /** odp_hash_crc32c: for all data and initial values, the bit-at-a-time CRC32C of the data followed by
      the zero bytes. */
  method HashCrc32c(data: array<bv8>, init: Word) returns (crc: Word)
    ensures crc == Crc(init, data[..] + ZeroBytes(PadLen(data.Length)))
  {
    hide Steps, Xor, Load, Crc, CrcU64, CrcU32, Wide;
    crc := init;
    var i := 0;
    CrcEmpty(init);
    assert data[..0] == [];
    while i < data.Length / 8
      invariant 0 <= i <= data.Length / 8
      invariant crc == Crc(init, data[..8 * i])
    {
      var p := 8 * i;
      var b := data[p..p + 8];
      U64IsCrc(crc, b);
      crc := CrcU64(Load(b[0], b[1], b[2], b[3]), Load(b[4], b[5], b[6], b[7]), crc);
      CrcAppend(init, data[..p], b);
      assert data[..p] + b == data[..p + 8];
      i := i + 1;
    }
    EightsEnd(data.Length, i);
    hide PadLen;
    ghost var p, pad := 8 * i, ZeroBytes(PadLen(data.Length));
    assert data[..] + pad == data[..p] + (data[p..] + pad);
    CrcAppend(init, data[..p], data[p..] + pad);
    crc := HashTail(data, 8 * i, crc);
  }

  lemma EightsEnd(n: nat, i: nat)
    requires i == n / 8
    ensures 8 * i <= n < 8 * i + 8 && PadLen(n - 8 * i) == PadLen(n)
  {
  }

  lemma CrcEmpty(crc: Word)
    ensures Crc(crc, []) == crc
  {
  }

  // ---------- when the added zero bytes do not show ----------

  /** The one non-zero word that a step leaves alone. */
  const FIXED := Word(0xFCA4_2DAF)

  lemma Down1Bits(w: Word)
    ensures Down1(w).bits == w.bits >> 1
  {
  }

  lemma XorBits(a: Word, b: Word)
    ensures Xor(a, b).bits == a.bits ^ b.bits
  {
  }

  lemma StepBits(w: Word)
    ensures w.bits & 1 == 1 ==> Step(w).bits == (w.bits >> 1) ^ 0x82F6_3B78
    ensures w.bits & 1 != 1 ==> Step(w).bits == w.bits >> 1
  {
    hide Xor, Down1;
    Down1Bits(w);
    XorBits(Down1(w), POLY);
  }

  lemma StepOnce(x: bv32, y: bv32)
    requires (x & 1 == 1 ==> y == (x >> 1) ^ 0x82F6_3B78) && (x & 1 != 1 ==> y == x >> 1)
    ensures y == x ==> x == 0 || x == 0xFCA4_2DAF
    ensures y ^ x != 0xFCA4_2DAF
    ensures x == 0xFCA4_2DAF ==> y == x
    ensures x == 0 ==> y == x
  {
  }

  lemma StepTwice(x: bv32, y: bv32, z: bv32)
    requires (x & 1 == 1 ==> y == (x >> 1) ^ 0x82F6_3B78) && (x & 1 != 1 ==> y == x >> 1)
    requires (y & 1 == 1 ==> z == (y >> 1) ^ 0x82F6_3B78) && (y & 1 != 1 ==> z == y >> 1)
    ensures (z ^ y) ^ x == 0 ==> x == 0
  {
  }

  /** What n steps change. */
  function Moved(x: Word, n: nat): Word {
    Xor(Steps(x, n), x)
  }

  lemma MovedOnce(x: Word)
    ensures Moved(x, 1) == ZERO ==> x == ZERO || x == FIXED
    ensures Moved(x, 1) != FIXED
    ensures Step(FIXED) == FIXED && Step(ZERO) == ZERO
  {
    hide Step, Xor;
    StepBits(x);
    StepBits(FIXED);
    StepBits(ZERO);
    StepOnce(x.bits, Step(x).bits);
    StepOnce(FIXED.bits, Step(FIXED).bits);
    StepOnce(ZERO.bits, Step(ZERO).bits);
    assert Steps(x, 1) == Steps(Step(x), 0) == Step(x);
    XorBits(Step(x), x);
    XorIsZero(Step(x), x);
  }

  lemma XorIsZero(a: Word, b: Word)
    ensures Xor(a, b) == ZERO <==> a == b
  {
  }

  lemma Cancel(a: Word, b: Word, c: Word)
    ensures Xor(Xor(a, b), Xor(b, c)) == Xor(a, c)
  {
    hide Xor;
    XorAssoc(a, b, Xor(b, c));
    XorAssoc(b, b, c);
    XorSelf(b);
    XorZero(c);
  }

  lemma MovedTwice(x: Word, n: nat)
    ensures Moved(x, 2 * n) == Moved(Moved(x, n), n)
  {
    hide Xor, Steps;
    StepsXor(Steps(x, n), x, n);
    StepsAdd(x, n, n);
    Cancel(Steps(x, 2 * n), Steps(x, n), x);
  }

  /** A power of two of steps fixes only the two words, and never changes a word by FIXED. */
  lemma {:induction false} MovedPower(x: Word, k: nat)
    ensures Moved(x, Pow2(k)) == ZERO ==> x == ZERO || x == FIXED
    ensures Moved(x, Pow2(k)) != FIXED
    decreases k
  {
    hide Moved;
    if k == 0 {
      MovedOnce(x);
    } else {
      var n := Pow2(k - 1);
      MovedTwice(x, n);
      MovedPower(Moved(x, n), k - 1);
      MovedPower(x, k - 1);
    }
  }

  /** A word, n steps of it and 2 n steps of it together. */
  function Trio(x: Word, n: nat): Word {
    Xor(Xor(Steps(x, 2 * n), Steps(x, n)), x)
  }

  lemma TrioOnce(x: Word)
    ensures Trio(x, 1) == ZERO ==> x == ZERO
  {
    hide Step, Xor;
    var y := Step(x);
    var z := Step(y);
    StepBits(x);
    StepBits(y);
    StepTwice(x.bits, y.bits, z.bits);
    assert Steps(x, 2) == Steps(y, 1) == Steps(z, 0) == z && Steps(x, 1) == Steps(y, 0) == y;
    XorBits(z, y);
    XorBits(Xor(z, y), x);
  }

  lemma TrioSteps(x: Word, n: nat)
    ensures Steps(Trio(x, n), n) == Xor(Xor(Steps(x, 3 * n), Steps(x, 2 * n)), Steps(x, n))
  {
    hide Xor, Steps;
    StepsXor(Xor(Steps(x, 2 * n), Steps(x, n)), x, n);
    StepsXor(Steps(x, 2 * n), Steps(x, n), n);
    StepsAdd(x, 2 * n, n);
    StepsAdd(x, n, n);
  }

  /** Three consecutive terms and the three after them: the two in the middle cancel. */
  lemma CancelTwo(a: Word, b: Word, c: Word, d: Word)
    ensures Xor(Xor(Xor(a, b), c), Xor(Xor(b, c), d)) == Xor(a, d)
  {
    hide Xor;
    XorAssoc(a, b, c);
    Cancel(a, Xor(b, c), d);
  }

  /** Eight more steps of a Trio differ from it by what 24 steps change. */
  lemma TrioMoved(x: Word, n: nat)
    ensures Moved(Trio(x, n), n) == Moved(x, 3 * n)
  {
    hide Xor, Steps;
    TrioSteps(x, n);
    CancelTwo(Steps(x, 3 * n), Steps(x, 2 * n), Steps(x, n), x);
  }

  lemma TrioTwice(x: Word, n: nat)
    ensures Trio(x, 2 * n) == Trio(Trio(x, n), n)
  {
    hide Xor, Steps;
    var s4, s3, s2, s1 := Steps(x, 4 * n), Steps(x, 3 * n), Steps(x, 2 * n), Steps(x, n);
    var g := Trio(x, n);
    TrioSteps(x, n);
    StepsAdd(g, n, n);
    StepsXor(Xor(s3, s2), s1, n);
    StepsXor(s3, s2, n);
    StepsAdd(x, 3 * n, n); StepsAdd(x, 2 * n, n); StepsAdd(x, n, n);
    CancelTwo(s4, s3, s2, s1);
    XorComm(s2, s1);
    XorAssoc(s1, s2, x);
    Cancel(s4, s1, Xor(s2, x));
    XorAssoc(s4, s2, x);
  }

  lemma {:induction false} TrioPower(x: Word, k: nat)
    requires Trio(x, Pow2(k)) == ZERO
    ensures x == ZERO
    decreases k
  {
    hide Trio;
    if k == 0 {
      TrioOnce(x);
    } else {
      var n := Pow2(k - 1);
      TrioTwice(x, n);
      TrioPower(Trio(x, n), k - 1);
      TrioPower(x, k - 1);
    }
  }

  lemma {:induction false} FixedStays(n: nat)
    ensures Steps(FIXED, n) == FIXED && Steps(ZERO, n) == ZERO
  {
    hide Step;
    MovedOnce(ZERO);
    if n > 0 {
      FixedStays(n - 1);
    }
  }

  /** One, two or three zero bytes leave exactly two CRC values alone. */
  lemma ZeroBytesShow(x: Word, k: nat)
    requires 1 <= k <= 3
    ensures Steps(x, 8 * k) == x <==> x == ZERO || x == FIXED
  {
    hide Steps, Xor, Step, Trio;
    FixedStays(8 * k);
    XorIsZero(Steps(x, 8 * k), x);
    assert Pow2(3) == 8 && Pow2(4) == 16;
    if k == 1 {
      MovedPower(x, 3);
    } else if k == 2 {
      MovedPower(x, 4);
    } else {
      ThreeZeroBytes(x);
    }
  }

  lemma ThreeZeroBytes(x: Word)
    ensures Moved(x, 24) == ZERO ==> x == ZERO || x == FIXED
  {
    hide Steps, Xor, Step, Trio, Moved;
    assert Pow2(3) == 8;
    TrioMoved(x, 8);
    MovedPower(Trio(x, 8), 3);
    if Trio(x, 8) == ZERO {
      TrioPower(x, 3);
    } else if Trio(x, 8) == FIXED {
      TrioOfFixed(x);
      TrioPower(Xor(x, FIXED), 3);
      XorIsZero(x, FIXED);
    }
  }

  lemma TrioOfFixed(x: Word)
    requires Trio(x, 8) == FIXED
    ensures Trio(Xor(x, FIXED), 8) == ZERO
  {
    hide Steps, Xor;
    StepsXor(x, FIXED, 16);
    StepsXor(x, FIXED, 8);
    FixedStays(16);
    FixedStays(8);
    var a, b := Steps(x, 16), Steps(x, 8);
    XorPairs(a, FIXED, b, FIXED);
    XorSelf(FIXED);
    XorZero(Xor(a, b));
    XorAssoc(Xor(a, b), x, FIXED);
  }

  lemma {:induction false} ZeroBytesAreSteps(crc: Word, k: nat)
    ensures Crc(crc, ZeroBytes(k)) == Steps(crc, 8 * k)
    decreases k
  {
    hide Steps, Xor;
    if k == 0 {
      ZeroSteps(crc);
    } else {
      assert ZeroBytes(k)[1..] == ZeroBytes(k - 1);
      WideZero();
      XorZero(crc);
      ZeroBytesAreSteps(Steps(crc, 8), k - 1);
      StepsAdd(crc, 8, 8 * (k - 1));
    }
  }

  lemma WideZero()
    ensures Wide(0) == ZERO
  {
  }

  lemma ZeroSteps(x: Word)
    ensures Steps(x, 0) == x
  {
  }

  /** odp_hash_crc32c is the CRC32C of the data itself exactly when it adds no bytes, or when the CRC is
      one of the two values zero bytes do not change. */
  lemma PlainCrcIff(init: Word, data: seq<bv8>)
    ensures Crc(init, data + ZeroBytes(PadLen(|data|))) == Crc(init, data)
      <==> |data| % 4 == 0 || Crc(init, data) == ZERO || Crc(init, data) == FIXED
  {
    PadNone(|data|);
    hide Steps, Xor, Crc, PadLen;
    var k, crc := PadLen(|data|), Crc(init, data);
    CrcAppend(init, data, ZeroBytes(k));
    ZeroBytesAreSteps(crc, k);
    if k == 0 {
      ZeroSteps(crc);
    } else {
      ZeroBytesShow(crc, k);
    }
  }

  lemma PadNone(n: nat)
    ensures PadLen(n) <= 3 && (PadLen(n) == 0 <==> n % 4 == 0)
  {
  }

  lemma StepBack(x: bv32, y: bv32)
    requires (x & 1 == 1 ==> y == (x >> 1) ^ 0x82F6_3B78) && (x & 1 != 1 ==> y == x >> 1)
    ensures y == 0 ==> x == 0
    ensures y == 0xFCA4_2DAF ==> x == 0xFCA4_2DAF
  {
  }

  lemma {:induction false} StepsBack(x: Word, n: nat)
    requires Steps(x, n) == ZERO || Steps(x, n) == FIXED
    ensures x == ZERO || x == FIXED
    decreases n
  {
    hide Step;
    if n > 0 {
      StepsBack(Step(x), n - 1);
      StepBits(x);
      StepBack(x.bits, Step(x).bits);
    }
  }

  /** One byte for which the two differ. */
  lemma PaddingShows()
    ensures Crc(ZERO, [1] + ZeroBytes(PadLen(1))) != Crc(ZERO, [1])
  {
    hide Steps, Xor;
    PlainCrcIff(ZERO, [1]);
    var w := Wide(1);
    XorZero(w);
    CrcOfByte(ZERO, 1);
    WideOne();
    if Steps(w, 8) == ZERO || Steps(w, 8) == FIXED {
      StepsBack(w, 8);
    }
  }

  lemma CrcOfByte(crc: Word, b: bv8)
    ensures Crc(crc, [b]) == Steps(Xor(crc, Wide(b)), 8)
  {
    hide Steps, Xor, Wide;
    assert [b][1..] == [];
  }

  lemma WideOne()
    ensures Wide(1) != ZERO && Wide(1) != FIXED
  {
  }
}
