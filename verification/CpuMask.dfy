/** CPU masks and their hexadecimal text. */
module CpuMask {
  import opened Bits
  import opened Wrappers

  /** CPU_SETSIZE */
  const SETSIZE := 1024

  type Mask = m: set<nat> | forall c :: c in m ==> c < SETSIZE

  // ---------- searching ----------

  /** odp_cpumask_first */
  method First(mask: Mask) returns (cpu: int)
    ensures cpu == -1 <==> mask == {}
    ensures cpu != -1 ==> 0 <= cpu && cpu in mask && forall c :: c in mask ==> cpu <= c
  {
    cpu := 0;
    while cpu < SETSIZE
      invariant 0 <= cpu && forall c :: c in mask ==> cpu <= c
    {
      if cpu in mask {
        return;
      }
      cpu := cpu + 1;
    }
    cpu := -1;
  }

  /** odp_cpumask_next: the next CPU after the given one. */
  method Next(mask: Mask, after: int) returns (cpu: int)
    requires after >= -1
    ensures cpu == -1 <==> forall c :: c in mask ==> c <= after
    ensures cpu != -1 ==> cpu > after && cpu in mask && forall c :: c in mask && c > after ==> cpu <= c
  {
    cpu := after + 1;
    while cpu < SETSIZE
      invariant cpu > after && forall c :: c in mask && c > after ==> cpu <= c
    {
      if cpu in mask {
        return;
      }
      cpu := cpu + 1;
    }
    cpu := -1;
  }

  /** odp_cpumask_last */
  method Last(mask: Mask) returns (cpu: int)
    ensures cpu == -1 <==> mask == {}
    ensures cpu != -1 ==> 0 <= cpu && cpu in mask && forall c :: c in mask ==> c <= cpu
  {
    cpu := SETSIZE - 1;
    while cpu >= 0
      invariant -1 <= cpu < SETSIZE && forall c :: c in mask ==> c <= cpu
    {
      if cpu in mask {
        return;
      }
      cpu := cpu - 1;
    }
    assert forall c :: c in mask ==> c <= -1;
  }

  // ---------- nibbles and digits ----------

  function Weight(j: nat): nat
    requires j < 4
  {
    if j == 0 then 1 else if j == 1 then 2 else if j == 2 then 4 else 8
  }

  /** Bit j of a nibble. */
  predicate Bit(v: nat, j: nat)
    requires j < 4
  {
    v / Weight(j) % 2 == 1
  }

  /** The part of nibble i made of its bits from j up. */
  function Upper(mask: Mask, i: nat, j: nat): nat
    requires j <= 4
    decreases 4 - j
  {
    if j == 4 then 0 else Upper(mask, i, j + 1) + if 4 * i + j in mask then Weight(j) else 0
  }

  function Nibble(mask: Mask, i: nat): (v: nat)
    ensures v < 16
  {
    Upper(mask, i, 0)
  }

  lemma NibbleBits(mask: Mask, i: nat, j: nat)
    requires j < 4
    ensures Bit(Nibble(mask, i), j) <==> 4 * i + j in mask
  {
  }

  function Digit(v: nat): char
    requires v < 16
  {
    if v < 0xA then '0' + v as char else 'A' + (v - 0xA) as char
  }

  function HexValue(c: char): Option<nat> {
    if '0' <= c <= '9' then Some(c as nat - '0' as nat)
    else if 'A' <= c <= 'F' then Some(c as nat - 'A' as nat + 10)
    else if 'a' <= c <= 'f' then Some(c as nat - 'a' as nat + 10)
    else None
  }

  lemma DigitValue(v: nat)
    requires v < 16
    ensures HexValue(Digit(v)) == Some(v) && (Digit(v) == '0' <==> v == 0)
  {
  }

  /** The digits of nibbles hi - 1 down to lo. */
  function Digits(mask: Mask, hi: nat, lo: nat): (s: string)
    ensures |s| == if lo < hi then hi - lo else 0
    decreases hi - lo
  {
    if lo >= hi then "" else Digits(mask, hi, lo + 1) + [Digit(Nibble(mask, lo))]
  }

  lemma {:induction false} DigitAt(mask: Mask, hi: nat, lo: nat, k: nat)
    requires lo <= k < hi
    ensures Digits(mask, hi, lo)[hi - 1 - k] == Digit(Nibble(mask, k))
    decreases hi - lo
  {
    if k > lo {
      DigitAt(mask, hi, lo + 1, k);
    }
  }

  // ---------- the number a text denotes ----------

  const DIGITS := "0123456789ABCDEF"

  /** c is a hexadecimal digit of value v. */
  predicate Means(c: char, v: nat) {
    v < 16 && (c == DIGITS[v] || (v >= 10 && c == "abcdef"[v - 10]))
  }

  ghost predicate IsHex(c: char) {
    exists v :: Means(c, v)
  }

  ghost predicate AllDigits(s: string) {
    forall i :: 0 <= i < |s| ==> IsHex(s[i])
  }

  ghost function ValueOf(c: char): (v: nat)
    requires IsHex(c)
    ensures Means(c, v)
  {
    var v :| Means(c, v);
    v
  }

  /** The number the digits denote in base 16. */
  ghost function Number(s: string): nat
    requires AllDigits(s)
  {
    if s == "" then 0 else 16 * Number(s[..|s| - 1]) + ValueOf(s[|s| - 1])
  }

  /** The sum of 2^c over the CPUs c below n. */
  ghost function Sum(mask: set<nat>, n: nat): nat {
    if n == 0 then 0 else Sum(mask, n - 1) + if n - 1 in mask then Pow2(n - 1) else 0
  }

  predicate HasBit(x: nat, c: nat) {
    x / Pow2(c) % 2 == 1
  }

  lemma HexMeans(c: char)
    ensures HexValue(c).Some? <==> IsHex(c)
    ensures IsHex(c) ==> HexValue(c) == Some(ValueOf(c))
  {
    var v := HexValue(c);
    if v.Some? {
      assert Means(c, v.value);
    }
  }

  lemma OneDigit(s: string, c: char)
    requires AllDigits(s) && IsHex(c)
    ensures AllDigits(s + [c]) && Number(s + [c]) == 16 * Number(s) + ValueOf(c)
  {
    assert (s + [c])[..|s|] == s;
  }

  /** The digits of the nibbles from lo up, and the CPUs below them, make up the number of the mask. */
  lemma {:induction false} DigitsNumber(mask: Mask, hi: nat, lo: nat)
    requires lo <= hi
    ensures AllDigits(Digits(mask, hi, lo))
    ensures Number(Digits(mask, hi, lo)) * Pow2(4 * lo) + Sum(mask, 4 * lo) == Sum(mask, 4 * hi)
    decreases hi - lo
  {
    if lo < hi {
      DigitsNumber(mask, hi, lo + 1);
      NextDigit(mask, hi, lo, Digits(mask, hi, lo + 1));
    }
  }

  lemma NextDigit(mask: Mask, hi: nat, lo: nat, d: string)
    requires lo < hi && d == Digits(mask, hi, lo + 1) && AllDigits(d)
    requires Number(d) * Pow2(4 * (lo + 1)) + Sum(mask, 4 * (lo + 1)) == Sum(mask, 4 * hi)
    ensures AllDigits(Digits(mask, hi, lo))
    ensures Number(Digits(mask, hi, lo)) * Pow2(4 * lo) + Sum(mask, 4 * lo) == Sum(mask, 4 * hi)
  {
    hide Sum, Nibble, Digits, Pow2, Digit, Number, AllDigits, IsHex;
    var v, p := Nibble(mask, lo), Pow2(4 * lo);
    DigitMeans(v);
    OneDigit(d, Digit(v));
    NibbleSum(mask, lo);
    SixteenTimes(4 * lo);
    DigitsStep(mask, hi, lo);
    Regroup(Number(d), v, p, Sum(mask, 4 * lo));
  }

  lemma DigitMeans(v: nat)
    requires v < 16
    ensures IsHex(Digit(v)) && ValueOf(Digit(v)) == v
  {
    DigitValue(v);
    HexMeans(Digit(v));
  }

  lemma Regroup(rest: nat, v: nat, p: nat, sum: nat)
    ensures (16 * rest + v) * p + sum == rest * (16 * p) + (v * p + sum)
  {
  }

  lemma SixteenTimes(k: nat)
    ensures Pow2(k + 1) == 2 * Pow2(k) && Pow2(k + 2) == 4 * Pow2(k) && Pow2(k + 3) == 8 * Pow2(k) && Pow2(k + 4) == 16 * Pow2(k)
  {
    assert Pow2(k + 2) == 2 * Pow2(k + 1);
    assert Pow2(k + 4) == 2 * Pow2(k + 3);
  }

  /** A nibble stands for its four CPUs. */
  lemma NibbleSum(mask: Mask, i: nat)
    ensures Sum(mask, 4 * (i + 1)) == Nibble(mask, i) * Pow2(4 * i) + Sum(mask, 4 * i)
  {
    var p, k := Pow2(4 * i), 4 * i;
    SixteenTimes(k);
    SumStep(mask, k);
    SumStep(mask, k + 1);
    SumStep(mask, k + 2);
    SumStep(mask, k + 3);
    hide Sum, Pow2;
    var b0, b1, b2, b3 := Has(mask, k), Has(mask, k + 1), Has(mask, k + 2), Has(mask, k + 3);
    assert Upper(mask, i, 2) == 4 * b2 + 8 * b3;
    assert Nibble(mask, i) == b0 + 2 * b1 + 4 * b2 + 8 * b3;
    hide Nibble, Upper;
    FourBits(b0, b1, b2, b3, p);
  }

  function Has(mask: set<nat>, c: nat): nat {
    if c in mask then 1 else 0
  }

  lemma SumStep(mask: set<nat>, n: nat)
    ensures Sum(mask, n + 1) == Sum(mask, n) + Has(mask, n) * Pow2(n)
  {
  }

  lemma FourBits(b0: nat, b1: nat, b2: nat, b3: nat, p: nat)
    ensures (b0 + 2 * b1 + 4 * b2 + 8 * b3) * p == b0 * p + b1 * (2 * p) + b2 * (4 * p) + b3 * (8 * p)
  {
  }

  /** Beyond the highest CPU nothing is added. */
  lemma {:induction false} SumEnds(mask: Mask, n: nat, m: nat)
    requires n <= m && forall c :: c in mask ==> c < n
    ensures Sum(mask, m) == Sum(mask, n)
  {
    if n < m {
      SumEnds(mask, n, m - 1);
    }
  }

  /** The digits of a mask denote the sum of 2^c over its CPUs. */
  lemma TextNumber(mask: Mask, last: nat)
    requires IsLast(mask, last)
    ensures AllDigits(Digits(mask, Nibbles(last), 0)) && Number(Digits(mask, Nibbles(last), 0)) == Sum(mask, SETSIZE)
  {
    var n := Nibbles(last);
    DigitsNumber(mask, n, 0);
    SumEnds(mask, 4 * n, SETSIZE);
  }

  /** What is halved c times. */
  lemma HalfFirst(x: nat, c: nat)
    ensures x / Pow2(c + 1) == x / 2 / Pow2(c)
  {
    var p, h := Pow2(c), x / 2;
    var q, r := h / p, h % p;
    assert x == q * (2 * p) + (2 * r + x % 2) by {
      assert h == q * p + r;
      assert x == 2 * h + x % 2;
    }
    ModUnique(x, 2 * p, q, 2 * r + x % 2);
  }

  /** The k-th digit from the end has bit j. */
  ghost predicate DigitBit(s: string, k: nat, j: nat)
    requires j < 4
  {
    k < |s| && IsHex(FromEnd(s, k)) && Bit(ValueOf(FromEnd(s, k)), j)
  }

  /** Bit 4 * k + j of the number is bit j of the k-th digit from the end. */
  lemma {:induction false} NumberBit(s: string, k: nat, j: nat)
    requires AllDigits(s) && j < 4
    ensures HasBit(Number(s), 4 * k + j) <==> DigitBit(s, k, j)
    decreases |s|
  {
    if s == "" {
      ModUnique(0, Pow2(4 * k + j), 0, 0);
    } else {
      var front, d := s[..|s| - 1], s[|s| - 1];
      assert s == front + [d] && IsHex(d) && AllDigits(front);
      if k == 0 {
        LastDigit(front, d, j);
      } else {
        NumberBit(front, k - 1, j);
        EarlierDigit(front, d, k, j);
      }
    }
  }

  lemma LastDigit(front: string, d: char, j: nat)
    requires AllDigits(front) && IsHex(d) && j < 4
    ensures AllDigits(front + [d]) && (HasBit(Number(front + [d]), j) <==> DigitBit(front + [d], 0, j))
  {
    hide Number, HasBit, Bit, AllDigits;
    OneDigit(front, d);
    LowBits(Number(front), ValueOf(d), j);
  }

  lemma EarlierDigit(front: string, d: char, k: nat, j: nat)
    requires AllDigits(front) && IsHex(d) && j < 4 && k > 0 && (HasBit(Number(front), 4 * (k - 1) + j) <==> DigitBit(front, k - 1, j))
    ensures AllDigits(front + [d]) && (HasBit(Number(front + [d]), 4 * k + j) <==> DigitBit(front + [d], k, j))
  {
    hide Number, HasBit, Bit, AllDigits, IsHex;
    OneDigit(front, d);
    HighBits(Number(front), ValueOf(d), 4 * k + j);
    assert k < |front + [d]| ==> FromEnd(front + [d], k) == FromEnd(front, k - 1);
  }

  lemma LowBits(rest: nat, v: nat, c: nat)
    requires v < 16 && c < 4
    ensures HasBit(16 * rest + v, c) <==> Bit(v, c)
  {
    SixteenTimes(0);
    assert Pow2(0) == 1;
    hide Pow2;
    if c == 0 {
      EvenPart(8 * rest, v);
    } else if c == 1 {
      Quotient(8 * rest, 2, v);
      EvenPart(4 * rest, v / 2);
    } else if c == 2 {
      Quotient(4 * rest, 4, v);
      EvenPart(2 * rest, v / 4);
    } else {
      Quotient(2 * rest, 8, v);
      EvenPart(rest, v / 8);
    }
  }

  lemma EvenPart(a: nat, w: nat)
    ensures (2 * a + w) % 2 == w % 2
  {
  }

  lemma Quotient(a: nat, b: nat, v: nat)
    requires b >= 1
    ensures (a * b + v) / b == a + v / b
  {
    Distribute(a, v / b, b);
    ModUnique(a * b + v, b, a + v / b, v % b);
  }

  lemma HighBits(rest: nat, v: nat, c: nat)
    requires v < 16 && c >= 4
    ensures HasBit(16 * rest + v, c) <==> HasBit(rest, c - 4)
  {
    var x := 16 * rest + v;
    HalfFirst(x, c - 1);
    HalfFirst(x / 2, c - 2);
    HalfFirst(x / 2 / 2, c - 3);
    HalfFirst(x / 2 / 2 / 2, c - 4);
    assert x / 2 / 2 / 2 / 2 == rest;
  }

  // ---------- text ----------

  /** The number of digits of a non-empty mask whose highest CPU is given. */
  function Nibbles(last: nat): nat {
    last / 4 + 1
  }

  predicate IsLast(mask: Mask, last: nat) {
    last in mask && forall c :: c in mask ==> c <= last
  }

  /** What odp_cpumask_to_str does with a non-empty mask and a buffer of the given length. */
  predicate Written(mask: Mask, last: nat, len: int, rc: int, str: string) {
    && (rc == -1 <==> len < 3 + Nibbles(last))
    && (rc != -1 ==> rc == 3 + Nibbles(last) && str == "0x" + Digits(mask, Nibbles(last), 0))
  }

  /** "0x" and a number without leading zeros that has bit c set for each CPU c. */
  ghost predicate Denotes(str: string, mask: Mask) {
    && |str| >= 3 && str[..2] == "0x" && AllDigits(str[2..])
    && Number(str[2..]) == Sum(mask, SETSIZE) && (str[2] == '0' ==> |str| == 3)
  }

  lemma ZeroNumber()
    ensures AllDigits("0x0"[2..]) && Number("0x0"[2..]) == 0
  {
    assert "0x0"[2..] == "" + ['0'] && Means('0', 0);
    HexMeans('0');
    OneDigit("", '0');
  }

  /** odp_cpumask_to_str: "0x" and the digits, the highest first; the value returned counts the terminating
      null as well. It fails exactly when the buffer cannot hold the text. */
  method ToStr(mask: Mask, len: int) returns (rc: int, str: string)
    ensures rc == -1 || rc == |str| + 1
    ensures mask == {} ==> (rc == -1 <==> len < 4) && (rc != -1 ==> str == "0x0")
    ensures mask != {} ==> exists last :: IsLast(mask, last) && Written(mask, last, len, rc, str)
    ensures rc != -1 ==> Denotes(str, mask)
  {
    str := "";
    var cpu := Last(mask);
    if len < 4 {
      rc := -1;
    } else if cpu < 0 {
      str := "0x0";
      rc := |str| + 1;
      ZeroNumber();
      SumEnds(mask, 0, SETSIZE);
    } else if len < 3 + Nibbles(cpu) {
      rc := -1;
    } else {
      str := WriteDigits(mask, cpu);
      rc := |str| + 1;
      TopDigit(mask, cpu);
    }
    assert mask != {} ==> IsLast(mask, cpu);
  }

  /** The digits written after the prefix denote the number with bit c set for each CPU c. */
  method WriteDigits(mask: Mask, last: nat) returns (str: string)
    requires IsLast(mask, last)
    ensures str == "0x" + Digits(mask, Nibbles(last), 0) && |str| >= 2
    ensures AllDigits(str[2..]) && Number(str[2..]) == Sum(mask, SETSIZE)
  {
    hide Digits, Number, Sum, AllDigits, Nibbles;
    TextNumber(mask, last);
    str := WriteLoop(mask, last);
    assert str[2..] == Digits(mask, Nibbles(last), 0);
  }

  /** The loop from the highest CPU down: bits gather in a nibble, and each nibble becomes a digit. */
  method WriteLoop(mask: Mask, last: nat) returns (str: string)
    requires IsLast(mask, last)
    ensures str == "0x" + Digits(mask, Nibbles(last), 0)
  {
    var cpu: nat, value: nat := last, 0;
    ghost var n, i, j := Nibbles(last), last / 4, last % 4;
    str := "0x";
    UpperEmpty(mask, i, j + 1);
    assert Digits(mask, n, n) == "" && i + 1 == n;
    hide Upper, Digits, Weight, Digit, Nibbles, IsLast;
    while true
      invariant cpu <= last && cpu == 4 * i + j && 0 <= j < 4 && 0 <= i < n && value == Upper(mask, i, j + 1)
      invariant str == "0x" + Digits(mask, n, i + 1)
      decreases cpu
    {
      var bit := cpu % 4;
      Mod4(cpu, i, j);
      value := AddBit(mask, cpu, bit, value, i);
      if bit == 0 {
        str := Flush(mask, str, value, n, i);
        value := 0;
        i, j := i - 1, 4;
      }
      if cpu == 0 {
        break;
      }
      UpperEmpty(mask, if bit == 0 then i else 0, 4);
      j := j - 1;
      cpu := cpu - 1;
    }
  }

  lemma Mod4(cpu: nat, i: nat, j: nat)
    requires cpu == 4 * i + j && j < 4
    ensures cpu % 4 == j
  {
  }

  /** Set the bit that goes into the current nibble. */
  method AddBit(mask: Mask, cpu: nat, bit: nat, value: nat, ghost i: nat) returns (r: nat)
    requires bit < 4 && cpu == 4 * i + bit && value == Upper(mask, i, bit + 1)
    ensures r == Upper(mask, i, bit)
  {
    UpperStep(mask, i, bit);
    hide Upper, Weight;
    r := if cpu in mask then value + Weight(bit) else value;
  }

  /** On a nibble boundary the value becomes a digit. */
  method Flush(mask: Mask, str: string, value: nat, ghost n: nat, ghost i: nat) returns (r: string)
    requires i < n && value == Upper(mask, i, 0) && str == "0x" + Digits(mask, n, i + 1)
    ensures r == "0x" + Digits(mask, n, i)
  {
    DigitsStep(mask, n, i);
    r := str + [Digit(value)];
  }

  lemma UpperStep(mask: Mask, i: nat, j: nat)
    requires j < 4
    ensures Upper(mask, i, j) == Upper(mask, i, j + 1) + if 4 * i + j in mask then Weight(j) else 0
    ensures Upper(mask, i, 0) == Nibble(mask, i)
  {
  }

  lemma DigitsStep(mask: Mask, hi: nat, lo: nat)
    requires lo < hi
    ensures Digits(mask, hi, lo) == Digits(mask, hi, lo + 1) + [Digit(Nibble(mask, lo))]
  {
  }

  lemma {:induction false} UpperEmpty(mask: Mask, i: nat, j: nat)
    requires j <= 4 && forall c :: c in mask ==> c < 4 * i + j || j == 4
    ensures Upper(mask, i, j) == 0
    decreases 4 - j
  {
    if j < 4 {
      UpperEmpty(mask, i, j + 1);
    }
  }

  // ---------- parsing ----------

  /** How many digits are looked at, from the last. */
  function Looked(n: nat): nat {
    if n <= SETSIZE / 4 then n else SETSIZE / 4
  }

  /** The text without a prefix: any character followed by x or X. */
  function Stripped(str: string): string {
    if |str| >= 2 && (str[1] == 'x' || str[1] == 'X') then str[2..] else str
  }

  /** The k-th character from the end. */
  function FromEnd(str: string, k: nat): char
    requires k < |str|
  {
    str[|str| - 1 - k]
  }

  predicate AllHex(str: string, k: nat)
    requires k <= |str|
  {
    forall i :: 0 <= i < k ==> HexValue(FromEnd(str, i)).Some?
  }

  /** CPU 4 * i + j is named by bit j of the i-th digit from the end. */
  predicate Named(str: string, c: nat)
    requires c / 4 < |str|
  {
    var v := HexValue(FromEnd(str, c / 4));
    v.Some? && Bit(v.value, c % 4)
  }

  /** odp_cpumask_from_str: the CPUs the digits name, or none if a digit that is looked at is no
      hexadecimal digit. */
  function Parse(str: string): (m: Mask) {
    var s := Stripped(str);
    if AllHex(s, Looked(|s|)) then set c | 0 <= c < 4 * Looked(|s|) && Named(s, c) else {}
  }

  /** The mask a text is read as: without a prefix, and cut to the last 256 digits, it denotes a number with
      bit c set for each CPU c; a text with another character there stands for no CPU. */
  ghost predicate ReadAs(str: string, mask: Mask) {
    var s := if |str| >= 2 && (str[1] == 'x' || str[1] == 'X') then str[2..] else str;
    var tail := if |s| <= 256 then s else s[|s| - 256..];
    if AllDigits(tail) then forall c: nat :: c in mask <==> HasBit(Number(tail), c) else mask == {}
  }

  lemma ParseReads(str: string)
    ensures ReadAs(str, Parse(str))
  {
    hide HasBit, AllDigits, Number, Parse;
    var s := Stripped(str);
    var tail := s[|s| - Looked(|s|)..];
    ParseNothing(str);
    if AllDigits(tail) {
      forall c: nat ensures c in Parse(str) <==> HasBit(Number(tail), c) {
        ParseOne(str, c);
      }
    }
  }

  lemma ParseNothing(str: string)
    ensures var s := Stripped(str); !AllDigits(s[|s| - Looked(|s|)..]) ==> Parse(str) == {}
  {
    hide AllDigits, AllHex;
    var s := Stripped(str);
    SameDigits(s, Looked(|s|));
  }

  lemma ParseOne(str: string, c: nat)
    requires var s := Stripped(str); AllDigits(s[|s| - Looked(|s|)..])
    ensures var s := Stripped(str); c in Parse(str) <==> HasBit(Number(s[|s| - Looked(|s|)..]), c)
  {
    hide HasBit, AllDigits, AllHex, Number, Named, Stripped;
    var s := Stripped(str);
    SameDigits(s, Looked(|s|));
    ParseBit(s, Looked(|s|), c);
  }

  lemma ParseBit(s: string, k: nat, c: nat)
    requires k <= |s| && AllDigits(s[|s| - k..])
    ensures HasBit(Number(s[|s| - k..]), c) <==> c < 4 * k && Named(s, c)
  {
    hide Number, HasBit, Named, AllDigits, DigitBit;
    NumberBit(s[|s| - k..], c / 4, c % 4);
    assert c == 4 * (c / 4) + c % 4;
    SameNamed(s, k, c);
  }

  lemma SameDigits(s: string, k: nat)
    requires k <= |s|
    ensures AllHex(s, k) <==> AllDigits(s[|s| - k..])
  {
    var tail := s[|s| - k..];
    hide HexValue, IsHex;
    forall i | 0 <= i < k ensures FromEnd(s, i) == tail[k - 1 - i] && (HexValue(tail[k - 1 - i]).Some? <==> IsHex(tail[k - 1 - i])) {
      HexMeans(tail[k - 1 - i]);
    }
    if AllHex(s, k) {
      forall i | 0 <= i < k ensures IsHex(tail[i]) {
        assert FromEnd(s, k - 1 - i) == tail[i];
      }
    }
  }

  lemma SameNamed(s: string, k: nat, c: nat)
    requires k <= |s| && AllDigits(s[|s| - k..])
    ensures DigitBit(s[|s| - k..], c / 4, c % 4) <==> c < 4 * k && Named(s, c)
  {
    hide HexValue, Bit, IsHex, Number;
    if c / 4 < k {
      assert FromEnd(s, c / 4) == FromEnd(s[|s| - k..], c / 4) == s[|s| - k..][k - 1 - c / 4];
      HexMeans(FromEnd(s, c / 4));
    }
  }

  method FromStr(str: string) returns (mask: Mask)
    ensures mask == Parse(str)
    ensures ReadAs(str, mask)
  {
    ParseReads(str);
    var s := str;
    if |s| >= 2 && (s[1] == 'x' || s[1] == 'X') {
      s := s[2..];
    }
    mask := ParseDigits(s);
  }

  /** The walk from the last digit. */
  method ParseDigits(s: string) returns (mask: Mask)
    ensures mask == if AllHex(s, Looked(|s|)) then set c | 0 <= c < 4 * Looked(|s|) && Named(s, c) else {}
  {
    hide HexValue, Named, FromEnd;
    var cpus: Mask, k: nat := {}, 0;
    while k < |s| && 4 * k < SETSIZE
      invariant k <= Looked(|s|) && AllHex(s, k)
      invariant cpus == set c | 0 <= c < 4 * k && Named(s, c)
    {
      var v := HexValue(FromEnd(s, k));
      if v.None? {
        return {};
      }
      cpus := AddNibble(s, k, v.value, cpus);
      k := k + 1;
    }
    mask := cpus;
  }

  method AddNibble(s: string, k: nat, value: nat, cpus: Mask) returns (r: Mask)
    requires k < |s| && 4 * k < SETSIZE && HexValue(FromEnd(s, k)) == Some(value)
    requires cpus == set c | 0 <= c < 4 * k && Named(s, c)
    ensures r == set c | 0 <= c < 4 * (k + 1) && Named(s, c)
  {
    r := cpus;
    var idx := 0;
    while idx < 4
      invariant 0 <= idx <= 4
      invariant r == set c | 0 <= c < 4 * k + idx && Named(s, c)
    {
      NamedBit(s, k, idx, value);
      if Bit(value, idx) {
        r := r + {4 * k + idx};
      }
      idx := idx + 1;
    }
  }

  lemma NamedBit(s: string, k: nat, j: nat, value: nat)
    requires k < |s| && j < 4 && HexValue(FromEnd(s, k)) == Some(value)
    ensures (4 * k + j) / 4 == k && (Named(s, 4 * k + j) <==> Bit(value, j))
  {
  }

  // ---------- the round trip ----------

  /** The k-th digit from the end is the k-th nibble. */
  lemma DigitFromEnd(mask: Mask, n: nat, k: nat)
    requires k < n
    ensures FromEnd(Digits(mask, n, 0), k) == Digit(Nibble(mask, k))
    ensures HexValue(FromEnd(Digits(mask, n, 0), k)) == Some(Nibble(mask, k))
  {
    DigitAt(mask, n, 0, k);
    DigitValue(Nibble(mask, k));
  }

  /** Parsing the digits of a mask names its CPUs and no others. */
  lemma NamedIsSet(mask: Mask, n: nat, c: nat)
    requires c < 4 * n
    ensures c / 4 < n && (Named(Digits(mask, n, 0), c) <==> c in mask)
  {
    hide HexValue, Nibble, Digits;
    DigitFromEnd(mask, n, c / 4);
    NibbleBits(mask, c / 4, c % 4);
    assert 4 * (c / 4) + c % 4 == c;
  }

  lemma ParseText(mask: Mask, last: nat)
    requires IsLast(mask, last)
    ensures Parse("0x" + Digits(mask, Nibbles(last), 0)) == mask
  {
    var n := Nibbles(last);
    var s := Digits(mask, n, 0);
    assert ("0x" + s)[2..] == s && ("0x" + s)[1] == 'x';
    hide HexValue, Named, FromEnd, Digits;
    forall i | 0 <= i < n ensures HexValue(FromEnd(s, i)).Some? {
      DigitFromEnd(mask, n, i);
    }
    forall c: nat | c < 4 * n ensures Named(s, c) <==> c in mask {
      NamedIsSet(mask, n, c);
    }
    assert mask == set c | 0 <= c < 4 * Looked(n) && Named(s, c);
  }

  lemma ParseZero()
    ensures Parse("0x0") == {}
  {
    var s := "0";
    assert "0x0"[2..] == s;
    assert HexValue(FromEnd(s, 0)) == Some(0);
    forall c: nat | c < 4 ensures !Named(s, c) {
    }
  }

  /** Round trip: whatever odp_cpumask_to_str writes for a mask, odp_cpumask_from_str reads back as that
      mask; and the first digit is not 0 unless the mask is empty. */
  method RoundTrip(mask: Mask, len: int) returns (rc: int, str: string, back: Mask)
    ensures rc != -1 ==> back == mask && |str| >= 3 && (str[2] == '0' <==> mask == {})
    ensures len >= SETSIZE / 4 + 3 ==> rc != -1
  {
    rc, str := ToStr(mask, len);
    back := {};
    if rc != -1 {
      back := FromStr(str);
      if mask == {} {
        ParseZero();
      } else {
        ghost var last :| IsLast(mask, last) && Written(mask, last, len, rc, str);
        ParseText(mask, last);
        TopDigit(mask, last);
      }
    }
  }

  lemma TopDigit(mask: Mask, last: nat)
    requires IsLast(mask, last)
    ensures Digits(mask, Nibbles(last), 0)[0] != '0'
  {
    var n := Nibbles(last);
    DigitAt(mask, n, 0, n - 1);
    NibbleBits(mask, last / 4, last % 4);
    assert 4 * (last / 4) + last % 4 == last;
    DigitValue(Nibble(mask, n - 1));
  }
}
