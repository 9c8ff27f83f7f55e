/** The pointer ring as one thread at a time uses it: the unrolled copy loops, the index
    arithmetic on wrapped 32-bit counters, and the single-producer / single-consumer
    operations, proved against a bounded FIFO. */
module RingBuffer {
  import opened Bits

  /** A void pointer stored in the ring. */
  type Obj = int

  datatype Behavior = Fixed | Variable

  const ENOENT := 2
  const EINVAL := 22
  const ENOBUFS := 105
  const EDQUOT := 122

  /** ODPH_RING_SZ_MASK */
  const SIZE_LIMIT: nat := 0x0fff_ffff

  /** The check of odph_ring_create on the requested count. */
  predicate CreateAccepts(count: u32) {
    And(Low32(count - 1), count) == 0 && count <= SIZE_LIMIT
  }

  /** The documentation asks for a power of two; the test also lets zero through. */
  lemma CreateAcceptsIff(count: u32)
    ensures CreateAccepts(count) <==> count <= SIZE_LIMIT && (count == 0 || IsPow2(count))
  {
    if count == 0 {
      AndZero(Low32(count - 1));
    } else {
      assert Low32(count - 1) == count - 1;
      PowerOfTwoTest(count);
    }
  }

  /** The `used` pointers of a slot array from counter value `tail` on. */
  ghost function Queued(slots: seq<Obj>, tail: u32, used: nat): seq<Obj>
    requires |slots| > 0
  {
    seq(used, k requires 0 <= k < used => slots[Slot(tail + k, |slots|)])
  }

  /** `slots` with obj[k] stored at slot (head + k) modulo the ring size, for each k. */
  ghost predicate Stored(before: seq<Obj>, after: seq<Obj>, head: nat, objs: seq<Obj>)
    requires |before| > 0
  {
    && |after| == |before|
    && |objs| <= |before|
    && (forall k :: 0 <= k < |objs| ==> after[Slot(head + k, |before|)] == objs[k])
    && (forall j :: 0 <= j < |before| && !InWindow(j, head, |objs|, |before|) ==> after[j] == before[j])
  }

  /** Slot j is one of the n slots that start at slot head % size, going round the end. */
  predicate InWindow(j: nat, head: nat, n: nat, size: nat)
    requires size > 0
  {
    var idx := Slot(head, size);
    idx <= j < idx + n || j + size < idx + n
  }

  /** ring[start..start+i] holds objTable[..i]; every other slot is as in `before`. */
  ghost predicate Filled(ring: array<Obj>, before: seq<Obj>, start: nat, objs: array<Obj>, i: nat)
    requires |before| == ring.Length && start + i <= ring.Length && i <= objs.Length
    reads ring, objs
  {
    && (forall j {:trigger ring[j]} :: start <= j < start + i ==> ring[j] == objs[j - start])
    && (forall j {:trigger ring[j]} :: 0 <= j < ring.Length && !(start <= j < start + i) ==> ring[j] == before[j])
  }

  /** n & ~3 and n & 3. */
  function SplitByFour(n: u32): (r: (nat, nat))
    ensures r.0 + r.1 == n && r.0 % 4 == 0 && r.1 < 4
  {
    AndThree(n);
    (And(n, 0xFFFF_FFFC), And(n, 3))
  }

  /** One store of the copy: slot start + i gets objTable[i]. */
  method StoreNext(ring: array<Obj>, ghost before: seq<Obj>, start: nat, objTable: array<Obj>, i: nat)
    requires |before| == ring.Length && start + i < ring.Length && i < objTable.Length && ring != objTable
    requires Filled(ring, before, start, objTable, i)
    modifies ring
    ensures Filled(ring, before, start, objTable, i + 1)
  {
    ring[start + i] := objTable[i];
  }

  /** The likely branch of ENQUEUE_PTRS: four pointers a turn, then the n & 3 left over. */
  method EnqueueUnrolled(ring: array<Obj>, start: nat, objTable: array<Obj>, n: u32)
    requires start + n < ring.Length && n <= objTable.Length && ring != objTable
    modifies ring
    ensures Filled(ring, old(ring[..]), start, objTable, n)
  {
    ghost var before := ring[..];
    var (whole, rest) := SplitByFour(n);
    var i := 0;
    while i < whole
      invariant i % 4 == 0 && 0 <= i <= whole
      invariant Filled(ring, before, start, objTable, i)
    {
      StoreNext(ring, before, start, objTable, i);
      StoreNext(ring, before, start, objTable, i + 1);
      StoreNext(ring, before, start, objTable, i + 2);
      StoreNext(ring, before, start, objTable, i + 3);
      i := i + 4;
    }
    EnqueueRest(ring, before, start, objTable, i, rest);
  }

  /** The fall-through switch on n & 3. */
  method EnqueueRest(ring: array<Obj>, ghost before: seq<Obj>, start: nat, objTable: array<Obj>, i: nat, rest: nat)
    requires |before| == ring.Length && start + i + rest < ring.Length && i + rest <= objTable.Length && ring != objTable
    requires rest < 4 && Filled(ring, before, start, objTable, i)
    modifies ring
    ensures Filled(ring, before, start, objTable, i + rest)
  {
    var j := i;
    if rest == 3 {
      StoreNext(ring, before, start, objTable, j);
      j := j + 1;
    }
    if rest >= 2 {
      StoreNext(ring, before, start, objTable, j);
      j := j + 1;
    }
    if rest >= 1 {
      StoreNext(ring, before, start, objTable, j);
      j := j + 1;
    }
  }

  /** What the copy leaves in each slot, written on slot numbers. */
  ghost predicate Windowed(before: seq<Obj>, after: seq<Obj>, start: nat, objs: seq<Obj>)
    requires |objs| <= |before|
  {
    && |after| == |before|
    && start < |before|
    && (forall j {:trigger after[j]} :: 0 <= j < |after| ==>
          after[j] == if start <= j < start + |objs| then objs[j - start]
                      else if j + |before| < start + |objs| then objs[j + |before| - start]
                      else before[j])
  }

  /** The slot-number form and the counter form of the copy agree. */
  lemma WindowedIsStored(before: seq<Obj>, after: seq<Obj>, head: nat, objs: seq<Obj>)
    requires |before| > 0 && |objs| < |before|
    requires Windowed(before, after, Slot(head, |before|), objs)
    ensures Stored(before, after, head, objs)
  {
    hide Slot;
    forall k | 0 <= k < |objs| ensures after[Slot(head + k, |before|)] == objs[k] {
      SlotAdd(head, k, |before|);
    }
  }

  /** The other branch: to the end of the ring, then from slot 0. */
  method EnqueueWrapping(ring: array<Obj>, start: nat, objTable: array<Obj>, n: u32)
    requires start < ring.Length <= start + n && n < ring.Length && n <= objTable.Length && ring != objTable
    modifies ring
    ensures Windowed(old(ring[..]), ring[..], start, objTable[..n])
  {
    var size := ring.Length;
    var i, idx := 0, start;
    while idx < size
      invariant start <= idx <= size && i == idx - start
      invariant Filled(ring, old(ring[..]), start, objTable, i)
    {
      ring[idx] := objTable[i];
      i, idx := i + 1, idx + 1;
    }
    idx := 0;
    while i < n
      invariant size - start <= i <= n && idx == i - (size - start)
      invariant forall j :: start <= j < size ==> ring[j] == objTable[j - start]
      invariant forall j :: 0 <= j < idx ==> ring[j] == objTable[j + (size - start)]
      invariant forall j :: idx <= j < start ==> ring[j] == old(ring[j])
    {
      ring[idx] := objTable[i];
      i, idx := i + 1, idx + 1;
    }
  }

  /** ENQUEUE_PTRS: copy n pointers into the ring starting at prod_head & mask. */
  method EnqueuePtrs(ring: array<Obj>, ghost sizeLog: nat, mask: u32, prodHead: u32, objTable: array<Obj>, n: u32)
    requires sizeLog <= 28 && ring.Length == Pow2(sizeLog) == mask + 1
    requires n <= mask && n <= objTable.Length && ring != objTable
    modifies ring
    ensures Stored(old(ring[..]), ring[..], prodHead, objTable[..n])
  {
    MaskSlot(prodHead, sizeLog);
    var idx := And(prodHead, mask);
    if idx + n < ring.Length {
      EnqueueUnrolled(ring, idx, objTable, n);
    } else {
      EnqueueWrapping(ring, idx, objTable, n);
    }
    assert Windowed(old(ring[..]), ring[..], idx, objTable[..n]);
    WindowedIsStored(old(ring[..]), ring[..], prodHead, objTable[..n]);
  }

  /** objTable[..i] holds ring[start..start+i]; the rest of the table is as in `before`. */
  ghost predicate Fetched(ring: array<Obj>, before: seq<Obj>, start: nat, objs: array<Obj>, i: nat)
    requires |before| == objs.Length && start + i <= ring.Length && i <= objs.Length
    reads ring, objs
  {
    && (forall k {:trigger objs[k]} :: 0 <= k < i ==> objs[k] == ring[start + k])
    && (forall k {:trigger objs[k]} :: i <= k < objs.Length ==> objs[k] == before[k])
  }

  /** One load of the copy: objTable[i] gets slot start + i. */
  method FetchNext(ring: array<Obj>, ghost before: seq<Obj>, start: nat, objTable: array<Obj>, i: nat)
    requires |before| == objTable.Length && start + i < ring.Length && i < objTable.Length && ring != objTable
    requires Fetched(ring, before, start, objTable, i)
    modifies objTable
    ensures Fetched(ring, before, start, objTable, i + 1)
  {
    objTable[i] := ring[start + i];
  }

  /** The likely branch of DEQUEUE_PTRS. */
  method DequeueUnrolled(ring: array<Obj>, start: nat, objTable: array<Obj>, n: u32)
    requires start + n < ring.Length && n <= objTable.Length && ring != objTable
    modifies objTable
    ensures Fetched(ring, old(objTable[..]), start, objTable, n)
  {
    ghost var before := objTable[..];
    var (whole, rest) := SplitByFour(n);
    var i := 0;
    while i < whole
      invariant i % 4 == 0 && 0 <= i <= whole
      invariant Fetched(ring, before, start, objTable, i)
    {
      FetchNext(ring, before, start, objTable, i);
      FetchNext(ring, before, start, objTable, i + 1);
      FetchNext(ring, before, start, objTable, i + 2);
      FetchNext(ring, before, start, objTable, i + 3);
      i := i + 4;
    }
    DequeueRest(ring, before, start, objTable, i, rest);
  }

  /** The fall-through switch on n & 3. */
  method DequeueRest(ring: array<Obj>, ghost before: seq<Obj>, start: nat, objTable: array<Obj>, i: nat, rest: nat)
    requires |before| == objTable.Length && start + i + rest < ring.Length && i + rest <= objTable.Length && ring != objTable
    requires rest < 4 && Fetched(ring, before, start, objTable, i)
    modifies objTable
    ensures Fetched(ring, before, start, objTable, i + rest)
  {
    var j := i;
    if rest == 3 {
      FetchNext(ring, before, start, objTable, j);
      j := j + 1;
    }
    if rest >= 2 {
      FetchNext(ring, before, start, objTable, j);
      j := j + 1;
    }
    if rest >= 1 {
      FetchNext(ring, before, start, objTable, j);
      j := j + 1;
    }
  }

  /** The other branch: up to the end of the ring, then from slot 0. */
  method DequeueWrapping(ring: array<Obj>, start: nat, objTable: array<Obj>, n: u32)
    requires start < ring.Length <= start + n && n < ring.Length && n <= objTable.Length && ring != objTable
    modifies objTable
    ensures forall k :: 0 <= k < ring.Length - start ==> objTable[k] == ring[start + k]
    ensures forall k :: ring.Length - start <= k < n ==> objTable[k] == ring[k - (ring.Length - start)]
    ensures forall k :: n <= k < objTable.Length ==> objTable[k] == old(objTable[k])
  {
    var size := ring.Length;
    var i, idx := 0, start;
    while idx < size
      invariant start <= idx <= size && i == idx - start
      invariant Fetched(ring, old(objTable[..]), start, objTable, i)
    {
      objTable[i] := ring[idx];
      i, idx := i + 1, idx + 1;
    }
    idx := 0;
    while i < n
      invariant size - start <= i <= n && idx == i - (size - start)
      invariant forall k :: 0 <= k < size - start ==> objTable[k] == ring[start + k]
      invariant forall k :: size - start <= k < i ==> objTable[k] == ring[k - (size - start)]
      invariant forall k :: i <= k < objTable.Length ==> objTable[k] == old(objTable[k])
    {
      objTable[i] := ring[idx];
      i, idx := i + 1, idx + 1;
    }
  }

  /** DEQUEUE_PTRS: copy n pointers out of the ring starting at cons_head & mask. */
  method DequeuePtrs(ring: array<Obj>, ghost sizeLog: nat, mask: u32, consHead: u32, objTable: array<Obj>, n: u32)
    requires sizeLog <= 28 && ring.Length == Pow2(sizeLog) == mask + 1
    requires n <= mask && n <= objTable.Length && ring != objTable
    modifies objTable
    ensures objTable[..n] == Queued(ring[..], consHead, n)
    ensures forall k :: n <= k < objTable.Length ==> objTable[k] == old(objTable[k])
  {
    MaskSlot(consHead, sizeLog);
    var idx := And(consHead, mask);
    if idx + n < ring.Length {
      DequeueUnrolled(ring, idx, objTable, n);
    } else {
      DequeueWrapping(ring, idx, objTable, n);
    }
    forall k | 0 <= k < n ensures objTable[k] == ring[Slot(consHead + k, ring.Length)] {
      SlotAdd(consHead, k, ring.Length);
    }
  }

  /** odph_ring_count on the wrapped tails. */
  function Count(prodTail: u32, consTail: u32, mask: u32): nat {
    And(Low32(prodTail - consTail), mask)
  }

  /** odph_ring_free_count on the wrapped tails. */
  function FreeCount(prodTail: u32, consTail: u32, mask: u32): nat {
    And(Low32(consTail - prodTail - 1), mask)
  }

  /** odph_ring_full */
  predicate Full(prodTail: u32, consTail: u32, mask: u32) {
    And(Low32(consTail - prodTail - 1), mask) == 0
  }

  /** odph_ring_empty */
  predicate Empty(prodTail: u32, consTail: u32) {
    consTail == prodTail
  }

  /** The tests and counts read the true fill level across any number of 32-bit wraps. */
  lemma CountsAcrossWrap(pt: nat, ct: nat, sizeLog: nat, mask: u32)
    requires sizeLog <= 28 && Pow2(sizeLog) == mask + 1
    requires ct <= pt <= ct + mask
    ensures Count(Low32(pt), Low32(ct), mask) == pt - ct
    ensures FreeCount(Low32(pt), Low32(ct), mask) == mask - (pt - ct)
    ensures Full(Low32(pt), Low32(ct), mask) <==> pt - ct == mask
    ensures Empty(Low32(pt), Low32(ct)) <==> pt == ct
  {
    hide And, Low32, Pow2;
    UsedResidue(pt, ct, sizeLog, mask);
    FreeResidue(pt, ct, sizeLog, mask);
    Difference32(pt, ct);
  }

  lemma UsedResidue(pt: nat, ct: nat, sizeLog: nat, mask: u32)
    requires sizeLog <= 28 && Pow2(sizeLog) == mask + 1
    requires ct <= pt <= ct + mask
    ensures Count(Low32(pt), Low32(ct), mask) == pt - ct
  {
    hide And, Low32, Pow2, Rem;
    Difference32(pt, ct);
    AndIsRem(pt - ct, sizeLog);
    RemOfLess(pt - ct, Pow2(sizeLog));
  }

  lemma FreeResidue(pt: nat, ct: nat, sizeLog: nat, mask: u32)
    requires sizeLog <= 28 && Pow2(sizeLog) == mask + 1
    requires ct <= pt <= ct + mask
    ensures FreeCount(Low32(pt), Low32(ct), mask) == mask - (pt - ct)
  {
    hide And, Low32, Pow2, Rem;
    var d := pt - ct;
    BorrowDifference32(pt, ct);
    Complement(d, sizeLog);
    AndIsRem(0xFFFF_FFFF - d, sizeLog);
  }

  /** What a burst of n is cut down to when only `room` entries are there. */
  function Burst(n: nat, room: nat, behavior: Behavior): (m: nat)
    ensures m <= n && m <= room
    ensures m < n ==> n > room && m == if behavior.Fixed? then 0 else room
  {
    if n <= room then n else if behavior.Fixed? then 0 else room
  }

  /** The value an enqueue returns: `used` entries were there, `room` were free. */
  function EnqueueReturn(n: nat, used: nat, room: nat, watermark: nat, behavior: Behavior): int {
    if n > room && behavior.Fixed? then -ENOBUFS
    else if n > room && room == 0 then 0
    else
      var m := Burst(n, room, behavior);
      if used + m >= watermark
      then (if behavior.Fixed? then -EDQUOT else m - 0x8000_0000)
      else (if behavior.Fixed? then 0 else m)
  }

  /** A ring with watermarking disabled (watermark equal to the size) never reports the quota. */
  lemma WatermarkDisabled(n: nat, used: nat, mask: nat, behavior: Behavior)
    requires used <= mask
    ensures var ret := EnqueueReturn(n, used, mask - used, mask + 1, behavior);
      ret == if n <= mask - used then (if behavior.Fixed? then 0 else n)
             else (if behavior.Fixed? then -ENOBUFS else mask - used)
  {
  }

  /** The stored window [used, used + m) of a ring does not touch the first `used` slots,
      and extends them in order. `head` is the wrapped form of tail + used. */
  lemma WindowAfter(tail: u32, used: nat, m: nat, k: nat, sizeLog: nat)
    requires sizeLog <= 28 && used + m < Pow2(sizeLog) && k < used + m
    ensures var size, head := Pow2(sizeLog), Low32(tail + used);
      && (k < used ==> !InWindow(Slot(tail + k, size), head, m, size))
      && (k >= used ==> Slot(head + (k - used), size) == Slot(tail + k, size))
  {
    hide Slot, Low32, Pow2;
    var size, head := Pow2(sizeLog), Low32(tail + used);
    SlotOfLow32(tail + used, sizeLog);
    SlotAdd(tail, used, size);
    SlotAdd(tail, k, size);
    if k >= used {
      SlotAdd(head, k - used, size);
    }
  }

  lemma StoredExtends(before: seq<Obj>, after: seq<Obj>, tail: u32, used: nat, objs: seq<Obj>, sizeLog: nat)
    requires sizeLog <= 28 && |before| == Pow2(sizeLog) && used + |objs| < |before|
    requires Stored(before, after, Low32(tail + used), objs)
    ensures Queued(after, tail, used + |objs|) == Queued(before, tail, used) + objs
  {
    forall k | 0 <= k < used + |objs|
      ensures Queued(after, tail, used + |objs|)[k] == (Queued(before, tail, used) + objs)[k]
    {
      StoredAt(before, after, tail, used, objs, sizeLog, k);
    }
  }

  lemma StoredAt(before: seq<Obj>, after: seq<Obj>, tail: u32, used: nat, objs: seq<Obj>, sizeLog: nat, k: nat)
    requires sizeLog <= 28 && |before| == Pow2(sizeLog) && used + |objs| < |before| && k < used + |objs|
    requires Stored(before, after, Low32(tail + used), objs)
    ensures after[Slot(tail + k, |before|)] == if k < used then before[Slot(tail + k, |before|)] else objs[k - used]
  {
    WindowAfter(tail, used, |objs|, k, sizeLog);
  }

  lemma QueuedSplit(slots: seq<Obj>, tail: u32, n: nat, used: nat, sizeLog: nat)
    requires sizeLog <= 28 && |slots| == Pow2(sizeLog) && n <= used < |slots|
    ensures Queued(slots, tail, used) == Queued(slots, tail, n) + Queued(slots, Low32(tail + n), used - n)
  {
    var front, back := Queued(slots, tail, n), Queued(slots, Low32(tail + n), used - n);
    forall k | 0 <= k < used - n ensures back[k] == Queued(slots, tail, used)[n + k] {
      WindowAfter(tail, n, used - n, n + k, sizeLog);
    }
    assert front == Queued(slots, tail, used)[..n];
  }

  /** One ring as its only producer and its only consumer see it between operations. */
  class Ring {
    const ring: array<Obj>
    ghost const sizeLog: nat
    const mask: u32
    var watermark: u32
    var prodHead: u32
    var prodTail: u32
    var consHead: u32
    var consTail: u32
    ghost var used: nat

    ghost predicate Valid()
      reads this
    {
      && sizeLog <= 28 && ring.Length == Pow2(sizeLog) == mask + 1 <= SIZE_LIMIT
      && prodHead == prodTail && consHead == consTail
      && used <= mask
      && prodTail == Low32(consTail + used)
      && 1 <= watermark <= mask + 1
    }

    /** The queued pointers, oldest first. */
    ghost function Contents(): seq<Obj>
      requires Valid()
      reads this, ring
    {
      Queued(ring[..], consTail, used)
    }

    constructor (ghost sizeLog: nat, count: u32)
      requires sizeLog <= 28 && count == Pow2(sizeLog) <= SIZE_LIMIT
      ensures Valid() && Contents() == [] && mask + 1 == count && watermark == count && fresh(ring)
    {
      this.sizeLog := sizeLog;
      ring := new Obj[count];
      mask := count - 1;
      watermark := count;
      prodHead, prodTail, consHead, consTail, used := 0, 0, 0, 0, 0;
    }

    /** odph_ring_set_water_mark */
    method SetWaterMark(count: u32) returns (ret: int)
      requires Valid()
      modifies this`watermark
      ensures Valid() && Contents() == old(Contents())
      ensures ret == if count > mask then -EINVAL else 0
      ensures watermark == if count > mask then old(watermark) else if count == 0 then mask + 1 else count
    {
      if count >= mask + 1 {
        return -EINVAL;
      }
      watermark := if count == 0 then mask + 1 else count;
      return 0;
    }

    /** __odph_ring_sp_do_enqueue */
    method SpEnqueue(objTable: array<Obj>, n: u32, behavior: Behavior) returns (ret: int)
      requires Valid() && n <= objTable.Length && objTable != ring
      modifies this`prodHead, this`prodTail, this`used, ring
      ensures Valid()
      ensures Contents() == old(Contents()) + objTable[..Burst(n, mask - |old(Contents())|, behavior)]
      ensures ret == EnqueueReturn(n, |old(Contents())|, mask - |old(Contents())|, watermark, behavior)
    {
      var n' := n;
      var freeEntries := Low32(mask + consTail - prodHead);
      FreeEntries(mask, consTail, used);
      if n' > freeEntries {
        if behavior == Fixed {
          return -ENOBUFS;
        }
        if freeEntries == 0 {
          return 0;
        }
        n' := freeEntries;
      }
      if mask + 1 - freeEntries + n' > watermark {
        ret := if behavior == Fixed then -EDQUOT else (n' as int) - 0x8000_0000;
      } else {
        ret := if behavior == Fixed then 0 else n';
      }
      Append(objTable, n');
    }

    /** Move the head, copy, then publish the tail. */
    method Append(objTable: array<Obj>, n: u32)
      requires Valid() && n <= objTable.Length && objTable != ring && used + n <= mask
      modifies this`prodHead, this`prodTail, this`used, ring
      ensures Valid() && Contents() == old(Contents()) + objTable[..n]
    {
      ghost var slots := ring[..];
      var head := prodHead;
      var prodNext := Low32(head + n);
      prodHead := prodNext;
      EnqueuePtrs(ring, sizeLog, mask, head, objTable, n);
      prodTail := prodNext;
      Low32Add(consTail + used, n);
      StoredExtends(slots, ring[..], consTail, used, objTable[..n], sizeLog);
      used := used + n;
    }

    /** __odph_ring_sc_do_dequeue */
    method ScDequeue(objTable: array<Obj>, n: u32, behavior: Behavior) returns (ret: int)
      requires Valid() && n <= objTable.Length && objTable != ring
      modifies this`consHead, this`consTail, this`used, objTable
      ensures Valid()
      ensures var m := Burst(n, |old(Contents())|, behavior);
        && old(Contents()) == objTable[..m] + Contents()
        && objTable[m..] == old(objTable[m..])
        && ret == if n > |old(Contents())| && behavior.Fixed? then -ENOENT
                  else if behavior.Fixed? then 0 else m
    {
      var n' := n;
      var entries := Low32(prodTail - consHead);
      Entries(consTail, used);
      if n' > entries {
        if behavior == Fixed {
          return -ENOENT;
        }
        if entries == 0 {
          return 0;
        }
        n' := entries;
      }
      ret := if behavior == Fixed then 0 else n';
      Remove(objTable, n');
    }

    /** Move the head, copy out, then release the tail. */
    method Remove(objTable: array<Obj>, n: u32)
      requires Valid() && n <= objTable.Length && objTable != ring && n <= used
      modifies this`consHead, this`consTail, this`used, objTable
      ensures Valid() && old(Contents()) == objTable[..n] + Contents()
      ensures objTable[n..] == old(objTable[n..])
    {
      ghost var tail := consTail;
      var head := consHead;
      var consNext := Low32(head + n);
      consHead := consNext;
      DequeuePtrs(ring, sizeLog, mask, head, objTable, n);
      consTail := consNext;
      Low32Add(tail + n, used - n);
      QueuedSplit(ring[..], tail, n, used, sizeLog);
      used := used - n;
    }
  }

  /** The unsigned difference in an enqueue is the true number of free entries. */
  lemma FreeEntries(mask: u32, consTail: u32, used: nat)
    requires used <= mask <= 0x0fff_ffff
    ensures Low32(mask + consTail - Low32(consTail + used)) == mask - used
  {
    var x := consTail + used;
    Low32Small(mask - used);
    assert mask + consTail == (mask - used) + x;
    Low32SubSame(mask - used, x);
  }

  /** The unsigned difference in a dequeue is the true number of queued entries. */
  lemma Entries(consTail: u32, used: nat)
    requires used <= 0x0fff_ffff
    ensures Low32(Low32(consTail + used) - consTail) == used
  {
    Low32Sub(consTail + used, consTail);
    Low32Small(consTail);
    Low32Small(used);
  }
}
