/** The pointer ring under any interleaving of any number of producers and consumers.
    Counters are unbounded here; the C fields are their low 32 bits, and every decision a
    thread takes (room left, CAS outcome, waiting for its turn, slot index) is taken on the
    low 32 bits only. */
module RingProtocol {
  import opened Bits
  import opened Tables
  import opened RingBuffer

  type Tid = nat

  /** What one thread is doing inside an enqueue or dequeue call. */
  datatype Local =
    | Idle
    // mp/sp enqueue: `objs` is the caller's table
    | PStart(objs: seq<Obj>, behavior: Behavior)
    | PHead(objs: seq<Obj>, behavior: Behavior, head: nat)
    | PTail(objs: seq<Obj>, behavior: Behavior, head: nat, seen: nat, room: int)
    | PCopy(head: nat, objs: seq<Obj>, k: nat)
    // mc/sc dequeue of up to n
    | CStart(n: nat, behavior: Behavior)
    | CHead(n: nat, behavior: Behavior, head: nat)
    | CTail(n: nat, behavior: Behavior, head: nat, seen: nat, room: int)
    | CCopy(head: nat, n: nat, got: seq<Obj>)
  {
    predicate Producing() {
      PStart? || PHead? || PTail? || PCopy?
    }

    predicate Consuming() {
      CStart? || CHead? || CTail? || CCopy?
    }
  }

  /** `produced` lists the items in the order their slots were reserved, `consumed` those handed
      back in the order they were released. `sp` and `sc` are the single-producer and
      single-consumer flags of the ring. */
  datatype State = State(
    sizeLog: nat, mask: nat, sp: bool, sc: bool,
    prodHead: nat, prodTail: nat, consHead: nat, consTail: nat,
    slots: seq<Obj>, produced: seq<Obj>, consumed: seq<Obj>,
    threads: map<Tid, Local>)
  {
    function Size(): nat { mask + 1 }

    function At(t: Tid): Local {
      Look(threads, t)
    }

    function Set(t: Tid, l: Local): State {
      this.(threads := Put(threads, t, l))
    }
  }

  function Look(threads: map<Tid, Local>, t: Tid): Local {
    Get(threads, t, Idle)
  }

  function Put(threads: map<Tid, Local>, t: Tid, l: Local): (r: map<Tid, Local>)
    ensures forall u {:trigger Look(r, u)} :: Look(r, u) == if u == t then l else Look(threads, u)
  {
    Set(threads, t, l)
  }

  /** `free_entries` and `entries`, as the 32-bit subtractions compute them. */
  function FreeSeen(mask: nat, consTail: nat, prodHead: nat): nat {
    Low32(mask + Low32(consTail) - Low32(prodHead))
  }

  function EntriesSeen(prodTail: nat, consHead: nat): nat {
    Low32(Low32(prodTail) - Low32(consHead))
  }

  datatype Action =
    | BeginEnqueue(objs: seq<Obj>, behavior: Behavior)
    | ReadProdHead | ReadConsTail | EnqueueFails | ProdCas | ProdCasFails | WriteSlot | PublishProd
    | BeginDequeue(n: nat, behavior: Behavior)
    | ReadConsHead | ReadProdTail | DequeueFails | ConsCas | ConsCasFails | ReadSlot | PublishCons

  /** A burst has at least one item, and the ring's single-producer promise is the caller's. */
  ghost predicate MayBeginEnqueue(s: State, t: Tid, objs: seq<Obj>) {
    s.At(t).Idle? && |objs| >= 1 && |objs| <= 0xFFFF_FFFF
    && (s.sp ==> forall u {:trigger Look(s.threads, u)} :: !Look(s.threads, u).Producing())
  }

  ghost predicate MayBeginDequeue(s: State, t: Tid, n: nat) {
    s.At(t).Idle? && 1 <= n <= 0xFFFF_FFFF
    && (s.sc ==> forall u {:trigger Look(s.threads, u)} :: !Look(s.threads, u).Consuming())
  }

  /** The size of the burst the thread goes for, from what it read; zero when the call gives up. */
  function EnqueueBurst(s: State, l: Local): nat
    requires l.PTail?
  {
    Burst(|l.objs|, FreeSeen(s.mask, l.seen, l.head), l.behavior)
  }

  function DequeueBurst(l: Local): nat
    requires l.CTail?
  {
    Burst(l.n, EntriesSeen(l.seen, l.head), l.behavior)
  }

  /** The compare-and-exchange on prod.head succeeds; the single-producer path just stores.
      Fewer than 2^32 items go by between a thread's read of the head and its exchange. */
  predicate ProdCasSucceeds(s: State, l: Local)
    requires l.PTail?
  {
    EnqueueBurst(s, l) > 0
    && (s.sp || Low32(s.prodHead) == Low32(l.head)) && s.prodHead < l.head + 0x1_0000_0000
  }

  predicate ConsCasSucceeds(s: State, l: Local)
    requires l.CTail?
  {
    DequeueBurst(l) > 0
    && (s.sc || Low32(s.consHead) == Low32(l.head)) && s.consHead < l.head + 0x1_0000_0000
  }

  /** One atomic step of thread t. */
  ghost predicate Step(s: State, t: Tid, a: Action, s': State)
    requires |s.slots| == s.Size()
  {
    var l := s.At(t);
    match a
    case BeginEnqueue(objs, behavior) =>
      MayBeginEnqueue(s, t, objs) && s' == s.Set(t, PStart(objs, behavior))
    case ReadProdHead =>
      l.PStart? && s' == s.Set(t, PHead(l.objs, l.behavior, s.prodHead))
    case ReadConsTail =>
      l.PHead? && s' == s.Set(t, PTail(l.objs, l.behavior, l.head, s.consTail, s.mask - (s.prodHead - s.consTail)))
    case EnqueueFails =>
      l.PTail? && EnqueueBurst(s, l) == 0 && s' == s.Set(t, Idle)
    case ProdCas =>
      l.PTail? && ProdCasSucceeds(s, l) && s' == AfterProdCas(s, t, l)
    case ProdCasFails =>
      l.PTail? && EnqueueBurst(s, l) > 0 && !s.sp && Low32(s.prodHead) != Low32(l.head)
      && s' == s.Set(t, PStart(l.objs, l.behavior))
    case WriteSlot =>
      l.PCopy? && l.k < |l.objs| && s' == AfterWrite(s, t, l)
    case PublishProd =>
      l.PCopy? && l.k == |l.objs| && (s.sp || Low32(s.prodTail) == Low32(l.head)) && s' == AfterPublishProd(s, t, l)
    case BeginDequeue(n, behavior) =>
      MayBeginDequeue(s, t, n) && s' == s.Set(t, CStart(n, behavior))
    case ReadConsHead =>
      l.CStart? && s' == s.Set(t, CHead(l.n, l.behavior, s.consHead))
    case ReadProdTail =>
      l.CHead? && s' == s.Set(t, CTail(l.n, l.behavior, l.head, s.prodTail, s.prodTail - s.consHead))
    case DequeueFails =>
      l.CTail? && DequeueBurst(l) == 0 && s' == s.Set(t, Idle)
    case ConsCas =>
      l.CTail? && ConsCasSucceeds(s, l) && s' == AfterConsCas(s, t, l)
    case ConsCasFails =>
      l.CTail? && DequeueBurst(l) > 0 && !s.sc && Low32(s.consHead) != Low32(l.head)
      && s' == s.Set(t, CStart(l.n, l.behavior))
    case ReadSlot =>
      l.CCopy? && |l.got| < l.n && s' == AfterRead(s, t, l)
    case PublishCons =>
      l.CCopy? && |l.got| == l.n && (s.sc || Low32(s.consTail) == Low32(l.head)) && s' == AfterPublishCons(s, t, l)
  }

  function AfterProdCas(s: State, t: Tid, l: Local): State
    requires l.PTail?
  {
    var n := EnqueueBurst(s, l);
    s.Set(t, PCopy(l.head, l.objs[..n], 0)).(prodHead := l.head + n, produced := s.produced + l.objs[..n])
  }

  /** The store goes to slot (prod_head + k) & mask. */
  function AfterWrite(s: State, t: Tid, l: Local): State
    requires l.PCopy? && l.k < |l.objs| && |s.slots| == s.Size()
  {
    s.Set(t, PCopy(l.head, l.objs, l.k + 1)).(slots := s.slots[Slot(Low32(l.head) + l.k, s.Size()) := l.objs[l.k]])
  }

  function AfterPublishProd(s: State, t: Tid, l: Local): State
    requires l.PCopy?
  {
    s.Set(t, Idle).(prodTail := l.head + |l.objs|)
  }

  function AfterConsCas(s: State, t: Tid, l: Local): State
    requires l.CTail?
  {
    var n := DequeueBurst(l);
    s.Set(t, CCopy(l.head, n, [])).(consHead := l.head + n)
  }

  function AfterRead(s: State, t: Tid, l: Local): State
    requires l.CCopy? && |l.got| < l.n && |s.slots| == s.Size()
  {
    s.Set(t, CCopy(l.head, l.n, l.got + [s.slots[Slot(Low32(l.head) + |l.got|, s.Size())]]))
  }

  function AfterPublishCons(s: State, t: Tid, l: Local): State
    requires l.CCopy?
  {
    s.Set(t, Idle).(consTail := l.head + l.n, consumed := s.consumed + l.got)
  }

  predicate Init(s: State) {
    && s.sizeLog <= 28 && Pow2(s.sizeLog) == s.mask + 1 == |s.slots|
    && s.prodHead == s.prodTail == s.consHead == s.consTail == 0
    && s.produced == [] && s.consumed == [] && s.threads == map[]
  }

  // ---------- the invariant ----------

  predicate Bounds(s: State) {
    && s.sizeLog <= 28 && Pow2(s.sizeLog) == s.mask + 1 == |s.slots|
    && s.consTail <= s.consHead <= s.prodTail <= s.prodHead <= s.consTail + s.mask
    && |s.produced| == s.prodHead
    && s.consumed == s.produced[..s.consTail]
  }

  /** The slot of counter value i holds the item produced as number i. */
  predicate Holds(slots: seq<Obj>, produced: seq<Obj>, i: nat)
    requires |slots| > 0
  {
    i < |produced| && slots[Slot(i, |slots|)] == produced[i]
  }

  ghost predicate HoldsAll(slots: seq<Obj>, produced: seq<Obj>, from: nat, to: nat)
    requires |slots| > 0
  {
    forall i {:trigger Holds(slots, produced, i)} :: from <= i < to ==> Holds(slots, produced, i)
  }

  /** Published items not yet released are in their slots. */
  ghost predicate Stable(s: State)
    requires Bounds(s)
  {
    HoldsAll(s.slots, s.produced, s.consTail, s.prodTail)
  }

  ghost predicate LocalOk(s: State, l: Local)
    requires Bounds(s)
  {
    match l
    case Idle => true
    case PStart(objs, _) => |objs| >= 1
    case PHead(objs, _, head) => |objs| >= 1 && head <= s.prodHead && (s.sp ==> head == s.prodHead)
    case PTail(objs, _, head, seen, room) =>
      |objs| >= 1 && head <= s.prodHead && (s.sp ==> head == s.prodHead)
      && seen <= s.consTail && head <= seen + s.mask && room <= s.mask + seen - head
    case PCopy(head, objs, k) =>
      && |objs| >= 1 && k <= |objs| && s.prodTail <= head && head + |objs| <= s.prodHead
      && s.produced[head..head + |objs|] == objs
      && HoldsAll(s.slots, s.produced, head, head + k)
    case CStart(n, _) => n >= 1
    case CHead(n, _, head) => n >= 1 && head <= s.consHead && (s.sc ==> head == s.consHead)
    case CTail(n, _, head, seen, room) =>
      n >= 1 && head <= s.consHead && (s.sc ==> head == s.consHead)
      && head <= seen <= s.prodTail && room <= seen - head
    case CCopy(head, n, got) =>
      && n >= 1 && |got| <= n && s.consTail <= head && head + n <= s.consHead
      && got == s.produced[head..head + |got|]
  }

  ghost predicate LocalsOk(s: State)
    requires Bounds(s)
  {
    forall t {:trigger Look(s.threads, t)} :: LocalOk(s, Look(s.threads, t))
  }

  /** Counter value i belongs to this thread's unpublished reservation. */
  predicate Writes(l: Local, i: nat) {
    l.PCopy? && l.head <= i < l.head + |l.objs|
  }

  predicate Reads(l: Local, i: nat) {
    l.CCopy? && l.head <= i < l.head + l.n
  }

  /** The producers' reservations partition [prod.tail, prod.head). */
  ghost predicate ProducersTile(s: State) {
    && (forall i {:trigger ByProducer(s.threads, i)} :: s.prodTail <= i < s.prodHead ==> ByProducer(s.threads, i))
    && (forall t, u, i {:trigger Writes(Look(s.threads, t), i), Writes(Look(s.threads, u), i)} ::
          Writes(Look(s.threads, t), i) && Writes(Look(s.threads, u), i) ==> t == u)
  }

  ghost predicate ByProducer(threads: map<Tid, Local>, i: nat) {
    exists t :: Writes(Look(threads, t), i)
  }

  /** The consumers' reservations partition [cons.tail, cons.head). */
  ghost predicate ConsumersTile(s: State) {
    && (forall i {:trigger ByConsumer(s.threads, i)} :: s.consTail <= i < s.consHead ==> ByConsumer(s.threads, i))
    && (forall t, u, i {:trigger Reads(Look(s.threads, t), i), Reads(Look(s.threads, u), i)} ::
          Reads(Look(s.threads, t), i) && Reads(Look(s.threads, u), i) ==> t == u)
  }

  ghost predicate ByConsumer(threads: map<Tid, Local>, i: nat) {
    exists t :: Reads(Look(threads, t), i)
  }

  /** With the single-producer flag at most one enqueue is in progress, and likewise for dequeues. */
  ghost predicate Exclusive(s: State) {
    && (s.sp ==> forall t, u {:trigger Look(s.threads, t), Look(s.threads, u)} ::
          Look(s.threads, t).Producing() && Look(s.threads, u).Producing() ==> t == u)
    && (s.sc ==> forall t, u {:trigger Look(s.threads, t), Look(s.threads, u)} ::
          Look(s.threads, t).Consuming() && Look(s.threads, u).Consuming() ==> t == u)
  }

  ghost predicate Inv(s: State) {
    Bounds(s) && Stable(s) && LocalsOk(s) && ProducersTile(s) && ConsumersTile(s) && Exclusive(s)
  }

  lemma InitHolds(s: State)
    requires Init(s)
    ensures Inv(s)
  {
  }

  // ---------- arithmetic of one step ----------

  /** The slot a copy loop touches is the slot of the unbounded counter. */
  lemma WireSlot(s: State, head: nat, k: nat)
    requires Bounds(s) && k <= s.mask
    ensures Slot(Low32(head) + k, s.Size()) == Slot(head + k, s.Size())
  {
    SlotOfLow32(head, s.sizeLog);
    SlotAdd(Low32(head), k, s.Size());
    SlotAdd(head, k, s.Size());
  }

  lemma SizeSmall(s: State)
    requires Bounds(s)
    ensures s.mask < 0x4000_0000
  {
    Pow2Is30();
    Pow2Monotone(s.sizeLog, 30);
  }

  /** At a successful exchange the head has not moved and the burst fits. */
  lemma ProdCasExact(s: State, t: Tid)
    requires Bounds(s) && LocalsOk(s) && s.At(t).PTail? && ProdCasSucceeds(s, s.At(t))
    ensures s.At(t).head == s.prodHead
    ensures EnqueueBurst(s, s.At(t)) <= s.consTail + s.mask - s.prodHead
  {
    var l := s.At(t);
    if !s.sp {
      Difference32(s.prodHead, l.head);
    }
    SizeSmall(s);
    FreeSeenExact(s.mask, l.seen, l.head);
  }

  lemma FreeSeenExact(mask: nat, seen: nat, head: nat)
    requires head <= seen + mask < head + 0x1_0000_0000
    ensures FreeSeen(mask, seen, head) == mask + seen - head
  {
    Low32Small(mask + seen - head);
    Low32Sub(mask + seen, head);
    Low32Add(seen, mask - Low32(head));
    Low32Add(mask + seen, - (Low32(head) as int));
  }

  lemma EntriesSeenExact(seen: nat, head: nat)
    requires head <= seen < head + 0x1_0000_0000
    ensures EntriesSeen(seen, head) == seen - head
  {
    Difference32(seen, head);
  }

  lemma ConsCasExact(s: State, t: Tid)
    requires Bounds(s) && LocalsOk(s) && s.At(t).CTail? && ConsCasSucceeds(s, s.At(t))
    ensures s.At(t).head == s.consHead
    ensures DequeueBurst(s.At(t)) <= s.prodTail - s.consHead
  {
    var l := s.At(t);
    if !s.sc {
      Difference32(s.consHead, l.head);
    }
    SizeSmall(s);
    EntriesSeenExact(l.seen, l.head);
  }

  // ---------- each step keeps the invariant ----------

  /** Another thread's view when counters move on but neither the slots nor the
      production order change. */
  lemma LocalMono(s: State, s': State, l: Local)
    requires Bounds(s) && Bounds(s') && LocalOk(s, l)
    requires s' == s.(prodTail := s'.prodTail, consHead := s'.consHead, consTail := s'.consTail,
                      consumed := s'.consumed, threads := s'.threads)
    requires s.prodTail <= s'.prodTail && s.consHead <= s'.consHead && s.consTail <= s'.consTail
    requires l.PCopy? ==> s'.prodTail <= l.head
    requires l.CCopy? ==> s'.consTail <= l.head
    requires s.sc && (l.CHead? || l.CTail?) ==> s'.consHead == s.consHead
    ensures LocalOk(s', l)
  {
  }

  /** The others follow one by one; the moving thread's own view is `l`. */
  lemma LocalsMono(s: State, t: Tid, s': State, l: Local)
    requires Bounds(s) && LocalsOk(s) && Bounds(s') && LocalOk(s', l)
    requires s' == s.(prodTail := s'.prodTail, consHead := s'.consHead, consTail := s'.consTail,
                      consumed := s'.consumed, threads := Put(s.threads, t, l))
    requires s.prodTail <= s'.prodTail && s.consHead <= s'.consHead && s.consTail <= s'.consTail
    requires forall u {:trigger Look(s.threads, u)} :: u != t && Look(s.threads, u).PCopy? ==> s'.prodTail <= Look(s.threads, u).head
    requires forall u {:trigger Look(s.threads, u)} :: u != t && Look(s.threads, u).CCopy? ==> s'.consTail <= Look(s.threads, u).head
    requires s.sc && s'.consHead != s.consHead ==> forall u {:trigger Look(s.threads, u)} :: u != t ==> !Look(s.threads, u).Consuming()
    ensures LocalsOk(s')
  {
    forall u ensures LocalOk(s', Look(s'.threads, u)) {
      if u != t {
        LocalMono(s, s', Look(s.threads, u));
      }
    }
  }

  lemma CopiesInRange(s: State)
    requires Bounds(s) && LocalsOk(s)
    ensures forall u {:trigger Look(s.threads, u)} :: Look(s.threads, u).PCopy? ==> s.prodTail <= Look(s.threads, u).head
    ensures forall u {:trigger Look(s.threads, u)} :: Look(s.threads, u).CCopy? ==> s.consTail <= Look(s.threads, u).head
  {
    forall u ensures LocalOk(s, Look(s.threads, u)) {
    }
  }

  /** A step that only changes a thread outside the copy phases. */
  lemma LocalStepKeeps(s: State, t: Tid, l: Local)
    requires Inv(s) && LocalOk(s, l)
    requires !l.PCopy? && !l.CCopy? && !s.At(t).PCopy? && !s.At(t).CCopy?
    requires (l.Producing() ==> s.At(t).Producing()) && (l.Consuming() ==> s.At(t).Consuming())
    ensures Inv(s.Set(t, l))
  {
    var s' := s.Set(t, l);
    CopiesInRange(s);
    LocalsMono(s, t, s', l);
    ProducersUnchanged(s, t, s', l);
    ConsumersUnchanged(s, t, s', l);
  }

  /** Appending to the production order does not disturb what is already in place. */
  lemma HoldsAllGrow(slots: seq<Obj>, produced: seq<Obj>, more: seq<Obj>, from: nat, to: nat)
    requires |slots| > 0 && to <= |produced|
    requires HoldsAll(slots, produced, from, to)
    ensures HoldsAll(slots, produced + more, from, to)
  {
    forall i | from <= i < to ensures Holds(slots, produced + more, i) {
      assert Holds(slots, produced, i);
    }
  }

  /** A store for counter value i0 leaves every other value of the same window in place. */
  lemma HoldsAllWrite(slots: seq<Obj>, produced: seq<Obj>, i0: nat, v: Obj, from: nat, to: nat, base: nat)
    requires |slots| > 0 && base <= i0 < base + |slots| && base <= from && to <= base + |slots|
    requires i0 < from || to <= i0
    requires HoldsAll(slots, produced, from, to)
    ensures HoldsAll(slots[Slot(i0, |slots|) := v], produced, from, to)
  {
    var slots' := slots[Slot(i0, |slots|) := v];
    forall i | from <= i < to ensures Holds(slots', produced, i) {
      assert Holds(slots, produced, i);
      if i < i0 {
        SlotsDistinct(i, i0, |slots|);
      } else {
        SlotsDistinct(i0, i, |slots|);
      }
    }
  }

  lemma ProdCasKeepsLocals(s: State, t: Tid, s': State)
    requires Inv(s) && s.At(t).PTail? && ProdCasSucceeds(s, s.At(t)) && s' == AfterProdCas(s, t, s.At(t))
    ensures Bounds(s') && Stable(s') && LocalsOk(s')
  {
    var l := s.At(t);
    var more := l.objs[..EnqueueBurst(s, l)];
    ProdCasExact(s, t);
    assert Bounds(s') by {
      assert s'.produced[..s.consTail] == s.produced[..s.consTail];
    }
    HoldsAllGrow(s.slots, s.produced, more, s.consTail, s.prodTail);
    forall u ensures LocalOk(s', Look(s'.threads, u)) {
      if u == t {
        assert s'.produced[l.head..l.head + |more|] == more;
      } else {
        LocalAfterReserve(s, s', more, Look(s.threads, u));
      }
    }
  }

  /** Another thread's view when `more` is reserved at the end. */
  lemma LocalAfterReserve(s: State, s': State, more: seq<Obj>, l: Local)
    requires Bounds(s) && Bounds(s') && LocalOk(s, l)
    requires s'.produced == s.produced + more
    requires s' == s.(prodHead := s'.prodHead, produced := s'.produced, threads := s'.threads)
    requires s.sp ==> !l.PHead? && !l.PTail?
    ensures LocalOk(s', l)
  {
    match l
    case PCopy(head, objs, k) =>
      HoldsAllGrow(s.slots, s.produced, more, head, head + k);
      assert s'.produced[head..head + |objs|] == s.produced[head..head + |objs|];
    case CCopy(head, n, got) =>
      assert s'.produced[head..head + |got|] == s.produced[head..head + |got|];
    case _ =>
  }

  lemma ProdCasKeepsTiles(s: State, t: Tid, s': State)
    requires Inv(s) && s.At(t).PTail? && ProdCasSucceeds(s, s.At(t)) && s' == AfterProdCas(s, t, s.At(t))
    ensures ProducersTile(s') && ConsumersTile(s') && Exclusive(s')
  {
    var l, l' := s.At(t), Look(s'.threads, t);
    ProdCasExact(s, t);
    forall i | s'.prodTail <= i < s'.prodHead ensures ByProducer(s'.threads, i) {
      if i < s.prodHead {
        assert ByProducer(s.threads, i);
        var u :| Writes(Look(s.threads, u), i);
        assert Writes(Look(s'.threads, u), i);
      } else {
        assert Writes(l', i);
      }
    }
    forall u, i | u != t && Writes(l', i) ensures !Writes(Look(s'.threads, u), i) {
      assert LocalOk(s, Look(s.threads, u));
    }
    ConsumersUnchanged(s, t, s', l');
  }

  /** A thread that is not in a consumer copy before or after leaves the consumers' tiling alone. */
  lemma ConsumersUnchanged(s: State, t: Tid, s': State, l: Local)
    requires ConsumersTile(s) && s'.threads == Put(s.threads, t, l)
    requires s'.consTail == s.consTail && s'.consHead == s.consHead
    requires !s.At(t).CCopy? && !l.CCopy?
    ensures ConsumersTile(s')
  {
    forall i | s.consTail <= i < s.consHead ensures ByConsumer(s'.threads, i) {
      assert ByConsumer(s.threads, i);
      var u :| Reads(Look(s.threads, u), i);
      assert Reads(Look(s'.threads, u), i);
    }
  }

  lemma ProducersUnchanged(s: State, t: Tid, s': State, l: Local)
    requires ProducersTile(s) && s'.threads == Put(s.threads, t, l)
    requires s'.prodTail == s.prodTail && s'.prodHead == s.prodHead
    requires !s.At(t).PCopy? && !l.PCopy?
    ensures ProducersTile(s')
  {
    forall i | s.prodTail <= i < s.prodHead ensures ByProducer(s'.threads, i) {
      assert ByProducer(s.threads, i);
      var u :| Writes(Look(s.threads, u), i);
      assert Writes(Look(s'.threads, u), i);
    }
  }

  /** Another thread's view when the slot of counter value i0 is written. */
  lemma LocalAfterWrite(s: State, s': State, i0: nat, v: Obj, l: Local)
    requires Bounds(s) && LocalOk(s, l) && !Writes(l, i0) && s.consTail <= i0 < s.consTail + s.Size()
    requires s' == s.(slots := s.slots[Slot(i0, s.Size()) := v], threads := s'.threads)
    ensures Bounds(s') && LocalOk(s', l)
  {
    match l
    case PCopy(head, objs, k) =>
      HoldsAllWrite(s.slots, s.produced, i0, v, head, head + k, s.consTail);
    case _ =>
  }

  lemma LocalAfterOwnWrite(s: State, s': State, l: Local)
    requires Bounds(s) && l.PCopy? && LocalOk(s, l) && l.k < |l.objs|
    requires s' == s.(slots := s.slots[Slot(l.head + l.k, s.Size()) := l.objs[l.k]], threads := s'.threads)
    ensures Bounds(s') && LocalOk(s', PCopy(l.head, l.objs, l.k + 1))
  {
    var i0 := l.head + l.k;
    HoldsAllWrite(s.slots, s.produced, i0, l.objs[l.k], l.head, i0, s.consTail);
    assert s.produced[i0] == s.produced[l.head..l.head + |l.objs|][l.k];
    assert Holds(s'.slots, s'.produced, i0);
  }

  /** All views after a store for counter value i0 by thread t, whose own view is `l`. */
  lemma LocalsAfterWrite(s: State, t: Tid, s': State, i0: nat, v: Obj, l: Local)
    requires Bounds(s) && LocalsOk(s) && s.consTail <= i0 < s.consTail + s.Size()
    requires s' == s.(slots := s.slots[Slot(i0, s.Size()) := v], threads := Put(s.threads, t, l))
    requires Bounds(s') && LocalOk(s', l)
    requires forall u {:trigger Look(s.threads, u)} :: u != t ==> !Writes(Look(s.threads, u), i0)
    ensures LocalsOk(s')
  {
    forall u ensures LocalOk(s', Look(s'.threads, u)) {
      if u != t {
        LocalAfterWrite(s, s', i0, v, Look(s.threads, u));
      }
    }
  }

  lemma WriteKeepsLocals(s: State, t: Tid, s': State)
    requires Inv(s) && s.At(t).PCopy? && s.At(t).k < |s.At(t).objs| && s' == AfterWrite(s, t, s.At(t))
    ensures Bounds(s') && Stable(s') && LocalsOk(s')
  {
    var l := Look(s.threads, t);
    var i0, v := l.head + l.k, l.objs[l.k];
    assert LocalOk(s, l);
    WireSlot(s, l.head, l.k);
    HoldsAllWrite(s.slots, s.produced, i0, v, s.consTail, s.prodTail, s.consTail);
    LocalAfterOwnWrite(s, s', l);
    OnlyWriter(s, t, i0);
    LocalsAfterWrite(s, t, s', i0, v, PCopy(l.head, l.objs, l.k + 1));
  }

  lemma OnlyWriter(s: State, t: Tid, i: nat)
    requires ProducersTile(s) && Writes(Look(s.threads, t), i)
    ensures forall u {:trigger Look(s.threads, u)} :: u != t ==> !Writes(Look(s.threads, u), i)
  {
  }

  lemma WriteKeeps(s: State, t: Tid, s': State)
    requires Inv(s) && s.At(t).PCopy? && s.At(t).k < |s.At(t).objs| && s' == AfterWrite(s, t, s.At(t))
    ensures Inv(s')
  {
    WriteKeepsLocals(s, t, s');
    SameReservations(s.threads, s'.threads, t);
    forall i | s.prodTail <= i < s.prodHead ensures ByProducer(s'.threads, i) {
      assert ByProducer(s.threads, i);
      var u :| Writes(Look(s.threads, u), i);
      assert Writes(Look(s'.threads, u), i);
    }
    ConsumersUnchanged(s, t, s', Look(s'.threads, t));
  }

  /** Moving on inside the copy keeps the reservation. */
  lemma SameReservations(threads: map<Tid, Local>, threads': map<Tid, Local>, t: Tid)
    requires Look(threads, t).PCopy? && Look(threads', t).PCopy?
    requires Look(threads, t).head == Look(threads', t).head && Look(threads, t).objs == Look(threads', t).objs
    requires forall u {:trigger Look(threads', u)} :: u != t ==> Look(threads', u) == Look(threads, u)
    ensures forall u, i {:trigger Writes(Look(threads', u), i)} :: Writes(Look(threads', u), i) == Writes(Look(threads, u), i)
  {
  }

  /** Every other reservation starts at or after the end of the one being published. */
  lemma OthersAfter(s: State, t: Tid, u: Tid)
    requires Inv(s) && Look(s.threads, t).PCopy? && Look(s.threads, t).head == s.prodTail
    requires u != t && Look(s.threads, u).PCopy?
    ensures Look(s.threads, u).head >= s.prodTail + |Look(s.threads, t).objs|
  {
    var head := Look(s.threads, u).head;
    assert LocalOk(s, Look(s.threads, u));
    assert Writes(Look(s.threads, u), head);
    assert !Writes(Look(s.threads, t), head);
  }

  lemma PublishProdKeepsLocals(s: State, t: Tid, s': State)
    requires Inv(s) && s.At(t).PCopy? && s.At(t).k == |s.At(t).objs| && s.At(t).head == s.prodTail
    requires s' == AfterPublishProd(s, t, s.At(t))
    ensures Bounds(s') && Stable(s') && LocalsOk(s')
  {
    assert LocalOk(s, Look(s.threads, t));
    CopiesInRange(s);
    forall u | u != t && Look(s.threads, u).PCopy? ensures s'.prodTail <= Look(s.threads, u).head {
      OthersAfter(s, t, u);
    }
    LocalsMono(s, t, s', Idle);
  }

  lemma PublishProdKeeps(s: State, t: Tid, s': State)
    requires Inv(s) && s.At(t).PCopy? && s.At(t).k == |s.At(t).objs|
    requires s.sp || Low32(s.prodTail) == Low32(s.At(t).head)
    requires s' == AfterPublishProd(s, t, s.At(t))
    ensures s.At(t).head == s.prodTail && Inv(s')
  {
    PublishInOrder(s, t);
    PublishProdKeepsLocals(s, t, s');
    forall i | s'.prodTail <= i < s'.prodHead ensures ByProducer(s'.threads, i) {
      assert ByProducer(s.threads, i);
      var u :| Writes(Look(s.threads, u), i);
      assert Writes(Look(s'.threads, u), i);
    }
    ConsumersUnchanged(s, t, s', Idle);
  }

  /** Only the thread with the oldest reservation passes the wait on prod.tail. */
  lemma PublishInOrder(s: State, t: Tid)
    requires Inv(s) && s.At(t).PCopy?
    requires s.sp || Low32(s.prodTail) == Low32(s.At(t).head)
    ensures s.At(t).head == s.prodTail
  {
    var l := s.At(t);
    assert LocalOk(s, Look(s.threads, t));
    SizeSmall(s);
    if s.sp {
      assert ByProducer(s.threads, s.prodTail);
      var u :| Writes(Look(s.threads, u), s.prodTail);
      assert u == t;
    } else {
      Difference32(l.head, s.prodTail);
    }
  }

  lemma ConsCasKeeps(s: State, t: Tid, s': State)
    requires Inv(s) && s.At(t).CTail? && ConsCasSucceeds(s, s.At(t)) && s' == AfterConsCas(s, t, s.At(t))
    ensures Inv(s')
  {
    var l' := Look(s'.threads, t);
    ConsCasExact(s, t);
    CopiesInRange(s);
    assert s'.produced[l'.head..l'.head + 0] == [];
    LocalsMono(s, t, s', l');
    forall i | s'.consTail <= i < s'.consHead ensures ByConsumer(s'.threads, i) {
      if i < s.consHead {
        assert ByConsumer(s.threads, i);
        var u :| Reads(Look(s.threads, u), i);
        assert Reads(Look(s'.threads, u), i);
      } else {
        assert Reads(l', i);
      }
    }
    forall u, i | u != t && Reads(l', i) ensures !Reads(Look(s'.threads, u), i) {
      assert LocalOk(s, Look(s.threads, u));
    }
    ProducersUnchanged(s, t, s', l');
  }

  /** What a consumer loads is the item produced under that number: it has been published
      and its slot has not been reused. */
  lemma ReadsTheItem(s: State, t: Tid)
    requires Inv(s) && s.At(t).CCopy? && |s.At(t).got| < s.At(t).n
    ensures var l := s.At(t);
      && l.head + |l.got| < |s.produced|
      && s.slots[Slot(Low32(l.head) + |l.got|, s.Size())] == s.produced[l.head + |l.got|]
  {
    var l := Look(s.threads, t);
    assert LocalOk(s, l);
    WireSlot(s, l.head, |l.got|);
    assert Holds(s.slots, s.produced, l.head + |l.got|);
  }

  lemma ReadKeepsLocals(s: State, t: Tid, s': State)
    requires Inv(s) && s.At(t).CCopy? && |s.At(t).got| < s.At(t).n && s' == AfterRead(s, t, s.At(t))
    ensures Bounds(s') && Stable(s') && LocalsOk(s')
  {
    var l := Look(s.threads, t);
    ReadsTheItem(s, t);
    var k := l.head + |l.got|;
    assert LocalOk(s, l);
    assert s.produced[l.head..k + 1] == s.produced[l.head..k] + [s.produced[k]];
    CopiesInRange(s);
    LocalsMono(s, t, s', Look(s'.threads, t));
  }

  lemma ReadKeeps(s: State, t: Tid, s': State)
    requires Inv(s) && s.At(t).CCopy? && |s.At(t).got| < s.At(t).n && s' == AfterRead(s, t, s.At(t))
    ensures Inv(s')
  {
    var l' := Look(s'.threads, t);
    ReadKeepsLocals(s, t, s');
    SameReads(s.threads, s'.threads, t);
    forall i | s.consTail <= i < s.consHead ensures ByConsumer(s'.threads, i) {
      assert ByConsumer(s.threads, i);
      var u :| Reads(Look(s.threads, u), i);
      assert Reads(Look(s'.threads, u), i);
    }
    ProducersUnchanged(s, t, s', l');
  }

  lemma SameReads(threads: map<Tid, Local>, threads': map<Tid, Local>, t: Tid)
    requires Look(threads, t).CCopy? && Look(threads', t).CCopy?
    requires Look(threads, t).head == Look(threads', t).head && Look(threads, t).n == Look(threads', t).n
    requires forall u {:trigger Look(threads', u)} :: u != t ==> Look(threads', u) == Look(threads, u)
    ensures forall u, i {:trigger Reads(Look(threads', u), i)} :: Reads(Look(threads', u), i) == Reads(Look(threads, u), i)
  {
  }

  /** Only the thread with the oldest reservation passes the wait on cons.tail. */
  lemma ReleaseInOrder(s: State, t: Tid)
    requires Inv(s) && s.At(t).CCopy?
    requires s.sc || Low32(s.consTail) == Low32(s.At(t).head)
    ensures s.At(t).head == s.consTail
  {
    var l := s.At(t);
    assert LocalOk(s, Look(s.threads, t));
    SizeSmall(s);
    if s.sc {
      assert ByConsumer(s.threads, s.consTail);
      var u :| Reads(Look(s.threads, u), s.consTail);
      assert u == t;
    } else {
      Difference32(l.head, s.consTail);
    }
  }

  lemma OtherReadersAfter(s: State, t: Tid, u: Tid)
    requires Inv(s) && Look(s.threads, t).CCopy? && Look(s.threads, t).head == s.consTail
    requires u != t && Look(s.threads, u).CCopy?
    ensures Look(s.threads, u).head >= s.consTail + Look(s.threads, t).n
  {
    var head := Look(s.threads, u).head;
    assert LocalOk(s, Look(s.threads, u));
    assert Reads(Look(s.threads, u), head);
    assert !Reads(Look(s.threads, t), head);
  }

  lemma PublishConsKeepsLocals(s: State, t: Tid, s': State)
    requires Inv(s) && s.At(t).CCopy? && |s.At(t).got| == s.At(t).n && s.At(t).head == s.consTail
    requires s' == AfterPublishCons(s, t, s.At(t))
    ensures Bounds(s') && Stable(s') && LocalsOk(s')
  {
    var l := Look(s.threads, t);
    assert LocalOk(s, l);
    assert s.produced[..l.head + l.n] == s.produced[..l.head] + s.produced[l.head..l.head + l.n];
    CopiesInRange(s);
    forall u | u != t && Look(s.threads, u).CCopy? ensures s'.consTail <= Look(s.threads, u).head {
      OtherReadersAfter(s, t, u);
    }
    LocalsMono(s, t, s', Idle);
  }

  lemma PublishConsKeeps(s: State, t: Tid, s': State)
    requires Inv(s) && s.At(t).CCopy? && |s.At(t).got| == s.At(t).n
    requires s.sc || Low32(s.consTail) == Low32(s.At(t).head)
    requires s' == AfterPublishCons(s, t, s.At(t))
    ensures s.At(t).head == s.consTail && Inv(s')
  {
    ReleaseInOrder(s, t);
    PublishConsKeepsLocals(s, t, s');
    forall i | s'.consTail <= i < s'.consHead ensures ByConsumer(s'.threads, i) {
      assert ByConsumer(s.threads, i);
      var u :| Reads(Look(s.threads, u), i);
      assert Reads(Look(s'.threads, u), i);
    }
    ProducersUnchanged(s, t, s', Idle);
  }

  predicate ByProducerAction(a: Action) {
    a.BeginEnqueue? || a.ReadProdHead? || a.ReadConsTail? || a.EnqueueFails? || a.ProdCas? || a.ProdCasFails?
    || a.WriteSlot? || a.PublishProd?
  }

  /** The reads and the two ways out of the retry loop leave a thread with a view it can vouch for. */
  lemma QuietProducer(s: State, t: Tid, a: Action, s': State)
    requires Bounds(s) && LocalOk(s, Look(s.threads, t)) && Step(s, t, a, s')
    requires a.ReadProdHead? || a.ReadConsTail? || a.EnqueueFails? || a.ProdCasFails?
    ensures var l := Look(s'.threads, t);
      s' == s.Set(t, l) && LocalOk(s, l) && !l.PCopy? && !l.CCopy? && !l.Consuming() && s.At(t).Producing() && !s.At(t).PCopy?
  {
  }

  lemma QuietConsumer(s: State, t: Tid, a: Action, s': State)
    requires Bounds(s) && LocalOk(s, Look(s.threads, t)) && Step(s, t, a, s')
    requires a.ReadConsHead? || a.ReadProdTail? || a.DequeueFails? || a.ConsCasFails?
    ensures var l := Look(s'.threads, t);
      s' == s.Set(t, l) && LocalOk(s, l) && !l.PCopy? && !l.CCopy? && !l.Producing() && s.At(t).Consuming() && !s.At(t).CCopy?
  {
  }

  lemma ProducerStepKeeps(s: State, t: Tid, a: Action, s': State)
    requires Inv(s) && ByProducerAction(a) && Step(s, t, a, s')
    ensures Inv(s')
  {
    assert LocalOk(s, Look(s.threads, t));
    match a
    case ProdCas =>
      ProdCasKeepsLocals(s, t, s');
      ProdCasKeepsTiles(s, t, s');
    case WriteSlot => WriteKeeps(s, t, s');
    case PublishProd => PublishProdKeeps(s, t, s');
    case BeginEnqueue(_, _) => BeginKeeps(s, t, Look(s'.threads, t));
    case _ =>
      QuietProducer(s, t, a, s');
      LocalStepKeeps(s, t, Look(s'.threads, t));
  }

  lemma ConsumerStepKeeps(s: State, t: Tid, a: Action, s': State)
    requires Inv(s) && !ByProducerAction(a) && Step(s, t, a, s')
    ensures Inv(s')
  {
    assert LocalOk(s, Look(s.threads, t));
    match a
    case ConsCas => ConsCasKeeps(s, t, s');
    case ReadSlot => ReadKeeps(s, t, s');
    case PublishCons => PublishConsKeeps(s, t, s');
    case BeginDequeue(_, _) => BeginKeeps(s, t, Look(s'.threads, t));
    case _ =>
      QuietConsumer(s, t, a, s');
      LocalStepKeeps(s, t, Look(s'.threads, t));
  }

  /** Every step of every thread keeps the invariant. */
  lemma StepKeeps(s: State, t: Tid, a: Action, s': State)
    requires Inv(s) && Step(s, t, a, s')
    ensures Inv(s')
  {
    if ByProducerAction(a) {
      ProducerStepKeeps(s, t, a, s');
    } else {
      ConsumerStepKeeps(s, t, a, s');
    }
  }

  lemma BeginKeeps(s: State, t: Tid, l: Local)
    requires Inv(s) && s.At(t).Idle?
    requires (l.PStart? && MayBeginEnqueue(s, t, l.objs)) || (l.CStart? && MayBeginDequeue(s, t, l.n))
    ensures Inv(s.Set(t, l))
  {
    ProducersUnchanged(s, t, s.Set(t, l), l);
    ConsumersUnchanged(s, t, s.Set(t, l), l);
    CopiesInRange(s);
    LocalsMono(s, t, s.Set(t, l), l);
  }

  // ---------- whole runs ----------

  datatype Move = Move(t: Tid, a: Action)

  /** A run of the ring from its creation: move i takes state i to state i + 1. */
  ghost predicate Run(run: seq<State>, moves: seq<Move>) {
    && |run| == |moves| + 1 && Init(run[0])
    && (forall i {:trigger moves[i]} :: 0 <= i < |moves| ==> Moves(run[i], moves[i], run[i + 1]))
  }

  ghost predicate Moves(s: State, mv: Move, s': State) {
    |s.slots| == s.Size() && Step(s, mv.t, mv.a, s')
  }

  lemma {:induction false} RunKeeps(run: seq<State>, moves: seq<Move>, k: nat)
    requires Run(run, moves) && k < |run|
    ensures Inv(run[k])
  {
    if k == 0 {
      InitHolds(run[0]);
    } else {
      RunKeeps(run, moves, k - 1);
      var mv := moves[k - 1];
      StepKeeps(run[k - 1], mv.t, mv.a, run[k]);
    }
  }
}
