/** What the ring protocol guarantees over whole runs: the counters and reservations, the
    refinement of a bounded FIFO, and what a failed call means. */
module RingFifo {
  import opened Bits
  import opened RingBuffer
  import opened RingProtocol

  /** Exactly one thread holds the unpublished reservation of entry i. */
  ghost predicate OneWriter(threads: map<Tid, Local>, i: nat) {
    exists t :: Writes(Look(threads, t), i) && forall u :: Writes(Look(threads, u), i) ==> u == t
  }

  ghost predicate OneReader(threads: map<Tid, Local>, i: nat) {
    exists t :: Reads(Look(threads, t), i) && forall u :: Reads(Look(threads, u), i) ==> u == t
  }

  /** In every state of every run the counters are ordered, the ring never holds more than mask
      entries, each reserved entry belongs to exactly one thread, and what has been handed back
      is a prefix of what was put in. */
  lemma RunSafety(run: seq<State>, moves: seq<Move>, k: nat)
    requires Run(run, moves) && k < |run|
    ensures var s := run[k];
      && s.consTail <= s.consHead <= s.prodTail <= s.prodHead <= s.consTail + s.mask
      && s.consumed <= s.produced
      && (forall i :: s.prodTail <= i < s.prodHead ==> OneWriter(s.threads, i))
      && (forall i :: s.consTail <= i < s.consHead ==> OneReader(s.threads, i))
  {
    RunKeeps(run, moves, k);
    UniqueOwners(run[k]);
  }

  lemma UniqueOwners(s: State)
    requires ProducersTile(s) && ConsumersTile(s)
    ensures forall i :: s.prodTail <= i < s.prodHead ==> OneWriter(s.threads, i)
    ensures forall i :: s.consTail <= i < s.consHead ==> OneReader(s.threads, i)
  {
    forall i | s.prodTail <= i < s.prodHead ensures OneWriter(s.threads, i) {
      assert ByProducer(s.threads, i);
    }
    forall i | s.consTail <= i < s.consHead ensures OneReader(s.threads, i) {
      assert ByConsumer(s.threads, i);
    }
  }

  /** A producer's store never lands on the slot of any other entry that is reserved,
      published or still being read. */
  lemma StoreHitsFreeSlot(s: State, t: Tid, i: nat)
    requires Inv(s) && s.At(t).PCopy? && s.At(t).k < |s.At(t).objs|
    requires s.consTail <= i < s.prodHead && i != s.At(t).head + s.At(t).k
    ensures Slot(Low32(s.At(t).head) + s.At(t).k, s.Size()) != Slot(i, s.Size())
  {
    var l := s.At(t);
    assert LocalOk(s, Look(s.threads, t));
    WireSlot(s, l.head, l.k);
    var i0 := l.head + l.k;
    if i < i0 {
      SlotsDistinct(i, i0, s.Size());
    } else {
      SlotsDistinct(i0, i, s.Size());
    }
  }

  // ---------- the abstract FIFO ----------

  datatype FifoEvent = Quiet | Enqueued(objs: seq<Obj>) | Dequeued(objs: seq<Obj>)

  ghost predicate FifoStep(capacity: nat, q: seq<Obj>, e: FifoEvent, q': seq<Obj>) {
    && |q'| <= capacity
    && match e
       case Quiet => q' == q
       case Enqueued(objs) => q' == q + objs
       case Dequeued(objs) => q == objs + q'
  }

  /** The queued items: published and not yet claimed. */
  function Contents(s: State): seq<Obj>
    requires s.consHead <= s.prodTail <= |s.produced|
  {
    s.produced[s.consHead..s.prodTail]
  }

  /** An enqueue takes effect when its tail is published, a dequeue when its exchange succeeds. */
  function EventOf(s: State, t: Tid, a: Action): FifoEvent {
    var l := s.At(t);
    if a.PublishProd? && l.PCopy? then Enqueued(l.objs)
    else if a.ConsCas? && l.CTail? && l.head + DequeueBurst(l) <= |s.produced|
      then Dequeued(s.produced[l.head..l.head + DequeueBurst(l)])
    else Quiet
  }

  /** Every step of the protocol is a step of a FIFO that holds at most mask items. */
  lemma StepRefines(s: State, t: Tid, a: Action, s': State)
    requires Inv(s) && Step(s, t, a, s')
    ensures Inv(s') && s'.mask == s.mask && FifoStep(s.mask, Contents(s), EventOf(s, t, a), Contents(s'))
  {
    StepKeeps(s, t, a, s');
    MaskStays(s, t, a, s');
    InBounds(s);
    InBounds(s');
    if a.PublishProd? {
      PublishRefines(s, t, s');
    } else if a.ConsCas? {
      ConsCasRefines(s, t, s');
    } else {
      QuietStays(s, t, a, s');
      hide Step, Inv, Bounds;
      assert s'.produced[s.consHead..s.prodTail] == s.produced[s.consHead..s.prodTail];
    }
  }

  lemma InBounds(s: State)
    requires Inv(s)
    ensures s.consHead <= s.prodTail <= |s.produced| && s.prodTail <= s.consHead + s.mask
  {
  }

  lemma MaskStays(s: State, t: Tid, a: Action, s': State)
    requires |s.slots| == s.Size() && Step(s, t, a, s')
    ensures s'.mask == s.mask
  {
  }

  /** No other step moves prod.tail or cons.head, or touches what was produced. */
  lemma QuietStays(s: State, t: Tid, a: Action, s': State)
    requires |s.slots| == s.Size() && Step(s, t, a, s') && !a.PublishProd? && !a.ConsCas?
    ensures s'.consHead == s.consHead && s'.prodTail == s.prodTail && s.produced <= s'.produced
  {
  }

  lemma PublishRefines(s: State, t: Tid, s': State)
    requires Inv(s) && Step(s, t, PublishProd, s')
    ensures s'.consHead <= s'.prodTail <= |s'.produced|
    ensures Contents(s') == Contents(s) + s.At(t).objs
  {
    var l := s.At(t);
    assert LocalOk(s, Look(s.threads, t));
    PublishInOrder(s, t);
    Joined(s.produced, s.consHead, s.prodTail, l.head + |l.objs|);
  }

  lemma ConsCasRefines(s: State, t: Tid, s': State)
    requires Inv(s) && Step(s, t, ConsCas, s')
    ensures s'.consHead <= s'.prodTail <= |s'.produced|
    ensures EventOf(s, t, ConsCas).Dequeued? && Contents(s) == EventOf(s, t, ConsCas).objs + Contents(s')
  {
    ConsCasExact(s, t);
    var n := DequeueBurst(s.At(t));
    Joined(s.produced, s.consHead, s.consHead + n, s.prodTail);
    hide Inv;
  }

  lemma Joined(x: seq<Obj>, a: nat, b: nat, c: nat)
    requires a <= b <= c <= |x|
    ensures x[a..c] == x[a..b] + x[b..c]
  {
  }

  /** The table a dequeue returns holds exactly the items its exchange took off the FIFO. */
  lemma DequeueReturnsItsItems(s: State, t: Tid)
    requires Inv(s) && s.At(t).CCopy? && |s.At(t).got| == s.At(t).n
    ensures s.At(t).head + s.At(t).n <= |s.produced|
    ensures s.At(t).got == s.produced[s.At(t).head..s.At(t).head + s.At(t).n]
  {
    assert LocalOk(s, Look(s.threads, t));
  }

  function EnqueuedBy(e: FifoEvent): seq<Obj> {
    if e.Enqueued? then e.objs else []
  }

  function DequeuedBy(e: FifoEvent): seq<Obj> {
    if e.Dequeued? then e.objs else []
  }

  /** Every item the first k steps of a run put in, in order. */
  function AllEnqueued(run: seq<State>, moves: seq<Move>, k: nat): seq<Obj>
    requires k <= |moves| < |run|
  {
    if k == 0 then []
    else AllEnqueued(run, moves, k - 1) + EnqueuedBy(EventOf(run[k - 1], moves[k - 1].t, moves[k - 1].a))
  }

  /** Every item the first k steps took out, in order. */
  function AllDequeued(run: seq<State>, moves: seq<Move>, k: nat): seq<Obj>
    requires k <= |moves| < |run|
  {
    if k == 0 then []
    else AllDequeued(run, moves, k - 1) + DequeuedBy(EventOf(run[k - 1], moves[k - 1].t, moves[k - 1].a))
  }

  /** Along any run the items enqueued are, in order, the items dequeued followed by the items
      queued: nothing is lost, duplicated or reordered, and the FIFO never exceeds mask. */
  lemma {:induction false} RunIsFifo(run: seq<State>, moves: seq<Move>, k: nat)
    requires Run(run, moves) && k < |run|
    ensures Inv(run[k]) && run[k].mask == run[0].mask
    ensures AllEnqueued(run, moves, k) == AllDequeued(run, moves, k) + Contents(run[k])
    ensures |Contents(run[k])| <= run[0].mask
  {
    if k == 0 {
      InitHolds(run[0]);
    } else {
      RunIsFifo(run, moves, k - 1);
      var s, mv := run[k - 1], moves[k - 1];
      InBounds(s);
      assert Moves(s, mv, run[k]);
      hide Step, EventOf, FifoStep, Bounds, Stable, LocalsOk, ProducersTile, ConsumersTile, Exclusive;
      StepRefines(s, mv.t, mv.a, run[k]);
      ExtendFifo(AllEnqueued(run, moves, k - 1), AllDequeued(run, moves, k - 1),
                 EventOf(s, mv.t, mv.a), Contents(s), Contents(run[k]), s.mask);
      InBounds(run[k]);
    }
  }

  lemma ExtendFifo(ins: seq<Obj>, outs: seq<Obj>, e: FifoEvent, q: seq<Obj>, q': seq<Obj>, capacity: nat)
    requires FifoStep(capacity, q, e, q') && ins == outs + q
    ensures ins + EnqueuedBy(e) == (outs + DequeuedBy(e)) + q'
  {
  }

  // ---------- what an enqueue returns ----------

  /** The watermark test of the multi-producer enqueue, as the 32-bit arithmetic computes it. */
  predicate QuotaSeen(mask: nat, seen: nat, head: nat, n: nat, watermark: nat) {
    Low32(mask + 1 - FreeSeen(mask, seen, head) + n) > watermark
  }

  /** What it returns after its exchange reserved n entries. */
  function ReturnSeen(mask: nat, seen: nat, head: nat, n: nat, watermark: nat, behavior: Behavior): int {
    if QuotaSeen(mask, seen, head, n, watermark)
    then (if behavior.Fixed? then -EDQUOT else n - 0x8000_0000)
    else (if behavior.Fixed? then 0 else n)
  }

  /** After a successful exchange the quota is reported exactly when the use the thread saw and its burst
      reach the watermark; so it is whenever the true use does, it never is with the watermark disabled,
      and the return value is that of a single producer who saw this use. */
  lemma QuotaAtExchange(s: State, t: Tid, watermark: nat)
    requires Inv(s) && s.At(t).PTail? && ProdCasSucceeds(s, s.At(t))
    ensures var l, n := s.At(t), EnqueueBurst(s, s.At(t));
      var used := l.head - l.seen;
      && 0 <= s.prodHead - s.consTail <= used && used + n <= s.mask
      && (QuotaSeen(s.mask, l.seen, l.head, n, watermark) <==> used + n >= watermark)
      && (s.prodHead + n - s.consTail >= watermark ==> QuotaSeen(s.mask, l.seen, l.head, n, watermark))
      && (watermark == s.mask + 1 ==> !QuotaSeen(s.mask, l.seen, l.head, n, watermark))
      && ReturnSeen(s.mask, l.seen, l.head, n, watermark, l.behavior) == EnqueueReturn(|l.objs|, used, s.mask - used, watermark, l.behavior)
  {
    var l := s.At(t);
    assert LocalOk(s, Look(s.threads, t));
    SizeSmall(s);
    ProdCasExact(s, t);
    FreeSeenExact(s.mask, l.seen, l.head);
    Low32Small(1 + (l.head - l.seen) + EnqueueBurst(s, l));
    hide Inv, Low32;
  }

  // ---------- where the 32-bit counters stop being enough ----------

  /** The exchange compares low words only, so it recognises an unmoved head exactly when fewer
      than 2^32 items went by since the read. */
  lemma CasRecognisesHead(head: nat, now: nat)
    requires head <= now && Low32(head) == Low32(now)
    ensures head == now <==> now < head + 0x1_0000_0000
  {
    if now < head + 0x1_0000_0000 {
      Difference32(now, head);
    }
  }
}
