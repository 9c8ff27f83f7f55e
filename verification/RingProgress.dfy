/** What a call on the ring does next, and when: it gives up exactly for want of room or entries, its exchange
    succeeds exactly on an unmoved head, and some call can always go on. */
module RingProgress {
  import opened Bits
  import opened RingBuffer
  import opened RingProtocol
  import opened RingFifo

  ghost predicate Can(s: State, t: Tid, a: Action)
    requires |s.slots| == s.Size()
  {
    exists s' :: Step(s, t, a, s')
  }

  // ---------- the outcome of one attempt ----------

  /** The call gives up: a fixed burst that does not fit into what the thread saw, or nothing there at all. */
  predicate GivesUp(n: nat, seen: int, behavior: Behavior) {
    match behavior
    case Fixed => seen < n
    case Variable => seen <= 0
  }

  lemma BurstGivesUp(n: nat, room: nat, behavior: Behavior)
    requires n >= 1
    ensures Burst(n, room, behavior) == 0 <==> GivesUp(n, room, behavior)
  {
  }

  /** An enqueue that has read both counters, fewer than 2^32 items after it read the first: it gives up exactly
      when the entries it found free are too few; otherwise its exchange succeeds exactly if the head has not
      moved, and exactly if it has the call starts again. */
  lemma EnqueueOutcome(s: State, t: Tid)
    requires Inv(s) && s.At(t).PTail?
    requires s.prodHead < s.At(t).head + TWO32 && s.At(t).seen + s.mask < s.At(t).head + TWO32
    ensures var l := s.At(t);
      var full := GivesUp(|l.objs|, s.mask - (l.head - l.seen), l.behavior);
      && (Can(s, t, EnqueueFails) <==> full)
      && (Can(s, t, ProdCas) <==> !full && s.prodHead == l.head)
      && (Can(s, t, ProdCasFails) <==> !full && s.prodHead != l.head)
  {
    var l := s.At(t);
    assert LocalOk(s, Look(s.threads, t));
    FreeSeenExact(s.mask, l.seen, l.head);
    if Low32(s.prodHead) == Low32(l.head) {
      CasRecognisesHead(l.head, s.prodHead);
    }
    BurstGivesUp(|l.objs|, FreeSeen(s.mask, l.seen, l.head), l.behavior);
    EnqueueSteps(s, t);
  }

  /** Each outcome has one state to go to. */
  lemma EnqueueSteps(s: State, t: Tid)
    requires |s.slots| == s.Size() && s.At(t).PTail?
    ensures var l := s.At(t);
      && (Can(s, t, EnqueueFails) <==> EnqueueBurst(s, l) == 0)
      && (Can(s, t, ProdCas) <==> ProdCasSucceeds(s, l))
      && (Can(s, t, ProdCasFails) <==> EnqueueBurst(s, l) > 0 && !s.sp && Low32(s.prodHead) != Low32(l.head))
  {
    var l := s.At(t);
    hide EnqueueBurst, ProdCasSucceeds, AfterProdCas;
    if EnqueueBurst(s, l) == 0 {
      assert Step(s, t, EnqueueFails, s.Set(t, Idle));
    }
    if ProdCasSucceeds(s, l) {
      assert Step(s, t, ProdCas, AfterProdCas(s, t, l));
    }
    if EnqueueBurst(s, l) > 0 && !s.sp && Low32(s.prodHead) != Low32(l.head) {
      assert Step(s, t, ProdCasFails, s.Set(t, PStart(l.objs, l.behavior)));
    }
  }

  lemma DequeueOutcome(s: State, t: Tid)
    requires Inv(s) && s.At(t).CTail?
    requires s.consHead < s.At(t).head + TWO32 && s.At(t).seen < s.At(t).head + TWO32
    ensures var l := s.At(t);
      var empty := GivesUp(l.n, l.seen - l.head, l.behavior);
      && (Can(s, t, DequeueFails) <==> empty)
      && (Can(s, t, ConsCas) <==> !empty && s.consHead == l.head)
      && (Can(s, t, ConsCasFails) <==> !empty && s.consHead != l.head)
  {
    var l := s.At(t);
    assert LocalOk(s, Look(s.threads, t));
    EntriesSeenExact(l.seen, l.head);
    if Low32(s.consHead) == Low32(l.head) {
      CasRecognisesHead(l.head, s.consHead);
    }
    BurstGivesUp(l.n, EntriesSeen(l.seen, l.head), l.behavior);
    DequeueSteps(s, t);
  }

  lemma DequeueSteps(s: State, t: Tid)
    requires |s.slots| == s.Size() && s.At(t).CTail?
    ensures var l := s.At(t);
      && (Can(s, t, DequeueFails) <==> DequeueBurst(l) == 0)
      && (Can(s, t, ConsCas) <==> ConsCasSucceeds(s, l))
      && (Can(s, t, ConsCasFails) <==> DequeueBurst(l) > 0 && !s.sc && Low32(s.consHead) != Low32(l.head))
  {
    var l := s.At(t);
    hide DequeueBurst, ConsCasSucceeds, AfterConsCas;
    if DequeueBurst(l) == 0 {
      assert Step(s, t, DequeueFails, s.Set(t, Idle));
    }
    if ConsCasSucceeds(s, l) {
      assert Step(s, t, ConsCas, AfterConsCas(s, t, l));
    }
    if DequeueBurst(l) > 0 && !s.sc && Low32(s.consHead) != Low32(l.head) {
      assert Step(s, t, ConsCasFails, s.Set(t, CStart(l.n, l.behavior)));
    }
  }

  /** What a successful exchange reserves: the whole burst, or for a variable one as much as was seen free. */
  lemma ReservesBurst(s: State, t: Tid, s': State)
    requires Inv(s) && Step(s, t, ProdCas, s')
    ensures var l, free := s.At(t), s.mask - (s.At(t).head - s.At(t).seen);
      var n := if |l.objs| <= free then |l.objs| else free;
      && 1 <= n <= |l.objs| && (n < |l.objs| ==> l.behavior.Variable?)
      && s'.At(t) == PCopy(s.prodHead, l.objs[..n], 0) && s'.prodHead == s.prodHead + n
      && s'.produced == s.produced + l.objs[..n]
  {
    var l := s.At(t);
    assert LocalOk(s, Look(s.threads, t));
    SizeSmall(s);
    ProdCasExact(s, t);
    FreeSeenExact(s.mask, l.seen, l.head);
    hide Inv, FreeSeen;
  }

  lemma ClaimsBurst(s: State, t: Tid, s': State)
    requires Inv(s) && Step(s, t, ConsCas, s')
    ensures var l, there := s.At(t), s.At(t).seen - s.At(t).head;
      var n := if l.n <= there then l.n else there;
      && 1 <= n <= l.n && (n < l.n ==> l.behavior.Variable?)
      && s'.At(t) == CCopy(s.consHead, n, []) && s'.consHead == s.consHead + n
  {
    var l := s.At(t);
    assert LocalOk(s, Look(s.threads, t));
    SizeSmall(s);
    ConsCasExact(s, t);
    EntriesSeenExact(l.seen, l.head);
    hide Inv, EntriesSeen;
  }

  // ---------- what a failed call means ----------

  /** The entries no producer has reserved, and the published ones no consumer has claimed. */
  function Free(s: State): int { s.mask - (s.prodHead - s.consTail) }
  function Entries(s: State): int { s.prodTail - s.consHead }

  /** A thread that has read both counters read the second at some step, and has done nothing since. */
  lemma {:induction false} SawTail(run: seq<State>, moves: seq<Move>, k: nat, t: Tid) returns (j: nat)
    requires Run(run, moves) && k < |run| && (run[k].At(t).PTail? || run[k].At(t).CTail?)
    ensures j < k && moves[j].t == t && run[k].At(t) == run[j + 1].At(t)
    ensures run[k].At(t).PTail? ==> run[j].At(t).PHead? && run[k].At(t).seen == run[j].consTail && run[k].At(t).room == Free(run[j])
    ensures run[k].At(t).CTail? ==> run[j].At(t).CHead? && run[k].At(t).seen == run[j].prodTail && run[k].At(t).room == Entries(run[j])
  {
    var l := run[k].At(t);
    if k == 0 {
      assert false;
    } else {
      assert Moves(run[k - 1], moves[k - 1], run[k]);
      if run[k - 1].At(t) == l {
        j := SawTail(run, moves, k - 1, t);
      } else {
        j := k - 1;
        ReadsTail(run[j], moves[j].t, moves[j].a, run[k], t);
      }
    }
  }

  /** Only its own read of the other side's tail takes a thread there. */
  lemma ReadsTail(s: State, u: Tid, a: Action, s': State, t: Tid)
    requires |s.slots| == s.Size() && Step(s, u, a, s') && (s'.At(t).PTail? || s'.At(t).CTail?) && s'.At(t) != s.At(t)
    ensures u == t
    ensures s'.At(t).PTail? ==> s.At(t).PHead? && s'.At(t).seen == s.consTail && s'.At(t).room == Free(s)
    ensures s'.At(t).CTail? ==> s.At(t).CHead? && s'.At(t).seen == s.prodTail && s'.At(t).room == Entries(s)
  {
    hide EnqueueBurst, DequeueBurst, ProdCasSucceeds, ConsCasSucceeds;
  }

  /** In every run, an enqueue that gives up read cons.tail at a moment when fewer entries were free than it
      asked for, and none at all if it would have taken fewer. */
  lemma EnqueueFailureJustified(run: seq<State>, moves: seq<Move>, k: nat) returns (j: nat)
    requires Run(run, moves) && k < |moves| && moves[k].a.EnqueueFails?
    requires var l := run[k].At(moves[k].t); l.PTail? ==> l.seen + run[k].mask < l.head + TWO32
    ensures j < k && moves[j].t == moves[k].t && run[j].At(moves[k].t).PHead?
    ensures run[k].At(moves[k].t).PTail? && GivesUp(|run[k].At(moves[k].t).objs|, Free(run[j]), run[k].At(moves[k].t).behavior)
    ensures run[k + 1] == run[k].Set(moves[k].t, Idle)
  {
    var s, t := run[k], moves[k].t;
    RunKeeps(run, moves, k);
    assert Moves(s, moves[k], run[k + 1]);
    j := SawTail(run, moves, k, t);
    FailedFull(s, t, run[k + 1]);
  }

  lemma FailedFull(s: State, t: Tid, s': State)
    requires Inv(s) && Step(s, t, EnqueueFails, s') && s.At(t).seen + s.mask < s.At(t).head + TWO32
    ensures GivesUp(|s.At(t).objs|, s.At(t).room, s.At(t).behavior) && s' == s.Set(t, Idle)
  {
    var l := s.At(t);
    assert LocalOk(s, Look(s.threads, t));
    FreeSeenExact(s.mask, l.seen, l.head);
    BurstGivesUp(|l.objs|, FreeSeen(s.mask, l.seen, l.head), l.behavior);
    hide Inv, FreeSeen;
  }

  /** Likewise a dequeue, for the entries that were queued when it read prod.tail. */
  lemma DequeueFailureJustified(run: seq<State>, moves: seq<Move>, k: nat) returns (j: nat)
    requires Run(run, moves) && k < |moves| && moves[k].a.DequeueFails?
    requires var l := run[k].At(moves[k].t); l.CTail? ==> l.seen < l.head + TWO32
    ensures j < k && moves[j].t == moves[k].t && run[j].At(moves[k].t).CHead?
    ensures run[k].At(moves[k].t).CTail? && GivesUp(run[k].At(moves[k].t).n, Entries(run[j]), run[k].At(moves[k].t).behavior)
    ensures run[k + 1] == run[k].Set(moves[k].t, Idle)
  {
    var s, t := run[k], moves[k].t;
    RunKeeps(run, moves, k);
    assert Moves(s, moves[k], run[k + 1]);
    j := SawTail(run, moves, k, t);
    FailedEmpty(s, t, run[k + 1]);
  }

  lemma FailedEmpty(s: State, t: Tid, s': State)
    requires Inv(s) && Step(s, t, DequeueFails, s') && s.At(t).seen < s.At(t).head + TWO32
    ensures GivesUp(s.At(t).n, s.At(t).room, s.At(t).behavior) && s' == s.Set(t, Idle)
  {
    var l := s.At(t);
    assert LocalOk(s, Look(s.threads, t));
    EntriesSeenExact(l.seen, l.head);
    BurstGivesUp(l.n, EntriesSeen(l.seen, l.head), l.behavior);
    hide Inv, EntriesSeen;
  }

  /** With room enough and an unmoved head the exchange can be made, and the call can do nothing else. */
  lemma EnqueueProceeds(s: State, t: Tid)
    requires Inv(s) && s.At(t).PTail? && s.At(t).head == s.prodHead
    requires !GivesUp(|s.At(t).objs|, s.At(t).room, s.At(t).behavior)
    ensures Can(s, t, ProdCas) && !Can(s, t, EnqueueFails) && !Can(s, t, ProdCasFails)
  {
    assert LocalOk(s, Look(s.threads, t));
    SizeSmall(s);
    EnqueueOutcome(s, t);
  }

  lemma DequeueProceeds(s: State, t: Tid)
    requires Inv(s) && s.At(t).CTail? && s.At(t).head == s.consHead
    requires !GivesUp(s.At(t).n, s.At(t).room, s.At(t).behavior)
    ensures Can(s, t, ConsCas) && !Can(s, t, DequeueFails) && !Can(s, t, ConsCasFails)
  {
    assert LocalOk(s, Look(s.threads, t));
    SizeSmall(s);
    DequeueOutcome(s, t);
  }

  // ---------- somebody can go on ----------

  /** No more than 2^32 items went by since the thread read its head. */
  predicate InLap(s: State, l: Local) {
    && (l.PTail? ==> s.prodHead < l.head + TWO32 && l.seen + s.mask < l.head + TWO32)
    && (l.CTail? ==> s.consHead < l.head + TWO32 && l.seen < l.head + TWO32)
  }

  /** A call that is not waiting to publish can take its next step. */
  lemma NextOf(s: State, t: Tid) returns (a: Action)
    requires Inv(s) && !s.At(t).Idle? && InLap(s, s.At(t))
    requires s.At(t).PCopy? ==> s.At(t).k < |s.At(t).objs| || s.At(t).head == s.prodTail
    requires s.At(t).CCopy? ==> |s.At(t).got| < s.At(t).n || s.At(t).head == s.consTail
    ensures Can(s, t, a) && !a.BeginEnqueue? && !a.BeginDequeue?
  {
    var l := s.At(t);
    assert LocalOk(s, Look(s.threads, t));
    if l.PTail? {
      EnqueueOutcome(s, t);
      hide Inv, Step;
      a := if Can(s, t, EnqueueFails) then EnqueueFails else if Can(s, t, ProdCas) then ProdCas else ProdCasFails;
    } else if l.CTail? {
      DequeueOutcome(s, t);
      hide Inv, Step;
      a := if Can(s, t, DequeueFails) then DequeueFails else if Can(s, t, ConsCas) then ConsCas else ConsCasFails;
    } else {
      a := PlainNext(s, t);
    }
  }

  lemma PlainNext(s: State, t: Tid) returns (a: Action)
    requires |s.slots| == s.Size() && !s.At(t).Idle? && !s.At(t).PTail? && !s.At(t).CTail?
    requires s.At(t).PCopy? ==> s.At(t).k <= |s.At(t).objs| && (s.At(t).k < |s.At(t).objs| || s.At(t).head == s.prodTail)
    requires s.At(t).CCopy? ==> |s.At(t).got| <= s.At(t).n && (|s.At(t).got| < s.At(t).n || s.At(t).head == s.consTail)
    ensures Can(s, t, a) && !a.BeginEnqueue? && !a.BeginDequeue?
  {
    var l := s.At(t);
    ghost var s';
    match l {
      case PStart(objs, b) => a, s' := ReadProdHead, s.Set(t, PHead(objs, b, s.prodHead));
      case PHead(objs, b, head) => a, s' := ReadConsTail, s.Set(t, PTail(objs, b, head, s.consTail, Free(s)));
      case PCopy(_, objs, k) =>
        if k < |objs| {
          a, s' := WriteSlot, AfterWrite(s, t, l);
        } else {
          a, s' := PublishProd, AfterPublishProd(s, t, l);
        }
      case CStart(n, b) => a, s' := ReadConsHead, s.Set(t, CHead(n, b, s.consHead));
      case CHead(n, b, head) => a, s' := ReadProdTail, s.Set(t, CTail(n, b, head, s.prodTail, Entries(s)));
      case CCopy(_, n, got) =>
        if |got| < n {
          a, s' := ReadSlot, AfterRead(s, t, l);
        } else {
          a, s' := PublishCons, AfterPublishCons(s, t, l);
        }
    }
    assert Step(s, t, a, s');
  }

  /** In every run, while any call is going on some call can take a step: a call that waits to publish waits for
      one with an earlier reservation, and the earliest waits for nobody. */
  lemma SomeoneProceeds(run: seq<State>, moves: seq<Move>, k: nat, t: Tid) returns (u: Tid, a: Action)
    requires Run(run, moves) && k < |run| && !run[k].At(t).Idle?
    requires forall v {:trigger Look(run[k].threads, v)} :: InLap(run[k], Look(run[k].threads, v))
    ensures |run[k].slots| == run[k].Size() && Can(run[k], u, a) && !a.BeginEnqueue? && !a.BeginDequeue?
  {
    var s := run[k];
    RunKeeps(run, moves, k);
    assert LocalOk(s, Look(s.threads, t)) && InLap(s, Look(s.threads, t));
    var l := s.At(t);
    u := t;
    if l.PCopy? && l.k == |l.objs| && l.head != s.prodTail {
      u := EarliestProducer(s, t);
    } else if l.CCopy? && |l.got| == l.n && l.head != s.consTail {
      u := EarliestConsumer(s, t);
    }
    assert InLap(s, Look(s.threads, u));
    a := NextOf(s, u);
  }

  lemma EarliestProducer(s: State, t: Tid) returns (u: Tid)
    requires Inv(s) && s.At(t).PCopy? && s.At(t).head != s.prodTail
    ensures s.At(u).PCopy? && s.At(u).head == s.prodTail
  {
    assert LocalOk(s, Look(s.threads, t));
    assert ByProducer(s.threads, s.prodTail);
    u :| Writes(Look(s.threads, u), s.prodTail);
    assert LocalOk(s, Look(s.threads, u));
  }

  lemma EarliestConsumer(s: State, t: Tid) returns (u: Tid)
    requires Inv(s) && s.At(t).CCopy? && s.At(t).head != s.consTail
    ensures s.At(u).CCopy? && s.At(u).head == s.consTail
  {
    assert LocalOk(s, Look(s.threads, t));
    assert ByConsumer(s.threads, s.consTail);
    u :| Reads(Look(s.threads, u), s.consTail);
    assert LocalOk(s, Look(s.threads, u));
  }
}
