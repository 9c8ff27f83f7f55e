/** The scheduler's guarantees over every run of any number of threads. */
module SchedulerRuns {
  import opened QueueSpec
  import opened Tables
  import opened Wrappers
  import opened Scheduler
  import opened SchedulerTokens
  import opened SchedulerLifecycle
  import opened SchedulerDelivery
  import opened SchedulerOrder

  ghost predicate DeliveryInv(s: State) {
    && (forall i :: FlowAt(s, i))
    && (forall q :: UnusedAt(s, q))
    && (forall i, p :: PositionAt(s, i, p))
    && (forall t :: CacheAt(s, t))
    && (forall i :: AtomicAt(s, i))
  }

  ghost predicate Inv(s: State) {
    TokenInv(s) && CountInv(s) && InstInv(s) && DeliveryInv(s)
  }

  lemma InitInv(s: State)
    requires Init(s)
    ensures Inv(s)
  {
    InitTokens(s);
    forall sl ensures CountAt(s, sl) {
      assert Homed(s.live, sl) == {};
    }
    forall t ensures CacheAt(s, t) {
      assert Get(s.threads, t, NoLocal) == NoLocal;
    }
  }

  lemma FlowStep(s: State, t: Tid, step: Step, s': State, i: Inst)
    requires TokenInv(s) && InstInv(s) && FlowAt(s, i) && Next(s, t, step, s')
    ensures FlowAt(s', i)
  {
    match step
    case Manage(m) =>
      assert m.EnqueueEvents? ==> EntryAt(s, m.q);
      ManageFlow(s, t, m, s', i);
    case Schedule(w) => ScheduleFlowStep(s, t, w, s', i);
    case Context(x) => ContextFlow(s, t, x, s', i);
  }

  lemma ScheduleFlowStep(s: State, t: Tid, w: ScheduleStep, s': State, i: Inst)
    requires TokenInv(s) && InstInv(s) && FlowAt(s, i) && ScheduleNext(s, t, w, s')
    ensures FlowAt(s', i)
  {
    assert w.Serve? ==> EntryAt(s, Loc(s, t).phase.cmd.q);
    if w.Finalize? {
      DeadIsEmpty(s, t);
    }
    ScheduleFlow(s, t, w, s', i);
  }

  lemma ContextFlow(s: State, t: Tid, x: ContextStep, s': State, i: Inst)
    requires FlowAt(s, i) && ContextNext(s, t, x, s')
    ensures FlowAt(s', i)
  {
    FlowUnchanged(s, s', i);
  }

  lemma UnusedStep(s: State, t: Tid, step: Step, s': State, q: Qid)
    requires TokenInv(s) && InstInv(s) && UnusedAt(s, q) && Next(s, t, step, s')
    ensures UnusedAt(s', q)
  {
    assert EntryAt(s, q);
    match step
    case Manage(m) =>
      assert m.EnqueueEvents? ==> EntryAt(s, m.q);
      ManageUnused(s, t, m, s', q);
    case Schedule(w) =>
      if w.Finalize? {
        DeadIsDestroyed(s, t);
      }
      ScheduleUnused(s, t, w, s', q);
    case Context(x) => ContextUnused(s, t, x, s', q);
  }

  lemma DeadIsEmpty(s: State, t: Tid)
    requires TokenInv(s) && Loc(s, t).phase.Dead? && Loc(s, t).phase.cmd.DequeueCmd?
    ensures Ent(s, Loc(s, t).phase.cmd.q).queue.events == []
  {
    DeadIsDestroyed(s, t);
    At(s, Loc(s, t).phase.cmd);
  }

  lemma PositionStep(s: State, t: Tid, step: Step, s': State, i: Inst, p: nat, u: Tid)
    requires TokenInv(s) && InstInv(s) && PositionAt(s, i, p) && (forall v :: CacheAt(s, v)) && Next(s, t, step, s')
    ensures PositionAt(s', i, p) && CacheAt(s', u)
  {
    assert CacheAt(s, u);
    if step.Manage? && step.m.Publish? {
      PublishPosition(s, t, step.m.q, step.m.sync, step.m.prio, i, p, u);
    } else if step.Schedule? && step.w.Serve? {
      HeldIsLive(s, t, Loc(s, t).phase.cmd);
      assert EntryAt(s, Loc(s, t).phase.cmd.q);
      ServePosition(s, t, step.w.maxDeq, i, p, u);
    } else if step.Context? && step.x.Deliver? {
      DeliverPosition(s, t, step.x.k, i, p);
      DeliverCache(s, t, step.x.k, u);
    } else {
      QuietStep(s, t, step, s');
      PositionUnchanged(s, s', i, p);
      CacheUnchanged(s, s', u);
    }
  }

  /** Steps that neither fill nor empty a cache. */
  lemma QuietStep(s: State, t: Tid, step: Step, s': State)
    requires Next(s, t, step, s')
    requires !(step.Manage? && step.m.Publish?) && !(step.Schedule? && step.w.Serve?) && !(step.Context? && step.x.Deliver?)
    ensures SameCaches(s, s') && s'.insts >= s.insts
  {
    match step
    case Manage(m) => QuietManage(s, t, m, s');
    case Schedule(w) => QuietSchedule(s, t, w, s');
    case Context(x) => QuietContext(s, t, x, s');
  }

  lemma QuietContext(s: State, t: Tid, x: ContextStep, s': State)
    requires ContextNext(s, t, x, s') && !x.Deliver?
    ensures SameCaches(s, s') && s'.insts >= s.insts
  {
  }

  lemma QuietManage(s: State, t: Tid, m: ManageStep, s': State)
    requires ManageNext(s, t, m, s') && !m.Publish?
    ensures SameCaches(s, s') && s'.insts >= s.insts
  {
  }

  lemma QuietSchedule(s: State, t: Tid, w: ScheduleStep, s': State)
    requires ScheduleNext(s, t, w, s') && !w.Serve?
    ensures SameCaches(s, s') && s'.insts >= s.insts
  {
  }

  lemma AtomicStep(s: State, t: Tid, step: Step, s': State, i: Inst)
    requires TokenInv(s) && InstInv(s) && DeliveryInv(s) && Next(s, t, step, s')
    ensures AtomicAt(s', i)
  {
    match step
    case Manage(m) => ManageAtomicStep(s, t, m, s', i);
    case Schedule(w) => ScheduleAtomicStep(s, t, w, s', i);
    case Context(x) => ContextAtomicStep(s, t, x, s', i);
  }

  lemma ManageAtomicStep(s: State, t: Tid, m: ManageStep, s': State, i: Inst)
    requires TokenInv(s) && DeliveryInv(s) && ManageNext(s, t, m, s')
    ensures AtomicAt(s', i)
  {
    assert AtomicAt(s, i);
    if m.DestroyQueue? {
      At(s, DequeueCmd(m.q));
    }
    ManageAtomic(s, t, m, s', i);
  }

  lemma ScheduleAtomicStep(s: State, t: Tid, w: ScheduleStep, s': State, i: Inst)
    requires TokenInv(s) && InstInv(s) && DeliveryInv(s) && ScheduleNext(s, t, w, s')
    ensures AtomicAt(s', i)
  {
    assert AtomicAt(s, i);
    InSchedule(s, t, w, s');
    SchedulesNothingNew(s, t, w, s');
    if i < s.insts && Home(s, i).sync.Atomic? {
      assert forall p :: PositionAt(s, i, p);
      ScheduleAtomic(s, t, w, s', i);
    }
  }

  lemma ContextAtomicStep(s: State, t: Tid, x: ContextStep, s': State, i: Inst)
    requires TokenInv(s) && DeliveryInv(s) && ContextNext(s, t, x, s')
    ensures AtomicAt(s', i)
  {
    assert AtomicAt(s, i);
    if i < s.insts && Home(s, i).sync.Atomic? {
      At(s, CommandOf(s, i));
      ContextAtomic(s, t, x, s', i);
    }
  }

  lemma SchedulesNothingNew(s: State, t: Tid, w: ScheduleStep, s': State)
    requires ScheduleNext(s, t, w, s')
    ensures s'.insts == s.insts && s'.home == s.home
  {
  }

  /** Inside schedule() a thread holds the command it works on, no atomic context, and cached
      events only once the command's queue was served. */
  lemma InSchedule(s: State, t: Tid, w: ScheduleStep, s': State)
    requires TokenInv(s) && InstInv(s) && ScheduleNext(s, t, w, s')
    ensures Loc(s, t).held.None? && (!w.Keep? ==> Loc(s, t).cache.evs == [])
    ensures TokenAt(s, Loc(s, t).phase.cmd) && Place(s, Loc(s, t).phase.cmd) == With(t)
    ensures Loc(s, t).phase.cmd.DequeueCmd? ==> EntryAt(s, Loc(s, t).phase.cmd.q)
  {
    At(s, Loc(s, t).phase.cmd);
    HeldIsLive(s, t, Loc(s, t).phase.cmd);
    if Loc(s, t).phase.cmd.DequeueCmd? {
      assert EntryAt(s, Loc(s, t).phase.cmd.q);
    }
  }

  /** Every step of every thread keeps the whole invariant. */
  lemma InvStep(s: State, t: Tid, step: Step, s': State)
    requires Inv(s) && Next(s, t, step, s')
    ensures Inv(s')
  {
    TokenInvStep(s, t, step, s');
    CountInvStep(s, t, step, s');
    InstInvStep(s, t, step, s');
    DeliveryStep(s, t, step, s');
  }

  lemma DeliveryStep(s: State, t: Tid, step: Step, s': State)
    requires TokenInv(s) && InstInv(s) && DeliveryInv(s) && Next(s, t, step, s')
    ensures DeliveryInv(s')
  {
    forall i ensures FlowAt(s', i) {
      assert FlowAt(s, i);
      FlowStep(s, t, step, s', i);
    }
    forall q ensures UnusedAt(s', q) {
      UnusedStep(s, t, step, s', q);
    }
    forall i, p ensures PositionAt(s', i, p) {
      assert PositionAt(s, i, p);
      PositionStep(s, t, step, s', i, p, 0);
    }
    forall u ensures CacheAt(s', u) {
      assert PositionAt(s, 0, 0);
      PositionStep(s, t, step, s', 0, 0, u);
    }
    forall i ensures AtomicAt(s', i) {
      AtomicStep(s, t, step, s', i);
    }
  }

  // ---------- runs ----------

  datatype Move = Move(t: Tid, step: Step)

  ghost predicate Run(run: seq<State>, moves: seq<Move>) {
    && |run| == |moves| + 1 && Init(run[0])
    && forall k :: 0 <= k < |moves| ==> Next(run[k], moves[k].t, moves[k].step, run[k + 1])
  }

  /** The invariant holds in every state of every run. */
  lemma {:induction false} RunKeeps(run: seq<State>, moves: seq<Move>, k: nat)
    requires Run(run, moves) && k < |run|
    ensures Inv(run[k])
  {
    if k == 0 {
      InitInv(run[0]);
    } else {
      RunKeeps(run, moves, k - 1);
      InvStep(run[k - 1], moves[k - 1].t, moves[k - 1].step, run[k]);
    }
  }

  /** A scheduled queue is where the scheduler finds it: its command is once in its home priority
      queue and in no other, or one thread has it, and never both. */
  ghost predicate TokenInPriQueue(s: State, c: Cmd) {
    && c in s.live
    && multiset(Pri(s, s.live[c]))[c] == 1
    && s.live[c] in s.mask
    && forall t {:trigger Loc(s, t)} :: Tokens(Loc(s, t), c) == 0
  }

  ghost predicate TokenWithThread(s: State, c: Cmd, t: Tid) {
    && Tokens(Loc(s, t), c) == 1
    && (forall u {:trigger Loc(s, u)} :: u != t ==> Tokens(Loc(s, u), c) == 0)
    && forall sl {:trigger Pri(s, sl)} :: c !in Pri(s, sl)
  }

  /** No wakeup is lost: in every state of every run, a queue that holds events is SCHED and its
      command is once in its unmasked home priority queue, or with exactly one thread. */
  lemma NoLostWakeup(run: seq<State>, moves: seq<Move>, k: nat, q: Qid)
    requires Run(run, moves) && k < |run| && Ent(run[k], q).queue.events != []
    ensures Ent(run[k], q).queue.status.Sched?
    ensures TokenInPriQueue(run[k], DequeueCmd(q)) || exists t :: TokenWithThread(run[k], DequeueCmd(q), t)
  {
    var s, c := run[k], DequeueCmd(q);
    RunKeeps(run, moves, k);
    At(s, c);
    if Place(s, c) == InPriQueue {
      QueuedToken(s, c);
    } else {
      ThreadToken(s, c, Place(s, c).t);
    }
  }

  lemma QueuedToken(s: State, c: Cmd)
    requires TokenAt(s, c) && CountInv(s) && Place(s, c) == InPriQueue
    ensures TokenInPriQueue(s, c)
  {
    var home := s.live[c];
    assert multiset(Get(s.pri, home, []))[c] == 1;
    assert CountAt(s, home);
    assert c in Homed(s.live, home);
    forall t ensures Tokens(Loc(s, t), c) == 0 {
      assert Tokens(Get(s.threads, t, NoLocal), c) == 0;
    }
  }

  lemma ThreadToken(s: State, c: Cmd, t: Tid)
    requires TokenAt(s, c) && Place(s, c) == With(t)
    ensures TokenWithThread(s, c, t)
  {
    forall u ensures Tokens(Loc(s, u), c) == if u == t then 1 else 0 {
      assert Tokens(Get(s.threads, u, NoLocal), c) == if u == t then 1 else 0;
    }
    forall sl ensures c !in Pri(s, sl) {
      assert multiset(Get(s.pri, sl, []))[c] == 0;
    }
  }

  /** A queue out of scheduling has no command anywhere: not in a priority queue, not with a thread. */
  lemma IdleQueueHasNoToken(run: seq<State>, moves: seq<Move>, k: nat, q: Qid, sl: Slot, t: Tid)
    requires Run(run, moves) && k < |run|
    requires Ent(run[k], q).queue.status.NotSched? || Ent(run[k], q).queue.status.Free?
    ensures DequeueCmd(q) !in Pri(run[k], sl) && Tokens(Loc(run[k], t), DequeueCmd(q)) == 0
    ensures Ent(run[k], q).queue.events == []
  {
    var s, c := run[k], DequeueCmd(q);
    RunKeeps(run, moves, k);
    At(s, c);
    assert multiset(Get(s.pri, sl, []))[c] == 0;
    assert Tokens(Get(s.threads, t, NoLocal), c) == 0;
  }

  /** A slot's mask bit is set exactly while some allocated command lives there, pri_count is their
      number, and so no command is ever in a priority queue that schedule() skips. */
  lemma MaskIsExact(run: seq<State>, moves: seq<Move>, k: nat, sl: Slot)
    requires Run(run, moves) && k < |run|
    ensures Count(run[k], sl) == |Homed(run[k].live, sl)|
    ensures sl in run[k].mask <==> Homed(run[k].live, sl) != {}
    ensures sl !in run[k].mask ==> Pri(run[k], sl) == []
  {
    var s := run[k];
    RunKeeps(run, moves, k);
    assert CountAt(s, sl);
    if Pri(s, sl) != [] {
      QueuedIsUnmasked(s, sl, Pri(s, sl)[0]);
    }
  }

  lemma QueuedIsUnmasked(s: State, sl: Slot, c: Cmd)
    requires TokenInv(s) && CountInv(s) && c in Pri(s, sl)
    ensures c in s.live && s.live[c] == sl && sl in s.mask
  {
    At(s, c);
    assert multiset(Get(s.pri, sl, []))[c] >= 1;
    assert c in Homed(s.live, sl);
    assert CountAt(s, sl);
  }

  /** An atomic queue is never served by two threads. */
  lemma AtomicExclusive(run: seq<State>, moves: seq<Move>, k: nat, q: Qid, t: Tid, u: Tid)
    requires Run(run, moves) && k < |run|
    requires InContext(Loc(run[k], t), DequeueCmd(q)) && InContext(Loc(run[k], u), DequeueCmd(q))
    ensures t == u
  {
    var s, c := run[k], DequeueCmd(q);
    RunKeeps(run, moves, k);
    HeldIsLive(s, t, c);
    HeldIsLive(s, u, c);
  }

  /** The events of instance i handed to applications so far, in the order of the hand-overs. */
  function Delivered(s: State, i: Inst): seq<Event>
    requires forall k :: 0 <= k < |Log(s, i)| ==> Log(s, i)[k] < |Drawn(s, i)|
  {
    seq(|Log(s, i)|, k requires 0 <= k < |Log(s, i)| => Drawn(s, i)[Log(s, i)[k]])
  }

  lemma LoggedWasDrawn(s: State, i: Inst)
    requires DeliveryInv(s)
    ensures forall k :: 0 <= k < |Log(s, i)| ==> Log(s, i)[k] < |Drawn(s, i)|
  {
    forall k | 0 <= k < |Log(s, i)| ensures Log(s, i)[k] < |Drawn(s, i)| {
      assert PositionAt(s, i, Log(s, i)[k]);
    }
  }

  /** Atomic queues deliver in order: what the applications got is a prefix of what was enqueued,
      over the whole life of the queue and whichever threads served it. */
  lemma AtomicInOrder(run: seq<State>, moves: seq<Move>, k: nat, i: Inst)
    requires Run(run, moves) && k < |run| && i < run[k].insts && Home(run[k], i).sync.Atomic?
    ensures forall j :: 0 <= j < |Log(run[k], i)| ==> Log(run[k], i)[j] < |Drawn(run[k], i)|
    ensures Delivered(run[k], i) <= Entered(run[k], i)
  {
    var s := run[k];
    RunKeeps(run, moves, k);
    LoggedWasDrawn(s, i);
    assert AtomicAt(s, i) && FlowAt(s, i);
    var n := |Log(s, i)|;
    assert n > 0 ==> Log(s, i)[n - 1] == n - 1;
    assert Delivered(s, i) == Drawn(s, i)[..n];
  }

  /** Where an enqueued event is: still queued, with the one thread that dequeued it, or handed
      over once; exactly one of the three. */
  ghost predicate OnePlace(s: State, i: Inst, p: nat)
    requires p < |Entered(s, i)|
  {
    if p >= |Drawn(s, i)| then
      && p - |Drawn(s, i)| < |Queued(s, i)| && Queued(s, i)[p - |Drawn(s, i)|] == Entered(s, i)[p]
      && NobodyCaches(s.threads, i, p) && p !in Log(s, i)
    else
      && Drawn(s, i)[p] == Entered(s, i)[p]
      && if p in Log(s, i)
         then multiset(Log(s, i))[p] == 1 && NobodyCaches(s.threads, i, p)
         else exists t :: OnlyCacher(s.threads, t, i, p) && CachedEvent(s, t, i, p) == Entered(s, i)[p]
  }

  function CachedEvent(s: State, t: Tid, i: Inst, p: nat): Event {
    var ca := Get(s.threads, t, NoLocal).cache;
    if Caches(Get(s.threads, t, NoLocal), i, p) then ca.evs[p - ca.from] else 0
  }

  /** Every event enqueued to a queue, of any kind, is delivered at most once, and until then it
      is in exactly one place; nothing is delivered that was not enqueued. */
  lemma ExactlyOnce(run: seq<State>, moves: seq<Move>, k: nat, i: Inst, p: nat)
    requires Run(run, moves) && k < |run| && i < run[k].insts
    ensures p < |Entered(run[k], i)| ==> OnePlace(run[k], i, p)
    ensures p >= |Entered(run[k], i)| ==> p !in Log(run[k], i) && NobodyCaches(run[k].threads, i, p)
  {
    var s := run[k];
    RunKeeps(run, moves, k);
    assert FlowAt(s, i) && PositionAt(s, i, p);
    if p < |Drawn(s, i)| && p !in Log(s, i) {
      var t :| OnlyCacher(s.threads, t, i, p);
      CachedIsDrawn(s, t, i, p);
    }
  }

  lemma CachedIsDrawn(s: State, t: Tid, i: Inst, p: nat)
    requires DeliveryInv(s) && Caches(Get(s.threads, t, NoLocal), i, p)
    ensures p < |Drawn(s, i)| && CachedEvent(s, t, i, p) == Drawn(s, i)[p]
  {
    var ca := Get(s.threads, t, NoLocal).cache;
    assert CacheAt(s, t);
    assert Drawn(s, i)[ca.from..ca.from + |ca.evs|][p - ca.from] == Drawn(s, i)[p];
  }

  /** The command event of every queue ever created is freed once, when the queue is gone and all
      its events were dequeued, and it is allocated until then, unless the creation is still going on
      or failed: such a queue was never used. */
  lemma FreedOnce(run: seq<State>, moves: seq<Move>, k: nat, i: Inst)
    requires Run(run, moves) && k < |run| && i < run[k].insts
    ensures Freed(run[k], i) <= 1
    ensures Freed(run[k], i) == 0 ==>
      && LiveInst(run[k], i)
      && (DequeueCmd(Home(run[k], i).q) in run[k].live ||
          (Ent(run[k], Home(run[k], i).q).queue == Queue(NotSched, []) && Entered(run[k], i) == []))
    ensures Freed(run[k], i) == 1 ==> !LiveInst(run[k], i) && Drawn(run[k], i) == Entered(run[k], i)
  {
    var s := run[k];
    RunKeeps(run, moves, k);
    assert FreedAt(s, i) && FlowAt(s, i) && UnusedAt(s, Home(s, i).q);
    At(s, DequeueCmd(Home(s, i).q));
  }
}
