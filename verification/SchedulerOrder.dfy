/** An atomic queue is served by one thread at a time, and its events reach applications in the
    order they were enqueued. */
module SchedulerOrder {
  import opened QueueSpec
  import opened Tables
  import opened Wrappers
  import opened Scheduler
  import opened SchedulerTokens
  import opened SchedulerLifecycle
  import opened SchedulerDelivery

  /** The thread is working in the context of the atomic queue with command c. */
  predicate InContext(l: Local, c: Cmd) {
    (l.phase.Served? && l.phase.cmd == c) || (l.held.Some? && l.held.value.1 == c)
  }

  /** A thread that caches events of atomic instance i is in its context, and the first event
      it caches is the next one due. */
  predicate ThreadInOrder(l: Local, i: Inst, c: Cmd, live: bool, next: nat) {
    l.cache.inst == i && l.cache.evs != [] ==> live && InContext(l, c) && l.cache.from == next
  }

  function CommandOf(s: State, i: Inst): Cmd {
    DequeueCmd(Home(s, i).q)
  }

  ghost predicate AtomicAt(s: State, i: Inst) {
    i < s.insts && Home(s, i).sync.Atomic? ==>
      && Log(s, i) == Range(0, |Log(s, i)|)
      && forall u {:trigger Get(s.threads, u, NoLocal)} ::
           ThreadInOrder(Get(s.threads, u, NoLocal), i, CommandOf(s, i), LiveInst(s, i), |Log(s, i)|)
  }

  /** Of the threads only t changed. */
  ghost predicate ThreadOnly(s: State, s': State, t: Tid, l: Local) {
    forall u {:trigger Get(s'.threads, u, NoLocal)} :: Get(s'.threads, u, NoLocal) == if u == t then l else Get(s.threads, u, NoLocal)
  }

  /** No instance appeared and nothing was handed over. */
  predicate SameLog(s: State, s': State) {
    s'.log == s.log && s'.insts == s.insts && s'.home == s.home
  }

  predicate KeepsContext(s: State, l: Local, l': Local, i: Inst) {
    i < s.insts && Home(s, i).sync.Atomic? && LiveInst(s, i) && InContext(l, CommandOf(s, i)) ==> InContext(l', CommandOf(s, i))
  }

  /** A step of thread t after which t has no cached events, or the ones it had and its context. */
  lemma AtomicKept(s: State, s': State, t: Tid, l: Local, i: Inst)
    requires AtomicAt(s, i) && ThreadOnly(s, s', t, l) && SameLog(s, s') && (LiveInst(s, i) ==> LiveInst(s', i))
    requires l.cache.evs == [] || (l.cache == Get(s.threads, t, NoLocal).cache && KeepsContext(s, Get(s.threads, t, NoLocal), l, i))
    ensures AtomicAt(s', i)
  {
  }

  /** The entry of q is freed while no thread other than t, whose cache is empty, has its command. */
  lemma AtomicGone(s: State, s': State, t: Tid, l: Local, q: Qid, i: Inst)
    requires AtomicAt(s, i) && TokenAt(s, DequeueCmd(q)) && ThreadOnly(s, s', t, l) && SameLog(s, s')
    requires Place(s, DequeueCmd(q)) == Nowhere || Place(s, DequeueCmd(q)) == With(t)
    requires Home(s, i).q != q && LiveInst(s, i) ==> LiveInst(s', i)
    requires l.cache.evs == [] || (l == Get(s.threads, t, NoLocal) && Place(s, DequeueCmd(q)) == Nowhere)
    ensures AtomicAt(s', i)
  {
    if Home(s, i).q == q {
      forall u ensures u != t && Get(s.threads, u, NoLocal).cache.inst == i ==> !InContext(Get(s.threads, u, NoLocal), CommandOf(s, i)) {
        assert Tokens(Get(s.threads, u, NoLocal), DequeueCmd(q)) == if Place(s, DequeueCmd(q)) == With(u) then 1 else 0;
      }
    }
  }

  // ---------- one step, one instance ----------

  lemma PublishAtomic(s: State, t: Tid, q: Qid, sync: Sync, prio: nat, i: Inst)
    requires AtomicAt(s, i) && Ent(s, q).queue.status.Free? && forall u :: CacheAt(s, u)
    ensures AtomicAt(AfterPublish(s, t, q, sync, prio), i)
  {
    forall u ensures i == s.insts && Get(s.threads, u, NoLocal).cache.inst == i ==> Get(s.threads, u, NoLocal).cache.evs == [] {
      assert CacheAt(s, u);
    }
  }

  lemma ReturnedAtomic(s: State, q: Qid, i: Inst)
    requires AtomicAt(s, i)
    ensures AtomicAt(Returned(s, q), i)
  {
    LiveSame(s, Returned(s, q), i);
    AtomicKept(s, Returned(s, q), 0, Get(s.threads, 0, NoLocal), i);
  }

  lemma InitAtomic(s: State, q: Qid, i: Inst)
    requires AtomicAt(s, i)
    ensures AtomicAt(AfterInit(s, q), i)
  {
    ReturnedAtomic(s, q, i);
  }

  lemma EnqueueAtomic(s: State, t: Tid, q: Qid, evs: seq<Event>, i: Inst)
    requires AtomicAt(s, i)
    ensures AtomicAt(AfterEnqueue(s, t, q, evs), i)
  {
    var out := Enqueue(Ent(s, q).queue, evs);
    var s' := AfterEnqueue(s, t, q, evs);
    LiveSame(s, s', i);
    if out.wake {
      AtomicKept(s, s', t, Loc(s, t).(waking := Some(DequeueCmd(q))), i);
    } else {
      assert s'.threads == s.threads;
      AtomicKept(s, s', t, Loc(s, t), i);
    }
  }

  lemma LiveSame(s: State, s': State, i: Inst)
    requires SameQueues(s, s')
    ensures LiveInst(s', i) == LiveInst(s, i)
  {
  }

  lemma DestroyAtomic(s: State, q: Qid, i: Inst)
    requires AtomicAt(s, i) && TokenAt(s, DequeueCmd(q))
    ensures AtomicAt(AfterDestroy(s, q), i)
  {
    var s' := AfterDestroy(s, q);
    if Destroy(Ent(s, q).queue).freeCommand {
      AtomicGone(s, s', 0, Get(s.threads, 0, NoLocal), q, i);
    } else {
      AtomicKept(s, s', 0, Get(s.threads, 0, NoLocal), i);
    }
  }

  lemma FinalizeAtomic(s: State, t: Tid, i: Inst)
    requires Loc(s, t).phase.Dead? && Loc(s, t).phase.cmd.DequeueCmd? && Loc(s, t).cache.evs == []
    requires AtomicAt(s, i) && TokenAt(s, Loc(s, t).phase.cmd) && Place(s, Loc(s, t).phase.cmd) == With(t)
    ensures AtomicAt(AfterFinalize(s, t), i)
  {
    var s' := AfterFinalize(s, t);
    AtomicGone(s, s', t, Get(s'.threads, t, NoLocal), Loc(s, t).phase.cmd.q, i);
  }

  lemma KeepHeldAtomic(s: State, t: Tid, i: Inst)
    requires Loc(s, t).phase.Served? && Loc(s, t).phase.cmd.DequeueCmd? && AtomicAt(s, i)
    requires Ent(s, Loc(s, t).phase.cmd.q).sync.Atomic?
    requires Loc(s, t).held.None?
    ensures AtomicAt(AfterKeep(s, t), i)
  {
    var l := Loc(s, t);
    BackToApp(s, AfterKeep(s, t), t, l.(phase := App, held := Some((l.phase.slot, l.phase.cmd))), i);
  }

  lemma KeepParallelAtomic(s: State, t: Tid, i: Inst)
    requires Loc(s, t).phase.Served? && Loc(s, t).phase.cmd.DequeueCmd? && AtomicAt(s, i)
    requires EntryAt(s, Loc(s, t).phase.cmd.q) && !Ent(s, Loc(s, t).phase.cmd.q).sync.Atomic?
    requires Loc(s, t).held.None?
    ensures AtomicAt(AfterKeep(s, t), i)
  {
    var l := Loc(s, t);
    NotItsContext(s, l, i);
    BackToApp(s, AfterKeep(s, t), t, l.(phase := App), i);
  }

  lemma BackToApp(s: State, s': State, t: Tid, l: Local, i: Inst)
    requires AtomicAt(s, i) && s'.threads == Set(s.threads, t, l) && SameLog(s, s') && s'.queues == s.queues
    requires l.cache == Get(s.threads, t, NoLocal).cache && KeepsContext(s, Get(s.threads, t, NoLocal), l, i)
    ensures AtomicAt(s', i)
  {
    AtomicKept(s, s', t, l, i);
  }

  /** Serving a parallel queue is not the context of an atomic one. */
  lemma NotItsContext(s: State, l: Local, i: Inst)
    requires l.phase.Served? && l.phase.cmd.DequeueCmd? && l.held.None?
    requires EntryAt(s, l.phase.cmd.q) && !Ent(s, l.phase.cmd.q).sync.Atomic?
    ensures KeepsContext(s, l, l.(phase := App), i)
  {
  }

  lemma {:induction false} RangeJoin(from: nat, m: nat, k: nat)
    ensures Range(from, m) + Range(from + m, k) == Range(from, m + k)
  {
  }

  lemma DeliverAtomic(s: State, t: Tid, k: nat, i: Inst)
    requires i < s.insts && Home(s, i).sync.Atomic? && AtomicAt(s, i) && 1 <= k <= |Loc(s, t).cache.evs|
    requires LiveInst(s, i) ==> TokenAt(s, CommandOf(s, i))
    ensures AtomicAt(AfterDeliver(s, t, k), i)
  {
    var s' := AfterDeliver(s, t, k);
    LiveSame(s, s', i);
    if i == Get(s.threads, t, NoLocal).cache.inst {
      RangeJoin(0, |Log(s, i)|, k);
      SoleContext(s, t, i);
    }
  }

  /** Only one thread caches events of a live atomic instance. */
  lemma SoleContext(s: State, t: Tid, i: Inst)
    requires i < s.insts && Home(s, i).sync.Atomic? && AtomicAt(s, i) && (LiveInst(s, i) ==> TokenAt(s, CommandOf(s, i)))
    requires Get(s.threads, t, NoLocal).cache.inst == i && Get(s.threads, t, NoLocal).cache.evs != []
    ensures forall u {:trigger Get(s.threads, u, NoLocal)} ::
      Get(s.threads, u, NoLocal).cache.inst == i && Get(s.threads, u, NoLocal).cache.evs != [] ==> u == t
  {
    var c := CommandOf(s, i);
    assert Place(s, c) == With(t) by { assert Tokens(Get(s.threads, t, NoLocal), c) >= 1; }
    forall u ensures Get(s.threads, u, NoLocal).cache.inst == i && Get(s.threads, u, NoLocal).cache.evs != [] ==> u == t {
      assert InContext(Get(s.threads, u, NoLocal), c) ==> Tokens(Get(s.threads, u, NoLocal), c) >= 1;
    }
  }

  /** When thread t has taken the command of an atomic queue, every event dequeued from the
      queue before has been handed over. */
  lemma Drained(s: State, t: Tid, i: Inst)
    requires i < s.insts && Home(s, i).sync.Atomic? && LiveInst(s, i) && AtomicAt(s, i)
    requires TokenAt(s, CommandOf(s, i)) && Place(s, CommandOf(s, i)) == With(t) && Get(s.threads, t, NoLocal).cache.evs == []
    requires forall p :: PositionAt(s, i, p)
    ensures |Log(s, i)| == |Drawn(s, i)|
    ensures forall u {:trigger Get(s.threads, u, NoLocal)} :: Get(s.threads, u, NoLocal).cache.inst == i ==> Get(s.threads, u, NoLocal).cache.evs == []
  {
    var c := CommandOf(s, i);
    forall u ensures Get(s.threads, u, NoLocal).cache.inst == i ==> Get(s.threads, u, NoLocal).cache.evs == [] {
      assert InContext(Get(s.threads, u, NoLocal), c) ==> Tokens(Get(s.threads, u, NoLocal), c) >= 1;
    }
    forall p ensures PositionOk(s.threads, |Drawn(s, i)|, Log(s, i), i, p) {
      assert PositionAt(s, i, p);
    }
    NothingCached(s.threads, |Drawn(s, i)|, Log(s, i), i);
  }

  lemma NothingCached(threads: map<Tid, Local>, drawn: nat, log: seq<nat>, i: Inst)
    requires log == Range(0, |log|) && forall p :: PositionOk(threads, drawn, log, i, p)
    requires forall u {:trigger Get(threads, u, NoLocal)} :: Get(threads, u, NoLocal).cache.inst == i ==> Get(threads, u, NoLocal).cache.evs == []
    ensures |log| == drawn
  {
    var n := |log|;
    assert PositionOk(threads, drawn, log, i, n);
    RangeCount(0, n, n);
    if n > 0 {
      assert PositionOk(threads, drawn, log, i, n - 1);
      RangeCount(0, n, n - 1);
    }
  }

  lemma ServeEventsAtomic(s: State, t: Tid, queue: Queue, evs: seq<Event>, i: Inst)
    requires Loc(s, t).phase.Taken? && Loc(s, t).phase.cmd.DequeueCmd?
    requires AtomicAt(s, i) && !queue.status.Free?
    requires i < s.insts && Home(s, i).sync.Atomic?
    requires Ent(s, Loc(s, t).phase.cmd.q).inst == i ==>
      && LiveInst(s, i) && Home(s, i).q == Loc(s, t).phase.cmd.q && |Log(s, i)| == |Drawn(s, i)|
      && (forall u {:trigger Get(s.threads, u, NoLocal)} :: Get(s.threads, u, NoLocal).cache.inst == i ==> Get(s.threads, u, NoLocal).cache.evs == [])
    ensures AtomicAt(ServeEvents(s, t, queue, evs), i)
  {
  }

  lemma ServeAtomic(s: State, t: Tid, maxDeq: nat, i: Inst)
    requires Loc(s, t).phase.Taken? && Loc(s, t).phase.cmd.DequeueCmd? && Loc(s, t).cache.evs == [] && Loc(s, t).held.None?
    requires i < s.insts && Home(s, i).sync.Atomic? && AtomicAt(s, i) && EntryAt(s, Loc(s, t).phase.cmd.q)
    requires TokenAt(s, Loc(s, t).phase.cmd) && Place(s, Loc(s, t).phase.cmd) == With(t)
    requires forall p :: PositionAt(s, i, p)
    ensures AtomicAt(AfterServe(s, t, maxDeq), i)
  {
    var l := Loc(s, t);
    var e := Ent(s, l.phase.cmd.q);
    var out := DequeueMulti(e.queue, maxDeq);
    if out.rc > 0 {
      if e.inst == i {
        Drained(s, t, i);
      }
      ServeEventsAtomic(s, t, out.q, out.evs, i);
    } else if out.rc < 0 {
      IdleStepAtomic(s, ServeDead(s, t), t, l.(phase := Dead(l.phase.cmd)), i);
    } else {
      ServeEmptyAtomic(s, t, out.q, i);
    }
  }

  lemma ServeEmptyAtomic(s: State, t: Tid, queue: Queue, i: Inst)
    requires Loc(s, t).phase.Taken? && Loc(s, t).phase.cmd.DequeueCmd? && Loc(s, t).cache.evs == []
    requires AtomicAt(s, i) && !queue.status.Free?
    ensures AtomicAt(ServeEmpty(s, t, queue), i)
  {
    AtomicKept(s, ServeEmpty(s, t, queue), t, Loc(s, t).(phase := App), i);
  }

  /** Thread t, with no cached events, changes its registers and no queue. */
  lemma IdleStepAtomic(s: State, s': State, t: Tid, l: Local, i: Inst)
    requires AtomicAt(s, i) && s'.threads == Set(s.threads, t, l) && SameLog(s, s') && s'.queues == s.queues
    requires l.cache.evs == []
    ensures AtomicAt(s', i)
  {
    AtomicKept(s, s', t, l, i);
  }

  lemma ManageAtomic(s: State, t: Tid, m: ManageStep, s': State, i: Inst)
    requires ManageNext(s, t, m, s') && AtomicAt(s, i)
    requires m.Publish? ==> forall u :: CacheAt(s, u)
    requires m.DestroyQueue? ==> TokenAt(s, DequeueCmd(m.q))
    ensures AtomicAt(s', i)
  {
    match m
    case Publish(q, sync, prio) => PublishAtomic(s, t, q, sync, prio, i);
    case InitCommand(q) => InitAtomic(s, q, i);
    case InitFails(q) => ReturnedAtomic(s, q, i);
    case EnqueueEvents(q, evs) => EnqueueAtomic(s, t, q, evs, i);
    case Wake => BackToApp(s, s', t, Loc(s, t).(waking := None), i);
    case StartPoll(pktio, n, prio) => BackToApp(s, s'.(threads := Set(s.threads, t, Loc(s, t))), t, Loc(s, t), i);
    case DestroyQueue(q) => DestroyAtomic(s, q, i);
  }

  lemma ScheduleAtomic(s: State, t: Tid, w: ScheduleStep, s': State, i: Inst)
    requires ScheduleNext(s, t, w, s') && i < s.insts && Home(s, i).sync.Atomic? && AtomicAt(s, i)
    requires Loc(s, t).held.None? && (!w.Keep? ==> Loc(s, t).cache.evs == [])
    requires TokenAt(s, Loc(s, t).phase.cmd) && Place(s, Loc(s, t).phase.cmd) == With(t)
    requires Loc(s, t).phase.cmd.DequeueCmd? ==> EntryAt(s, Loc(s, t).phase.cmd.q)
    requires forall p :: PositionAt(s, i, p)
    ensures AtomicAt(s', i)
  {
    match w
    case Serve(maxDeq) => ServeAtomic(s, t, maxDeq, i);
    case Finalize => FinalizeAtomic(s, t, i);
    case Keep =>
      if Ent(s, Loc(s, t).phase.cmd.q).sync.Atomic? {
        KeepHeldAtomic(s, t, i);
      } else {
        KeepParallelAtomic(s, t, i);
      }
    case _ => IdleStepAtomic(s, s', t, Loc(s, t).(phase := App), i);
  }

  lemma ContextAtomic(s: State, t: Tid, x: ContextStep, s': State, i: Inst)
    requires ContextNext(s, t, x, s') && i < s.insts && Home(s, i).sync.Atomic? && AtomicAt(s, i)
    requires LiveInst(s, i) ==> TokenAt(s, CommandOf(s, i))
    ensures AtomicAt(s', i)
  {
    match x
    case TakeCommand(sl) => IdleStepAtomic(s, s', t, Loc(s, t).(phase := Taken(sl, Pri(s, sl)[0])), i);
    case Deliver(k) => DeliverAtomic(s, t, k, i);
    case ReleaseAtomic => IdleStepAtomic(s, s', t, Loc(s, t).(held := None), i);
  }
}
