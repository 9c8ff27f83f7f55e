/** Where the events go: every event enqueued is dequeued once, handed to an application once,
    and an atomic queue's events are handed over in order by one thread at a time. */
module SchedulerDelivery {
  import opened QueueSpec
  import opened Tables
  import opened Scheduler
  import opened SchedulerTokens
  import opened SchedulerLifecycle

  // ---------- what was enqueued is what was dequeued plus what is queued ----------

  function Queued(s: State, i: Inst): seq<Event> {
    if LiveInst(s, i) then Get(s.queues, Home(s, i).q, NoEntry).queue.events else []
  }

  ghost predicate FlowAt(s: State, i: Inst) {
    i < s.insts ==> Entered(s, i) == Drawn(s, i) + Queued(s, i)
  }

  lemma FlowUnchanged(s: State, s': State, i: Inst)
    requires FlowAt(s, i) && SameEvents(s, s') && s'.insts == s.insts && s'.home == s.home
    ensures FlowAt(s', i)
  {
  }

  lemma EnqueueFlow(s: State, t: Tid, q: Qid, evs: seq<Event>, i: Inst)
    requires FlowAt(s, i) && EntryAt(s, q)
    ensures FlowAt(AfterEnqueue(s, t, q, evs), i)
  {
    var e := Ent(s, q);
    var s' := AfterEnqueue(s, t, q, evs);
    if Enqueue(e.queue, evs).ok && i == e.inst {
      assert Drawn(s, i) + (e.queue.events + evs) == Drawn(s, i) + e.queue.events + evs;
    }
  }

  lemma ServeFlow(s: State, t: Tid, maxDeq: nat, i: Inst)
    requires Loc(s, t).phase.Taken? && Loc(s, t).phase.cmd.DequeueCmd? && maxDeq >= 1
    requires FlowAt(s, i) && EntryAt(s, Loc(s, t).phase.cmd.q)
    ensures FlowAt(AfterServe(s, t, maxDeq), i)
  {
    var e := Ent(s, Loc(s, t).phase.cmd.q);
    var out := DequeueMulti(e.queue, maxDeq);
    if out.rc > 0 {
      assert e.queue.events == out.evs + out.q.events;
      ServeEventsFlow(s, t, out.q, out.evs, i);
    } else if out.rc == 0 {
      ServeEmptyFlow(s, t, out.q, i);
    } else {
      ServeDeadFlow(s, t, i);
    }
  }

  lemma ServeEmptyFlow(s: State, t: Tid, queue: Queue, i: Inst)
    requires Loc(s, t).phase.Taken? && Loc(s, t).phase.cmd.DequeueCmd? && FlowAt(s, i)
    requires Ent(s, Loc(s, t).phase.cmd.q).queue.events == [] && queue.events == []
    ensures FlowAt(ServeEmpty(s, t, queue), i)
  {
    GoneFlow(s, ServeEmpty(s, t, queue), Loc(s, t).phase.cmd.q, queue, i);
  }

  lemma ServeDeadFlow(s: State, t: Tid, i: Inst)
    requires Loc(s, t).phase.Taken? && FlowAt(s, i)
    ensures FlowAt(ServeDead(s, t), i)
  {
  }

  lemma ServeEventsFlow(s: State, t: Tid, queue: Queue, evs: seq<Event>, i: Inst)
    requires Loc(s, t).phase.Taken? && Loc(s, t).phase.cmd.DequeueCmd?
    requires FlowAt(s, i) && EntryAt(s, Loc(s, t).phase.cmd.q)
    requires var e := Ent(s, Loc(s, t).phase.cmd.q);
      e.queue.events == evs + queue.events && !e.queue.status.Free? && !queue.status.Free?
    ensures FlowAt(ServeEvents(s, t, queue, evs), i)
  {
    assert Drawn(s, i) + (evs + queue.events) == Drawn(s, i) + evs + queue.events;
  }

  lemma PublishFlow(s: State, t: Tid, q: Qid, sync: Sync, prio: nat, i: Inst)
    requires FlowAt(s, i) && Ent(s, q).queue.status.Free?
    ensures FlowAt(AfterPublish(s, t, q, sync, prio), i)
  {
  }

  lemma ReturnedFlow(s: State, q: Qid, i: Inst)
    requires FlowAt(s, i)
    ensures FlowAt(Returned(s, q), i) && FlowAt(AfterInit(s, q), i)
  {
    assert Queued(Returned(s, q), i) == Queued(s, i) == Queued(AfterInit(s, q), i);
  }

  /** An entry whose queue is empty may be freed or marked destroyed. */
  lemma GoneFlow(s: State, s': State, q: Qid, queue: Queue, i: Inst)
    requires FlowAt(s, i) && Ent(s, q).queue.events == [] && queue.events == [] && QueueOnly(s, s', q, queue)
    ensures FlowAt(s', i)
  {
  }

  lemma DestroyFlow(s: State, q: Qid, i: Inst)
    requires FlowAt(s, i)
    ensures FlowAt(AfterDestroy(s, q), i)
  {
    var out := Destroy(Ent(s, q).queue);
    if out.rc == 0 {
      GoneFlow(s, AfterDestroy(s, q), q, out.q, i);
    }
  }

  lemma FinalizeFlow(s: State, t: Tid, i: Inst)
    requires Loc(s, t).phase.Dead? && Loc(s, t).phase.cmd.DequeueCmd? && FlowAt(s, i)
    requires Ent(s, Loc(s, t).phase.cmd.q).queue.events == []
    ensures FlowAt(AfterFinalize(s, t), i)
  {
    var q := Loc(s, t).phase.cmd.q;
    GoneFlow(s, AfterFinalize(s, t), q, DestroyFinalize(Ent(s, q).queue).q, i);
  }

  lemma ManageFlow(s: State, t: Tid, m: ManageStep, s': State, i: Inst)
    requires ManageNext(s, t, m, s') && FlowAt(s, i) && (m.EnqueueEvents? ==> EntryAt(s, m.q))
    ensures FlowAt(s', i)
  {
    match m
    case Publish(q, sync, prio) => PublishFlow(s, t, q, sync, prio, i);
    case InitCommand(q) => ReturnedFlow(s, q, i);
    case InitFails(q) => ReturnedFlow(s, q, i);
    case EnqueueEvents(q, evs) => EnqueueFlow(s, t, q, evs, i);
    case DestroyQueue(q) => DestroyFlow(s, q, i);
    case _ => FlowUnchanged(s, s', i);
  }

  lemma ScheduleFlow(s: State, t: Tid, w: ScheduleStep, s': State, i: Inst)
    requires ScheduleNext(s, t, w, s') && FlowAt(s, i)
    requires w.Serve? ==> EntryAt(s, Loc(s, t).phase.cmd.q)
    requires w.Finalize? ==> Ent(s, Loc(s, t).phase.cmd.q).queue.events == []
    ensures FlowAt(s', i)
  {
    match w
    case Serve(maxDeq) => ServeFlow(s, t, maxDeq, i);
    case Finalize => FinalizeFlow(s, t, i);
    case _ => FlowUnchanged(s, s', i);
  }

  /** Nothing was ever enqueued to a queue whose creation has not returned its handle. */
  ghost predicate UnusedAt(s: State, q: Qid) {
    Unfinished(s, q) ==> Entered(s, Ent(s, q).inst) == []
  }

  lemma EnqueueUnused(s: State, t: Tid, q0: Qid, evs: seq<Event>, q: Qid)
    requires UnusedAt(s, q) && EntryAt(s, q) && EntryAt(s, q0) && !Unfinished(s, q0)
    ensures UnusedAt(AfterEnqueue(s, t, q0, evs), q)
  {
    var s' := AfterEnqueue(s, t, q0, evs);
    if Unfinished(s', q) {
      assert SameShape(Get(s.queues, q, NoEntry), Get(s'.queues, q, NoEntry));
      hide SameQueues, SameCaches;
    }
  }

  lemma PublishUnused(s: State, t: Tid, q0: Qid, sync: Sync, prio: nat, q: Qid)
    requires UnusedAt(s, q) && EntryAt(s, q)
    ensures UnusedAt(AfterPublish(s, t, q0, sync, prio), q)
  {
  }

  lemma InitUnused(s: State, q0: Qid, q: Qid)
    requires UnusedAt(s, q)
    ensures UnusedAt(Returned(s, q0), q) && UnusedAt(AfterInit(s, q0), q)
  {
  }

  /** A step that leaves the queue its instance and enqueues nothing. */
  lemma UnusedKept(s: State, s': State, q: Qid)
    requires UnusedAt(s, q) && (Unfinished(s', q) ==> Unfinished(s, q) && Ent(s', q).inst == Ent(s, q).inst)
    requires s'.entered == s.entered
    ensures UnusedAt(s', q)
  {
  }

  lemma ManageUnused(s: State, t: Tid, m: ManageStep, s': State, q: Qid)
    requires ManageNext(s, t, m, s') && Disciplined(s, Manage(m)) && UnusedAt(s, q) && EntryAt(s, q)
    requires m.EnqueueEvents? ==> EntryAt(s, m.q)
    ensures UnusedAt(s', q)
  {
    match m
    case Publish(q0, sync, prio) => PublishUnused(s, t, q0, sync, prio, q);
    case InitCommand(q0) => InitUnused(s, q0, q);
    case InitFails(q0) => InitUnused(s, q0, q);
    case EnqueueEvents(q0, evs) => EnqueueUnused(s, t, q0, evs, q);
    case Wake => SameUnused(s, s', q);
    case StartPoll(pktio, n, prio) => UnusedKept(s, s', q);
    case DestroyQueue(q0) => DestroyUnused(s, q0, q);
  }

  lemma SameUnused(s: State, s': State, q: Qid)
    requires UnusedAt(s, q) && SameQueues(s, s') && s'.entered == s.entered
    ensures UnusedAt(s', q)
  {
    assert SameShape(Get(s.queues, q, NoEntry), Get(s'.queues, q, NoEntry));
  }

  lemma DestroyUnused(s: State, q0: Qid, q: Qid)
    requires UnusedAt(s, q) && !Unfinished(s, q0)
    ensures UnusedAt(AfterDestroy(s, q0), q)
  {
    if q != q0 {
      UnusedKept(s, AfterDestroy(s, q0), q);
    }
  }

  lemma FinalizeUnused(s: State, t: Tid, q: Qid)
    requires Loc(s, t).phase.Dead? && Loc(s, t).phase.cmd.DequeueCmd?
    requires Ent(s, Loc(s, t).phase.cmd.q).queue.status.Destroyed?
    requires UnusedAt(s, q)
    ensures UnusedAt(AfterFinalize(s, t), q)
  {
    if q != Loc(s, t).phase.cmd.q {
      UnusedKept(s, AfterFinalize(s, t), q);
    }
  }

  lemma ContextUnused(s: State, t: Tid, x: ContextStep, s': State, q: Qid)
    requires ContextNext(s, t, x, s') && UnusedAt(s, q)
    ensures UnusedAt(s', q)
  {
    SameUnused(s, s', q);
  }

  lemma ScheduleUnused(s: State, t: Tid, w: ScheduleStep, s': State, q: Qid)
    requires ScheduleNext(s, t, w, s') && UnusedAt(s, q)
    requires w.Finalize? ==> Ent(s, Loc(s, t).phase.cmd.q).queue.status.Destroyed?
    ensures UnusedAt(s', q)
  {
    match w
    case PollStops => PollStopsUnused(s, t, q);
    case Finalize => FinalizeUnused(s, t, q);
    case Serve(maxDeq) =>
      SameUnused(s, s', q);
    case _ =>
      hide UnusedAt, SameQueues;
      SameUnused(s, s', q);
  }

  lemma PollStopsUnused(s: State, t: Tid, q: Qid)
    requires Loc(s, t).phase.Taken? && Loc(s, t).phase.cmd.PollCmd? && UnusedAt(s, q)
    ensures UnusedAt(AfterPollStops(s, t), q)
  {
    UnusedKept(s, AfterPollStops(s, t), q);
  }

  // ---------- every dequeued event is with one thread or was handed over once ----------

  /** The thread caches position p of instance i. */
  predicate Caches(l: Local, i: Inst, p: nat) {
    l.cache.inst == i && l.cache.from <= p < l.cache.from + |l.cache.evs|
  }

  ghost predicate NobodyCaches(threads: map<Tid, Local>, i: Inst, p: nat) {
    forall t {:trigger Get(threads, t, NoLocal)} :: !Caches(Get(threads, t, NoLocal), i, p)
  }

  ghost predicate OnlyCacher(threads: map<Tid, Local>, u: Tid, i: Inst, p: nat) {
    && Caches(Get(threads, u, NoLocal), i, p)
    && forall t {:trigger Get(threads, t, NoLocal)} :: Caches(Get(threads, t, NoLocal), i, p) ==> t == u
  }

  ghost predicate OneCaches(threads: map<Tid, Local>, i: Inst, p: nat) {
    exists u :: OnlyCacher(threads, u, i, p)
  }

  ghost predicate PositionOk(threads: map<Tid, Local>, drawn: nat, log: seq<nat>, i: Inst, p: nat) {
    if p < drawn
    then (multiset(log)[p] == 1 && NobodyCaches(threads, i, p)) || (multiset(log)[p] == 0 && OneCaches(threads, i, p))
    else multiset(log)[p] == 0 && NobodyCaches(threads, i, p)
  }

  ghost predicate PositionAt(s: State, i: Inst, p: nat) {
    PositionOk(s.threads, |Drawn(s, i)|, Log(s, i), i, p)
  }

  /** A cache holds the events it was filled with. */
  ghost predicate CacheAt(s: State, t: Tid) {
    var ca := Get(s.threads, t, NoLocal).cache;
    CacheOk(ca, s.insts, Drawn(s, ca.inst))
  }

  ghost predicate CacheOk(ca: Cache, insts: Inst, drawn: seq<Event>) {
    ca.evs != [] ==> ca.inst < insts && ca.from + |ca.evs| <= |drawn| && drawn[ca.from..ca.from + |ca.evs|] == ca.evs
  }

  lemma CacheGrows(ca: Cache, insts: Inst, d: seq<Event>, evs: seq<Event>)
    requires CacheOk(ca, insts, d)
    ensures CacheOk(ca, insts, d + evs)
  {
    if ca.evs != [] {
      assert (d + evs)[ca.from..ca.from + |ca.evs|] == d[ca.from..ca.from + |ca.evs|];
    }
  }

  lemma CacheFilled(i: Inst, insts: Inst, d: seq<Event>, evs: seq<Event>)
    requires i < insts
    ensures CacheOk(Cache(i, |d|, evs), insts, d + evs)
  {
    assert (d + evs)[|d|..|d| + |evs|] == evs;
  }

  lemma CacheUnchanged(s: State, s': State, t: Tid)
    requires CacheAt(s, t) && SameCaches(s, s') && s'.insts >= s.insts
    ensures CacheAt(s', t)
  {
  }

  lemma PositionUnchanged(s: State, s': State, i: Inst, p: nat)
    requires PositionAt(s, i, p) && SameCaches(s, s')
    ensures PositionAt(s', i, p)
  {
    if OneCaches(s.threads, i, p) {
      var u :| OnlyCacher(s.threads, u, i, p);
      assert OnlyCacher(s'.threads, u, i, p);
    }
  }

  lemma {:induction false} RangeCount(from: nat, k: nat, p: nat)
    ensures multiset(Range(from, k))[p] == if from <= p < from + k then 1 else 0
  {
    if k > 0 {
      assert Range(from, k) == Range(from, k - 1) + [from + k - 1];
      RangeCount(from, k - 1, p);
    }
  }

  lemma DeliverPosition(s: State, t: Tid, k: nat, i: Inst, p: nat)
    requires PositionAt(s, i, p) && k <= |Loc(s, t).cache.evs|
    ensures PositionAt(AfterDeliver(s, t, k), i, p)
  {
    var l := Get(s.threads, t, NoLocal);
    var s' := AfterDeliver(s, t, k);
    var l' := Get(s'.threads, t, NoLocal);
    RangeCount(l.cache.from, k, p);
    if Caches(l, i, p) && p < l.cache.from + k {
      assert NobodyCaches(s'.threads, i, p);
    } else {
      assert Caches(l', i, p) == Caches(l, i, p);
      SameOwner(s.threads, t, l', i, p);
    }
  }

  /** A thread's new context caches p exactly when the old one did. */
  lemma SameOwner(threads: map<Tid, Local>, t: Tid, l: Local, i: Inst, p: nat)
    requires Caches(l, i, p) == Caches(Get(threads, t, NoLocal), i, p)
    ensures NobodyCaches(threads, i, p) ==> NobodyCaches(Set(threads, t, l), i, p)
    ensures OneCaches(threads, i, p) ==> OneCaches(Set(threads, t, l), i, p)
  {
    var threads' := Set(threads, t, l);
    if OneCaches(threads, i, p) {
      var u :| OnlyCacher(threads, u, i, p);
      assert OnlyCacher(threads', u, i, p);
    }
  }

  lemma ServeEventsPosition(s: State, t: Tid, queue: Queue, evs: seq<Event>, i: Inst, p: nat)
    requires Loc(s, t).phase.Taken? && Loc(s, t).phase.cmd.DequeueCmd? && Loc(s, t).cache.evs == []
    requires PositionAt(s, i, p)
    ensures PositionAt(ServeEvents(s, t, queue, evs), i, p)
  {
    var s' := ServeEvents(s, t, queue, evs);
    var l' := Get(s'.threads, t, NoLocal);
    if Caches(l', i, p) {
      assert OnlyCacher(s'.threads, t, i, p);
    } else {
      SameOwner(s.threads, t, l', i, p);
    }
  }

  lemma ServeEventsCache(s: State, t: Tid, queue: Queue, evs: seq<Event>, u: Tid)
    requires Loc(s, t).phase.Taken? && Loc(s, t).phase.cmd.DequeueCmd?
    requires CacheAt(s, u) && Ent(s, Loc(s, t).phase.cmd.q).inst < s.insts
    ensures CacheAt(ServeEvents(s, t, queue, evs), u)
  {
    var s' := ServeEvents(s, t, queue, evs);
    var i := Ent(s, Loc(s, t).phase.cmd.q).inst;
    if u == t {
      FilledCache(s, s', i, evs, t);
    } else {
      OtherCache(s, s', i, evs, u);
    }
  }

  lemma FilledCache(s: State, s': State, i: Inst, evs: seq<Event>, t: Tid)
    requires i < s'.insts && s'.drawn == Set(s.drawn, i, Drawn(s, i) + evs)
    requires Get(s'.threads, t, NoLocal).cache == Cache(i, |Drawn(s, i)|, evs)
    ensures CacheAt(s', t)
  {
    CacheFilled(i, s'.insts, Drawn(s, i), evs);
  }

  lemma OtherCache(s: State, s': State, i: Inst, evs: seq<Event>, u: Tid)
    requires CacheAt(s, u) && s'.insts == s.insts && s'.drawn == Set(s.drawn, i, Drawn(s, i) + evs)
    requires Get(s'.threads, u, NoLocal).cache == Get(s.threads, u, NoLocal).cache
    ensures CacheAt(s', u)
  {
    CacheGrows(Get(s.threads, u, NoLocal).cache, s.insts, Drawn(s, Get(s.threads, u, NoLocal).cache.inst), evs);
  }

  lemma DeliverCache(s: State, t: Tid, k: nat, u: Tid)
    requires k <= |Loc(s, t).cache.evs| && CacheAt(s, u)
    ensures CacheAt(AfterDeliver(s, t, k), u)
  {
    var ca := Get(s.threads, t, NoLocal).cache;
    if u == t && ca.evs != [] {
      var d := Drawn(s, ca.inst);
      assert d[ca.from + k..ca.from + |ca.evs|] == d[ca.from..ca.from + |ca.evs|][k..];
    }
  }

  lemma PublishPosition(s: State, v: Tid, q: Qid, sync: Sync, prio: nat, i: Inst, p: nat, t: Tid)
    requires PositionAt(s, i, p) && CacheAt(s, t) && (forall u :: CacheAt(s, u))
    ensures PositionAt(AfterPublish(s, v, q, sync, prio), i, p) && CacheAt(AfterPublish(s, v, q, sync, prio), t)
  {
    if i == s.insts {
      forall u ensures !Caches(Get(s.threads, u, NoLocal), i, p) {
        assert CacheAt(s, u);
      }
    }
  }

  lemma ServePosition(s: State, t: Tid, maxDeq: nat, i: Inst, p: nat, u: Tid)
    requires Loc(s, t).phase.Taken? && Loc(s, t).phase.cmd.DequeueCmd? && Loc(s, t).cache.evs == []
    requires PositionAt(s, i, p) && CacheAt(s, u) && EntryAt(s, Loc(s, t).phase.cmd.q)
    ensures PositionAt(AfterServe(s, t, maxDeq), i, p) && CacheAt(AfterServe(s, t, maxDeq), u)
  {
    var out := DequeueMulti(Ent(s, Loc(s, t).phase.cmd.q).queue, maxDeq);
    if out.rc > 0 {
      ServeEventsPosition(s, t, out.q, out.evs, i, p);
      ServeEventsCache(s, t, out.q, out.evs, u);
    } else {
      PositionUnchanged(s, AfterServe(s, t, maxDeq), i, p);
      CacheUnchanged(s, AfterServe(s, t, maxDeq), u);
    }
  }
}
