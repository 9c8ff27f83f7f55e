/** schedule() run by one thread that nobody disturbs, and the loop of odp_schedule around it: a queue whose
    events wait is found. */
module SchedulerProgress {
  import Bits
  import opened QueueSpec
  import opened Tables
  import opened Wrappers
  import opened Scheduler
  import opened SchedulerTokens
  import opened SchedulerLifecycle
  import opened SchedulerRuns
  import opened SchedulerPriorities
  import opened SchedulerSearch

  /** What the thread finds outside the scheduler: the queues of its groups, and the packet interfaces that are
      to be polled no longer. */
  datatype World = World(eligible: Qid -> bool, stops: Cmd -> bool)

  predicate Idle(s: State, t: Tid) {
    var l := Loc(s, t);
    l.phase.App? && l.waking.None? && l.held.None? && l.cache.evs == []
  }

  // ---------- one visit of a priority queue ----------

  /** The body of the inner loop: a command is taken, if there is one, and carried out. */
  function Visit(s: State, t: Tid, sl: Slot, w: World, maxDeq: nat): State {
    if sl in s.mask && Pri(s, sl) != [] then CarryOut(AfterTake(s, t, sl), t, w, maxDeq) else s
  }

  function CarryOut(s: State, t: Tid, w: World, maxDeq: nat): State
    requires Loc(s, t).phase.Taken?
  {
    var c := Loc(s, t).phase.cmd;
    match c
    case PollCmd(_, _) => if w.stops(c) then AfterPollStops(s, t) else AfterPutBack(s, t)
    case DequeueCmd(q) => if w.eligible(q) then FinalizeDead(AfterServe(s, t, maxDeq), t) else AfterPutBack(s, t)
  }

  function FinalizeDead(s: State, t: Tid): State {
    if Loc(s, t).phase.Dead? && Loc(s, t).phase.cmd.DequeueCmd? then AfterFinalize(s, t) else s
  }

  /** Queues that have events are as they were, no other has any now, and no event was dequeued or handed over. */
  ghost predicate SameWork(s: State, r: State) {
    && r.log == s.log && r.drawn == s.drawn
    && forall q {:trigger Get(r.queues, q, NoEntry)} :: SameIfBusy(Get(s.queues, q, NoEntry), Get(r.queues, q, NoEntry))
  }

  predicate SameIfBusy(e: Entry, e': Entry) {
    e.queue.events != [] || e'.queue.events != [] ==> e' == e
  }

  /** The command at the head went to the back, or left; nothing else changed in the priority queues. */
  ghost predicate Passed(s: State, r: State, t: Tid, sl: Slot) {
    && Idle(r, t) && SameWork(s, r)
    && (forall x {:trigger Get(r.pri, x, [])} :: x != sl ==> Get(r.pri, x, []) == Get(s.pri, x, []))
    && Pri(s, sl) != [] && (Pri(r, sl) == Pri(s, sl)[1..] || Pri(r, sl) == Pri(s, sl)[1..] + [Pri(s, sl)[0]])
  }

  /** A visit of sl brought events: the oldest ones of queue p, as many as are asked for and there. */
  predicate Brought(s: State, r: State, t: Tid, sl: Slot, p: Qid, maxDeq: nat) {
    var l, e := Loc(r, t), Ent(s, p);
    && r.log == s.log && l.waking.None? && l.phase == Served(sl, DequeueCmd(p))
    && e.queue.events != []
    && l.cache == Cache(e.inst, |Drawn(s, e.inst)|, e.queue.events[..Min(maxDeq, |e.queue.events|)])
  }

  lemma PutsBack(s: State, t: Tid, sl: Slot)
    requires Idle(s, t) && Pri(s, sl) != []
    ensures Passed(s, AfterPutBack(AfterTake(s, t, sl), t), t, sl)
  {
    hide Set;
  }

  lemma Stops(s: State, t: Tid, sl: Slot)
    requires Idle(s, t) && Pri(s, sl) != []
    ensures Passed(s, AfterPollStops(AfterTake(s, t, sl), t), t, sl)
  {
    hide Set;
  }

  lemma Finalizes(s: State, t: Tid, sl: Slot)
    requires Idle(s, t) && Pri(s, sl) != [] && Pri(s, sl)[0].DequeueCmd? && Ent(s, Pri(s, sl)[0].q).queue.events == []
    ensures Passed(s, AfterFinalize(ServeDead(AfterTake(s, t, sl), t), t), t, sl)
  {
    hide Set;
  }

  lemma Empties(s: State, t: Tid, sl: Slot, queue: Queue)
    requires queue.events == [] && Idle(s, t) && Pri(s, sl) != [] && Pri(s, sl)[0].DequeueCmd? && Ent(s, Pri(s, sl)[0].q).queue.events == []
    ensures Passed(s, ServeEmpty(AfterTake(s, t, sl), t, queue), t, sl)
  {
    hide Set;
  }

  lemma Serves(s: State, t: Tid, sl: Slot, p: Qid, queue: Queue, maxDeq: nat)
    requires Idle(s, t) && Pri(s, sl) != [] && Pri(s, sl)[0] == DequeueCmd(p) && Ent(s, p).queue.events != []
    ensures var evs := Ent(s, p).queue.events;
      Brought(s, ServeEvents(AfterTake(s, t, sl), t, queue, evs[..Min(maxDeq, |evs|)]), t, sl, p, maxDeq)
  {
    hide Set;
  }

  /** What a visit of a priority queue with a command comes to: events of the queue at its head, if the thread may
      have them, or another turn for whoever is next. */
  ghost predicate Visited(s: State, r: State, t: Tid, sl: Slot, w: World, maxDeq: nat)
    requires Pri(s, sl) != []
  {
    var c := Pri(s, sl)[0];
    if Brings(s, w, c) then Brought(s, r, t, sl, c.q, maxDeq) else Passed(s, r, t, sl)
  }

  predicate Brings(s: State, w: World, c: Cmd) {
    c.DequeueCmd? && w.eligible(c.q) && Ent(s, c.q).queue.events != []
  }

  lemma VisitEnds(s: State, t: Tid, sl: Slot, w: World, maxDeq: nat)
    requires Inv(s) && Idle(s, t) && maxDeq >= 1 && sl in s.mask && Pri(s, sl) != []
    ensures Inv(Visit(s, t, sl, w, maxDeq)) && Visited(s, Visit(s, t, sl, w, maxDeq), t, sl, w, maxDeq)
  {
    var c := Pri(s, sl)[0];
    TakesIt(s, t, sl);
    hide Inv, Passed, Brought, AfterTake, Idle;
    match c
    case PollCmd(_, _) => PollEnds(s, t, sl, w, maxDeq);
    case DequeueCmd(q) =>
      if w.eligible(q) {
        ServeEnds(s, t, sl, maxDeq);
      } else {
        PutsBack(s, t, sl);
        InvStep(AfterTake(s, t, sl), t, Step.Schedule(NotEligible), AfterPutBack(AfterTake(s, t, sl), t));
      }
  }

  lemma TakesIt(s: State, t: Tid, sl: Slot)
    requires Inv(s) && Idle(s, t) && Pri(s, sl) != []
    ensures var r := AfterTake(s, t, sl);
      Inv(r) && Loc(r, t).phase == Taken(sl, Pri(s, sl)[0]) && Loc(r, t).waking.None? && r.queues == s.queues
  {
    InvStep(s, t, Context(TakeCommand(sl)), AfterTake(s, t, sl));
    hide Inv, Set;
  }

  lemma PollEnds(s: State, t: Tid, sl: Slot, w: World, maxDeq: nat)
    requires Inv(s) && Idle(s, t) && sl in s.mask && Pri(s, sl) != [] && Pri(s, sl)[0].PollCmd?
    ensures Inv(Visit(s, t, sl, w, maxDeq)) && Passed(s, Visit(s, t, sl, w, maxDeq), t, sl)
  {
    var c, r := Pri(s, sl)[0], AfterTake(s, t, sl);
    TakesIt(s, t, sl);
    hide Inv, Passed, AfterTake, Idle;
    if w.stops(c) {
      Stops(s, t, sl);
      InvStep(r, t, Step.Schedule(PollStops), AfterPollStops(r, t));
    } else {
      PutsBack(s, t, sl);
      InvStep(r, t, Step.Schedule(PollContinues), AfterPutBack(r, t));
    }
  }

  /** An eligible queue is served: it brings events exactly if it has any. */
  lemma ServeEnds(s: State, t: Tid, sl: Slot, maxDeq: nat)
    requires Inv(s) && Idle(s, t) && maxDeq >= 1 && Pri(s, sl) != [] && Pri(s, sl)[0].DequeueCmd?
    requires Loc(AfterTake(s, t, sl), t).phase.Taken? && Loc(AfterTake(s, t, sl), t).phase.cmd == Pri(s, sl)[0]
    ensures var r := FinalizeDead(AfterServe(AfterTake(s, t, sl), t, maxDeq), t);
      && Inv(r)
      && if Ent(s, Pri(s, sl)[0].q).queue.events != [] then Brought(s, r, t, sl, Pri(s, sl)[0].q, maxDeq) else Passed(s, r, t, sl)
  {
    var r := AfterTake(s, t, sl);
    var e := Ent(s, Pri(s, sl)[0].q);
    TakesIt(s, t, sl);
    WithEvents(s, Pri(s, sl)[0].q);
    hide Inv, Passed, AfterTake, Idle;
    InvStep(r, t, Step.Schedule(Serve(maxDeq)), AfterServe(r, t, maxDeq));
    if e.queue.status.Bad() {
      DeadEnds(s, t, sl, maxDeq);
    } else if e.queue.events == [] {
      EmptyEnds(s, t, sl, maxDeq);
    } else {
      EventsEnd(s, t, sl, maxDeq);
    }
  }

  lemma WithEvents(s: State, q: Qid)
    requires Inv(s)
    ensures Ent(s, q).queue.events != [] ==> Ent(s, q).queue.status.Sched?
  {
    At(s, DequeueCmd(q));
  }

  lemma DeadEnds(s: State, t: Tid, sl: Slot, maxDeq: nat)
    requires Inv(s) && Idle(s, t) && Pri(s, sl) != [] && Pri(s, sl)[0].DequeueCmd?
    requires Ent(s, Pri(s, sl)[0].q).queue.status.Bad() && Ent(s, Pri(s, sl)[0].q).queue.events == []
    requires Inv(AfterServe(AfterTake(s, t, sl), t, maxDeq))
    ensures var r := FinalizeDead(AfterServe(AfterTake(s, t, sl), t, maxDeq), t); Inv(r) && Passed(s, r, t, sl)
  {
    Finalizes(s, t, sl);
    hide Passed, Inv, Set;
    var r := ServeDead(AfterTake(s, t, sl), t);
    InvStep(r, t, Step.Schedule(Finalize), AfterFinalize(r, t));
  }

  lemma EmptyEnds(s: State, t: Tid, sl: Slot, maxDeq: nat)
    requires Inv(s) && Idle(s, t) && Pri(s, sl) != [] && Pri(s, sl)[0].DequeueCmd?
    requires !Ent(s, Pri(s, sl)[0].q).queue.status.Bad() && Ent(s, Pri(s, sl)[0].q).queue.events == []
    ensures var r := AfterServe(AfterTake(s, t, sl), t, maxDeq); FinalizeDead(r, t) == r && Passed(s, r, t, sl)
  {
    Empties(s, t, sl, DequeueMulti(Ent(s, Pri(s, sl)[0].q).queue, maxDeq).q);
    hide Inv, Set;
  }

  lemma EventsEnd(s: State, t: Tid, sl: Slot, maxDeq: nat)
    requires Inv(s) && Idle(s, t) && maxDeq >= 1 && Pri(s, sl) != [] && Pri(s, sl)[0].DequeueCmd?
    requires Ent(s, Pri(s, sl)[0].q).queue.status.Sched? && Ent(s, Pri(s, sl)[0].q).queue.events != []
    ensures var r := AfterServe(AfterTake(s, t, sl), t, maxDeq); FinalizeDead(r, t) == r && Brought(s, r, t, sl, Pri(s, sl)[0].q, maxDeq)
  {
    var out := DequeueMulti(Ent(s, Pri(s, sl)[0].q).queue, maxDeq);
    Serves(s, t, sl, Pri(s, sl)[0].q, out.q, maxDeq);
    hide Inv, Set;
  }

  // ---------- a queue that waits ----------

  /** How many commands stand before c; all of them if it is not there. */
  function Position(xs: seq<Cmd>, c: Cmd): nat {
    if xs == [] || xs[0] == c then 0 else 1 + Position(xs[1..], c)
  }

  lemma {:induction false} PositionAppend(xs: seq<Cmd>, c: Cmd, d: Cmd)
    requires c in xs || c == d
    ensures Position(xs + [d], c) == Position(xs, c)
  {
    if xs != [] && xs[0] != c {
      assert (xs + [d])[1..] == xs[1..] + [d];
      PositionAppend(xs[1..], c, d);
    }
  }

  function HomeSlot(s: State, q: Qid): Slot {
    SlotOf(q, Ent(s, q).prio)
  }

  function Ahead(s: State, q: Qid): nat {
    Position(Pri(s, HomeSlot(s, q)), DequeueCmd(q))
  }

  /** The queue has events and its command is in its priority queue. */
  predicate Queued(s: State, q: Qid) {
    Ent(s, q).queue.events != [] && DequeueCmd(q) in Pri(s, HomeSlot(s, q))
  }

  /** The queue goes on waiting, and its command came no later, or earlier. */
  ghost predicate Closer(s: State, r: State, q: Qid, earlier: bool) {
    Queued(s, q) ==> Queued(r, q) && Ent(r, q) == Ent(s, q) && if earlier then Ahead(r, q) < Ahead(s, q) else Ahead(r, q) <= Ahead(s, q)
  }

  lemma PassedIsCloser(s: State, r: State, t: Tid, sl: Slot, w: World, q: Qid)
    requires Passed(s, r, t, sl) && !Brings(s, w, Pri(s, sl)[0]) && w.eligible(q)
    ensures Closer(s, r, q, sl == HomeSlot(s, q))
  {
    if Queued(s, q) {
      assert Get(r.queues, q, NoEntry) == Get(s.queues, q, NoEntry);
      var home := HomeSlot(s, q);
      if sl == home {
        var xs := Pri(s, sl);
        assert xs == [xs[0]] + xs[1..];
        PositionAppend(xs[1..], DequeueCmd(q), xs[0]);
      } else {
        assert Get(r.pri, home, []) == Get(s.pri, home, []);
      }
    }
  }

  /** schedule() does not skip it. */
  lemma QueuedIsVisible(s: State, q: Qid)
    requires Inv(s) && Queued(s, q)
    ensures HomeSlot(s, q) in s.mask && Pri(s, HomeSlot(s, q)) != []
  {
    QueuedIsUnmasked(s, HomeSlot(s, q), DequeueCmd(q));
  }

  // ---------- schedule() ----------

  /** The thread has events of a queue of its groups, from the place its priority and number give it. */
  ghost predicate BroughtFor(s: State, r: State, t: Tid, sl: Slot, w: World, maxDeq: nat) {
    var c := Loc(r, t).phase;
    && c.Served? && c.cmd.DequeueCmd? && w.eligible(c.cmd.q)
    && sl == Slot(Ent(s, c.cmd.q).prio, c.cmd.q % 4) && Brought(s, r, t, sl, c.cmd.q, maxDeq)
  }

  lemma BroughtBefore(s: State, s1: State, r: State, t: Tid, sl: Slot, w: World, maxDeq: nat)
    requires SameWork(s, s1) && BroughtFor(s1, r, t, sl, w, maxDeq)
    ensures BroughtFor(s, r, t, sl, w, maxDeq)
  {
    var q := Loc(r, t).phase.cmd.q;
    assert SameIfBusy(Get(s.queues, q, NoEntry), Get(s1.queues, q, NoEntry));
  }

  lemma SameWorkSelf(s: State)
    ensures SameWork(s, s)
  {
  }

  lemma SameWorkOn(s: State, s1: State, r: State)
    requires SameWork(s, s1) && SameWork(s1, r)
    ensures SameWork(s, r)
  {
    forall q ensures SameIfBusy(Get(s.queues, q, NoEntry), Get(r.queues, q, NoEntry)) {
      assert SameIfBusy(Get(s.queues, q, NoEntry), Get(s1.queues, q, NoEntry)) && SameIfBusy(Get(s1.queues, q, NoEntry), Get(r.queues, q, NoEntry));
    }
  }

  /** A visit, whatever it finds: it ends the search, or the queue is closer if the slot is its own. */
  lemma VisitIsCloser(s: State, t: Tid, sl: Slot, w: World, maxDeq: nat, q: Qid)
    requires Inv(s) && Idle(s, t) && maxDeq >= 1
    ensures var r := Visit(s, t, sl, w, maxDeq);
      && Inv(r)
      && if Loc(r, t).phase.Served? then BroughtFor(s, r, t, sl, w, maxDeq)
         else Idle(r, t) && SameWork(s, r) && (w.eligible(q) ==> Closer(s, r, q, sl == HomeSlot(s, q)))
  {
    var r := Visit(s, t, sl, w, maxDeq);
    if sl in s.mask && Pri(s, sl) != [] {
      VisitEnds(s, t, sl, w, maxDeq);
      hide Visit;
      if Brings(s, w, Pri(s, sl)[0]) {
        HomeIsPriority(s, Pri(s, sl)[0].q, sl);
      } else if w.eligible(q) {
        PassedIsCloser(s, r, t, sl, w, q);
      }
    } else if Queued(s, q) {
      QueuedIsVisible(s, q);
    }
  }

  /** pri_mask[i] != 0 */
  predicate AnyIn(mask: set<Slot>, i: nat) {
    exists id :: 0 <= id < QUEUES_PER_PRIO && Slot(i, id) in mask
  }

  /** The queue has events, and its command is the next in its priority queue. */
  predicate First(s: State, w: World, q: Qid) {
    w.eligible(q) && Queued(s, q) && Ahead(s, q) == 0
  }

  /** One priority, from the thread's own queue on. */
  method SweepPriority(s: State, t: Tid, thr: Bits.u32, prio: nat, w: World, maxDeq: nat, ghost q: Qid) returns (r: State, got: Option<Slot>)
    requires Inv(s) && Idle(s, t) && maxDeq >= 1
    ensures Inv(r) && if got.Some? then BroughtFor(s, r, t, got.value, w, maxDeq) else Idle(r, t) && SameWork(s, r)
    ensures got.None? && w.eligible(q) ==> Closer(s, r, q, prio == HomeSlot(s, q).prio)
    ensures got.Some? ==> got.value.prio == prio && got.value.id < QUEUES_PER_PRIO
    ensures got.Some? && First(s, w, q) && HomeSlot(s, q).prio >= prio ==> !Before(thr % QUEUES_PER_PRIO, HomeSlot(s, q), got.value)
  {
    hide Inv, Visit, Queued, Ahead, SameWork, BroughtFor;
    SameWorkSelf(s);
    Bits.AndThree(thr);
    var id, j := Bits.And(thr, QUEUES_PER_PRIO - 1), 0;
    ghost var first, home := id, HomeSlot(s, q);
    r := s;
    while j < QUEUES_PER_PRIO
      invariant 0 <= j <= QUEUES_PER_PRIO && id == first + j - if first + j <= QUEUES_PER_PRIO then 0 else QUEUES_PER_PRIO
      invariant Inv(r) && SameWork(s, r) && Idle(r, t)
      invariant w.eligible(q) ==> Closer(s, r, q, prio == home.prio && Rank(first, home.id) < j)
    {
      if id >= QUEUES_PER_PRIO {
        id := 0;
      }
      assert Rank(first, id) == j;
      VisitIsCloser(r, t, Slot(prio, id), w, maxDeq, q);
      ghost var s1 := r;
      r := Visit(r, t, Slot(prio, id), w, maxDeq);
      if Loc(r, t).phase.Served? {
        BroughtBefore(s, s1, r, t, Slot(prio, id), w, maxDeq);
        return r, Some(Slot(prio, id));
      }
      SameWorkOn(s, s1, r);
      j, id := j + 1, id + 1;
    }
    got := None;
  }

  /** The loops of schedule(): without events every command that waits comes nearer to its turn, and events
      come from no later a place in the search than that of a queue which is next in its priority queue. */
  method Sweep(s: State, t: Tid, thr: Bits.u32, prios: nat, w: World, maxDeq: nat, ghost q: Qid) returns (r: State, got: Option<Slot>)
    requires Inv(s) && Idle(s, t) && maxDeq >= 1
    ensures Inv(r) && if got.Some? then BroughtFor(s, r, t, got.value, w, maxDeq) else Idle(r, t) && SameWork(s, r)
    ensures got.None? && w.eligible(q) ==> Closer(s, r, q, HomeSlot(s, q).prio < prios)
    ensures got.Some? ==> got.value.prio < prios && got.value.id < QUEUES_PER_PRIO
    ensures got.Some? && First(s, w, q) ==> !Before(thr % QUEUES_PER_PRIO, HomeSlot(s, q), got.value)
  {
    hide Inv, Queued, Ahead, Idle, SameWork, BroughtFor;
    SameWorkSelf(s);
    var i := 0;
    r := s;
    while i < prios
      invariant 0 <= i <= prios && Inv(r) && SameWork(s, r) && Idle(r, t)
      invariant w.eligible(q) ==> Closer(s, r, q, HomeSlot(s, q).prio < i)
    {
      if AnyIn(r.mask, i) {
        ghost var s1 := r;
        r, got := SweepPriority(r, t, thr, i, w, maxDeq, q);
        if got.Some? {
          BroughtBefore(s, s1, r, t, got.value, w, maxDeq);
          return;
        }
        SameWorkOn(s, s1, r);
      } else {
        NotSkipped(r, i, q);
      }
      i := i + 1;
    }
    got := None;
  }

  lemma NotSkipped(s: State, i: nat, q: Qid)
    requires Inv(s) && !AnyIn(s.mask, i)
    ensures Queued(s, q) ==> HomeSlot(s, q).prio != i
  {
    if Queued(s, q) {
      QueuedIsVisible(s, q);
      var home := HomeSlot(s, q);
      assert home == Slot(home.prio, home.id);
    }
  }

  /** The thread is in the application, and nothing is left to be done for an enqueue. */
  predicate Calling(l: Local) {
    l.phase.App? && l.waking.None?
  }

  /** Events [from, from + n) of instance i were handed over, in order. */
  predicate Handed(log: map<Inst, seq<nat>>, log': map<Inst, seq<nat>>, i: Inst, from: nat, n: nat) {
    log' == Set(log, i, Get(log, i, []) + Range(from, n))
  }

  ghost predicate SomeHanded(log: map<Inst, seq<nat>>, log': map<Inst, seq<nat>>, n: nat) {
    exists i, from :: Handed(log, log', i, from, n)
  }

  /** The command of the queue is the next in some priority queue. */
  ghost predicate IsNext(s: State, q: Qid) {
    exists sl :: Pri(s, sl) != [] && Pri(s, sl)[0] == DequeueCmd(q)
  }

  /** Queue p comes no later than q in the search of a thread: by priority, and then by how far on from the thread's
      own number theirs is, modulo four. */
  predicate NoLater(s: State, thr: nat, p: Qid, q: Qid) {
    Ent(s, p).prio < Ent(s, q).prio || (Ent(s, p).prio == Ent(s, q).prio && (p - thr) % 4 <= (q - thr) % 4)
  }

  /** The queue has events, and its command is in its priority queue or kept by this thread. */
  predicate Waiting(s: State, t: Tid, q: Qid) {
    Queued(s, q) || (Ent(s, q).queue.events != [] && Loc(s, t).held.Some? && Loc(s, t).held.value.1 == DequeueCmd(q))
  }

  /** copy_events */
  lemma DeliversNow(r: State, t: Tid, n: nat)
    requires Inv(r) && Loc(r, t).waking.None? && (Loc(r, t).phase.App? || Loc(r, t).phase.Served?) && 1 <= n <= |Loc(r, t).cache.evs|
    ensures var r' := AfterDeliver(r, t, n);
      && Inv(r') && Handed(r.log, r'.log, Loc(r, t).cache.inst, Loc(r, t).cache.from, n)
      && Loc(r', t).phase == Loc(r, t).phase && Loc(r', t).waking.None?
  {
    var r', ca := AfterDeliver(r, t, n), Loc(r, t).cache;
    InvStep(r, t, Context(Deliver(n)), r');
    hide Inv, Set;
    assert r'.log == Set(r.log, ca.inst, Log(r, ca.inst) + Range(ca.from, n));
  }

  lemma Keeps(r: State, t: Tid)
    requires Inv(r) && Loc(r, t).phase.Served? && Loc(r, t).phase.cmd.DequeueCmd? && Loc(r, t).waking.None?
    ensures var r' := AfterKeep(r, t); Inv(r') && r'.log == r.log && Calling(Loc(r', t))
  {
    BackInApp(r, t);
    hide Inv, AfterKeep;
    InvStep(r, t, Step.Schedule(Keep), AfterKeep(r, t));
  }

  lemma BackInApp(r: State, t: Tid)
    requires Loc(r, t).phase.Served? && Loc(r, t).phase.cmd.DequeueCmd? && Loc(r, t).waking.None?
    ensures var r' := AfterKeep(r, t); r'.log == r.log && Calling(Loc(r', t))
  {
    hide AfterKeep;
    if Ent(r, Loc(r, t).phase.cmd.q).sync.Atomic? {
      BackHolding(r, t);
    } else {
      BackFree(r, t);
    }
  }

  lemma BackHolding(r: State, t: Tid)
    requires Loc(r, t).phase.Served? && Loc(r, t).phase.cmd.DequeueCmd? && Loc(r, t).waking.None?
    requires Ent(r, Loc(r, t).phase.cmd.q).sync.Atomic?
    ensures var r' := AfterKeep(r, t); r'.log == r.log && Calling(Loc(r', t))
  {
    hide Set;
  }

  lemma BackFree(r: State, t: Tid)
    requires Loc(r, t).phase.Served? && Loc(r, t).phase.cmd.DequeueCmd? && Loc(r, t).waking.None?
    requires !Ent(r, Loc(r, t).phase.cmd.q).sync.Atomic?
    ensures var r' := AfterKeep(r, t); r'.log == r.log && Calling(Loc(r', t))
  {
    hide Set;
  }

  /** odp_schedule_release_context: a command the thread kept goes behind the others. */
  lemma Released(s: State, t: Tid, r: State, q: Qid)
    requires Inv(s) && Calling(Loc(s, t)) && Loc(s, t).cache.evs == []
    requires r == if Loc(s, t).held.Some? then AfterRelease(s, t) else s
    ensures Inv(r) && Idle(r, t) && SameWork(s, r)
    ensures Waiting(s, t, q) ==> Queued(r, q) && Ent(r, q) == Ent(s, q) && Ahead(r, q) == Ahead(s, q)
  {
    SameWorkSelf(s);
    if Loc(s, t).held.Some? {
      InvStep(s, t, Context(ReleaseAtomic), r);
      hide Set;
      if Waiting(s, t, q) {
        HeldGoesHome(s, t);
        hide Inv;
        var sl, d := Loc(s, t).held.value.0, Loc(s, t).held.value.1;
        assert Get(r.pri, HomeSlot(s, q), []) == if HomeSlot(s, q) == sl then Pri(s, sl) + [d] else Pri(s, HomeSlot(s, q));
        if HomeSlot(s, q) == sl {
          PositionAppend(Pri(s, sl), DequeueCmd(q), d);
        }
      }
    }
  }

  lemma HeldGoesHome(s: State, t: Tid)
    requires Inv(s) && Loc(s, t).held.Some?
    ensures var (sl, d) := Loc(s, t).held.value; d.DequeueCmd? && sl == HomeSlot(s, d.q)
  {
    var d := Loc(s, t).held.value.1;
    HeldIsLive(s, t, d);
    assert RegistersOk(Get(s.threads, t, NoLocal), d, HomeOf(s.live, d), EntryOf(s, d));
  }

  /** A queue that is next, seen after the release. */
  lemma NextIsFirst(s: State, w: World, t: Tid, r: State, q: Qid)
    requires Inv(s) && Inv(r) && w.eligible(q) && Ent(s, q).queue.events != [] && IsNext(s, q)
    requires Waiting(s, t, q) ==> Queued(r, q) && Ent(r, q) == Ent(s, q) && Ahead(r, q) == Ahead(s, q)
    ensures First(r, w, q) && Ent(r, q) == Ent(s, q) && HomeSlot(r, q) == Slot(Ent(s, q).prio, q % 4)
  {
    var sl :| Pri(s, sl) != [] && Pri(s, sl)[0] == DequeueCmd(q);
    HomeIsPriority(s, q, sl);
    assert HomeSlot(s, q) == sl by {
      QueuedIsUnmasked(s, sl, DequeueCmd(q));
      At(s, DequeueCmd(q));
    }
  }

  lemma RankIsMod(thr: nat, p: nat)
    ensures Rank(thr % 4, p % 4) == (p - thr) % 4
  {
    var a, b := thr % 4, p % 4;
    Bits.ModUnique(p - thr, 4, p / 4 - thr / 4 - if b >= a then 0 else 1, Rank(a, b));
  }

  lemma OrderIsKept(s: State, thr: nat, p: Qid, q: Qid)
    requires !Before(thr % QUEUES_PER_PRIO, Slot(Ent(s, q).prio, q % 4), Slot(Ent(s, p).prio, p % 4))
    ensures NoLater(s, thr, p, q)
  {
    RankIsMod(thr, p);
    RankIsMod(thr, q);
  }

  /** The oldest events of a queue of the thread's groups were handed over, as many as there are, as the thread
      dequeues at a time, and as the caller has room for. */
  predicate FromQueue(s: State, r: State, w: World, p: Qid, n: nat, maxNum: nat, maxDeq: nat) {
    var e := Ent(s, p);
    && w.eligible(p) && n == Min(maxNum, Min(maxDeq, |e.queue.events|))
    && Handed(s.log, r.log, e.inst, |Drawn(s, e.inst)|, n)
  }

  /** schedule() called by a thread that nobody disturbs: it hands over what the thread has left from before, or the
      events of a queue p, which no queue that has events and is next comes before; or, without events, it has
      brought the command of every waiting queue of the thread's groups nearer to its turn. */
  method Schedule(s: State, t: Tid, thr: Bits.u32, prios: nat, w: World, maxNum: nat, maxDeq: nat, ghost q: Qid) returns (r: State, n: nat, p: Qid)
    requires Inv(s) && Calling(Loc(s, t)) && maxNum >= 1 && maxDeq >= 1
    ensures Inv(r) && Calling(Loc(r, t))
    ensures var ca := Loc(s, t).cache;
      ca.evs != [] ==> n == Min(maxNum, |ca.evs|) && p == Home(s, ca.inst).q && Handed(s.log, r.log, ca.inst, ca.from, n)
    ensures Loc(s, t).cache.evs == [] && n > 0 ==> FromQueue(s, r, w, p, n, maxNum, maxDeq)
    ensures Loc(s, t).cache.evs == [] && n > 0 && w.eligible(q) && Ent(s, q).queue.events != [] && IsNext(s, q) ==> NoLater(s, thr, p, q)
    ensures n == 0 ==> r.log == s.log
    ensures n == 0 && Waiting(s, t, q) && w.eligible(q) && Ent(s, q).prio < prios ==>
      Waiting(r, t, q) && Ahead(r, q) < Ahead(s, q) && Ent(r, q) == Ent(s, q)
  {
    hide Inv, Queued, Ahead, Handed, First, IsNext, NoLater, BroughtFor, Before;
    if Loc(s, t).cache.evs != [] {
      n, p := Min(maxNum, |Loc(s, t).cache.evs|), Home(s, Loc(s, t).cache.inst).q;
      DeliversNow(s, t, n);
      return AfterDeliver(s, t, n), n, p;
    }
    r, p := s, 0;
    if Loc(s, t).held.Some? {
      r := AfterRelease(s, t);
    }
    Released(s, t, r, q);
    ghost var s1 := r;
    var got;
    r, got := Sweep(r, t, thr, prios, w, maxDeq, q);
    if got.Some? {
      BroughtBefore(s, s1, r, t, got.value, w, maxDeq);
      r, n, p := Finish(s, r, t, got.value, w, maxNum, maxDeq);
      if w.eligible(q) && Ent(s, q).queue.events != [] && IsNext(s, q) {
        NextIsFirst(s, w, t, s1, q);
        OrderIsKept(s, thr, p, q);
      }
    } else {
      n := 0;
    }
  }

  /** Events were found: they are handed over, and the command is kept or goes on being scheduled. */
  method Finish(ghost s: State, r: State, t: Tid, ghost sl: Slot, ghost w: World, maxNum: nat, ghost maxDeq: nat) returns (r': State, n: nat, p: Qid)
    requires Inv(r) && BroughtFor(s, r, t, sl, w, maxDeq) && maxNum >= 1 && maxDeq >= 1
    ensures Inv(r') && Calling(Loc(r', t)) && n > 0 && FromQueue(s, r', w, p, n, maxNum, maxDeq) && sl == Slot(Ent(s, p).prio, p % 4)
  {
    hide Inv, Handed;
    p := Loc(r, t).phase.cmd.q;
    n := Min(maxNum, |Loc(r, t).cache.evs|);
    DeliversNow(r, t, n);
    r' := AfterDeliver(r, t, n);
    Keeps(r', t);
    r' := AfterKeep(r', t);
  }

  /** Every other thread is done with the queue's command. */
  ghost predicate NobodyElse(s: State, t: Tid, q: Qid) {
    forall u {:trigger Loc(s, u)} :: u != t ==> Tokens(Loc(s, u), DequeueCmd(q)) == 0
  }

  lemma EventsWait(run: seq<State>, moves: seq<Move>, t: Tid, q: Qid)
    requires Run(run, moves) && Ent(run[|moves|], q).queue.events != [] && NobodyElse(run[|moves|], t, q) && Calling(Loc(run[|moves|], t))
    ensures Waiting(run[|moves|], t, q)
  {
    var s, c := run[|moves|], DequeueCmd(q);
    NoLostWakeup(run, moves, |moves|, q);
    RunKeeps(run, moves, |moves|);
    if TokenInPriQueue(s, c) {
      assert s.live[c] == HomeSlot(s, q) by {
        At(s, c);
      }
      assert c in multiset(Pri(s, s.live[c]));
    } else {
      var u :| TokenWithThread(s, c, u);
      assert Tokens(Loc(s, u), c) == 1;
    }
  }

  /** odp_schedule with ODP_SCHED_WAIT: in whatever state the threads have left the scheduler, if a queue of the
      caller's groups has events and its command is with no other thread, and nobody disturbs the caller, then
      it returns, with events. */
  method ScheduleWait(s: State, t: Tid, thr: Bits.u32, prios: nat, w: World, maxNum: nat, maxDeq: nat,
                      ghost run: seq<State>, ghost moves: seq<Move>, ghost q: Qid) returns (r: State, n: nat)
    requires Run(run, moves) && s == run[|moves|] && Calling(Loc(s, t)) && maxNum >= 1 && maxDeq >= 1
    requires Ent(s, q).queue.events != [] && w.eligible(q) && Ent(s, q).prio < prios && NobodyElse(s, t, q)
    ensures n > 0 && SomeHanded(s.log, r.log, n) && Inv(r) && Calling(Loc(r, t))
  {
    RunKeeps(run, moves, |moves|);
    EventsWait(run, moves, t, q);
    hide Inv, Waiting, Ahead, Handed, NoLater;
    r, n := s, 0;
    while n == 0
      invariant Inv(r) && Calling(Loc(r, t))
      invariant if n > 0 then SomeHanded(s.log, r.log, n) else r.log == s.log && Waiting(r, t, q) && Ent(r, q) == Ent(s, q)
      decreases if n == 0 then Ahead(r, q) + 1 else 0
    {
      var p;
      r, n, p := Schedule(r, t, thr, prios, w, maxNum, maxDeq, q);
    }
  }
}
