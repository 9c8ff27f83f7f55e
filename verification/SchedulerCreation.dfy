/** The window inside odp_queue_create: the entry is published before its command is allocated. What
    becomes of events enqueued by a thread that found the queue by name in between. */
module SchedulerCreation {
  import opened QueueSpec
  import opened Tables
  import opened Wrappers
  import opened Scheduler
  import opened SchedulerTokens
  import opened SchedulerLifecycle
  import opened SchedulerRuns

  /** A step keeps the invariant exactly when it does not use a queue whose creation has not returned
      its handle. */
  lemma DisciplineIsExact(s: State, t: Tid, step: Step, s': State)
    requires Inv(s) && AnyNext(s, t, step, s')
    ensures Inv(s') <==> Disciplined(s, step)
  {
    if Disciplined(s, step) {
      InvStep(s, t, step, s');
    } else if step.m.EnqueueEvents? {
      EnqueuedTooEarly(s, t, step.m.q, step.m.evs);
    } else {
      DestroyedTooEarly(s, step.m.q);
    }
  }

  /** An enqueue puts the queue into scheduling, and there is no command to schedule. */
  lemma EnqueuedTooEarly(s: State, t: Tid, q: Qid, evs: seq<Event>)
    requires TokenInv(s) && Unfinished(s, q)
    ensures !TokenInv(AfterEnqueue(s, t, q, evs))
  {
    var c, s' := DequeueCmd(q), AfterEnqueue(s, t, q, evs);
    At(s, c);
    if TokenInv(s') {
      At(s', c);
    }
  }

  /** A destroy gives up a place in the priority queue that was never taken. */
  lemma DestroyedTooEarly(s: State, q: Qid)
    requires TokenInv(s) && CountInv(s) && Unfinished(s, q)
    ensures !CountInv(AfterDestroy(s, q))
  {
    var c, s', home := DequeueCmd(q), AfterDestroy(s, q), SlotOf(q, Ent(s, q).prio);
    At(s, c);
    assert CountAt(s, home);
    assert s'.live == s.live;
    assert !CountAt(s', home);
  }

  // ---------- what goes wrong ----------

  /** A run in which threads may also use queues they found by name. */
  ghost predicate AnyRun(run: seq<State>, moves: seq<Move>) {
    && |run| == |moves| + 1
    && forall k :: 0 <= k < |moves| ==> AnyNext(run[k], moves[k].t, moves[k].step, run[k + 1])
  }

  /** A queue with events that is in scheduling, without a command for schedule() to find. */
  ghost predicate Stranded(s: State, q: Qid) {
    && Ent(s, q).queue.status.Sched? && Ent(s, q).queue.events != [] && Ent(s, q).creator.None?
    && DequeueCmd(q) !in s.live
    && (forall sl {:trigger Get(s.pri, sl, [])} :: DequeueCmd(q) !in Get(s.pri, sl, []))
    && forall t {:trigger Get(s.threads, t, NoLocal)} :: Unserving(Get(s.threads, t, NoLocal), DequeueCmd(q))
  }

  predicate Unserving(l: Local, c: Cmd) {
    (l.phase.App? || l.phase.cmd != c) && (l.held.None? || l.held.value.1 != c)
  }

  /** Early events, then the allocation of the command fails, or had failed before: they are stranded. */
  lemma EarlyUseStrands(s: State, u: Tid, q: Qid, evs: seq<Event>)
    requires Inv(s) && Unfinished(s, q) && MayEnqueue(Loc(s, u)) && evs != []
    ensures Stranded(Returned(AfterEnqueue(s, u, q, evs), q), q)
  {
    hide Set;
    var c, s' := DequeueCmd(q), Returned(AfterEnqueue(s, u, q, evs), q);
    At(s, c);
    forall sl ensures c !in Get(s'.pri, sl, []) {
      assert multiset(Get(s.pri, sl, []))[c] == 0;
    }
    forall t ensures Unserving(Get(s'.threads, t, NoLocal), c) {
      assert Tokens(Get(s.threads, t, NoLocal), c) == 0;
    }
  }

  /** Early events, then the allocation succeeds: the state is the one in which the queue was used after its
      creation, so nothing is lost. */
  lemma EarlyUseRecovers(s: State, u: Tid, t: Tid, q: Qid, evs: seq<Event>)
    requires Inv(s) && Ent(s, q).creator == Some(t) && MayEnqueue(Loc(s, u)) && evs != []
    ensures Inv(AfterInit(AfterEnqueue(s, u, q, evs), q))
  {
    var s1 := AfterInit(s, q);
    InvStep(s, t, Manage(InitCommand(q)), s1);
    InvStep(s1, u, Manage(EnqueueEvents(q, evs)), AfterEnqueue(s1, u, q, evs));
    At(s, DequeueCmd(q));
    EarlyIsLate(s, u, q, evs);
  }

  lemma EarlyIsLate(s: State, u: Tid, q: Qid, evs: seq<Event>)
    requires Ent(s, q).queue.status.NotSched?
    ensures AfterInit(AfterEnqueue(s, u, q, evs), q) == AfterEnqueue(AfterInit(s, q), u, q, evs)
  {
    var e := Ent(s, q);
    var queue := Enqueue(e.queue, evs).q;
    SetTwice(s.queues, q, e.(queue := queue), e.(queue := queue, creator := None));
    SetTwice(s.queues, q, e.(creator := None), e.(queue := queue, creator := None));
    hide Set;
  }

  lemma SetTwice(m: map<Qid, Entry>, q: Qid, e: Entry, e': Entry)
    ensures Get(Set(m, q, e), q, NoEntry) == e && Set(Set(m, q, e), q, e') == Set(m, q, e')
  {
  }

  /** So an early enqueue is harmless if and only if the creation then succeeds. */
  lemma EarlyUseIff(s: State, u: Tid, t: Tid, q: Qid, evs: seq<Event>, step: ManageStep, s': State)
    requires Inv(s) && Unfinished(s, q) && MayEnqueue(Loc(s, u)) && evs != []
    requires (step == InitCommand(q) || step == InitFails(q)) && ManageNext(AfterEnqueue(s, u, q, evs), t, step, s')
    ensures Inv(s') <==> step == InitCommand(q)
  {
    hide Inv, Stranded, AfterInit, Unfinished;
    NotUsedYet(s, q);
    if step == InitCommand(q) {
      CreatorKept(s, u, q, evs);
      EarlyUseRecovers(s, u, t, q, evs);
    } else {
      EarlyUseStrands(s, u, q, evs);
      StrandedIsBroken(s', q);
    }
  }

  lemma NotUsedYet(s: State, q: Qid)
    requires Inv(s) && Unfinished(s, q)
    ensures Ent(s, q).queue == Queue(NotSched, [])
  {
    At(s, DequeueCmd(q));
  }

  lemma CreatorKept(s: State, u: Tid, q: Qid, evs: seq<Event>)
    requires Ent(s, q).queue.status.NotSched?
    ensures Ent(AfterEnqueue(s, u, q, evs), q).creator == Ent(s, q).creator
  {
    hide Set;
  }

  lemma StrandedIsBroken(s: State, q: Qid)
    requires Stranded(s, q)
    ensures !Inv(s)
  {
    if Inv(s) {
      At(s, DequeueCmd(q));
    }
  }

  /** It happens: thread 0 publishes queue 0, thread 1 finds it by name and enqueues an event, and the
      allocation of the command fails. Only the enqueue is undisciplined. */
  lemma EarlyUseHappens(ev: Event) returns (run: seq<State>, moves: seq<Move>)
    ensures AnyRun(run, moves) && |moves| == 3 && Init(run[0]) && Stranded(run[3], 0)
    ensures Disciplined(run[0], moves[0].step) && !Disciplined(run[1], moves[1].step) && Disciplined(run[2], moves[2].step)
  {
    var s0 := State(map[], map[], map[], {}, map[], map[], map[], 0, map[], map[], map[], map[], map[]);
    InitInv(s0);
    run, moves := EarlyUseFrom(s0, 0, 1, 0, ev);
  }

  lemma EarlyUseFrom(s0: State, t: Tid, u: Tid, q: Qid, ev: Event) returns (run: seq<State>, moves: seq<Move>)
    requires Inv(s0) && Ent(s0, q).queue.status.Free? && MayEnqueue(Loc(s0, u))
    ensures AnyRun(run, moves) && |moves| == 3 && run[0] == s0 && Stranded(run[3], q)
    ensures Disciplined(run[0], moves[0].step) && !Disciplined(run[1], moves[1].step) && Disciplined(run[2], moves[2].step)
  {
    hide Inv, Stranded, Set;
    var s1 := AfterPublish(s0, t, q, Atomic, 0);
    var s2 := AfterEnqueue(s1, u, q, [ev]);
    InvStep(s0, t, Manage(Publish(q, Atomic, 0)), s1);
    NoCommandYet(s0, q);
    EarlyUseStrands(s1, u, q, [ev]);
    CreatorKept(s1, u, q, [ev]);
    run := [s0, s1, s2, Returned(s2, q)];
    moves := [Move(t, Manage(Publish(q, Atomic, 0))), Move(u, Manage(EnqueueEvents(q, [ev]))), Move(t, Manage(InitFails(q)))];
  }

  lemma NoCommandYet(s: State, q: Qid)
    requires Inv(s) && Ent(s, q).queue.status.Free?
    ensures DequeueCmd(q) !in s.live
  {
    At(s, DequeueCmd(q));
  }

  /** Nothing that any thread does afterwards brings the events out. */
  lemma {:induction false} StrandedForever(run: seq<State>, moves: seq<Move>, q: Qid, k: nat)
    requires AnyRun(run, moves) && Stranded(run[0], q) && k < |run|
    ensures Stranded(run[k], q)
  {
    if k > 0 {
      StrandedForever(run, moves, q, k - 1);
      StrandedStep(run[k - 1], moves[k - 1].t, moves[k - 1].step, run[k], q);
    }
  }

  lemma StrandedStep(s: State, t: Tid, step: Step, s': State, q: Qid)
    requires Stranded(s, q) && AnyNext(s, t, step, s')
    ensures Stranded(s', q)
  {
    match step
    case Manage(m) => StrandedManage(s, t, m, s', q);
    case Schedule(w) => StrandedSchedule(s, t, w, s', q);
    case Context(x) => StrandedContext(s, t, x, s', q);
  }

  /** The queue itself, seen from a step that leaves it in scheduling. */
  predicate StillQueued(e: Entry, live: map<Cmd, Slot>, q: Qid) {
    e.queue.status.Sched? && e.queue.events != [] && e.creator.None? && DequeueCmd(q) !in live
  }

  lemma StrandedKept(s: State, s': State, t: Tid, l: Local, q: Qid)
    requires Stranded(s, q) && StillQueued(Ent(s', q), s'.live, q) && s'.pri == s.pri
    requires s'.threads == Set(s.threads, t, l) && Unserving(l, DequeueCmd(q))
    ensures Stranded(s', q)
  {
  }

  lemma StrandedStill(s: State, s': State, q: Qid)
    requires Stranded(s, q) && StillQueued(Ent(s', q), s'.live, q) && s'.pri == s.pri && s'.threads == s.threads
    ensures Stranded(s', q)
  {
  }

  lemma StrandedNow(s: State, t: Tid, q: Qid)
    requires Stranded(s, q)
    ensures StillQueued(Ent(s, q), s.live, q) && Unserving(Get(s.threads, t, NoLocal), DequeueCmd(q))
  {
  }

  lemma StrandedPush(s: State, sl: Slot, d: Cmd, q: Qid)
    requires Stranded(s, q) && d != DequeueCmd(q)
    ensures Stranded(Push(s, sl, d), q)
  {
  }

  lemma StrandedManage(s: State, t: Tid, m: ManageStep, s': State, q: Qid)
    requires Stranded(s, q) && ManageNext(s, t, m, s')
    ensures Stranded(s', q)
  {
    var l := Loc(s, t);
    match m
    case EnqueueEvents(q0, evs) => StrandedEnqueue(s, t, q0, evs, q);
    case Wake =>
      StrandedKept(s, SetLoc(s, t, l.(waking := None)), t, l.(waking := None), q);
      StrandedPush(SetLoc(s, t, l.(waking := None)), SlotOf(l.waking.value.q, Ent(s, l.waking.value.q).prio), l.waking.value, q);
    case StartPoll(pktio, n, prio) =>
      var c, sl := PollCmd(pktio, n), Slot(prio, pktio % QUEUES_PER_PRIO);
      StrandedStill(s, PriSet(s, c, sl), q);
      StrandedPush(PriSet(s, c, sl), sl, c, q);
    case DestroyQueue(q0) => StrandedDestroy(s, q0, q);
    case _ => StrandedStill(s, s', q);
  }

  lemma StrandedEnqueue(s: State, t: Tid, q0: Qid, evs: seq<Event>, q: Qid)
    requires Stranded(s, q) && MayEnqueue(Loc(s, t))
    ensures Stranded(AfterEnqueue(s, t, q0, evs), q)
  {
    if Enqueue(Ent(s, q0).queue, evs).wake {
      StrandedEnqueueWakes(s, t, q0, evs, q);
    } else {
      StrandedEnqueueOnly(s, t, q0, evs, q);
    }
  }

  lemma StrandedEnqueueWakes(s: State, t: Tid, q0: Qid, evs: seq<Event>, q: Qid)
    requires Stranded(s, q) && MayEnqueue(Loc(s, t)) && Enqueue(Ent(s, q0).queue, evs).wake
    ensures Stranded(AfterEnqueue(s, t, q0, evs), q)
  {
    StrandedNow(s, t, q);
    StrandedKept(s, AfterEnqueue(s, t, q0, evs), t, Loc(s, t).(waking := Some(DequeueCmd(q0))), q);
  }

  lemma StrandedEnqueueOnly(s: State, t: Tid, q0: Qid, evs: seq<Event>, q: Qid)
    requires Stranded(s, q) && !Enqueue(Ent(s, q0).queue, evs).wake
    ensures Stranded(AfterEnqueue(s, t, q0, evs), q)
  {
    if Enqueue(Ent(s, q0).queue, evs).ok {
      StrandedStill(s, AfterEnqueue(s, t, q0, evs), q);
    }
  }

  lemma StrandedDestroy(s: State, q0: Qid, q: Qid)
    requires Stranded(s, q)
    ensures Stranded(AfterDestroy(s, q0), q)
  {
    StrandedStill(s, AfterDestroy(s, q0), q);
  }

  lemma StrandedSchedule(s: State, t: Tid, w: ScheduleStep, s': State, q: Qid)
    requires Stranded(s, q) && ScheduleNext(s, t, w, s')
    ensures Stranded(s', q)
  {
    var l := Loc(s, t);
    assert Unserving(Get(s.threads, t, NoLocal), DequeueCmd(q));
    match w
    case PollStops => StrandedKept(s, s', t, l.(phase := App), q);
    case PollContinues => StrandedPutBack(s, t, q);
    case NotEligible => StrandedPutBack(s, t, q);
    case Serve(maxDeq) => StrandedServe(s, t, maxDeq, q);
    case Finalize => StrandedFinalize(s, t, q);
    case Keep => StrandedKeep(s, t, q);
  }

  lemma StrandedPutBack(s: State, t: Tid, q: Qid)
    requires Stranded(s, q) && Loc(s, t).phase.Taken?
    ensures Stranded(AfterPutBack(s, t), q)
  {
    var l := Get(s.threads, t, NoLocal);
    StrandedKept(s, SetLoc(s, t, l.(phase := App)), t, l.(phase := App), q);
    StrandedPush(SetLoc(s, t, l.(phase := App)), l.phase.slot, l.phase.cmd, q);
  }

  lemma StrandedServe(s: State, t: Tid, maxDeq: nat, q: Qid)
    requires Stranded(s, q) && Loc(s, t).phase.Taken? && Loc(s, t).phase.cmd.DequeueCmd?
    ensures Stranded(AfterServe(s, t, maxDeq), q)
  {
    var out := DequeueMulti(Ent(s, Loc(s, t).phase.cmd.q).queue, maxDeq);
    if out.rc < 0 {
      StrandedServeDead(s, t, q);
    } else if out.rc == 0 {
      StrandedServeEmpty(s, t, out.q, q);
    } else {
      StrandedServeEvents(s, t, out.q, out.evs, q);
    }
  }

  lemma StrandedServeDead(s: State, t: Tid, q: Qid)
    requires Stranded(s, q) && Loc(s, t).phase.Taken?
    ensures Stranded(ServeDead(s, t), q)
  {
    StrandedNow(s, t, q);
    StrandedKept(s, ServeDead(s, t), t, Loc(s, t).(phase := Dead(Loc(s, t).phase.cmd)), q);
  }

  lemma StrandedServeEmpty(s: State, t: Tid, queue: Queue, q: Qid)
    requires Stranded(s, q) && Loc(s, t).phase.Taken? && Loc(s, t).phase.cmd.DequeueCmd?
    ensures Stranded(ServeEmpty(s, t, queue), q)
  {
    StrandedNow(s, t, q);
    StrandedKept(s, ServeEmpty(s, t, queue), t, Loc(s, t).(phase := App), q);
  }

  lemma StrandedServeEvents(s: State, t: Tid, queue: Queue, evs: seq<Event>, q: Qid)
    requires Stranded(s, q) && Loc(s, t).phase.Taken? && Loc(s, t).phase.cmd.DequeueCmd?
    ensures Stranded(ServeEvents(s, t, queue, evs), q)
  {
    StrandedNow(s, t, q);
    var s' := ServeEvents(s, t, queue, evs);
    StrandedKept(s, s', t, Loc(s', t), q);
  }

  lemma StrandedFinalize(s: State, t: Tid, q: Qid)
    requires Stranded(s, q) && Loc(s, t).phase.Dead? && Loc(s, t).phase.cmd.DequeueCmd?
    ensures Stranded(AfterFinalize(s, t), q)
  {
    var q0 := Loc(s, t).phase.cmd.q;
    var out := DestroyFinalize(Ent(s, q0).queue);
    StrandedFinalizeQueue(s, t, out.q, q);
    if out.freeCommand {
      StrandedStill(FinalizeQueue(s, t, out.q), AfterFinalize(s, t), q);
    }
  }

  lemma StrandedFinalizeQueue(s: State, t: Tid, queue: Queue, q: Qid)
    requires Stranded(s, q) && Loc(s, t).phase.Dead? && Loc(s, t).phase.cmd.DequeueCmd?
    ensures Stranded(FinalizeQueue(s, t, queue), q)
  {
    StrandedNow(s, t, q);
    StrandedKept(s, FinalizeQueue(s, t, queue), t, Loc(s, t).(phase := App), q);
  }

  lemma StrandedKeep(s: State, t: Tid, q: Qid)
    requires Stranded(s, q) && Loc(s, t).phase.Served? && Loc(s, t).phase.cmd.DequeueCmd?
    ensures Stranded(AfterKeep(s, t), q)
  {
    if Ent(s, Loc(s, t).phase.cmd.q).sync.Atomic? {
      StrandedKeepHeld(s, t, q);
    } else {
      StrandedKeepParallel(s, t, q);
    }
  }

  lemma StrandedKeepHeld(s: State, t: Tid, q: Qid)
    requires Stranded(s, q) && Loc(s, t).phase.Served? && Loc(s, t).phase.cmd.DequeueCmd?
    requires Ent(s, Loc(s, t).phase.cmd.q).sync.Atomic?
    ensures Stranded(AfterKeep(s, t), q)
  {
    StrandedNow(s, t, q);
    var l := Loc(s, t);
    StrandedKept(s, AfterKeep(s, t), t, l.(phase := App, held := Some((l.phase.slot, l.phase.cmd))), q);
  }

  lemma StrandedKeepParallel(s: State, t: Tid, q: Qid)
    requires Stranded(s, q) && Loc(s, t).phase.Served? && Loc(s, t).phase.cmd.DequeueCmd?
    requires !Ent(s, Loc(s, t).phase.cmd.q).sync.Atomic?
    ensures Stranded(AfterKeep(s, t), q)
  {
    StrandedNow(s, t, q);
    var l := Loc(s, t);
    StrandedKept(s, SetLoc(s, t, l.(phase := App)), t, l.(phase := App), q);
    StrandedPush(SetLoc(s, t, l.(phase := App)), l.phase.slot, l.phase.cmd, q);
  }

  lemma StrandedContext(s: State, t: Tid, x: ContextStep, s': State, q: Qid)
    requires Stranded(s, q) && ContextNext(s, t, x, s')
    ensures Stranded(s', q)
  {
  }
}
