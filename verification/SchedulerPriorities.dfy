/** Which priority queue a command is in: the one of the priority its queue was created with. */
module SchedulerPriorities {
  import opened QueueSpec
  import opened Tables
  import opened Wrappers
  import opened Scheduler
  import opened SchedulerTokens
  import opened SchedulerLifecycle
  import opened SchedulerRuns

  /** The command of a queue lives, and is queued, at the queue's own priority, and there at the place that the
      two low bits of the queue number give. */
  lemma HomeIsPriority(s: State, q: Qid, sl: Slot)
    requires Inv(s)
    ensures DequeueCmd(q) in s.live ==> s.live[DequeueCmd(q)] == Slot(Ent(s, q).prio, q % 4)
    ensures DequeueCmd(q) in Pri(s, sl) ==> sl == Slot(Ent(s, q).prio, q % 4)
  {
    At(s, DequeueCmd(q));
    if DequeueCmd(q) in Pri(s, sl) {
      QueuedIsUnmasked(s, sl, DequeueCmd(q));
    }
  }

  /** In every state of every run. */
  lemma RunHomeIsPriority(run: seq<State>, moves: seq<Move>, k: nat, q: Qid, sl: Slot)
    requires Run(run, moves) && k < |run|
    ensures DequeueCmd(q) in run[k].live ==> run[k].live[DequeueCmd(q)] == Slot(Ent(run[k], q).prio, q % 4)
    ensures DequeueCmd(q) in Pri(run[k], sl) ==> sl == Slot(Ent(run[k], q).prio, q % 4)
  {
    RunKeeps(run, moves, k);
    HomeIsPriority(run[k], q, sl);
  }

  /** Starting to poll an interface puts a command behind the others of its priority, where its mask bit
      shows it. */
  lemma PollStarts(s: State, t: Tid, pktio: nat, n: nat, prio: nat, s': State, sl: Slot)
    requires Inv(s) && Next(s, t, Manage(StartPoll(pktio, n, prio)), s')
    ensures Inv(s') && Slot(prio, pktio % 4) in s'.mask && s'.live[PollCmd(pktio, n)] == Slot(prio, pktio % 4)
    ensures Pri(s', sl) == Pri(s, sl) + if sl == Slot(prio, pktio % 4) then [PollCmd(pktio, n)] else []
  {
    InvStep(s, t, Manage(StartPoll(pktio, n, prio)), s');
    hide Inv;
  }

  // ---------- what a queue was created with stays ----------

  /** A queue that is not free was created by this step, with what it was asked for, or was there before and has
      kept its priority, its kind of scheduling and its instance. */
  ghost predicate KeptOrCreated(s: State, step: Step, s': State, q: Qid) {
    var e, e' := Get(s.queues, q, NoEntry), Get(s'.queues, q, NoEntry);
    !e'.queue.status.Free? ==>
      if e.queue.status.Free?
      then step.Manage? && step.m.Publish? && step.m.q == q && e'.prio == step.m.prio && e'.sync == step.m.sync && e'.inst == s.insts
      else e'.prio == e.prio && e'.sync == e.sync && e'.inst == e.inst
  }

  lemma StepKeepsShape(s: State, t: Tid, step: Step, s': State, q: Qid)
    requires AnyNext(s, t, step, s')
    ensures KeptOrCreated(s, step, s', q)
  {
    match step
    case Manage(m) => ManageShape(s, t, m, s', q);
    case Schedule(w) => ScheduleShape(s, t, w, s', q);
    case Context(x) => ContextShape(s, t, x, s', q);
  }

  lemma SameIsKept(s: State, step: Step, s': State, q: Qid)
    requires SameQueues(s, s')
    ensures KeptOrCreated(s, step, s', q)
  {
    assert SameShape(Get(s.queues, q, NoEntry), Get(s'.queues, q, NoEntry));
  }

  lemma OnlyIsKept(s: State, step: Step, s': State, q: Qid, q0: Qid, queue: Queue)
    requires QueueOnly(s, s', q0, queue) && (Ent(s, q0).queue.status.Free? ==> queue.status.Free?)
    ensures KeptOrCreated(s, step, s', q)
  {
  }

  lemma ManageShape(s: State, t: Tid, m: ManageStep, s': State, q: Qid)
    requires ManageNext(s, t, m, s')
    ensures KeptOrCreated(s, Manage(m), s', q)
  {
    match m
    case Publish(_, _, _) => hide Set;
    case InitCommand(q0) => SameIsKept(s, Manage(m), Returned(s, q0), q);
    case InitFails(q0) => SameIsKept(s, Manage(m), s', q);
    case EnqueueEvents(_, _) => hide AfterEnqueue; SameIsKept(s, Manage(m), s', q);
    case Wake => SameIsKept(s, Manage(m), s', q);
    case StartPoll(_, _, _) =>
    case DestroyQueue(q0) => hide AfterDestroy; OnlyIsKept(s, Manage(m), s', q, q0, Destroy(Ent(s, q0).queue).q);
  }

  lemma ScheduleShape(s: State, t: Tid, w: ScheduleStep, s': State, q: Qid)
    requires ScheduleNext(s, t, w, s')
    ensures KeptOrCreated(s, Schedule(w), s', q)
  {
    hide AfterServe, AfterFinalize, AfterKeep, AfterPutBack;
    if w.Finalize? {
      var q0 := Loc(s, t).phase.cmd.q;
      OnlyIsKept(s, Schedule(w), s', q, q0, DestroyFinalize(Ent(s, q0).queue).q);
    } else if !w.PollStops? {
      SameIsKept(s, Schedule(w), s', q);
    }
  }

  lemma ContextShape(s: State, t: Tid, x: ContextStep, s': State, q: Qid)
    requires ContextNext(s, t, x, s')
    ensures KeptOrCreated(s, Context(x), s', q)
  {
    hide AfterTake, AfterDeliver, AfterRelease;
    SameIsKept(s, Context(x), s', q);
  }

  /** In every run a queue keeps the priority and the kind of scheduling it was created with, from its creation on
      until its entry is free again. */
  lemma {:induction false} CreatedAs(run: seq<State>, moves: seq<Move>, j: nat, k: nat, q: Qid, sync: Sync, prio: nat)
    requires Run(run, moves) && j < k < |run| && moves[j].step == Manage(Publish(q, sync, prio))
    requires forall i :: j < i <= k ==> !Ent(run[i], q).queue.status.Free?
    ensures Ent(run[k], q).sync == sync && Ent(run[k], q).prio == prio && Ent(run[k], q).inst == run[j].insts
    decreases k
  {
    assert Next(run[k - 1], moves[k - 1].t, moves[k - 1].step, run[k]);
    StepKeepsShape(run[k - 1], moves[k - 1].t, moves[k - 1].step, run[k], q);
    assert !Ent(run[k], q).queue.status.Free?;
    if j < k - 1 {
      CreatedAs(run, moves, j, k - 1, q, sync, prio);
    }
  }
}
