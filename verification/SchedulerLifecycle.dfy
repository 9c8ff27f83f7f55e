/** Priority masks and counts, and the life of a queue's command event: allocated with the
    queue, freed exactly once, and never left in a priority queue that is masked out. */
module SchedulerLifecycle {
  import opened QueueSpec
  import opened Tables
  import opened Wrappers
  import opened Scheduler
  import opened SchedulerTokens

  /** The live commands whose home is slot sl. */
  function Homed(live: map<Cmd, Slot>, sl: Slot): set<Cmd> {
    set c | c in live && live[c] == sl
  }

  /** pri_count counts the live commands of the slot; the mask bit is set iff there are any. */
  predicate CountOk(live: map<Cmd, Slot>, count: nat, masked: bool, sl: Slot) {
    count == |Homed(live, sl)| && (masked <==> count > 0)
  }

  ghost predicate CountAt(s: State, sl: Slot) {
    CountOk(s.live, Count(s, sl), sl in s.mask, sl)
  }

  lemma HomedSet(live: map<Cmd, Slot>, c: Cmd, home: Slot, sl: Slot)
    requires c !in live
    ensures |Homed(live[c := home], sl)| == |Homed(live, sl)| + if sl == home then 1 else 0
  {
    var before, after := Homed(live, sl), Homed(live[c := home], sl);
    assert after == if sl == home then before + {c} else before;
  }

  lemma HomedClr(live: map<Cmd, Slot>, c: Cmd, sl: Slot)
    requires c in live
    ensures |Homed(live - {c}, sl)| == |Homed(live, sl)| - if sl == live[c] then 1 else 0
  {
    var before, after := Homed(live, sl), Homed(live - {c}, sl);
    assert sl == live[c] ==> c in before;
    assert after == if sl == live[c] then before - {c} else before;
  }

  lemma PriSetCount(s: State, c: Cmd, home: Slot, sl: Slot)
    requires CountAt(s, sl) && c !in s.live
    ensures CountAt(PriSet(s, c, home), sl)
  {
    HomedSet(s.live, c, home, sl);
  }

  lemma PriClrCount(s: State, c: Cmd, home: Slot, sl: Slot)
    requires CountAt(s, sl) && c in s.live && s.live[c] == home
    ensures CountAt(PriClr(s, c, home), sl)
  {
    HomedClr(s.live, c, sl);
  }

  ghost predicate CountInv(s: State) {
    forall sl {:trigger CountAt(s, sl)} :: CountAt(s, sl)
  }

  lemma CountUnchanged(s: State, s': State, sl: Slot)
    requires CountAt(s, sl) && s'.live == s.live && s'.count == s.count && s'.mask == s.mask
    ensures CountAt(s', sl)
  {
  }

  /** A command held by a thread is live, and its home is the slot its queue's parameters give. */
  lemma HeldIsLive(s: State, t: Tid, c: Cmd)
    requires TokenInv(s) && Tokens(Loc(s, t), c) >= 1
    ensures c in s.live && Place(s, c) == With(t)
    ensures c.DequeueCmd? ==> s.live[c] == SlotOf(c.q, Ent(s, c.q).prio)
    ensures RegistersOk(Loc(s, t), c, s.live[c], EntryOf(s, c))
  {
    At(s, c);
    assert Tokens(Get(s.threads, t, NoLocal), c) >= 1;
  }

  lemma DestroyCount(s: State, q: Qid, sl: Slot)
    requires TokenInv(s) && CountAt(s, sl) && !Unfinished(s, q)
    ensures CountAt(AfterDestroy(s, q), sl)
  {
    var out := Destroy(Ent(s, q).queue);
    var s1 := SetQueue(s, q, out.q);
    CountUnchanged(s, s1, sl);
    if out.freeCommand {
      var home := SlotOf(q, Ent(s, q).prio);
      At(s, DequeueCmd(q));
      PriClrCount(s1, DequeueCmd(q), home, sl);
    }
  }

  lemma FinalizeCount(s: State, t: Tid, sl: Slot)
    requires TokenInv(s) && CountAt(s, sl) && Loc(s, t).phase.Dead? && Loc(s, t).phase.cmd.DequeueCmd?
    ensures CountAt(AfterFinalize(s, t), sl)
  {
    var c := Loc(s, t).phase.cmd;
    var out := DestroyFinalize(Ent(s, c.q).queue);
    var s1 := FinalizeQueue(s, t, out.q);
    CountUnchanged(s, s1, sl);
    if out.freeCommand {
      var home := SlotOf(c.q, Ent(s, c.q).prio);
      HeldIsLive(s, t, c);
      PriClrCount(s1, c, home, sl);
    }
  }

  lemma PollStopsCount(s: State, t: Tid, sl: Slot)
    requires TokenInv(s) && CountAt(s, sl) && Loc(s, t).phase.Taken?
    ensures CountAt(AfterPollStops(s, t), sl)
  {
    var l := Loc(s, t);
    HeldIsLive(s, t, l.phase.cmd);
    PriClrCount(s, l.phase.cmd, l.phase.slot, sl);
    CountUnchanged(PriClr(s, l.phase.cmd, l.phase.slot), AfterPollStops(s, t), sl);
  }

  lemma InitCount(s: State, q: Qid, sl: Slot)
    requires TokenInv(s) && CountAt(s, sl) && Ent(s, q).creator.Some?
    ensures CountAt(AfterInit(s, q), sl)
  {
    At(s, DequeueCmd(q));
    CountUnchanged(s, Returned(s, q), sl);
    PriSetCount(Returned(s, q), DequeueCmd(q), SlotOf(q, Ent(s, q).prio), sl);
  }

  lemma StartPollCount(s: State, pktio: nat, n: nat, prio: nat, sl: Slot)
    requires CountAt(s, sl) && PollCmd(pktio, n) !in s.live
    ensures CountAt(AfterStartPoll(s, pktio, n, prio), sl)
  {
    var c, home := PollCmd(pktio, n), Slot(prio, pktio % QUEUES_PER_PRIO);
    PriSetCount(s, c, home, sl);
    CountUnchanged(PriSet(s, c, home), AfterStartPoll(s, pktio, n, prio), sl);
  }

  lemma ManageCount(s: State, t: Tid, m: ManageStep, s': State, sl: Slot)
    requires TokenInv(s) && CountAt(s, sl) && ManageNext(s, t, m, s') && Disciplined(s, Manage(m))
    ensures CountAt(s', sl)
  {
    match m
    case Publish(q, sync, prio) => CountUnchanged(s, s', sl);
    case InitCommand(q) => InitCount(s, q, sl);
    case InitFails(q) => CountUnchanged(s, s', sl);
    case EnqueueEvents(q, evs) => CountUnchanged(s, s', sl);
    case Wake => CountUnchanged(s, s', sl);
    case StartPoll(pktio, n, prio) => StartPollCount(s, pktio, n, prio, sl);
    case DestroyQueue(q) => DestroyCount(s, q, sl);
  }

  lemma ScheduleCount(s: State, t: Tid, w: ScheduleStep, s': State, sl: Slot)
    requires TokenInv(s) && CountAt(s, sl) && ScheduleNext(s, t, w, s')
    ensures CountAt(s', sl)
  {
    match w
    case PollStops => PollStopsCount(s, t, sl);
    case Finalize => FinalizeCount(s, t, sl);
    case _ => CountUnchanged(s, s', sl);
  }

  lemma ContextCount(s: State, t: Tid, x: ContextStep, s': State, sl: Slot)
    requires CountAt(s, sl) && ContextNext(s, t, x, s')
    ensures CountAt(s', sl)
  {
    CountUnchanged(s, s', sl);
  }

  lemma CountInvStep(s: State, t: Tid, step: Step, s': State)
    requires TokenInv(s) && CountInv(s) && Next(s, t, step, s')
    ensures CountInv(s')
  {
    forall sl ensures CountAt(s', sl) {
      assert CountAt(s, sl);
      match step
      case Manage(m) => ManageCount(s, t, m, s', sl);
      case Schedule(w) => ScheduleCount(s, t, w, s', sl);
      case Context(x) => ContextCount(s, t, x, s', sl);
    }
  }

  // ---------- instances ----------

  /** A queue that is not free is the instance its entry names. */
  ghost predicate EntryAt(s: State, q: Qid) {
    var e := Get(s.queues, q, NoEntry);
    !e.queue.status.Free? ==> e.inst < s.insts && Home(s, e.inst) == Origin(q, e.sync)
  }

  /** Instance i has not been freed yet. */
  predicate LiveInst(s: State, i: Inst) {
    var e := Get(s.queues, Home(s, i).q, NoEntry);
    !e.queue.status.Free? && e.inst == i
  }

  /** The command event of every instance ever created is freed once when the instance is gone,
      and not before. */
  ghost predicate FreedAt(s: State, i: Inst) {
    i < s.insts ==> Freed(s, i) == if LiveInst(s, i) then 0 else 1
  }

  ghost predicate InstInv(s: State) {
    && (forall q {:trigger EntryAt(s, q)} :: EntryAt(s, q))
    && (forall i {:trigger FreedAt(s, i)} :: FreedAt(s, i))
  }

  lemma InstUnchanged(s: State, s': State, q: Qid, i: Inst)
    requires EntryAt(s, q) && FreedAt(s, i) && SameQueues(s, s')
    ensures EntryAt(s', q) && FreedAt(s', i)
  {
  }

  lemma PublishInst(s: State, t: Tid, q0: Qid, sync: Sync, prio: nat, q: Qid, i: Inst)
    requires EntryAt(s, q) && FreedAt(s, i) && Ent(s, q0).queue.status.Free?
    ensures EntryAt(AfterPublish(s, t, q0, sync, prio), q) && FreedAt(AfterPublish(s, t, q0, sync, prio), i)
  {
  }

  lemma InitInst(s: State, q0: Qid, q: Qid, i: Inst)
    requires EntryAt(s, q) && FreedAt(s, i)
    ensures EntryAt(AfterInit(s, q0), q) && FreedAt(AfterInit(s, q0), i)
  {
    InstUnchanged(s, Returned(s, q0), q, i);
  }

  lemma StartPollInst(s: State, pktio: nat, n: nat, prio: nat, q: Qid, i: Inst)
    requires EntryAt(s, q) && FreedAt(s, i)
    ensures EntryAt(AfterStartPoll(s, pktio, n, prio), q) && FreedAt(AfterStartPoll(s, pktio, n, prio), i)
  {
  }

  lemma PollStopsInst(s: State, t: Tid, q: Qid, i: Inst)
    requires EntryAt(s, q) && FreedAt(s, i) && Loc(s, t).phase.Taken?
    ensures EntryAt(AfterPollStops(s, t), q) && FreedAt(AfterPollStops(s, t), i)
  {
  }

  /** Entry q0 becomes free and the command event of its instance is freed with it. */
  lemma GoneInst(s: State, s': State, q0: Qid, queue: Queue, q: Qid, i: Inst)
    requires EntryAt(s, q) && EntryAt(s, q0) && FreedAt(s, i) && !Ent(s, q0).queue.status.Free? && queue.status.Free?
    requires s'.queues == Set(s.queues, q0, Ent(s, q0).(queue := queue)) && s'.insts == s.insts && s'.home == s.home
    requires s'.freed == Set(s.freed, Ent(s, q0).inst, Freed(s, Ent(s, q0).inst) + 1)
    ensures EntryAt(s', q) && FreedAt(s', i)
  {
  }

  /** Entry q0 changes but does not become free. */
  lemma StaysInst(s: State, s': State, q0: Qid, queue: Queue, q: Qid, i: Inst)
    requires EntryAt(s, q) && FreedAt(s, i) && (queue.status.Free? <==> Ent(s, q0).queue.status.Free?)
    requires s'.queues == Set(s.queues, q0, Ent(s, q0).(queue := queue)) && s'.insts == s.insts && s'.home == s.home
    requires s'.freed == s.freed
    ensures EntryAt(s', q) && FreedAt(s', i)
  {
  }

  lemma DestroyInst(s: State, q0: Qid, q: Qid, i: Inst)
    requires EntryAt(s, q) && EntryAt(s, q0) && FreedAt(s, i) && TokenAt(s, DequeueCmd(q0))
    ensures EntryAt(AfterDestroy(s, q0), q) && FreedAt(AfterDestroy(s, q0), i)
  {
    var out := Destroy(Ent(s, q0).queue);
    if out.freeCommand {
      GoneInst(s, AfterDestroy(s, q0), q0, out.q, q, i);
    } else {
      StaysInst(s, AfterDestroy(s, q0), q0, out.q, q, i);
    }
  }

  lemma FinalizeInst(s: State, t: Tid, q: Qid, i: Inst)
    requires Loc(s, t).phase.Dead? && Loc(s, t).phase.cmd.DequeueCmd?
    requires EntryAt(s, q) && EntryAt(s, Loc(s, t).phase.cmd.q) && FreedAt(s, i)
    requires Ent(s, Loc(s, t).phase.cmd.q).queue.status.Destroyed?
    ensures EntryAt(AfterFinalize(s, t), q) && FreedAt(AfterFinalize(s, t), i)
  {
    var q0 := Loc(s, t).phase.cmd.q;
    GoneInst(s, AfterFinalize(s, t), q0, DestroyFinalize(Ent(s, q0).queue).q, q, i);
  }

  lemma ManageInst(s: State, t: Tid, m: ManageStep, s': State, q: Qid, i: Inst)
    requires ManageNext(s, t, m, s') && EntryAt(s, q) && FreedAt(s, i)
    requires m.DestroyQueue? ==> EntryAt(s, m.q) && TokenAt(s, DequeueCmd(m.q))
    ensures EntryAt(s', q) && FreedAt(s', i)
  {
    match m
    case Publish(q0, sync, prio) => PublishInst(s, t, q0, sync, prio, q, i);
    case InitCommand(q0) => InitInst(s, q0, q, i);
    case StartPoll(pktio, n, prio) => StartPollInst(s, pktio, n, prio, q, i);
    case DestroyQueue(q0) => DestroyInst(s, q0, q, i);
    case _ => InstUnchanged(s, s', q, i);
  }

  lemma ScheduleInst(s: State, t: Tid, w: ScheduleStep, s': State, q: Qid, i: Inst)
    requires ScheduleNext(s, t, w, s') && EntryAt(s, q) && FreedAt(s, i)
    requires w.Finalize? ==> EntryAt(s, Loc(s, t).phase.cmd.q) && Ent(s, Loc(s, t).phase.cmd.q).queue.status.Destroyed?
    ensures EntryAt(s', q) && FreedAt(s', i)
  {
    match w
    case PollStops => PollStopsInst(s, t, q, i);
    case Finalize => FinalizeInst(s, t, q, i);
    case _ => InstUnchanged(s, s', q, i);
  }

  lemma DeadIsDestroyed(s: State, t: Tid)
    requires TokenInv(s) && Loc(s, t).phase.Dead? && Loc(s, t).phase.cmd.DequeueCmd?
    ensures Ent(s, Loc(s, t).phase.cmd.q).queue.status.Destroyed?
  {
    HeldIsLive(s, t, Loc(s, t).phase.cmd);
  }

  lemma InstInvStep(s: State, t: Tid, step: Step, s': State)
    requires TokenInv(s) && InstInv(s) && Next(s, t, step, s')
    ensures InstInv(s')
  {
    forall q ensures EntryAt(s', q) {
      InstStep(s, t, step, s', q, 0);
    }
    forall i ensures FreedAt(s', i) {
      InstStep(s, t, step, s', 0, i);
    }
  }

  lemma InstStep(s: State, t: Tid, step: Step, s': State, q: Qid, i: Inst)
    requires TokenInv(s) && InstInv(s) && Next(s, t, step, s')
    ensures EntryAt(s', q) && FreedAt(s', i)
  {
    assert EntryAt(s, q) && FreedAt(s, i);
    match step
    case Manage(m) =>
      if m.DestroyQueue? {
        assert EntryAt(s, m.q);
        At(s, DequeueCmd(m.q));
      }
      ManageInst(s, t, m, s', q, i);
    case Schedule(w) =>
      if w.Finalize? {
        assert EntryAt(s, Loc(s, t).phase.cmd.q);
        DeadIsDestroyed(s, t);
      }
      ScheduleInst(s, t, w, s', q, i);
    case Context(x) => InstUnchanged(s, s', q, i);
  }
}
