/** The command token of every queue: exactly one while the queue is in scheduling, none
    otherwise, over every interleaving of the scheduler's steps. */
module SchedulerTokens {
  import opened QueueSpec
  import opened Tables
  import opened Wrappers
  import opened Scheduler

  /** How many of a thread's registers hold command c. */
  function Tokens(l: Local, c: Cmd): nat {
    (if l.waking == Some(c) then 1 else 0)
    + (if (l.phase.Taken? || l.phase.Dead? || l.phase.Served?) && l.phase.cmd == c then 1 else 0)
    + (if l.held.Some? && l.held.value.1 == c then 1 else 0)
  }

  /** What a thread that holds c relies on: the priority queue it recorded is c's home, and
      until it comes back to the application it holds no atomic context, nor cached events
      before c's queue is served. */
  predicate RegistersOk(l: Local, c: Cmd, home: Slot, e: Entry) {
    && (l.waking == Some(c) ==> c.DequeueCmd?)
    && (l.phase.Taken? && l.phase.cmd == c ==> l.phase.slot == home && l.held.None? && l.cache.evs == [])
    && (l.phase.Served? && l.phase.cmd == c ==> l.phase.slot == home && c.DequeueCmd? && l.held.None?)
    && (l.phase.Dead? && l.phase.cmd == c ==> c.DequeueCmd? && e.queue.status.Destroyed? && l.held.None? && l.cache.evs == [])
    && (l.held.Some? && l.held.value.1 == c ==> l.held.value.0 == home && c.DequeueCmd? && e.sync.Atomic?)
  }

  function EntryOf(s: State, c: Cmd): Entry {
    if c.DequeueCmd? then Ent(s, c.q) else NoEntry
  }

  /** The status of a queue agrees with its command: out in the scheduler exactly while the status is
      SCHED or DESTROYED, and a queue with events is SCHED. A queue without a command is free, or
      NOTSCHED and empty because its creation has not finished or failed. */
  predicate StatusOk(e: Entry, c: Cmd, live: map<Cmd, Slot>, place: Where) {
    match c
    case DequeueCmd(q) =>
      && (c in live ==> !e.queue.status.Free? && live[c] == SlotOf(q, e.prio) && e.creator.None?)
      && (c !in live ==> (e.queue.status.Free? || e.queue.status.NotSched?) && e.queue.events == [])
      && (e.creator.Some? ==> e.queue.status.NotSched?)
      && !e.queue.status.Ready?
      && (place != Nowhere <==> e.queue.status.Sched? || e.queue.status.Destroyed?)
      && (e.queue.events != [] ==> e.queue.status.Sched?)
    case PollCmd(_, _) => place != Nowhere <==> c in live
  }

  function HomeOf(live: map<Cmd, Slot>, c: Cmd): Slot {
    Get(live, c, Slot(0, 0))
  }

  /** The command is in its home priority queue, once, exactly when its place says so, and in no
      other priority queue; exactly the thread its place names holds it, in exactly one register. */
  ghost predicate PlaceOk(s: State, c: Cmd) {
    && (forall sl {:trigger Get(s.pri, sl, [])} ::
          multiset(Get(s.pri, sl, []))[c] == (if Place(s, c) == InPriQueue && sl == HomeOf(s.live, c) then 1 else 0))
    && (forall t {:trigger Get(s.threads, t, NoLocal)} ::
          && Tokens(Get(s.threads, t, NoLocal), c) == (if Place(s, c) == With(t) then 1 else 0)
          && RegistersOk(Get(s.threads, t, NoLocal), c, HomeOf(s.live, c), EntryOf(s, c)))
  }

  ghost predicate TokenAt(s: State, c: Cmd) {
    StatusOk(EntryOf(s, c), c, s.live, Place(s, c)) && PlaceOk(s, c)
  }

  ghost predicate TokenInv(s: State) {
    forall c {:trigger Place(s, c)} :: TokenAt(s, c)
  }

  lemma InitTokens(s: State)
    requires Init(s)
    ensures TokenInv(s)
  {
    forall c ensures TokenAt(s, c) {
      assert EntryOf(s, c) == NoEntry;
    }
  }

  // ---------- one step, one command ----------

  lemma PublishToken(s: State, t: Tid, q: Qid, sync: Sync, prio: nat, c: Cmd)
    requires TokenAt(s, c) && Ent(s, q).queue.status.Free?
    ensures TokenAt(AfterPublish(s, t, q, sync, prio), c)
  {
  }

  lemma ReturnedToken(s: State, q: Qid, c: Cmd)
    requires TokenAt(s, c)
    ensures TokenAt(Returned(s, q), c)
  {
    SameTokens(s, Returned(s, q), c);
  }

  lemma InitToken(s: State, q: Qid, c: Cmd)
    requires TokenAt(s, c) && Ent(s, q).creator.Some?
    ensures TokenAt(AfterInit(s, q), c)
  {
    ReturnedToken(s, q, c);
    if c == DequeueCmd(q) {
      FirstCommand(Returned(s, q), q);
    }
  }

  /** A queue without a command gets one. */
  lemma FirstCommand(s: State, q: Qid)
    requires TokenAt(s, DequeueCmd(q)) && Unfinished(s, q) && Ent(s, q).creator.None?
    ensures TokenAt(PriSet(s, DequeueCmd(q), SlotOf(q, Ent(s, q).prio)), DequeueCmd(q))
  {
  }

  /** A step of thread t that leaves command c where it is. */
  lemma OtherCommand(s: State, s': State, t: Tid, l: Local, c: Cmd)
    requires TokenAt(s, c) && s'.threads == Set(s.threads, t, l) && s'.pri == s.pri
    requires Place(s', c) == Place(s, c) && EntryOf(s', c) == EntryOf(s, c)
    requires (c in s'.live <==> c in s.live) && HomeOf(s'.live, c) == HomeOf(s.live, c)
    requires Tokens(l, c) == Tokens(Loc(s, t), c) && RegistersOk(l, c, HomeOf(s.live, c), EntryOf(s, c))
    ensures TokenAt(s', c)
  {
  }

  lemma EnqueueToken(s: State, t: Tid, q: Qid, evs: seq<Event>, c: Cmd)
    requires TokenAt(s, c) && MayEnqueue(Loc(s, t)) && !Unfinished(s, q)
    ensures TokenAt(AfterEnqueue(s, t, q, evs), c)
  {
    var out := Enqueue(Ent(s, q).queue, evs);
    if !out.wake {
      EnqueueOnly(s, t, q, evs, c);
    } else if c == DequeueCmd(q) {
      EnqueueWakes(s, t, q, evs);
    } else {
      OtherCommand(s, AfterEnqueue(s, t, q, evs), t, Loc(s, t).(waking := Some(DequeueCmd(q))), c);
    }
  }

  lemma EnqueueOnly(s: State, t: Tid, q: Qid, evs: seq<Event>, c: Cmd)
    requires TokenAt(s, c) && !Unfinished(s, q) && !Enqueue(Ent(s, q).queue, evs).wake
    ensures TokenAt(AfterEnqueue(s, t, q, evs), c)
  {
    if Enqueue(Ent(s, q).queue, evs).ok {
      SameTokens(s, AfterEnqueue(s, t, q, evs), c);
    }
  }

  /** Only the queue of c changed, and not into or out of scheduling. */
  lemma SameTokens(s: State, s': State, c: Cmd)
    requires TokenAt(s, c) && s'.threads == s.threads && s'.pri == s.pri && s'.live == s.live && Place(s', c) == Place(s, c)
    requires StatusOk(EntryOf(s', c), c, s.live, Place(s, c))
    requires EntryOf(s', c).sync == EntryOf(s, c).sync
    requires EntryOf(s, c).queue.status.Destroyed? ==> EntryOf(s', c).queue.status.Destroyed?
    ensures TokenAt(s', c)
  {
  }

  lemma EnqueueWakes(s: State, t: Tid, q: Qid, evs: seq<Event>)
    requires TokenAt(s, DequeueCmd(q)) && !Unfinished(s, q) && MayEnqueue(Loc(s, t)) && Enqueue(Ent(s, q).queue, evs).wake
    ensures TokenAt(AfterEnqueue(s, t, q, evs), DequeueCmd(q))
  {
  }

  lemma WakeToken(s: State, t: Tid, c: Cmd)
    requires TokenAt(s, c) && Loc(s, t).waking.Some? && Loc(s, t).waking.value.DequeueCmd?
    ensures TokenAt(AfterWake(s, t), c)
  {
    var d := Loc(s, t).waking.value;
    assert Tokens(Get(s.threads, t, NoLocal), c) <= 1;
    PushedBack(s, t, Loc(s, t).(waking := None), SlotOf(d.q, Ent(s, d.q).prio), d, c);
  }

  lemma StartPollToken(s: State, pktio: nat, n: nat, prio: nat, c: Cmd)
    requires TokenAt(s, c) && PollCmd(pktio, n) !in s.live
    ensures TokenAt(AfterStartPoll(s, pktio, n, prio), c)
  {
    var d, sl := PollCmd(pktio, n), Slot(prio, pktio % QUEUES_PER_PRIO);
    if c == d {
      FirstPush(s, d, sl);
    } else {
      var s1 := PriSet(s, d, sl);
      assert TokenAt(s1, c);
      PushOther(s1, sl, d, c);
    }
  }

  /** A new poll command goes into its priority queue. */
  lemma FirstPush(s: State, d: Cmd, sl: Slot)
    requires TokenAt(s, d) && d.PollCmd? && d !in s.live
    ensures TokenAt(Push(PriSet(s, d, sl), sl, d), d)
  {
  }

  lemma PushOther(s: State, sl: Slot, d: Cmd, c: Cmd)
    requires TokenAt(s, c) && c != d
    ensures TokenAt(Push(s, sl, d), c)
  {
  }

  lemma TakeToken(s: State, t: Tid, sl: Slot, c: Cmd)
    requires TokenAt(s, c) && Pri(s, sl) != []
    requires Loc(s, t).phase.App? && Loc(s, t).held.None? && Loc(s, t).cache.evs == [] && TokenAt(s, Pri(s, sl)[0])
    ensures TokenAt(AfterTake(s, t, sl), c)
  {
    var cmds := Get(s.pri, sl, []);
    assert cmds == [cmds[0]] + cmds[1..];
  }

  lemma PollStopsToken(s: State, t: Tid, c: Cmd)
    requires TokenAt(s, c) && Loc(s, t).phase.Taken? && Loc(s, t).phase.cmd.PollCmd?
    ensures TokenAt(AfterPollStops(s, t), c)
  {
    var l := Loc(s, t).(phase := App);
    var s' := AfterPollStops(s, t);
    if c == Loc(s, t).phase.cmd {
      LetGo(s, s', t, l, c);
    } else {
      OtherCommand(s, s', t, l, c);
    }
  }

  lemma PutBackToken(s: State, t: Tid, c: Cmd)
    requires TokenAt(s, c) && Loc(s, t).phase.Taken?
    ensures TokenAt(AfterPutBack(s, t), c)
  {
    assert Tokens(Get(s.threads, t, NoLocal), c) <= 1;
    PushedBack(s, t, Loc(s, t).(phase := App), Loc(s, t).phase.slot, Loc(s, t).phase.cmd, c);
  }

  lemma ServeToken(s: State, t: Tid, maxDeq: nat, c: Cmd)
    requires TokenAt(s, c) && Loc(s, t).phase.Taken? && Loc(s, t).phase.cmd.DequeueCmd? && maxDeq >= 1
    ensures TokenAt(AfterServe(s, t, maxDeq), c)
  {
    var d := Loc(s, t).phase.cmd;
    var out := DequeueMulti(Ent(s, d.q).queue, maxDeq);
    if out.rc < 0 {
      ServeDeadToken(s, t, c);
    } else if out.rc == 0 {
      ServeEmptyToken(s, t, out.q, c);
    } else {
      ServeEventsToken(s, t, out.q, out.evs, c);
    }
  }

  lemma ServeDeadToken(s: State, t: Tid, c: Cmd)
    requires TokenAt(s, c) && Loc(s, t).phase.Taken? && Loc(s, t).phase.cmd.DequeueCmd?
    requires Ent(s, Loc(s, t).phase.cmd.q).queue.status.Bad()
    ensures TokenAt(ServeDead(s, t), c)
  {
    var s' := ServeDead(s, t);
    OtherCommand(s, s', t, Loc(s', t), c);
  }

  lemma ServeEmptyToken(s: State, t: Tid, queue: Queue, c: Cmd)
    requires TokenAt(s, c) && Loc(s, t).phase.Taken? && Loc(s, t).phase.cmd.DequeueCmd?
    requires var before := Ent(s, Loc(s, t).phase.cmd.q).queue;
      !before.status.Bad() && before.events == [] && queue == before.(status := if before.status.Sched? then NotSched else before.status)
    ensures TokenAt(ServeEmpty(s, t, queue), c)
  {
    var s' := ServeEmpty(s, t, queue);
    if c != Loc(s, t).phase.cmd {
      OtherCommand(s, s', t, Loc(s', t), c);
    } else {
      LetGo(s, s', t, Loc(s', t), c);
    }
  }

  /** Thread t gives up command c and nobody takes it. */
  lemma LetGo(s: State, s': State, t: Tid, l: Local, c: Cmd)
    requires TokenAt(s, c) && s'.threads == Set(s.threads, t, l) && s'.pri == s.pri
    requires Tokens(Loc(s, t), c) >= 1 && Tokens(l, c) == 0
    requires Place(s', c) == Nowhere
    requires StatusOk(EntryOf(s', c), c, s'.live, Nowhere)
    ensures TokenAt(s', c)
  {
    assert Place(s, c) == With(t) by { assert Tokens(Get(s.threads, t, NoLocal), c) >= 1; }
  }

  lemma ServeEventsToken(s: State, t: Tid, queue: Queue, evs: seq<Event>, c: Cmd)
    requires TokenAt(s, c) && Loc(s, t).phase.Taken? && Loc(s, t).phase.cmd.DequeueCmd?
    requires var before := Ent(s, Loc(s, t).phase.cmd.q).queue;
      before.events != [] && queue.status == before.status
    ensures TokenAt(ServeEvents(s, t, queue, evs), c)
  {
    var s1 := SetQueue(s, Loc(s, t).phase.cmd.q, queue);
    var s' := ServeEvents(s, t, queue, evs);
    if c == Loc(s, t).phase.cmd {
      SameTokens(s, s1, c);
    }
    OtherCommand(s1, s', t, Loc(s', t), c);
  }

  lemma FinalizeToken(s: State, t: Tid, c: Cmd)
    requires TokenAt(s, c) && Loc(s, t).phase.Dead? && Loc(s, t).phase.cmd.DequeueCmd?
    ensures TokenAt(AfterFinalize(s, t), c)
  {
    var q := Loc(s, t).phase.cmd.q;
    var out := DestroyFinalize(Ent(s, q).queue);
    var s1 := FinalizeQueue(s, t, out.q);
    var s' := AfterFinalize(s, t);
    if c == DequeueCmd(q) {
      LetGo(s, s', t, Loc(s', t), c);
    } else {
      OtherCommand(s, s1, t, Loc(s1, t), c);
      FreeOther(s1, q, c);
    }
  }

  /** Freeing one queue's command does not touch another command. */
  lemma FreeOther(s: State, q: Qid, c: Cmd)
    requires TokenAt(s, c) && c != DequeueCmd(q)
    ensures TokenAt(FreeCommand(s, q), c)
  {
  }

  lemma KeepToken(s: State, t: Tid, c: Cmd)
    requires Loc(s, t).phase.Served? && TokenAt(s, Loc(s, t).phase.cmd)
    requires TokenAt(s, c) && Loc(s, t).phase.Served? && Loc(s, t).phase.cmd.DequeueCmd?
    ensures TokenAt(AfterKeep(s, t), c)
  {
    var l := Loc(s, t);
    if Ent(s, l.phase.cmd.q).sync.Atomic? {
      var s' := AfterKeep(s, t);
      OtherCommand(s, s', t, Loc(s', t), c);
    } else {
      assert AfterKeep(s, t) == Push(SetLoc(s, t, l.(phase := App)), l.phase.slot, l.phase.cmd);
      PushedBack(s, t, l.(phase := App), l.phase.slot, l.phase.cmd, c);
    }
  }

  /** Thread t puts the command d it holds into d's home priority queue. */
  lemma PushedBack(s: State, t: Tid, l: Local, sl: Slot, d: Cmd, c: Cmd)
    requires TokenAt(s, c)
    requires c == d ==> Tokens(Loc(s, t), d) == 1 && Tokens(l, d) == 0 && sl == HomeOf(s.live, d)
    requires c != d ==> Tokens(l, c) == Tokens(Loc(s, t), c)
    requires RegistersOk(l, c, HomeOf(s.live, c), EntryOf(s, c))
    ensures TokenAt(Push(SetLoc(s, t, l), sl, d), c)
  {
    if c == d {
      PushedItself(s, t, l, sl, d);
    } else {
      OtherCommand(s, SetLoc(s, t, l), t, l, c);
      PushOther(SetLoc(s, t, l), sl, d, c);
    }
  }

  lemma PushedItself(s: State, t: Tid, l: Local, sl: Slot, d: Cmd)
    requires TokenAt(s, d) && Tokens(Loc(s, t), d) == 1 && Tokens(l, d) == 0 && sl == HomeOf(s.live, d)
    requires RegistersOk(l, d, HomeOf(s.live, d), EntryOf(s, d))
    ensures TokenAt(Push(SetLoc(s, t, l), sl, d), d)
  {
    assert Tokens(Get(s.threads, t, NoLocal), d) == 1;
  }

  lemma DeliverToken(s: State, t: Tid, k: nat, c: Cmd)
    requires TokenAt(s, c) && k <= |Loc(s, t).cache.evs| && (Loc(s, t).phase.App? || Loc(s, t).phase.Served?)
    ensures TokenAt(AfterDeliver(s, t, k), c)
  {
    var s' := AfterDeliver(s, t, k);
    OtherCommand(s, s', t, Loc(s', t), c);
  }

  lemma ReleaseToken(s: State, t: Tid, c: Cmd)
    requires TokenAt(s, c) && Loc(s, t).held.Some?
    ensures TokenAt(AfterRelease(s, t), c)
  {
    var held := Loc(s, t).held.value;
    assert Tokens(Get(s.threads, t, NoLocal), c) <= 1;
    PushedBack(s, t, Loc(s, t).(held := None), held.0, held.1, c);
  }

  lemma DestroyToken(s: State, q: Qid, c: Cmd)
    requires TokenAt(s, c) && !Unfinished(s, q)
    ensures TokenAt(AfterDestroy(s, q), c)
  {
    var out := Destroy(Ent(s, q).queue);
    var s1 := SetQueue(s, q, out.q);
    if c != DequeueCmd(q) {
      SameTokens(s, s1, c);
      FreeOther(s1, q, c);
    } else if out.freeCommand {
      DestroyIdle(s, q);
    } else {
      SameTokens(s, s1, c);
    }
  }

  lemma DestroyIdle(s: State, q: Qid)
    requires TokenAt(s, DequeueCmd(q)) && !Unfinished(s, q) && Destroy(Ent(s, q).queue).freeCommand
    ensures TokenAt(AfterDestroy(s, q), DequeueCmd(q))
  {
  }

  // ---------- all commands, any step ----------

  lemma At(s: State, c: Cmd)
    requires TokenInv(s)
    ensures TokenAt(s, c)
  {
    assert Place(s, c) == Place(s, c);
  }

  lemma ManageToken(s: State, t: Tid, m: ManageStep, s': State, c: Cmd)
    requires ManageNext(s, t, m, s') && Disciplined(s, Manage(m)) && TokenAt(s, c)
    ensures TokenAt(s', c)
  {
    match m
    case Publish(q, sync, prio) => PublishToken(s, t, q, sync, prio, c);
    case InitCommand(q) => InitToken(s, q, c);
    case InitFails(q) => ReturnedToken(s, q, c);
    case EnqueueEvents(q, evs) => EnqueueToken(s, t, q, evs, c);
    case Wake => WakeToken(s, t, c);
    case StartPoll(pktio, n, prio) => StartPollToken(s, pktio, n, prio, c);
    case DestroyQueue(q) => DestroyToken(s, q, c);
  }

  lemma ScheduleToken(s: State, t: Tid, w: ScheduleStep, s': State, c: Cmd)
    requires ScheduleNext(s, t, w, s') && TokenAt(s, c) && TokenAt(s, Loc(s, t).phase.cmd)
    ensures TokenAt(s', c)
  {
    match w
    case PollStops => PollStopsToken(s, t, c);
    case PollContinues => PutBackToken(s, t, c);
    case NotEligible => PutBackToken(s, t, c);
    case Serve(maxDeq) => ServeToken(s, t, maxDeq, c);
    case Finalize => FinalizeToken(s, t, c);
    case Keep => KeepToken(s, t, c);
  }

  lemma ContextToken(s: State, t: Tid, x: ContextStep, s': State, c: Cmd)
    requires ContextNext(s, t, x, s') && TokenAt(s, c)
    requires x.TakeCommand? ==> TokenAt(s, Pri(s, x.slot)[0])
    ensures TokenAt(s', c)
  {
    match x
    case TakeCommand(sl) => TakeToken(s, t, sl, c);
    case Deliver(k) => DeliverToken(s, t, k, c);
    case ReleaseAtomic => ReleaseToken(s, t, c);
  }

  /** Every step of every thread keeps the token invariant. */
  lemma TokenInvStep(s: State, t: Tid, step: Step, s': State)
    requires TokenInv(s) && Next(s, t, step, s')
    ensures TokenInv(s')
  {
    forall c ensures TokenAt(s', c) {
      At(s, c);
      match step
      case Manage(m) => ManageToken(s, t, m, s', c);
      case Schedule(w) =>
        At(s, Loc(s, t).phase.cmd);
        ScheduleToken(s, t, w, s', c);
      case Context(x) =>
        if x.TakeCommand? {
          At(s, Pri(s, x.slot)[0]);
        }
        ContextToken(s, t, x, s', c);
    }
  }
}
