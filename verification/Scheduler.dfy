/** The event scheduler as a system of steps over any number of threads: queues, the priority
    queues of command events, and the per-thread scheduling context. Each step is one locked
    section or one operation on a priority queue. */
module Scheduler {
  import opened QueueSpec
  import opened Tables
  import opened Wrappers

  type Qid = nat
  type Tid = nat
  /** Each creation of a queue is a new instance of its table entry. */
  type Inst = nat

  datatype Sync = Atomic | Parallel

  /** sched->pri_queue[prio][id] */
  datatype Slot = Slot(prio: nat, id: nat)

  /** A schedule command: the event a scheduled queue owns, or one poll of a packet interface. */
  datatype Cmd = DequeueCmd(q: Qid) | PollCmd(pktio: nat, n: nat)

  /** `creator`: the thread that published the entry and is still inside odp_queue_create. */
  datatype Entry = Entry(queue: Queue, sync: Sync, prio: nat, inst: Inst, creator: Option<Tid>)

  const NoEntry := Entry(Queue(Free, []), Parallel, 0, 0, None)

  const QUEUES_PER_PRIO := 4

  /** pri_id_queue */
  function SlotOf(q: Qid, prio: nat): Slot {
    Slot(prio, q % QUEUES_PER_PRIO)
  }

  /** Where a command event is when it is not idle with its queue. */
  datatype Where = Nowhere | InPriQueue | With(t: Tid)

  /** Inside schedule(): a command was taken from a priority queue; its queue turned out
      destroyed; or its queue delivered events. */
  datatype Phase = App | Taken(slot: Slot, cmd: Cmd) | Dead(cmd: Cmd) | Served(slot: Slot, cmd: Cmd)

  /** Events [from, from + |evs|) of instance inst that sched_local still caches. */
  datatype Cache = Cache(inst: Inst, from: nat, evs: seq<Event>)

  /** `waking`: an enqueuer unlocked a queue it must put into scheduling. `held`: the atomic
      queue's command kept in sched_local, with its priority queue. */
  datatype Local = Local(phase: Phase, waking: Option<Cmd>, held: Option<(Slot, Cmd)>, cache: Cache)

  /** The table entry an instance was created in, and how it is scheduled. */
  datatype Origin = Origin(q: Qid, sync: Sync)

  const NoLocal := Local(App, None, None, Cache(0, 0, []))

  /** live: the allocated commands with their home slots. entered, drawn: per instance, the
      events enqueued and dequeued so far; log: the positions handed to applications, in order.
      freed: how often the command event of an instance was freed. */
  datatype State = State(
    queues: map<Qid, Entry>, pri: map<Slot, seq<Cmd>>, count: map<Slot, nat>, mask: set<Slot>,
    threads: map<Tid, Local>,
    live: map<Cmd, Slot>, places: map<Cmd, Where>,
    insts: Inst, home: map<Inst, Origin>, freed: map<Inst, nat>,
    entered: map<Inst, seq<Event>>, drawn: map<Inst, seq<Event>>, log: map<Inst, seq<nat>>)

  function Ent(s: State, q: Qid): Entry { Get(s.queues, q, NoEntry) }
  function Pri(s: State, sl: Slot): seq<Cmd> { Get(s.pri, sl, []) }
  function Count(s: State, sl: Slot): nat { Get(s.count, sl, 0) }
  function Loc(s: State, t: Tid): Local { Get(s.threads, t, NoLocal) }
  function Place(s: State, c: Cmd): Where { Get(s.places, c, Nowhere) }
  function Entered(s: State, i: Inst): seq<Event> { Get(s.entered, i, []) }
  function Drawn(s: State, i: Inst): seq<Event> { Get(s.drawn, i, []) }
  function Log(s: State, i: Inst): seq<nat> { Get(s.log, i, []) }
  function Home(s: State, i: Inst): Origin { Get(s.home, i, Origin(0, Parallel)) }
  function Freed(s: State, i: Inst): nat { Get(s.freed, i, 0) }

  /** No command was allocated or freed. */
  predicate SameCommands(s: State, r: State) {
    r.live == s.live && r.count == s.count && r.mask == s.mask && r.insts == s.insts && r.home == s.home && r.freed == s.freed
  }

  /** No queue was created or freed. */
  ghost predicate SameQueues(s: State, r: State) {
    && SameCommands(s, r)
    && forall q {:trigger Get(r.queues, q, NoEntry)} :: SameShape(Get(s.queues, q, NoEntry), Get(r.queues, q, NoEntry))
  }

  predicate SameShape(e: Entry, e': Entry) {
    e'.inst == e.inst && e'.sync == e.sync && e'.prio == e.prio && (e'.queue.status.Free? <==> e.queue.status.Free?)
  }

  /** No event was enqueued or dequeued. */
  predicate SameEvents(s: State, r: State) {
    r.queues == s.queues && r.entered == s.entered && r.drawn == s.drawn
  }

  /** No event was dequeued or handed to an application. */
  ghost predicate SameCaches(s: State, r: State) {
    && r.log == s.log && r.drawn == s.drawn
    && forall t {:trigger Get(r.threads, t, NoLocal)} :: Get(r.threads, t, NoLocal).cache == Get(s.threads, t, NoLocal).cache
  }

  /** Of the queues only q changed, and no instance was added. */
  ghost predicate QueueOnly(s: State, r: State, q: Qid, queue: Queue) {
    && r.queues == Set(s.queues, q, Ent(s, q).(queue := queue))
    && r.insts == s.insts && r.home == s.home && r.entered == s.entered && r.drawn == s.drawn
  }

  // ---------- building blocks of the steps ----------

  /** pri_set, with the command now live in that slot. */
  function PriSet(s: State, c: Cmd, sl: Slot): State {
    s.(mask := s.mask + {sl}, count := Set(s.count, sl, Count(s, sl) + 1), live := s.live[c := sl])
  }

  /** pri_clr on a 32-bit count: the mask bit goes when the last command of the slot goes. */
  function PriClr(s: State, c: Cmd, sl: Slot): State {
    var n := if Count(s, sl) == 0 then 0xFFFF_FFFF else Count(s, sl) - 1;
    s.(mask := if n == 0 then s.mask - {sl} else s.mask, count := Set(s.count, sl, n), live := s.live - {c})
  }

  /** odp_queue_enq of a command on a priority queue. */
  function Push(s: State, sl: Slot, c: Cmd): State {
    s.(pri := Set(s.pri, sl, Pri(s, sl) + [c]), places := Set(s.places, c, InPriQueue))
  }

  function SetLoc(s: State, t: Tid, l: Local): State {
    s.(threads := Set(s.threads, t, l))
  }

  function SetQueue(s: State, q: Qid, queue: Queue): State {
    s.(queues := Set(s.queues, q, Ent(s, q).(queue := queue)))
  }

  // ---------- the steps ----------

  /** Queue management and enqueueing, by applications and packet input. Creation is a locked section
      that publishes the entry, then the allocation of its command, which may fail. */
  datatype ManageStep =
    | Publish(q: Qid, sync: Sync, prio: nat)
    | InitCommand(q: Qid)
    | InitFails(q: Qid)
    | EnqueueEvents(q: Qid, evs: seq<Event>)
    | Wake
    | StartPoll(pktio: nat, n: nat, prio: nat)
    | DestroyQueue(q: Qid)

  /** Inside schedule(), with a command in hand. */
  datatype ScheduleStep =
    | PollStops
    | PollContinues
    | NotEligible
    | Serve(maxDeq: nat)
    | Finalize
    | Keep

  /** Finding a command, handing cached events to the application, giving up an atomic context. */
  datatype ContextStep =
    | TakeCommand(slot: Slot)
    | Deliver(k: nat)
    | ReleaseAtomic

  datatype Step = Manage(m: ManageStep) | Schedule(w: ScheduleStep) | Context(x: ContextStep)

  /** The thread is in application code, or polling a packet interface inside schedule(). */
  predicate MayEnqueue(l: Local) {
    l.waking.None? && (l.phase.App? || (l.phase.Taken? && l.phase.cmd.PollCmd?))
  }

  ghost predicate ManageNext(s: State, t: Tid, m: ManageStep, s': State) {
    match m
    case Publish(q, sync, prio) => Ent(s, q).queue.status.Free? && s' == AfterPublish(s, t, q, sync, prio)
    case InitCommand(q) => Ent(s, q).creator == Some(t) && s' == AfterInit(s, q)
    case InitFails(q) => Ent(s, q).creator == Some(t) && s' == Returned(s, q)
    case EnqueueEvents(q, evs) => MayEnqueue(Loc(s, t)) && evs != [] && s' == AfterEnqueue(s, t, q, evs)
    // schedule_queue enqueues the queue's command; a queue without one has nothing to enqueue
    case Wake =>
      && Loc(s, t).waking.Some? && Loc(s, t).waking.value.DequeueCmd? && Loc(s, t).waking.value in s.live
      && s' == AfterWake(s, t)
    case StartPoll(pktio, n, prio) =>
      PollCmd(pktio, n) !in s.live && s' == AfterStartPoll(s, pktio, n, prio)
    case DestroyQueue(q) => s' == AfterDestroy(s, q)
  }

  ghost predicate ScheduleNext(s: State, t: Tid, w: ScheduleStep, s': State) {
    var l := Loc(s, t);
    && l.waking.None?
    && match w
       case PollStops => l.phase.Taken? && l.phase.cmd.PollCmd? && s' == AfterPollStops(s, t)
       case PollContinues => l.phase.Taken? && l.phase.cmd.PollCmd? && s' == AfterPutBack(s, t)
       case NotEligible => l.phase.Taken? && l.phase.cmd.DequeueCmd? && s' == AfterPutBack(s, t)
       case Serve(maxDeq) =>
         l.phase.Taken? && l.phase.cmd.DequeueCmd? && maxDeq >= 1 && s' == AfterServe(s, t, maxDeq)
       case Finalize => l.phase.Dead? && l.phase.cmd.DequeueCmd? && s' == AfterFinalize(s, t)
       case Keep => l.phase.Served? && l.phase.cmd.DequeueCmd? && s' == AfterKeep(s, t)
  }

  ghost predicate ContextNext(s: State, t: Tid, x: ContextStep, s': State) {
    var l := Loc(s, t);
    && l.waking.None?
    && match x
       case TakeCommand(slot) =>
         l.phase.App? && l.held.None? && l.cache.evs == [] && Pri(s, slot) != [] && s' == AfterTake(s, t, slot)
       case Deliver(k) =>
         (l.phase.App? || l.phase.Served?) && 1 <= k <= |l.cache.evs| && s' == AfterDeliver(s, t, k)
       case ReleaseAtomic =>
         l.phase.App? && l.held.Some? && l.cache.evs == [] && s' == AfterRelease(s, t)
  }

  /** Whatever a thread does next, whether or not it may use the queue it names. */
  ghost predicate AnyNext(s: State, t: Tid, step: Step, s': State) {
    match step
    case Manage(m) => ManageNext(s, t, m, s')
    case Schedule(w) => ScheduleNext(s, t, w, s')
    case Context(x) => ContextNext(s, t, x, s')
  }

  /** The entry was published, and its creation has not returned a handle: it is still going on, or
      it failed. */
  predicate Unfinished(s: State, q: Qid) {
    !Ent(s, q).queue.status.Free? && DequeueCmd(q) !in s.live
  }

  /** A queue is used only after its creation returned its handle. */
  predicate Disciplined(s: State, step: Step) {
    step.Manage? && (step.m.EnqueueEvents? || step.m.DestroyQueue?) ==> !Unfinished(s, step.m.q)
  }

  ghost predicate Next(s: State, t: Tid, step: Step, s': State) {
    AnyNext(s, t, step, s') && Disciplined(s, step)
  }

  /** The locked section of odp_queue_create: a scheduled queue that has no command yet. */
  function AfterPublish(s: State, t: Tid, q: Qid, sync: Sync, prio: nat): State {
    s.(queues := Set(s.queues, q, Entry(Queue(NotSched, []), sync, prio, s.insts, Some(t))),
      insts := s.insts + 1, home := Set(s.home, s.insts, Origin(q, sync)),
      freed := Set(s.freed, s.insts, 0),
      entered := Set(s.entered, s.insts, []), drawn := Set(s.drawn, s.insts, []), log := Set(s.log, s.insts, []))
  }

  /** odp_queue_create returns. */
  function Returned(s: State, q: Qid): (r: State)
    ensures SameQueues(s, r)
    ensures SameCaches(s, r)
  {
    s.(queues := Set(s.queues, q, Ent(s, q).(creator := None)))
  }

  /** schedule_queue_init, when the allocation succeeds. */
  function AfterInit(s: State, q: Qid): State {
    PriSet(Returned(s, q), DequeueCmd(q), SlotOf(q, Ent(s, q).prio))
  }

  /** The locked section of queue_enq and queue_enq_multi. */
  function AfterEnqueue(s: State, t: Tid, q: Qid, evs: seq<Event>): (r: State)
    ensures SameQueues(s, r)
    ensures SameCaches(s, r)
  {
    var e := Ent(s, q);
    var out := Enqueue(e.queue, evs);
    if !out.ok then s
    else
      var s1 := SetQueue(s, q, out.q).(entered := Set(s.entered, e.inst, Entered(s, e.inst) + evs));
      if out.wake
      then SetLoc(s1, t, Loc(s, t).(waking := Some(DequeueCmd(q)))).(places := Set(s.places, DequeueCmd(q), With(t)))
      else s1
  }

  /** schedule_queue */
  function AfterWake(s: State, t: Tid): (r: State)
    requires Loc(s, t).waking.Some? && Loc(s, t).waking.value.DequeueCmd?
    ensures SameQueues(s, r)
    ensures SameEvents(s, r) && SameCaches(s, r)
  {
    var c := Loc(s, t).waking.value;
    Push(SetLoc(s, t, Loc(s, t).(waking := None)), SlotOf(c.q, Ent(s, c.q).prio), c)
  }

  /** schedule_pktio_start */
  function AfterStartPoll(s: State, pktio: nat, n: nat, prio: nat): (r: State)
    ensures SameEvents(s, r) && SameCaches(s, r)
  {
    var c, sl := PollCmd(pktio, n), Slot(prio, pktio % QUEUES_PER_PRIO);
    Push(PriSet(s, c, sl), sl, c)
  }

  /** odp_queue_deq on a priority queue. */
  function AfterTake(s: State, t: Tid, sl: Slot): (r: State)
    requires Pri(s, sl) != []
    ensures SameQueues(s, r)
    ensures SameEvents(s, r) && SameCaches(s, r)
  {
    var c := Pri(s, sl)[0];
    SetLoc(s, t, Loc(s, t).(phase := Taken(sl, c))).(pri := Set(s.pri, sl, Pri(s, sl)[1..]), places := Set(s.places, c, With(t)))
  }

  function AfterPollStops(s: State, t: Tid): (r: State)
    requires Loc(s, t).phase.Taken?
    ensures SameEvents(s, r) && SameCaches(s, r)
  {
    var l := Loc(s, t);
    SetLoc(PriClr(s, l.phase.cmd, l.phase.slot), t, l.(phase := App)).(places := Set(s.places, l.phase.cmd, Nowhere))
  }

  /** The command goes back to the priority queue it came from. */
  function AfterPutBack(s: State, t: Tid): (r: State)
    requires Loc(s, t).phase.Taken?
    ensures SameQueues(s, r)
    ensures SameEvents(s, r) && SameCaches(s, r)
  {
    var l := Loc(s, t);
    Push(SetLoc(s, t, l.(phase := App)), l.phase.slot, l.phase.cmd)
  }

  /** queue_deq_multi and the branches on its result. */
  function AfterServe(s: State, t: Tid, maxDeq: nat): (r: State)
    requires Loc(s, t).phase.Taken? && Loc(s, t).phase.cmd.DequeueCmd?
    ensures SameQueues(s, r) && r.entered == s.entered
  {
    var out := DequeueMulti(Ent(s, Loc(s, t).phase.cmd.q).queue, maxDeq);
    if out.rc < 0 then ServeDead(s, t)
    else if out.rc == 0 then ServeEmpty(s, t, out.q)
    else ServeEvents(s, t, out.q, out.evs)
  }

  /** Destroyed queue. */
  function ServeDead(s: State, t: Tid): (r: State)
    requires Loc(s, t).phase.Taken?
    ensures SameCaches(s, r) && r.entered == s.entered
  {
    SetLoc(s, t, Loc(s, t).(phase := Dead(Loc(s, t).phase.cmd)))
  }

  /** Remove empty queue from scheduling. */
  function ServeEmpty(s: State, t: Tid, queue: Queue): (r: State)
    requires Loc(s, t).phase.Taken? && Loc(s, t).phase.cmd.DequeueCmd?
    ensures SameCaches(s, r) && r.entered == s.entered
  {
    var l := Loc(s, t);
    SetLoc(SetQueue(s, l.phase.cmd.q, queue), t, l.(phase := App)).(places := Set(s.places, l.phase.cmd, Nowhere))
  }

  function ServeEvents(s: State, t: Tid, queue: Queue, evs: seq<Event>): (r: State)
    requires Loc(s, t).phase.Taken? && Loc(s, t).phase.cmd.DequeueCmd?
    ensures r.entered == s.entered
  {
    var l := Loc(s, t);
    var i := Ent(s, l.phase.cmd.q).inst;
    SetLoc(SetQueue(s, l.phase.cmd.q, queue), t,
           l.(phase := Served(l.phase.slot, l.phase.cmd), cache := Cache(i, |Drawn(s, i)|, evs))).(
      drawn := Set(s.drawn, i, Drawn(s, i) + evs))
  }

  /** schedule_queue_destroy */
  function FreeCommand(s: State, q: Qid): State {
    var e := Ent(s, q);
    PriClr(s, DequeueCmd(q), SlotOf(q, e.prio)).(freed := Set(s.freed, e.inst, Freed(s, e.inst) + 1))
  }

  /** queue_destroy_finalize */
  function AfterFinalize(s: State, t: Tid): (r: State)
    requires Loc(s, t).phase.Dead? && Loc(s, t).phase.cmd.DequeueCmd?
    ensures SameCaches(s, r)
    ensures QueueOnly(s, r, Loc(s, t).phase.cmd.q, DestroyFinalize(Ent(s, Loc(s, t).phase.cmd.q).queue).q)
  {
    var q := Loc(s, t).phase.cmd.q;
    var out := DestroyFinalize(Ent(s, q).queue);
    var s1 := FinalizeQueue(s, t, out.q);
    if out.freeCommand then FreeCommand(s1, q) else s1
  }

  function FinalizeQueue(s: State, t: Tid, queue: Queue): (r: State)
    requires Loc(s, t).phase.Dead? && Loc(s, t).phase.cmd.DequeueCmd?
    ensures SameCommands(s, r)
  {
    var l := Loc(s, t);
    SetLoc(SetQueue(s, l.phase.cmd.q, queue), t, l.(phase := App)).(places := Set(s.places, l.phase.cmd, Nowhere))
  }

  /** An atomic queue's command is held in sched_local; a parallel queue goes on being scheduled. */
  function AfterKeep(s: State, t: Tid): (r: State)
    requires Loc(s, t).phase.Served? && Loc(s, t).phase.cmd.DequeueCmd?
    ensures SameQueues(s, r)
    ensures SameEvents(s, r) && SameCaches(s, r)
  {
    var l := Loc(s, t);
    var c, sl := l.phase.cmd, l.phase.slot;
    if Ent(s, c.q).sync.Atomic?
    then SetLoc(s, t, l.(phase := App, held := Some((sl, c))))
    else Push(SetLoc(s, t, l.(phase := App)), sl, c)
  }

  /** copy_events */
  function AfterDeliver(s: State, t: Tid, k: nat): (r: State)
    requires k <= |Loc(s, t).cache.evs|
    ensures SameQueues(s, r)
    ensures SameEvents(s, r)
  {
    var l := Loc(s, t);
    var ca := l.cache;
    SetLoc(s, t, l.(cache := Cache(ca.inst, ca.from + k, ca.evs[k..]))).(
      log := Set(s.log, ca.inst, Log(s, ca.inst) + Range(ca.from, k)))
  }

  /** odp_schedule_release_atomic */
  function AfterRelease(s: State, t: Tid): (r: State)
    requires Loc(s, t).held.Some?
    ensures SameQueues(s, r)
    ensures SameEvents(s, r) && SameCaches(s, r)
  {
    var l := Loc(s, t);
    Push(SetLoc(s, t, l.(held := None)), l.held.value.0, l.held.value.1)
  }

  /** odp_queue_destroy */
  function AfterDestroy(s: State, q: Qid): (r: State)
    ensures SameCaches(s, r)
    ensures QueueOnly(s, r, q, Destroy(Ent(s, q).queue).q)
  {
    var out := Destroy(Ent(s, q).queue);
    var s1 := SetQueue(s, q, out.q);
    if out.freeCommand then FreeCommand(s1, q) else s1
  }

  function Range(from: nat, k: nat): seq<nat> {
    seq(k, i requires 0 <= i => from + i)
  }

  ghost predicate Init(s: State) {
    s == State(map[], map[], map[], {}, map[], map[], map[], 0, map[], map[], map[], map[], map[])
  }
}
