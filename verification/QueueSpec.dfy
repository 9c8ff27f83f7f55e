/** What one locked section of a queue operation does to a queue: its status and its events.
    The linked-list code and the scheduler protocol are both stated over these functions. */
module QueueSpec {

  /** An event handle. */
  type Event = nat

  datatype Status = Free | Destroyed | Ready | NotSched | Sched
  {
    /** status < QUEUE_STATUS_READY */
    predicate Bad() {
      Free? || Destroyed?
    }
  }

  datatype Queue = Queue(status: Status, events: seq<Event>)

  /** An enqueue either refuses a bad queue or appends; `wake` tells the caller to put the
      queue's command event into its priority queue. */
  datatype EnqueueOutcome = EnqueueOutcome(q: Queue, ok: bool, wake: bool)

  /** queue_enq and queue_enq_multi */
  function Enqueue(q: Queue, evs: seq<Event>): EnqueueOutcome {
    if q.status.Bad() then EnqueueOutcome(q, false, false)
    else EnqueueOutcome(Queue(if q.status.NotSched? then Sched else q.status, q.events + evs), true, q.status.NotSched?)
  }

  /** `rc` is negative for a bad queue, otherwise the number of events taken. */
  datatype DequeueOutcome = DequeueOutcome(q: Queue, rc: int, evs: seq<Event>)

  function Min(a: nat, b: nat): nat {
    if a <= b then a else b
  }

  /** queue_deq_multi: a queue found empty leaves scheduling. */
  function DequeueMulti(q: Queue, num: nat): DequeueOutcome {
    if q.status.Bad() then DequeueOutcome(q, -1, [])
    else if q.events == [] then DequeueOutcome(q.(status := if q.status.Sched? then NotSched else q.status), 0, [])
    else
      var n := Min(num, |q.events|);
      DequeueOutcome(q.(events := q.events[n..]), n, q.events[..n])
  }

  /** queue_deq: at most one event, and the status is not checked. */
  function Dequeue(q: Queue): DequeueOutcome {
    if q.events == [] then DequeueOutcome(q.(status := if q.status.Sched? then NotSched else q.status), 0, [])
    else DequeueOutcome(q.(events := q.events[1..]), 1, q.events[..1])
  }

  datatype DestroyOutcome = DestroyOutcome(q: Queue, rc: int, freeCommand: bool)

  /** odp_queue_destroy: a queue that is in scheduling is only marked. `freeCommand` says that
      the queue's command event is freed here and its priority slot given up. */
  function Destroy(q: Queue): DestroyOutcome {
    if q.status.Bad() || q.events != [] then DestroyOutcome(q, -1, false)
    else match q.status
      case Sched => DestroyOutcome(q.(status := Destroyed), 0, false)
      case NotSched => DestroyOutcome(q.(status := Free), 0, true)
      case _ => DestroyOutcome(q.(status := Free), 0, false)
  }

  /** queue_destroy_finalize */
  function DestroyFinalize(q: Queue): DestroyOutcome {
    if q.status.Destroyed? then DestroyOutcome(q.(status := Free), 0, true)
    else DestroyOutcome(q, 0, false)
  }

  /** Enqueueing events one by one: the queue afterwards, and how many of the calls wake it. */
  function OneByOne(q: Queue, evs: seq<Event>): (Queue, nat)
    decreases |evs|
  {
    if evs == [] then (q, 0)
    else
      var first := Enqueue(q, evs[..1]);
      var (after, wakes) := OneByOne(first.q, evs[1..]);
      (after, wakes + if first.wake then 1 else 0)
  }

  /** Enqueueing a burst is the same as enqueueing its events one by one, and one of these calls wakes the
      queue exactly if the burst does. */
  lemma {:induction false} BurstIsSingles(q: Queue, evs: seq<Event>)
    requires evs != []
    ensures var burst := Enqueue(q, evs); OneByOne(q, evs) == (burst.q, if burst.wake then 1 else 0)
    decreases |evs|
  {
    if |evs| == 1 {
      assert evs[..1] == evs;
    } else {
      BurstIsSingles(Enqueue(q, evs[..1]).q, evs[1..]);
      assert q.events + evs == q.events + evs[..1] + evs[1..];
    }
  }

  /** A queue can be destroyed exactly when it is alive and empty; afterwards nothing is accepted and nothing comes
      out, the command is freed once, at once or by the finalize of a queue that was in scheduling, and then the
      entry is free. */
  lemma DestroyEnds(q: Queue, evs: seq<Event>, num: nat)
    ensures Destroy(q).rc == 0 <==> !q.status.Free? && !q.status.Destroyed? && q.events == []
    ensures Destroy(q).rc != 0 ==> Destroy(q).rc == -1 && Destroy(q).q == q
    ensures Destroy(q).rc == 0 ==> var q' := Destroy(q).q;
      && !Enqueue(q', evs).ok && Enqueue(q', evs).q == q' && DequeueMulti(q', num).rc < 0 && DequeueMulti(q', num).q == q'
      && (q.status.Sched? ==> !Destroy(q).freeCommand && DestroyFinalize(q').freeCommand)
      && (q.status.NotSched? ==> Destroy(q).freeCommand && !DestroyFinalize(q').freeCommand)
      && DestroyFinalize(q').q == Queue(Free, [])
  {
  }
}
