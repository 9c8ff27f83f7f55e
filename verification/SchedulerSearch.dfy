/** The search of schedule(): which priority queue a thread takes its work from, while other threads change
    the masks and the priority queues. */
module SchedulerSearch {
  import Bits
  import opened Wrappers
  import opened Scheduler

  /** What the thread finds as it goes: whether the mask word of priority i is non-zero when it is tested, and
      whether the j-th visit of that priority ends the search, with the mask bit set and a command that
      brings events. Each is asked once, and may have been different a moment before or after. What a
      visit does that does not end the search is a step of the scheduler. */
  datatype Findings = Findings(word: nat -> bool, brings: (nat, nat) -> bool)
  {
    predicate Hit(i: nat, j: nat) { word(i) && brings(i, j) }
  }

  /** The queue visited j-th by a thread that starts at `first`. */
  function Turn(first: nat, j: nat): nat
    requires first < QUEUES_PER_PRIO && j < QUEUES_PER_PRIO
  {
    if first + j < QUEUES_PER_PRIO then first + j else first + j - QUEUES_PER_PRIO
  }

  /** How far down the round a queue of a priority is. */
  function Rank(first: nat, id: nat): (j: nat)
    requires first < QUEUES_PER_PRIO && id < QUEUES_PER_PRIO
    ensures j < QUEUES_PER_PRIO && Turn(first, j) == id
  {
    if id >= first then id - first else id + QUEUES_PER_PRIO - first
  }

  /** The search ended at the first visit that brought events, or made all visits and none did. */
  ghost predicate FirstHit(f: Findings, first: nat, prios: nat, found: Option<Slot>)
    requires first < QUEUES_PER_PRIO
  {
    match found
    case Some(sl) =>
      && sl.prio < prios && sl.id < QUEUES_PER_PRIO && f.Hit(sl.prio, Rank(first, sl.id))
      && (forall i, j :: 0 <= i < sl.prio && 0 <= j < QUEUES_PER_PRIO ==> !f.Hit(i, j))
      && (forall j :: 0 <= j < Rank(first, sl.id) ==> !f.Hit(sl.prio, j))
    case None => forall i, j :: 0 <= i < prios && 0 <= j < QUEUES_PER_PRIO ==> !f.Hit(i, j)
  }

  /** The two loops of schedule(): priorities from the highest, in each its four queues from the thread's own. */
  method Search(f: Findings, prios: nat, thr: Bits.u32) returns (found: Option<Slot>)
    ensures FirstHit(f, thr % QUEUES_PER_PRIO, prios, found)
  {
    var i := 0;
    while i < prios
      invariant 0 <= i <= prios
      invariant forall i', j :: 0 <= i' < i && 0 <= j < QUEUES_PER_PRIO ==> !f.Hit(i', j)
    {
      if f.word(i) {
        found := SearchPriority(f, i, thr);
        if found.Some? {
          return;
        }
      }
      i := i + 1;
    }
    found := None;
  }

  /** One priority: its four queues, each once, starting from the thread's own. */
  method SearchPriority(f: Findings, prio: nat, thr: Bits.u32) returns (found: Option<Slot>)
    ensures var first := thr % QUEUES_PER_PRIO;
      match found
      case Some(sl) =>
        && sl.prio == prio && sl.id < QUEUES_PER_PRIO && f.brings(prio, Rank(first, sl.id))
        && forall j :: 0 <= j < Rank(first, sl.id) ==> !f.brings(prio, j)
      case None => forall j :: 0 <= j < QUEUES_PER_PRIO ==> !f.brings(prio, j)
  {
    Bits.AndThree(thr);
    var id, j := Bits.And(thr, QUEUES_PER_PRIO - 1), 0;
    ghost var first := id;
    while j < QUEUES_PER_PRIO
      invariant 0 <= j <= QUEUES_PER_PRIO && id == first + j - if first + j <= QUEUES_PER_PRIO then 0 else QUEUES_PER_PRIO
      invariant forall k :: 0 <= k < j ==> !f.brings(prio, k)
    {
      if id >= QUEUES_PER_PRIO {
        id := 0;
      }
      assert Rank(first, id) == j;
      if f.brings(prio, j) {
        return Some(Slot(prio, id));
      }
      j, id := j + 1, id + 1;
    }
    found := None;
  }

  /** Slot a is visited before slot b. */
  predicate Before(first: nat, a: Slot, b: Slot)
    requires first < QUEUES_PER_PRIO && a.id < QUEUES_PER_PRIO && b.id < QUEUES_PER_PRIO
  {
    a.prio < b.prio || (a.prio == b.prio && Rank(first, a.id) < Rank(first, b.id))
  }

  /** Nothing changed during the search: a visit of a slot finds its mask bit and what its command brings. */
  ghost predicate Steady(f: Findings, first: nat, mask: set<Slot>, gives: Slot -> bool)
    requires first < QUEUES_PER_PRIO
  {
    && (forall i :: f.word(i) <==> exists id :: 0 <= id < QUEUES_PER_PRIO && Slot(i, id) in mask)
    && (forall i: nat, j: nat :: j < QUEUES_PER_PRIO ==>
          (f.brings(i, j) <==> Slot(i, Turn(first, j)) in mask && gives(Slot(i, Turn(first, j)))))
  }

  /** If nothing changes meanwhile, the slot found is the best one that brings events: of the highest
      priority, and among its equals the nearest from the thread's own; and none is missed. */
  lemma BestSlot(f: Findings, first: nat, prios: nat, found: Option<Slot>, mask: set<Slot>, gives: Slot -> bool, other: Slot)
    requires first < QUEUES_PER_PRIO && FirstHit(f, first, prios, found) && Steady(f, first, mask, gives)
    requires other.prio < prios && other.id < QUEUES_PER_PRIO && other in mask && gives(other)
    ensures found.Some? && found.value in mask && gives(found.value) && found.value.id < QUEUES_PER_PRIO
    ensures !Before(first, other, found.value)
  {
    var j := Rank(first, other.id);
    assert f.word(other.prio);
    assert f.brings(other.prio, j);
    assert f.Hit(other.prio, j);
    if found.Some? {
      assert f.brings(found.value.prio, Rank(first, found.value.id));
    }
  }
}
