/** Taking the locks of two queues in address order: no deadlock among any number of threads. */
module QueueLocks {
  import opened Tables

  type Tid = nat

  /** A queue entry of the queue table; the order of the addresses is the order of the indices. */
  type Qid = nat

  const QUEUES := 1024

  /** A thread outside; inside get_qe_locks, `first` once it has the first lock of its pair; with both; and
      inside free_qe_locks, `first` once the first argument is unlocked. */
  datatype Local =
    | Outside
    | Getting(a: Qid, b: Qid, first: bool)
    | Inside(a: Qid, b: Qid)
    | Freeing(a: Qid, b: Qid, first: bool)

  /** locks: the owner of every lock that is taken. */
  datatype State = State(locks: map<Qid, Tid>, threads: map<Tid, Local>)

  function Look(s: State, t: Tid): Local {
    Get(s.threads, t, Outside)
  }

  function At(s: State, t: Tid, l: Local): State {
    s.(threads := Set(s.threads, t, l))
  }

  ghost predicate Init(s: State) {
    s == State(map[], map[])
  }

  /** The lock get_qe_locks(a, b) takes first, and the one it takes second if they differ. */
  function Lower(a: Qid, b: Qid): Qid { if a < b then a else b }
  function Upper(a: Qid, b: Qid): Qid { if a < b then b else a }

  /** Call get_qe_locks; take the next lock; call free_qe_locks with the arguments in either order; unlock. */
  datatype Step = Call(a: Qid, b: Qid) | Take | Release(swap: bool) | Unlock

  /** The lock a thread inside get_qe_locks takes next. */
  function Wanted(l: Local): Qid
    requires l.Getting?
  {
    if l.first then Upper(l.a, l.b) else Lower(l.a, l.b)
  }

  predicate Enabled(s: State, t: Tid, step: Step) {
    var l := Look(s, t);
    match step
    case Call(a, b) => l.Outside? && a < QUEUES && b < QUEUES
    case Take => l.Getting? && Wanted(l) !in s.locks
    case Release(_) => l.Inside?
    case Unlock => l.Freeing?
  }

  /** A taken lock moves the thread on; with equal queues the first lock is the only one. */
  function AfterTake(s: State, t: Tid): State
    requires Look(s, t).Getting?
  {
    var l := Look(s, t);
    At(s, t, if l.first || l.a == l.b then Inside(l.a, l.b) else Getting(l.a, l.b, true)).(locks := s.locks[Wanted(l) := t])
  }

  /** The first argument is unlocked, then the second unless it is the same queue. */
  function AfterUnlock(s: State, t: Tid): State
    requires Look(s, t).Freeing?
  {
    var l := Look(s, t);
    if l.first then At(s, t, Outside).(locks := s.locks - {l.b})
    else At(s, t, if l.a == l.b then Outside else Freeing(l.a, l.b, true)).(locks := s.locks - {l.a})
  }

  ghost predicate Next(s: State, t: Tid, step: Step, s': State) {
    && Enabled(s, t, step)
    && s' == match step
             case Call(a, b) => At(s, t, Getting(a, b, false))
             case Take => AfterTake(s, t)
             case Release(swap) => At(s, t, if swap then Freeing(Look(s, t).b, Look(s, t).a, false) else Freeing(Look(s, t).a, Look(s, t).b, false))
             case Unlock => AfterUnlock(s, t)
  }

  // ---------- what every step keeps ----------

  /** The locks a thread has. */
  function Has(l: Local): set<Qid> {
    match l
    case Outside => {}
    case Getting(a, b, first) => if first then {Lower(a, b)} else {}
    case Inside(a, b) => {a, b}
    case Freeing(a, b, first) => if first then {b} else {a, b}
  }

  predicate LocalOk(l: Local) {
    && ((l.Getting? || l.Freeing?) && l.first ==> l.a != l.b)
    && (l.Getting? ==> l.a < QUEUES && l.b < QUEUES)
  }

  /** A lock is owned by a thread exactly when the thread has it. */
  ghost predicate OwnerAt(s: State, t: Tid, q: Qid) {
    q in Has(Get(s.threads, t, Outside)) <==> q in s.locks && s.locks[q] == t
  }

  ghost predicate Inv(s: State) {
    && (forall t {:trigger Get(s.threads, t, Outside)} :: LocalOk(Get(s.threads, t, Outside)))
    && (forall t, q :: OwnerAt(s, t, q))
  }

  lemma InitInv(s: State)
    requires Init(s)
    ensures Inv(s)
  {
    forall t, q ensures OwnerAt(s, t, q) {
      assert Get(s.threads, t, Outside) == Outside;
    }
  }

  lemma StepAt(s: State, t: Tid, step: Step, s': State, u: Tid, q: Qid)
    requires Inv(s) && Next(s, t, step, s')
    ensures LocalOk(Get(s'.threads, u, Outside)) && OwnerAt(s', u, q)
  {
    assert OwnerAt(s, u, q) && OwnerAt(s, t, q);
    assert LocalOk(Get(s.threads, t, Outside)) && LocalOk(Get(s.threads, u, Outside));
    if step.Unlock? {
      var l := Look(s, t);
      assert OwnerAt(s, t, l.a) && OwnerAt(s, t, l.b) && OwnerAt(s, u, l.a) && OwnerAt(s, u, l.b);
    } else if step.Take? {
      assert OwnerAt(s, u, Wanted(Look(s, t)));
    }
  }

  lemma StepKeeps(s: State, t: Tid, step: Step, s': State)
    requires Inv(s) && Next(s, t, step, s')
    ensures Inv(s')
  {
    forall u ensures LocalOk(Get(s'.threads, u, Outside)) {
      StepAt(s, t, step, s', u, 0);
    }
    forall u, q ensures OwnerAt(s', u, q) {
      StepAt(s, t, step, s', u, q);
    }
  }

  datatype Move = Move(t: Tid, step: Step)

  ghost predicate Run(run: seq<State>, moves: seq<Move>) {
    && |run| == |moves| + 1 && Init(run[0])
    && forall k :: 0 <= k < |moves| ==> Next(run[k], moves[k].t, moves[k].step, run[k + 1])
  }

  lemma {:induction false} RunKeeps(run: seq<State>, moves: seq<Move>, k: nat)
    requires Run(run, moves) && k < |run|
    ensures Inv(run[k])
  {
    if k == 0 {
      InitInv(run[0]);
    } else {
      RunKeeps(run, moves, k - 1);
      StepKeeps(run[k - 1], moves[k - 1].t, moves[k - 1].step, run[k]);
    }
  }

  // ---------- waiting ----------

  /** Thread t waits for a lock that u has. */
  ghost predicate Waits(s: State, t: Tid, u: Tid) {
    Look(s, t).Getting? && Wanted(Look(s, t)) in s.locks && s.locks[Wanted(Look(s, t))] == u
  }

  /** Whoever holds up a waiting thread does not wait itself, or waits for a higher lock. */
  lemma WaitsUpward(s: State, t: Tid, u: Tid)
    requires Inv(s) && Waits(s, t, u)
    ensures !Look(s, u).Outside? && (Look(s, u).Getting? ==> Wanted(Look(s, t)) < Wanted(Look(s, u)) < QUEUES)
  {
    assert OwnerAt(s, u, Wanted(Look(s, t)));
    assert LocalOk(Get(s.threads, u, Outside));
  }

  /** A chain of waiting threads, each waiting for the next. */
  ghost predicate Chain(s: State, ts: seq<Tid>) {
    forall i :: 0 <= i < |ts| - 1 ==> Waits(s, ts[i], ts[i + 1])
  }

  lemma {:induction false} ChainClimbs(s: State, ts: seq<Tid>)
    requires Inv(s) && Chain(s, ts) && |ts| >= 2 && Look(s, ts[|ts| - 1]).Getting?
    ensures Look(s, ts[0]).Getting? && Wanted(Look(s, ts[0])) < Wanted(Look(s, ts[|ts| - 1]))
  {
    assert Waits(s, ts[0], ts[1]);
    WaitsUpward(s, ts[0], ts[1]);
    if |ts| > 2 {
      var rest := ts[1..];
      assert Chain(s, rest) by {
        forall i | 0 <= i < |rest| - 1 ensures Waits(s, rest[i], rest[i + 1]) {
          assert Waits(s, ts[i + 1], ts[i + 2]);
        }
      }
      ChainClimbs(s, rest);
    }
  }

  /** In no reachable state do threads wait for each other in a cycle. */
  lemma NoCycle(run: seq<State>, moves: seq<Move>, k: nat, ts: seq<Tid>)
    requires Run(run, moves) && k < |run| && |ts| >= 2 && Chain(run[k], ts)
    ensures ts[0] != ts[|ts| - 1]
  {
    RunKeeps(run, moves, k);
    if Look(run[k], ts[|ts| - 1]).Getting? {
      ChainClimbs(run[k], ts);
    } else {
      assert Waits(run[k], ts[0], ts[1]);
    }
  }

  /** Whenever a thread is inside, some thread that is inside can take a step. */
  lemma {:induction false} Proceed(s: State, t: Tid) returns (u: Tid, step: Step)
    requires Inv(s) && !Look(s, t).Outside?
    ensures !Look(s, u).Outside? && Enabled(s, u, step)
    decreases if Look(s, t).Getting? then QUEUES - Wanted(Look(s, t)) else 0
  {
    var l := Look(s, t);
    assert LocalOk(Get(s.threads, t, Outside));
    match l
    case Getting(_, _, _) =>
      if Wanted(l) in s.locks {
        var h := s.locks[Wanted(l)];
        WaitsUpward(s, t, h);
        u, step := Proceed(s, h);
      } else {
        u, step := t, Take;
      }
    case Inside(_, _) => u, step := t, Release(false);
    case Freeing(_, _, _) => u, step := t, Unlock;
  }

  lemma SomeoneProceeds(run: seq<State>, moves: seq<Move>, k: nat, t: Tid) returns (u: Tid, step: Step)
    requires Run(run, moves) && k < |run| && !Look(run[k], t).Outside?
    ensures !Look(run[k], u).Outside? && Enabled(run[k], u, step)
  {
    RunKeeps(run, moves, k);
    u, step := Proceed(run[k], t);
  }

  /** A thread inside its critical section has exactly the locks of its two queues; an unlock gives up a lock
      the thread has; and a thread outside has none, so free_qe_locks released what get_qe_locks took,
      whichever way round its arguments were. */
  lemma ExactlyItsLocks(run: seq<State>, moves: seq<Move>, k: nat, t: Tid, q: Qid)
    requires Run(run, moves) && k < |run|
    ensures var s, l := run[k], Look(run[k], t);
      var has := q in s.locks && s.locks[q] == t;
      && (l.Inside? ==> (has <==> q == l.a || q == l.b))
      && (l.Outside? ==> !has)
      && (l.Freeing? && q == (if l.first then l.b else l.a) ==> has)
  {
    RunKeeps(run, moves, k);
    assert OwnerAt(run[k], t, q);
  }

  /** No lock has two owners: two threads are never both inside for a common queue. */
  lemma MutualExclusion(run: seq<State>, moves: seq<Move>, k: nat, t: Tid, u: Tid)
    requires Run(run, moves) && k < |run| && Look(run[k], t).Inside? && Look(run[k], u).Inside?
    requires Look(run[k], t).a == Look(run[k], u).a || Look(run[k], t).a == Look(run[k], u).b
    ensures t == u
  {
    ExactlyItsLocks(run, moves, k, t, Look(run[k], t).a);
    ExactlyItsLocks(run, moves, k, u, Look(run[k], t).a);
  }
}
