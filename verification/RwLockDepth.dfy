/** What the bound on nested write acquisitions is for: a run that takes the recursive lock once more than
    its 32-bit count can tell. */
module RwLockDepth {
  import opened Bits
  import opened Tables
  import opened Wrappers
  import opened RwLock

  ghost predicate AnyRun(run: seq<State>, moves: seq<Move>) {
    && |run| == |moves| + 1 && Init(run[0])
    && forall k {:trigger moves[k]} :: 0 <= k < |moves| ==> AnyNext(run[k], moves[k].t, moves[k].step, run[k + 1])
  }

  ghost predicate Reaches(run: seq<State>, moves: seq<Move>, s: State) {
    AnyRun(run, moves) && run[|moves|] == s
  }

  ghost predicate Reachable(s: State) {
    exists run, moves :: Reaches(run, moves, s)
  }

  lemma ReachStep(s: State, t: Tid, w: WriteStep, s': State)
    requires Reachable(s) && WriteNext(s, t, w, s')
    ensures Reachable(s')
  {
    var run, moves :| Reaches(run, moves, s);
    hide WriteNext, ReadNext;
    var run', moves' := run + [s'], moves + [Move(t, Write(w))];
    forall i | 0 <= i < |moves'| ensures AnyNext(run'[i], moves'[i].t, moves'[i].step, run'[i + 1]) {
      assert i < |moves| ==> moves'[i] == moves[i];
    }
    assert Reaches(run', moves', s');
  }

  /** A free base lock, with the threads as given. */
  function Unlocked(threads: map<Tid, Local>): State {
    State(0, None, 0, threads, multiset{}, None)
  }

  function Writer(pc: Pc, n: nat): Local {
    Local(pc, 0, 0, n)
  }

  /** A thread outside takes a free lock for writing. */
  lemma TakesIt(threads: map<Tid, Local>, t: Tid)
    requires Reachable(Unlocked(threads)) && Get(threads, t, NoLocal) == NoLocal
    ensures Reachable(State(LOCKED, Some(t), 1, Set(threads, t, Writer(Outside, 1)), multiset{}, Some(t)))
  {
    var s0 := Unlocked(threads);
    var s1, s2 := Unlocked(Set(threads, t, Writer(Writing, 0))), Unlocked(Set(threads, t, Writer(WriteCas, 0)));
    ReachStep(s0, t, WriteCall, s1);
    SetTwice(threads, t, Writer(Writing, 0), Writer(WriteCas, 0));
    ReachStep(s1, t, WriteLoad, s2);
    Locks(threads, t, s2);
  }

  lemma Locks(threads: map<Tid, Local>, t: Tid, s2: State)
    requires s2 == Unlocked(Set(threads, t, Writer(WriteCas, 0))) && Reachable(s2)
    ensures Reachable(State(LOCKED, Some(t), 1, Set(threads, t, Writer(Outside, 1)), multiset{}, Some(t)))
  {
    var s3 := State(LOCKED, None, 0, Set(threads, t, Writer(WriteGot, 0)), multiset{}, Some(t));
    var s4 := State(LOCKED, Some(t), 0, Set(threads, t, Writer(WriteOwned, 0)), multiset{}, Some(t));
    SetTwice(threads, t, Writer(WriteCas, 0), Writer(WriteGot, 0));
    ReachStep(s2, t, WriteSwap, s3);
    SetTwice(threads, t, Writer(WriteGot, 0), Writer(WriteOwned, 0));
    ReachStep(s3, t, WriteOwner, s4);
    SetTwice(threads, t, Writer(WriteOwned, 0), Writer(Outside, 1));
    ReachStep(s4, t, WriteCount, State(LOCKED, Some(t), 1, Set(threads, t, Writer(Outside, 1)), multiset{}, Some(t)));
  }

  lemma SetTwice(m: map<Tid, Local>, t: Tid, l: Local, l': Local)
    ensures Set(Set(m, t, l), t, l') == Set(m, t, l') && Get(Set(m, t, l), t, NoLocal) == l
  {
  }

  /** Thread t has taken the lock n times. */
  function Held(t: Tid, n: nat): State {
    State(LOCKED, Some(t), Low32(n), Set(map[], t, Writer(Outside, n)), multiset{}, Some(t))
  }

  lemma {:induction false} Nested(t: Tid, n: nat)
    requires n >= 1
    ensures Reachable(Held(t, n))
    decreases n
  {
    if n == 1 {
      var s0 := Unlocked(map[]);
      assert Reaches([s0], [], s0);
      TakesIt(map[], t);
    } else {
      Nested(t, n - 1);
      SetTwice(map[], t, Writer(Outside, n - 1), Writer(Outside, n));
      ReachStep(Held(t, n - 1), t, WriteCall, Held(t, n));
    }
  }

  /** One release of 2^32 + 1 acquisitions gives up the lock. */
  lemma GivesUp(t: Tid, n: nat)
    requires n == TWO32
    ensures Reachable(Unlocked(Set(map[], t, Writer(Outside, n))))
  {
    Nested(t, n + 1);
    var s1 := State(LOCKED, Some(t), 0, Set(map[], t, Writer(WriteDrop, n)), multiset{}, Some(t));
    var s2 := State(LOCKED, None, 0, Set(map[], t, Writer(WriteFree, n)), multiset{}, Some(t));
    SetTwice(map[], t, Writer(Outside, n + 1), Writer(WriteDrop, n));
    ReachStep(Held(t, n + 1), t, WriteUnlock, s1);
    SetTwice(map[], t, Writer(WriteDrop, n), Writer(WriteFree, n));
    ReachStep(s1, t, WriteDisown, s2);
    SetTwice(map[], t, Writer(WriteFree, n), Writer(Outside, n));
    ReachStep(s2, t, WriteStore, Unlocked(Set(map[], t, Writer(Outside, n))));
  }

  /** A run, over the bound, in which two threads have unreleased write acquisitions at once. */
  lemma TooDeep(t: Tid, u: Tid) returns (s: State)
    requires t != u
    ensures Reachable(s) && Look(s, t).writesHeld == TWO32 && Look(s, u).writesHeld == 1
  {
    GivesUp(t, TWO32);
    var threads := Set(map[], t, Writer(Outside, TWO32));
    TakesIt(threads, u);
    s := State(LOCKED, Some(u), 1, Set(threads, u, Writer(Outside, 1)), multiset{}, Some(u));
  }
}
