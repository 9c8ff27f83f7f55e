/** The recursive spinlock: every shared access of every thread is one step. */
module RecursiveSpinLock {
  import opened Bits
  import opened Tables
  import opened Wrappers

  type Tid = nat

  /** Where a thread is: about to test and set the flag, in lock or in trylock; holding the flag before the
      owner, or before the count is set; and giving up owner and flag. */
  datatype Pc = Outside | Locking | Trying | Got | Owned | Disowning | Clearing

  /** depth: how many acquisitions the thread has not released. */
  datatype Local = Local(pc: Pc, depth: nat)

  const NoLocal := Local(Outside, 0)

  /** holder: who has set the flag. */
  datatype State = State(flag: bool, owner: Option<Tid>, cnt: u32, threads: map<Tid, Local>, holder: Option<Tid>)

  function Look(s: State, t: Tid): Local {
    Get(s.threads, t, NoLocal)
  }

  function At(s: State, t: Tid, l: Local): State {
    s.(threads := Set(s.threads, t, l))
  }

  ghost predicate Init(s: State) {
    s == State(false, None, 0, map[], None)
  }

  datatype Step = CallLock | CallTryLock | TestAndSet | SetOwner | SetCount | Unlock | Disown | Clear

  /** Not more than 2^32 nested acquisitions. */
  predicate Bounded(l: Local) {
    l.depth <= TWO32
  }

  ghost predicate Next(s: State, t: Tid, step: Step, s': State) {
    var l := Look(s, t);
    && Bounded(Look(s', t))
    && match step
       case CallLock =>
         l.pc.Outside? && s' == if s.owner == Some(t) then At(s, t, l.(depth := l.depth + 1)).(cnt := Low32(s.cnt + 1)) else At(s, t, l.(pc := Locking))
       case CallTryLock =>
         l.pc.Outside? && s' == if s.owner == Some(t) then At(s, t, l.(depth := l.depth + 1)).(cnt := Low32(s.cnt + 1)) else At(s, t, l.(pc := Trying))
       case TestAndSet =>
         (l.pc.Locking? || l.pc.Trying?)
         && s' == if !s.flag then At(s, t, l.(pc := Got)).(flag := true, holder := Some(t))
                  else if l.pc.Trying? then At(s, t, l.(pc := Outside)) else s
       case SetOwner => l.pc.Got? && s' == At(s, t, l.(pc := Owned)).(owner := Some(t))
       case SetCount => l.pc.Owned? && s' == At(s, t, Local(Outside, l.depth + 1)).(cnt := 1)
       case Unlock =>
         l.pc.Outside? && l.depth > 0
         && var n := Low32(s.cnt - 1);
         s' == At(s, t, Local(if n > 0 then Outside else Disowning, l.depth - 1)).(cnt := n)
       case Disown => l.pc.Disowning? && s' == At(s, t, l.(pc := Clearing)).(owner := None)
       case Clear => l.pc.Clearing? && s' == At(s, t, l.(pc := Outside)).(flag := false, holder := None)
  }

  // ---------- what every step keeps ----------

  predicate SharedOk(s: State) {
    (s.flag <==> s.holder.Some?) && (s.owner.Some? ==> s.owner == s.holder)
  }

  /** A thread holds the flag from its test-and-set to its clear, and is the owner while it has unreleased
      acquisitions, which the count counts. */
  predicate ThreadOk(l: Local, holder: bool, owner: bool, cnt: u32) {
    && (holder <==> l.depth > 0 || l.pc.Got? || l.pc.Owned? || l.pc.Disowning? || l.pc.Clearing?)
    && (owner <==> l.depth > 0 || l.pc.Owned? || l.pc.Disowning?)
    && (!l.pc.Outside? ==> l.depth == 0)
    && (l.depth > 0 ==> cnt == Low32(l.depth) && Bounded(l))
  }

  ghost predicate ThreadAt(s: State, t: Tid) {
    ThreadOk(Get(s.threads, t, NoLocal), s.holder == Some(t), s.owner == Some(t), s.cnt)
  }

  ghost predicate Inv(s: State) {
    SharedOk(s) && forall t {:trigger Get(s.threads, t, NoLocal)} :: ThreadAt(s, t)
  }

  lemma InitInv(s: State)
    requires Init(s)
    ensures Inv(s)
  {
    forall t ensures ThreadAt(s, t) {
      assert Get(s.threads, t, NoLocal) == NoLocal;
    }
  }

  lemma StepThread(s: State, t: Tid, step: Step, s': State, u: Tid)
    requires SharedOk(s) && ThreadAt(s, t) && ThreadAt(s, u) && Next(s, t, step, s')
    ensures SharedOk(s') && ThreadAt(s', u)
  {
  }

  lemma StepKeeps(s: State, t: Tid, step: Step, s': State)
    requires Inv(s) && Next(s, t, step, s')
    ensures Inv(s')
  {
    assert ThreadAt(s, t);
    forall u ensures SharedOk(s') && ThreadAt(s', u) {
      assert ThreadAt(s, u);
      StepThread(s, t, step, s', u);
    }
    assert ThreadAt(s', t);
  }

  // ---------- whole runs ----------

  datatype Move = Move(t: Tid, step: Step)

  ghost predicate Run(run: seq<State>, moves: seq<Move>) {
    && |run| == |moves| + 1 && Init(run[0])
    && forall k :: 0 <= k < |moves| ==> Next(run[k], moves[k].t, moves[k].step, run[k + 1])
  }

  lemma {:induction false} RunKeeps(run: seq<State>, moves: seq<Move>, k: nat)
    requires Run(run, moves) && k < |run|
    ensures Inv(run[k])
  {
    if k == 0 {
      InitInv(run[0]);
    } else {
      RunKeeps(run, moves, k - 1);
      StepKeeps(run[k - 1], moves[k - 1].t, moves[k - 1].step, run[k]);
    }
  }

  /** Two threads never have unreleased acquisitions at once; the one that has any is the owner, the flag is
      set, and the count is the number of its acquisitions. */
  lemma Exclusive(run: seq<State>, moves: seq<Move>, k: nat, t: Tid, u: Tid)
    requires Run(run, moves) && k < |run| && Look(run[k], t).depth > 0
    ensures run[k].flag && run[k].owner == Some(t) && run[k].cnt == Low32(Look(run[k], t).depth)
    ensures u != t ==> Look(run[k], u).depth == 0
  {
    RunKeeps(run, moves, k);
    assert ThreadAt(run[k], t) && ThreadAt(run[k], u);
  }

  /** The unsynchronised look at the owner never admits a second owner. */
  lemma OwnerReadIsSafe(run: seq<State>, moves: seq<Move>, k: nat, t: Tid)
    requires Run(run, moves) && k < |run| && Look(run[k], t).pc.Outside?
    ensures run[k].owner == Some(t) <==> Look(run[k], t).depth > 0
  {
    RunKeeps(run, moves, k);
    assert ThreadAt(run[k], t);
  }

  /** The flag is clear exactly when no thread has, is getting or is giving up the lock. */
  lemma FlagMeans(run: seq<State>, moves: seq<Move>, k: nat, t: Tid)
    requires Run(run, moves) && k < |run| && !run[k].flag
    ensures Look(run[k], t).depth == 0
    ensures Look(run[k], t).pc.Outside? || Look(run[k], t).pc.Locking? || Look(run[k], t).pc.Trying?
  {
    RunKeeps(run, moves, k);
    assert ThreadAt(run[k], t);
  }

  // ---------- who gets the lock, and when ----------

  /** The flag is set by the thread that has, is getting or is giving up the lock. */
  lemma HolderIsBusy(run: seq<State>, moves: seq<Move>, k: nat, t: Tid)
    requires Run(run, moves) && k < |run|
    ensures run[k].flag <==> run[k].holder.Some?
    ensures run[k].holder == Some(t) <==>
      Look(run[k], t).depth > 0 || Look(run[k], t).pc.Got? || Look(run[k], t).pc.Owned? || Look(run[k], t).pc.Disowning? || Look(run[k], t).pc.Clearing?
  {
    RunKeeps(run, moves, k);
    assert ThreadAt(run[k], t);
  }

  /** A test-and-set gets the flag exactly when nobody has it; otherwise lock tries again and trylock gives up. */
  lemma Takes(run: seq<State>, moves: seq<Move>, k: nat)
    requires Run(run, moves) && k < |moves| && moves[k].step.TestAndSet?
    ensures var s, s', t := run[k], run[k + 1], moves[k].t;
      if s.holder.None? then s'.holder == Some(t) && Look(s', t).pc.Got?
      else s'.holder == s.holder && Look(s', t).pc == if Look(s, t).pc.Trying? then Outside else Locking
  {
    RunKeeps(run, moves, k);
    assert Next(run[k], moves[k].t, moves[k].step, run[k + 1]);
  }

  /** A call by the thread that has the lock is one more acquisition at once; any other goes for the flag. */
  lemma Calls(run: seq<State>, moves: seq<Move>, k: nat)
    requires Run(run, moves) && k < |moves| && (moves[k].step.CallLock? || moves[k].step.CallTryLock?)
    ensures var l, l' := Look(run[k], moves[k].t), Look(run[k + 1], moves[k].t);
      l' == if l.depth > 0 then Local(Outside, l.depth + 1) else Local(if moves[k].step.CallLock? then Locking else Trying, 0)
  {
    RunKeeps(run, moves, k);
    assert Next(run[k], moves[k].t, moves[k].step, run[k + 1]) && ThreadAt(run[k], moves[k].t);
  }

  /** An unlock gives up one acquisition and goes on to give up the lock exactly if it was the last; the end of
      either way leaves one acquisition, or nobody with the flag. */
  lemma Ends(run: seq<State>, moves: seq<Move>, k: nat)
    requires Run(run, moves) && k < |moves|
    ensures var l, s', t := Look(run[k], moves[k].t), run[k + 1], moves[k].t;
      && (moves[k].step.Unlock? ==> l.depth > 0 && Look(s', t) == Local(if l.depth == 1 then Disowning else Outside, l.depth - 1))
      && (moves[k].step.SetCount? ==> Look(s', t) == Local(Outside, 1) && s'.owner == Some(t))
      && (moves[k].step.Clear? ==> run[k].holder == Some(t) && s'.holder.None? && !s'.flag && Look(s', t) == Local(Outside, 0))
  {
    RunKeeps(run, moves, k);
    assert Next(run[k], moves[k].t, moves[k].step, run[k + 1]) && ThreadAt(run[k], moves[k].t);
  }

  ghost predicate Can(s: State, t: Tid, step: Step) {
    exists s' :: Next(s, t, step, s')
  }

  /** Inside the lock functions a thread can always take its next step, and no other; outside it can call
      either lock, within the bound, and the unlock if it has the lock. */
  lemma AlwaysEnabled(s: State, t: Tid, step: Step)
    requires Inv(s)
    ensures var l := Look(s, t);
      Can(s, t, step) <==>
      match l.pc
      case Outside => ((step.CallLock? || step.CallTryLock?) && l.depth < TWO32) || (step.Unlock? && l.depth > 0)
      case Locking => step.TestAndSet?
      case Trying => step.TestAndSet?
      case Got => step.SetOwner?
      case Owned => step.SetCount?
      case Disowning => step.Disown?
      case Clearing => step.Clear?
  {
    var l := Look(s, t);
    assert ThreadAt(s, t);
    var n := Low32(s.cnt - 1);
    var s' := match step
      case CallLock => if s.owner == Some(t) then At(s, t, l.(depth := l.depth + 1)).(cnt := Low32(s.cnt + 1)) else At(s, t, l.(pc := Locking))
      case CallTryLock => if s.owner == Some(t) then At(s, t, l.(depth := l.depth + 1)).(cnt := Low32(s.cnt + 1)) else At(s, t, l.(pc := Trying))
      case TestAndSet =>
        if !s.flag then At(s, t, l.(pc := Got)).(flag := true, holder := Some(t)) else if l.pc.Trying? then At(s, t, l.(pc := Outside)) else s
      case SetOwner => At(s, t, l.(pc := Owned)).(owner := Some(t))
      case SetCount => At(s, t, Local(Outside, l.depth + 1)).(cnt := 1)
      case Unlock => At(s, t, Local(if n > 0 then Outside else Disowning, if l.depth > 0 then l.depth - 1 else 0)).(cnt := n)
      case Disown => At(s, t, l.(pc := Clearing)).(owner := None)
      case Clear => At(s, t, l.(pc := Outside)).(flag := false, holder := None);
    if Can(s, t, step) {
      var x :| Next(s, t, step, x);
      assert x == s';
    } else {
      assert !Next(s, t, step, s');
    }
  }
}
