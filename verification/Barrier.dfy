/** The reusable barrier: one counter that cycles through twice the number of participants. */
module Barrier {
  import opened Bits
  import opened Tables

  type Tid = nat

  /** In the application; spinning with the half of the cycle it came in; about to wrap the counter. */
  datatype Pc = Outside | Spin(wasless: bool) | Wrap

  /** A participant, with the number of its calls of odp_barrier_wait. */
  datatype Local = Local(pc: Pc, entered: nat)

  const NoLocal := Local(Outside, 0)

  /** bar is the barrier's uint32_t. round and arrived are history: the rounds that every participant
      has entered, and who has entered the next one. */
  datatype State = State(parts: set<Tid>, bar: nat, threads: map<Tid, Local>, round: nat, arrived: set<Tid>)
  {
    function N(): nat { |parts| }
  }

  function Look(s: State, t: Tid): Local {
    Get(s.threads, t, NoLocal)
  }

  /** odp_barrier_init with as many participants as its count; twice the count fits a uint32_t. */
  ghost predicate Init(s: State) {
    && s.N() >= 1 && 2 * s.N() < TWO32
    && s.bar == 0 && s.threads == map[] && s.round == 0 && s.arrived == {}
  }

  // ---------- the steps ----------

  datatype Step = Enter | Unwind | Leave

  /** The fetch-and-increment. */
  function AfterEnter(s: State, t: Tid): State {
    var l, count := Look(s, t), s.bar;
    var pc := if count == 2 * s.N() - 1 then Wrap else Spin(count < s.N());
    var s1 := s.(bar := Low32(count + 1), threads := Set(s.threads, t, Local(pc, l.entered + 1)));
    if s.arrived + {t} == s.parts then s1.(round := s.round + 1, arrived := {})
    else s1.(arrived := s.arrived + {t})
  }

  /** The wrap-around of the last arrival in the upper half; it leaves at once. */
  function AfterUnwind(s: State, t: Tid): State {
    s.(bar := Low32(s.bar - 2 * s.N()), threads := Set(s.threads, t, Look(s, t).(pc := Outside)))
  }

  function AfterLeave(s: State, t: Tid): State {
    s.(threads := Set(s.threads, t, Look(s, t).(pc := Outside)))
  }

  predicate Enabled(s: State, t: Tid, step: Step) {
    var pc := Look(s, t).pc;
    && t in s.parts
    && match step
       case Enter => pc.Outside?
       case Unwind => pc.Wrap?
       case Leave => pc.Spin? && (s.bar < s.N()) != pc.wasless
  }

  ghost predicate Next(s: State, t: Tid, step: Step, s': State) {
    && Enabled(s, t, step)
    && s' == match step
             case Enter => AfterEnter(s, t)
             case Unwind => AfterUnwind(s, t)
             case Leave => AfterLeave(s, t)
  }

  // ---------- what every step keeps ----------

  predicate Even(n: nat) { n % 2 == 0 }

  /** The last arrival of an even round has not wrapped the counter yet. */
  predicate Pending(s: State) {
    s.bar == 2 * s.N()
  }

  predicate BarOk(s: State) {
    if Pending(s) then s.round > 0 && Even(s.round) && s.arrived == {}
    else s.bar == |s.arrived| + if Even(s.round) then 0 else s.N()
  }

  /** A participant that has entered the next round waits in its half; any other is outside or still
      in the round before, and only the last arrival of a pending wrap may be wrapping. */
  predicate ThreadOk(l: Local, here: bool, round: nat, pending: bool) {
    if here then l.entered == round + 1 && l.pc == Spin(Even(round))
    else
      && l.entered == round
      && (l.pc.Spin? ==> (l.pc.wasless <==> !Even(round)))
      && (l.pc.Wrap? ==> pending)
      && (l.pc.Outside? ==> !pending)
  }

  ghost predicate OnlyWrapper(s: State, t: Tid) {
    && t in s.parts && Look(s, t).pc.Wrap?
    && forall u {:trigger Get(s.threads, u, NoLocal)} :: u in s.parts && Get(s.threads, u, NoLocal).pc.Wrap? ==> u == t
  }

  ghost predicate Inv(s: State) {
    && s.N() >= 1 && 2 * s.N() < TWO32
    && s.arrived <= s.parts && |s.arrived| < s.N()
    && BarOk(s)
    && (forall t {:trigger Get(s.threads, t, NoLocal)} :: t in s.parts ==> ThreadOk(Get(s.threads, t, NoLocal), t in s.arrived, s.round, Pending(s)))
    && (Pending(s) ==> exists t :: OnlyWrapper(s, t))
  }

  lemma InitInv(s: State)
    requires Init(s)
    ensures Inv(s)
  {
  }

  /** The last one is missing. */
  lemma LastArrival(parts: set<Tid>, arrived: set<Tid>, t: Tid)
    requires arrived <= parts && t in parts && t !in arrived
    ensures |arrived + {t}| == |arrived| + 1 <= |parts|
    ensures arrived + {t} == parts <==> |arrived| + 1 == |parts|
  {
    var more := arrived + {t};
    Subsize(more, parts);
  }

  lemma {:induction false} Subsize(a: set<Tid>, b: set<Tid>)
    requires a <= b
    ensures |a| <= |b| && (|a| == |b| ==> a == b)
    decreases a
  {
    if a != {} {
      var x :| x in a;
      Subsize(a - {x}, b - {x});
    } else if b != {} {
      var x :| x in b;
      assert |b - {x}| < |b|;
    }
  }

  lemma EnterKeeps(s: State, t: Tid)
    requires Inv(s) && Enabled(s, t, Enter)
    ensures Inv(AfterEnter(s, t))
  {
    var s' := AfterEnter(s, t);
    assert ThreadOk(Get(s.threads, t, NoLocal), t in s.arrived, s.round, Pending(s));
    LastArrival(s.parts, s.arrived, t);
    if Pending(s') {
      assert OnlyWrapper(s', t);
    }
  }

  lemma UnwindKeeps(s: State, t: Tid)
    requires Inv(s) && Enabled(s, t, Unwind)
    ensures Inv(AfterUnwind(s, t))
  {
    assert ThreadOk(Get(s.threads, t, NoLocal), t in s.arrived, s.round, Pending(s));
    var u :| OnlyWrapper(s, u);
    assert t == u by { assert Get(s.threads, t, NoLocal).pc.Wrap?; }
  }

  lemma LeaveKeeps(s: State, t: Tid)
    requires Inv(s) && Enabled(s, t, Leave)
    ensures Inv(AfterLeave(s, t)) && t !in s.arrived && !Pending(s)
  {
    assert ThreadOk(Get(s.threads, t, NoLocal), t in s.arrived, s.round, Pending(s));
  }

  lemma StepKeeps(s: State, t: Tid, step: Step, s': State)
    requires Inv(s) && Next(s, t, step, s')
    ensures Inv(s')
  {
    match step
    case Enter => EnterKeeps(s, t);
    case Unwind => UnwindKeeps(s, t);
    case Leave => LeaveKeeps(s, t);
  }

  // ---------- whole runs ----------

  datatype Move = Move(t: Tid, step: Step)

  ghost predicate Run(run: seq<State>, moves: seq<Move>) {
    && |run| == |moves| + 1 && Init(run[0])
    && forall k :: 0 <= k < |moves| ==> Next(run[k], moves[k].t, moves[k].step, run[k + 1])
  }

  lemma {:induction false} RunKeeps(run: seq<State>, moves: seq<Move>, k: nat)
    requires Run(run, moves) && k < |run|
    ensures Inv(run[k])
  {
    if k == 0 {
      InitInv(run[0]);
    } else {
      RunKeeps(run, moves, k - 1);
      StepKeeps(run[k - 1], moves[k - 1].t, moves[k - 1].step, run[k]);
    }
  }

  /** In every run, over any number of rounds, a participant that leaves its r-th call leaves only after
      every participant has entered its own r-th call; and nobody is a whole round ahead. */
  lemma NoEarlyExit(run: seq<State>, moves: seq<Move>, k: nat, u: Tid)
    requires Run(run, moves) && k < |moves| && !moves[k].step.Enter? && u in run[k].parts
    ensures var r := Look(run[k], moves[k].t).entered;
      r <= Look(run[k], u).entered <= r + 1
  {
    var s, t := run[k], moves[k].t;
    RunKeeps(run, moves, k);
    assert Next(s, t, moves[k].step, run[k + 1]);
    assert ThreadOk(Get(s.threads, t, NoLocal), t in s.arrived, s.round, Pending(s));
    assert ThreadOk(Get(s.threads, u, NoLocal), u in s.arrived, s.round, Pending(s));
  }

  /** The counter stays within twice the count. */
  lemma CounterBounded(run: seq<State>, moves: seq<Move>, k: nat)
    requires Run(run, moves) && k < |run|
    ensures run[k].bar <= 2 * run[k].N()
  {
    RunKeeps(run, moves, k);
  }

  /** The barrier never gets stuck: when every participant is inside, some participant can leave. */
  lemma SomeoneCanLeave(run: seq<State>, moves: seq<Move>, k: nat) returns (t: Tid, step: Step)
    requires Run(run, moves) && k < |run| && forall u :: u in run[k].parts ==> !Look(run[k], u).pc.Outside?
    ensures !step.Enter? && Enabled(run[k], t, step)
  {
    var s := run[k];
    RunKeeps(run, moves, k);
    if Pending(s) {
      t :| OnlyWrapper(s, t);
      step := Unwind;
    } else {
      if s.parts <= s.arrived {
        Subsize(s.parts, s.arrived);
      }
      t :| t in s.parts && t !in s.arrived;
      step := Leave;
      assert ThreadOk(Get(s.threads, t, NoLocal), t in s.arrived, s.round, Pending(s));
    }
  }

  /** A participant outside can call; the last of an even round can wrap the counter; and one that waits can leave
      exactly when every participant has entered the call it is in and the counter has been wrapped. */
  lemma LeavesIff(run: seq<State>, moves: seq<Move>, k: nat, t: Tid, step: Step)
    requires Run(run, moves) && k < |run| && t in run[k].parts
    ensures var s, l := run[k], Look(run[k], t);
      Enabled(s, t, step) <==>
      match l.pc
      case Outside => step.Enter?
      case Wrap => step.Unwind?
      case Spin(_) => step.Leave? && s.bar < 2 * s.N() && forall u :: u in s.parts ==> Look(s, u).entered >= l.entered
  {
    var s := run[k];
    RunKeeps(run, moves, k);
    forall u | u in s.parts ensures ThreadOk(Get(s.threads, u, NoLocal), u in s.arrived, s.round, Pending(s)) {
    }
    if t in s.arrived {
      if s.parts <= s.arrived {
        Subsize(s.parts, s.arrived);
      }
      var u :| u in s.parts && u !in s.arrived;
      assert Look(s, u).entered < Look(s, t).entered;
    }
  }
}
