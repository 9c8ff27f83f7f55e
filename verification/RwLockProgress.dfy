/** Who gets the reader/writer lock, and when: what a thread inside the lock functions does next, and whom it
    waits for. */
module RwLockProgress {
  import opened Bits
  import opened Tables
  import opened Wrappers
  import opened RwLock

  ghost predicate Moved(run: seq<State>, moves: seq<Move>, k: nat, step: Step) {
    Run(run, moves) && k < |moves| && moves[k].step == step
  }

  lemma MovedBy(run: seq<State>, moves: seq<Move>, k: nat, step: Step)
    requires Moved(run, moves, k, step)
    ensures Inv(run[k]) && AnyNext(run[k], moves[k].t, step, run[k + 1]) && ThreadAt(run[k], moves[k].t)
  {
    RunKeeps(run, moves, k);
    assert Next(run[k], moves[k].t, moves[k].step, run[k + 1]);
  }

  // ---------- readers ----------

  /** A reader at the base lock goes on exactly when there is no writer, however many readers there are, as long
      as they are fewer than 2^31 threads, none nested 256 deep; otherwise it stays where it is. */
  lemma ReaderGoesOn(run: seq<State>, moves: seq<Move>, k: nat, all: set<Tid>)
    requires Moved(run, moves, k, Read(ReadLoad)) && UsedBy(run[k], all) && |all| < MAX_READS
    ensures run[k].writer.None? ==> Look(run[k + 1], moves[k].t).pc == ReadCas(run[k].cnt)
    ensures run[k].writer.Some? ==> run[k + 1] == run[k]
  {
    MovedBy(run, moves, k, Read(ReadLoad));
    FewThreads(run, moves, k, all);
  }

  /** Its exchange makes it one more reader exactly if the counter is what it loaded; there is no writer then. */
  lemma ReaderGetsIn(run: seq<State>, moves: seq<Move>, k: nat)
    requires Moved(run, moves, k, Read(ReadSwap))
    ensures var s, s', t := run[k], run[k + 1], moves[k].t;
      && Look(s, t).pc.ReadCas?
      && (s.cnt == Look(s, t).pc.cnt ==> s.writer.None? && Look(s', t).pc.ReadGot? && s'.readers == s.readers + multiset{t} && s'.cnt == s.cnt + 1)
      && (s.cnt != Look(s, t).pc.cnt ==> Look(s', t).pc.Reading? && s'.readers == s.readers && s'.cnt == s.cnt)
  {
    MovedBy(run, moves, k, Read(ReadSwap));
    hide Holds, Count8;
  }

  /** A call goes to the base lock exactly when the one-byte count is 0, which below 256 means without a read
      acquisition; any other call has its acquisition at once. */
  lemma ReadCalls(run: seq<State>, moves: seq<Move>, k: nat)
    requires Moved(run, moves, k, Read(ReadCall))
    ensures var n := Look(run[k], moves[k].t).readsHeld;
      var l' := Look(run[k + 1], moves[k].t);
      && (n % 256 == 0 ==> l'.pc.Reading? && l'.readsHeld == n)
      && (n % 256 != 0 ==> l'.pc.Outside? && l'.readsHeld == n + 1)
      && run[k + 1].readers == run[k].readers
  {
    MovedBy(run, moves, k, Read(ReadCall));
  }

  /** Having got the base lock it has one more acquisition. */
  lemma ReadAcquired(run: seq<State>, moves: seq<Move>, k: nat)
    requires Moved(run, moves, k, Read(ReadSet))
    ensures var t := moves[k].t;
      Look(run[k + 1], t).pc.Outside? && Look(run[k + 1], t).readsHeld == Look(run[k], t).readsHeld + 1
  {
    MovedBy(run, moves, k, Read(ReadSet));
  }

  /** An unlock gives up one acquisition, and goes on to the base lock exactly when the count comes to 0. */
  lemma ReadReleases(run: seq<State>, moves: seq<Move>, k: nat)
    requires Moved(run, moves, k, Read(ReadUnlock))
    ensures var n := Look(run[k], moves[k].t).readsHeld;
      var l' := Look(run[k + 1], moves[k].t);
      && n > 0 && l'.readsHeld == n - 1
      && (l'.pc.ReadDrop? <==> n % 256 == 1) && (l'.pc.Outside? <==> n % 256 != 1)
  {
    MovedBy(run, moves, k, Read(ReadUnlock));
  }

  /** The subtraction gives up one hold of the base lock. */
  lemma ReadDropped(run: seq<State>, moves: seq<Move>, k: nat)
    requires Moved(run, moves, k, Read(ReadSub))
    ensures var s, s', t := run[k], run[k + 1], moves[k].t;
      t in s.readers && s'.readers == s.readers - multiset{t} && s'.cnt == s.cnt - 1 && Look(s', t).pc.Outside?
  {
    MovedBy(run, moves, k, Read(ReadSub));
    var s, t := run[k], moves[k].t;
    assert s.readers[t] >= 1;
    assert s.readers == (s.readers - multiset{t}) + multiset{t};
    hide Holds, Count8;
  }

  // ---------- writers ----------

  /** A writer at the base lock goes on exactly when there is neither reader nor writer. */
  lemma WriterGoesOn(run: seq<State>, moves: seq<Move>, k: nat)
    requires Moved(run, moves, k, Write(WriteLoad))
    ensures var s := run[k];
      var free := s.readers == multiset{} && s.writer.None?;
      && (free ==> Look(run[k + 1], moves[k].t).pc.WriteCas?)
      && (!free ==> run[k + 1] == s)
  {
    MovedBy(run, moves, k, Write(WriteLoad));
    NobodyIn(run[k]);
    hide Holds, Count8;
  }

  lemma NobodyIn(s: State)
    requires CounterOk(s)
    ensures s.cnt == 0 <==> s.readers == multiset{} && s.writer.None?
  {
    if s.readers != multiset{} {
      var t :| t in s.readers;
      assert s.readers == (s.readers - multiset{t}) + multiset{t};
    }
  }

  /** Its exchange makes it the writer exactly then, too. */
  lemma WriterGetsIn(run: seq<State>, moves: seq<Move>, k: nat)
    requires Moved(run, moves, k, Write(WriteSwap))
    ensures var s, s', t := run[k], run[k + 1], moves[k].t;
      var free := s.readers == multiset{} && s.writer.None?;
      && (free ==> s'.writer == Some(t) && Look(s', t).pc.WriteGot?)
      && (!free ==> s'.writer == s.writer && Look(s', t).pc.Writing?)
  {
    MovedBy(run, moves, k, Write(WriteSwap));
    NobodyIn(run[k]);
    hide Holds, Count8;
  }

  /** A thread that is the writer has its next acquisition at once; any other goes to the base lock. */
  lemma WriteCalls(run: seq<State>, moves: seq<Move>, k: nat)
    requires Moved(run, moves, k, Write(WriteCall))
    ensures var n := Look(run[k], moves[k].t).writesHeld;
      var l' := Look(run[k + 1], moves[k].t);
      if n > 0 then l'.pc.Outside? && l'.writesHeld == n + 1 else l'.pc.Writing? && l'.writesHeld == 0
  {
    MovedBy(run, moves, k, Write(WriteCall));
    hide Holds, Count8;
  }

  /** The last of the three stores of an acquisition, and the last of the stores of a release. */
  lemma WriteEnds(run: seq<State>, moves: seq<Move>, k: nat)
    requires Run(run, moves) && k < |moves|
    ensures moves[k].step == Write(WriteCount) ==>
      Look(run[k + 1], moves[k].t) == Look(run[k], moves[k].t).(pc := Outside, writesHeld := 1) && run[k + 1].owner == Some(moves[k].t)
    ensures moves[k].step == Write(WriteStore) ==>
      run[k].writer == Some(moves[k].t) && run[k + 1].writer.None? && run[k + 1].cnt == 0 && Look(run[k + 1], moves[k].t).pc.Outside?
  {
    hide Holds, Count8;
    if moves[k].step == Write(WriteCount) || moves[k].step == Write(WriteStore) {
      MovedBy(run, moves, k, moves[k].step);
    }
  }

  // ---------- nobody is stuck in between ----------

  /** What a thread inside the lock functions does next. */
  function StepOf(pc: Pc): Step
    requires !pc.Outside?
  {
    match pc
    case Reading => Read(ReadLoad)
    case ReadCas(_) => Read(ReadSwap)
    case ReadGot => Read(ReadSet)
    case ReadDrop => Read(ReadSub)
    case Writing => Write(WriteLoad)
    case WriteCas => Write(WriteSwap)
    case WriteGot => Write(WriteOwner)
    case WriteOwned => Write(WriteCount)
    case WriteDrop => Write(WriteDisown)
    case WriteFree => Write(WriteStore)
  }

  /** Inside the lock functions a thread can always take its next step, and no other; outside it can call either
      lock, and the unlock of what it holds. */
  lemma AlwaysEnabled(s: State, t: Tid, step: Step)
    ensures var l := Look(s, t);
      (exists s' :: AnyNext(s, t, step, s')) <==>
      if l.pc.Outside? then step == Read(ReadCall) || step == Write(WriteCall)
        || (step == Read(ReadUnlock) && l.readsHeld > 0) || (step == Write(WriteUnlock) && l.writesHeld > 0)
      else step == StepOf(l.pc)
  {
    match step
    case Read(r) => ReadEnabled(s, t, r);
    case Write(w) => WriteEnabled(s, t, w);
  }

  ghost predicate CanRead(s: State, t: Tid, r: ReadStep) {
    exists s' :: ReadNext(s, t, r, s')
  }

  ghost predicate CanWrite(s: State, t: Tid, w: WriteStep) {
    exists s' :: WriteNext(s, t, w, s')
  }

  lemma ReadEnabled(s: State, t: Tid, r: ReadStep)
    ensures var l := Look(s, t);
      CanRead(s, t, r) <==>
      if l.pc.Outside? then r.ReadCall? || (r.ReadUnlock? && l.readsHeld > 0) else Read(r) == StepOf(l.pc)
    ensures CanRead(s, t, r) <==> exists s' :: AnyNext(s, t, Read(r), s')
  {
    var l := Look(s, t);
    var n := Low8(l.rdCnt - 1);
    var s' := match r
      case ReadCall => if l.rdCnt > 0 then At(s, t, l.(rdCnt := Low8(l.rdCnt + 1), readsHeld := l.readsHeld + 1)) else Go(s, t, Reading)
      case ReadLoad => if s.cnt >= MAX_READS then s else Go(s, t, ReadCas(s.cnt))
      case ReadSwap =>
        if l.pc.ReadCas? && s.cnt == l.pc.cnt then Go(s, t, ReadGot).(cnt := Low32(s.cnt + 1), readers := s.readers + multiset{t}) else Go(s, t, Reading)
      case ReadSet => At(s, t, l.(pc := Outside, rdCnt := 1, readsHeld := l.readsHeld + 1))
      case ReadUnlock => At(s, t, l.(pc := if n > 0 then Outside else ReadDrop, rdCnt := n, readsHeld := if l.readsHeld > 0 then l.readsHeld - 1 else 0))
      case ReadSub => Go(s, t, Outside).(cnt := Low32(s.cnt - 1), readers := s.readers - multiset{t});
    hide Low8, Low32, Go, At;
    if CanRead(s, t, r) {
      assert ReadNext(s, t, r, s');
      assert AnyNext(s, t, Read(r), s');
    }
    if exists x :: AnyNext(s, t, Read(r), x) {
      var x :| AnyNext(s, t, Read(r), x);
      assert ReadNext(s, t, r, x);
    }
    if (if l.pc.Outside? then r.ReadCall? || (r.ReadUnlock? && l.readsHeld > 0) else Read(r) == StepOf(l.pc)) {
      assert ReadNext(s, t, r, s');
    }
  }

  lemma WriteEnabled(s: State, t: Tid, w: WriteStep)
    ensures var l := Look(s, t);
      CanWrite(s, t, w) <==>
      if l.pc.Outside? then w.WriteCall? || (w.WriteUnlock? && l.writesHeld > 0) else Write(w) == StepOf(l.pc)
    ensures CanWrite(s, t, w) <==> exists s' :: AnyNext(s, t, Write(w), s')
  {
    var l := Look(s, t);
    var n := Low32(s.wrCnt - 1);
    var s' := match w
      case WriteCall => if s.owner == Some(t) then At(s, t, l.(writesHeld := l.writesHeld + 1)).(wrCnt := Low32(s.wrCnt + 1)) else Go(s, t, Writing)
      case WriteLoad => if s.cnt != 0 then s else Go(s, t, WriteCas)
      case WriteSwap => if s.cnt == 0 then Go(s, t, WriteGot).(cnt := LOCKED, writer := Some(t)) else Go(s, t, Writing)
      case WriteOwner => Go(s, t, WriteOwned).(owner := Some(t))
      case WriteCount => At(s, t, l.(pc := Outside, writesHeld := l.writesHeld + 1)).(wrCnt := 1)
      case WriteUnlock => At(s, t, l.(pc := if n > 0 then Outside else WriteDrop, writesHeld := if l.writesHeld > 0 then l.writesHeld - 1 else 0)).(wrCnt := n)
      case WriteDisown => Go(s, t, WriteFree).(owner := None)
      case WriteStore => Go(s, t, Outside).(cnt := 0, writer := None);
    hide Low32, Go, At;
    if CanWrite(s, t, w) {
      assert WriteNext(s, t, w, s');
      assert AnyNext(s, t, Write(w), s');
    }
    if exists x :: AnyNext(s, t, Write(w), x) {
      var x :| AnyNext(s, t, Write(w), x);
      assert WriteNext(s, t, w, x);
    }
    if (if l.pc.Outside? then w.WriteCall? || (w.WriteUnlock? && l.writesHeld > 0) else Write(w) == StepOf(l.pc)) {
      assert WriteNext(s, t, w, s');
    }
  }

  /** Whoever is the writer or a reader has an acquisition, or is between getting the base lock and having it, or
      between having given up its last one and giving up the base lock. */
  lemma HolderIsBusy(run: seq<State>, moves: seq<Move>, k: nat, t: Tid)
    requires Run(run, moves) && k < |run|
    ensures var l := Look(run[k], t);
      && (run[k].writer == Some(t) <==> l.writesHeld > 0 || l.pc.WriteGot? || l.pc.WriteOwned? || l.pc.WriteDrop? || l.pc.WriteFree?)
      && (t in run[k].readers <==> l.readsHeld > 0 || l.pc.ReadGot? || l.pc.ReadDrop?)
  {
    RunKeeps(run, moves, k);
    assert ThreadAt(run[k], t);
  }
}
