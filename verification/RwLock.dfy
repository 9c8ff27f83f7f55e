/** The reader/writer lock and its recursive form: every shared access of every thread is one step. */
module RwLock {
  import opened Bits
  import opened Tables
  import opened Wrappers

  type Tid = nat

  /** Where a thread is in the lock functions. Reading and Writing: in the loop of the base lock, before
      its load. ReadCas: with the count it loaded. WriteCas: it loaded 0. ReadGot: the base lock is held, rd_cnt is not
      set. WriteGot, WriteOwned: the base lock is held, the owner is not set, or only the owner is. ReadDrop,
      WriteDrop, WriteFree: the recursion has ended and the base lock, or owner and base lock, remain to be
      given up. */
  datatype Pc = Outside
    | Reading | ReadCas(cnt: u32) | ReadGot | ReadDrop
    | Writing | WriteCas | WriteGot | WriteOwned | WriteDrop | WriteFree

  /** A thread: its rd_cnt entry, one byte wide, and how many of its read and write acquisitions it has
      not released. */
  datatype Local = Local(pc: Pc, rdCnt: u8, readsHeld: nat, writesHeld: nat)

  const NoLocal := Local(Outside, 0, 0, 0)

  /** readers, writer: who holds the base lock, and how often for reading. */
  datatype State = State(cnt: u32, owner: Option<Tid>, wrCnt: u32, threads: map<Tid, Local>,
                         readers: multiset<Tid>, writer: Option<Tid>)

  const LOCKED: u32 := 0xFFFF_FFFF
  /** The first count that is negative as a signed word. */
  const MAX_READS: u32 := 0x8000_0000

  function Look(s: State, t: Tid): Local {
    Get(s.threads, t, NoLocal)
  }

  ghost predicate Init(s: State) {
    s.cnt == 0 && s.owner.None? && s.wrCnt == 0 && s.threads == map[] && s.readers == multiset{} && s.writer.None?
  }

  function At(s: State, t: Tid, l: Local): State {
    s.(threads := Set(s.threads, t, l))
  }

  function Go(s: State, t: Tid, pc: Pc): State {
    At(s, t, Look(s, t).(pc := pc))
  }

  /** The steps of odp_rwlock_recursive_read_lock and odp_rwlock_recursive_read_unlock. */
  datatype ReadStep = ReadCall | ReadLoad | ReadSwap | ReadSet | ReadUnlock | ReadSub

  ghost predicate ReadNext(s: State, t: Tid, step: ReadStep, s': State) {
    var l := Look(s, t);
    match step
    case ReadCall =>
      l.pc.Outside? && s' == if l.rdCnt > 0 then At(s, t, l.(rdCnt := Low8(l.rdCnt + 1), readsHeld := l.readsHeld + 1)) else Go(s, t, Reading)
    case ReadLoad => l.pc.Reading? && s' == if s.cnt >= MAX_READS then s else Go(s, t, ReadCas(s.cnt))
    case ReadSwap =>
      l.pc.ReadCas? && s' == if s.cnt == l.pc.cnt then Go(s, t, ReadGot).(cnt := Low32(s.cnt + 1), readers := s.readers + multiset{t})
                             else Go(s, t, Reading)
    case ReadSet => l.pc.ReadGot? && s' == At(s, t, l.(pc := Outside, rdCnt := 1, readsHeld := l.readsHeld + 1))
    case ReadUnlock =>
      l.pc.Outside? && l.readsHeld > 0
      && var n := Low8(l.rdCnt - 1);
      s' == At(s, t, l.(pc := if n > 0 then Outside else ReadDrop, rdCnt := n, readsHeld := l.readsHeld - 1))
    case ReadSub => l.pc.ReadDrop? && s' == Go(s, t, Outside).(cnt := Low32(s.cnt - 1), readers := s.readers - multiset{t})
  }

  /** The steps of odp_rwlock_recursive_write_lock and odp_rwlock_recursive_write_unlock; the owner is read
      without holding the lock. */
  datatype WriteStep = WriteCall | WriteLoad | WriteSwap | WriteOwner | WriteCount | WriteUnlock | WriteDisown | WriteStore

  ghost predicate WriteNext(s: State, t: Tid, step: WriteStep, s': State) {
    var l := Look(s, t);
    match step
    case WriteCall =>
      l.pc.Outside?
      && s' == if s.owner == Some(t) then At(s, t, l.(writesHeld := l.writesHeld + 1)).(wrCnt := Low32(s.wrCnt + 1)) else Go(s, t, Writing)
    case WriteLoad => l.pc.Writing? && s' == if s.cnt != 0 then s else Go(s, t, WriteCas)
    case WriteSwap =>
      l.pc.WriteCas? && s' == if s.cnt == 0 then Go(s, t, WriteGot).(cnt := LOCKED, writer := Some(t)) else Go(s, t, Writing)
    case WriteOwner => l.pc.WriteGot? && s' == Go(s, t, WriteOwned).(owner := Some(t))
    case WriteCount => l.pc.WriteOwned? && s' == At(s, t, l.(pc := Outside, writesHeld := l.writesHeld + 1)).(wrCnt := 1)
    case WriteUnlock =>
      l.pc.Outside? && l.writesHeld > 0
      && var n := Low32(s.wrCnt - 1);
      s' == At(s, t, l.(pc := if n > 0 then Outside else WriteDrop, writesHeld := l.writesHeld - 1)).(wrCnt := n)
    case WriteDisown => l.pc.WriteDrop? && s' == Go(s, t, WriteFree).(owner := None)
    case WriteStore => l.pc.WriteFree? && s' == Go(s, t, Outside).(cnt := 0, writer := None)
  }

  datatype Step = Read(r: ReadStep) | Write(w: WriteStep)

  /** A step of the lock functions by any number of threads, at any depth. */
  ghost predicate AnyNext(s: State, t: Tid, step: Step, s': State) {
    match step
    case Read(r) => ReadNext(s, t, r, s')
    case Write(w) => WriteNext(s, t, w, s')
  }

  /** What the program is assumed to keep to: not more than 2^32 nested write acquisitions by one thread. */
  ghost predicate Bounded(s: State) {
    forall t {:trigger Get(s.threads, t, NoLocal)} :: Get(s.threads, t, NoLocal).writesHeld <= TWO32
  }

  ghost predicate Next(s: State, t: Tid, step: Step, s': State) {
    AnyNext(s, t, step, s') && Bounded(s')
  }

  // ---------- what every step keeps ----------

  /** The base counter: the number of read holds, or all ones under a writer and then no read holds. A reader
      that loads 2^31 or more waits, so the count never gets past 2^31. */
  ghost predicate CounterOk(s: State) {
    && |s.readers| <= MAX_READS
    && (s.writer.None? ==> s.cnt == |s.readers|)
    && (s.writer.Some? ==> s.cnt == LOCKED && s.readers == multiset{})
    && (s.owner.Some? ==> s.owner == s.writer)
  }

  /** The byte-wide count comes round every 256 acquisitions, and each time the base lock is taken again. */
  function Holds(depth: nat): nat {
    (depth + 255) / 256
  }

  /** What the byte-wide count reads at a depth. */
  function Count8(depth: nat): u8 {
    depth % 256
  }

  /** A thread holds the base lock for reading from its exchange to its subtraction, and for writing from
      its exchange to its store; its counts agree with its unreleased acquisitions. */
  predicate ThreadOk(l: Local, holds: nat, writer: bool, owner: bool, wrCnt: u32) {
    && holds == Holds(l.readsHeld) + (if l.pc.ReadGot? || l.pc.ReadDrop? then 1 else 0)
    && l.rdCnt == Count8(l.readsHeld)
    && (l.pc.Reading? || l.pc.ReadCas? || l.pc.ReadGot? || l.pc.ReadDrop? ==> l.rdCnt == 0)
    && (l.pc.ReadCas? ==> l.pc.cnt < MAX_READS)
    && (writer <==> l.writesHeld > 0 || l.pc.WriteGot? || l.pc.WriteOwned? || l.pc.WriteDrop? || l.pc.WriteFree?)
    && (l.pc.Writing? || l.pc.WriteCas? || l.pc.WriteGot? || l.pc.WriteOwned? || l.pc.WriteDrop? || l.pc.WriteFree? ==> l.writesHeld == 0)
    && (owner <==> l.writesHeld > 0 || l.pc.WriteOwned? || l.pc.WriteDrop?)
    && (l.writesHeld > 0 ==> wrCnt == Low32(l.writesHeld) && l.writesHeld <= TWO32)
  }

  ghost predicate ThreadAt(s: State, t: Tid) {
    ThreadOk(Get(s.threads, t, NoLocal), s.readers[t], s.writer == Some(t), s.owner == Some(t), s.wrCnt)
  }

  ghost predicate Inv(s: State) {
    CounterOk(s) && forall t {:trigger Get(s.threads, t, NoLocal)} :: ThreadAt(s, t)
  }

  lemma InitInv(s: State)
    requires Init(s)
    ensures Inv(s)
  {
    forall t ensures ThreadAt(s, t) {
      assert Get(s.threads, t, NoLocal) == NoLocal;
    }
  }

  lemma ReadKeeps(s: State, t: Tid, step: ReadStep, s': State, u: Tid)
    requires Inv(s) && ReadNext(s, t, step, s')
    ensures CounterOk(s') && ThreadAt(s', u)
  {
    assert ThreadAt(s, t) && ThreadAt(s, u);
    hide ThreadAt, CounterOk, ReadNext;
    ReadThread(s, t, step, s', u);
    ReadCounter(s, t, step, s');
  }

  lemma ReadThread(s: State, t: Tid, step: ReadStep, s': State, u: Tid)
    requires ThreadAt(s, t) && ThreadAt(s, u) && ReadNext(s, t, step, s')
    ensures ThreadAt(s', u)
  {
    if u == t {
      ReadOwn(s, t, step, s');
    } else {
      ReadOther(s, t, step, s', u);
    }
  }

  lemma ReadOwn(s: State, t: Tid, step: ReadStep, s': State)
    requires ThreadAt(s, t) && ReadNext(s, t, step, s')
    ensures ThreadAt(s', t)
  {
    var l := Get(s.threads, t, NoLocal);
    match step
    case ReadCall =>
      if l.rdCnt > 0 {
        Nests(l, s.readers[t], s.writer == Some(t), s.owner == Some(t), s.wrCnt);
      } else {
        ReadsOn(s, t, step, s');
      }
    case ReadSet => Sets(l, s.readers[t], s.writer == Some(t), s.owner == Some(t), s.wrCnt);
    case ReadUnlock => Unnests(l, s.readers[t], s.writer == Some(t), s.owner == Some(t), s.wrCnt);
    case ReadLoad => ReadsOn(s, t, step, s');
    case _ => ReadHolds(s, t, step, s');
  }

  /** Steps at the base lock that do not get or give up a hold. */
  lemma ReadsOn(s: State, t: Tid, step: ReadStep, s': State)
    requires ThreadAt(s, t) && ReadNext(s, t, step, s') && (step.ReadLoad? || (step.ReadCall? && Look(s, t).rdCnt == 0))
    ensures ThreadAt(s', t)
  {
    hide Holds, Count8, Low8;
  }

  /** Steps at the base lock that do. */
  lemma ReadHolds(s: State, t: Tid, step: ReadStep, s': State)
    requires ThreadAt(s, t) && ReadNext(s, t, step, s') && (step.ReadSwap? || step.ReadSub?)
    ensures ThreadAt(s', t)
  {
    hide Holds, Count8, Low8;
  }

  lemma Nests(l: Local, holds: nat, writer: bool, owner: bool, wrCnt: u32)
    requires ThreadOk(l, holds, writer, owner, wrCnt) && l.pc.Outside? && l.rdCnt > 0
    ensures ThreadOk(l.(rdCnt := Low8(l.rdCnt + 1), readsHeld := l.readsHeld + 1), holds, writer, owner, wrCnt)
  {
    DepthSteps(l.readsHeld);
    hide Holds, Count8, Low8;
  }

  lemma Sets(l: Local, holds: nat, writer: bool, owner: bool, wrCnt: u32)
    requires ThreadOk(l, holds, writer, owner, wrCnt) && l.pc.ReadGot?
    ensures ThreadOk(l.(pc := Outside, rdCnt := 1, readsHeld := l.readsHeld + 1), holds, writer, owner, wrCnt)
  {
    DepthSteps(l.readsHeld);
    hide Holds, Count8, Low8;
  }

  lemma Unnests(l: Local, holds: nat, writer: bool, owner: bool, wrCnt: u32)
    requires ThreadOk(l, holds, writer, owner, wrCnt) && l.pc.Outside? && l.readsHeld > 0
    ensures var n := Low8(l.rdCnt - 1);
      ThreadOk(l.(pc := if n > 0 then Outside else ReadDrop, rdCnt := n, readsHeld := l.readsHeld - 1), holds, writer, owner, wrCnt)
  {
    DepthSteps(l.readsHeld);
    hide Holds, Count8, Low8;
  }

  lemma ReadOther(s: State, t: Tid, step: ReadStep, s': State, u: Tid)
    requires ThreadAt(s, u) && ReadNext(s, t, step, s') && u != t
    ensures ThreadAt(s', u)
  {
    hide Holds, Count8, Low8, ThreadOk;
  }

  /** How the number of base holds and the count follow the depth. */
  lemma DepthSteps(d: nat)
    ensures Holds(d + 1) == Holds(d) + if Count8(d) != 0 then 0 else 1
    ensures Count8(d + 1) == Low8(Count8(d) + 1)
    ensures Count8(d) == 0 ==> Count8(d + 1) == 1
    ensures d > 0 ==> Count8(d - 1) == Low8(Count8(d) - 1) && Holds(d - 1) == Holds(d) - if Count8(d - 1) == 0 then 1 else 0
  {
    OneDeeper(d);
    if d > 0 {
      OneDeeper(d - 1);
    }
    hide Holds, Count8;
  }

  lemma OneDeeper(d: nat)
    ensures Holds(d + 1) == Holds(d) + if Count8(d) != 0 then 0 else 1
    ensures Count8(d + 1) == if Count8(d) == 255 then 0 else Count8(d) + 1
  {
    var q, r := d / 256, d % 256;
    ModUnique(d + 255, 256, if r == 0 then q else q + 1, if r == 0 then 255 else r - 1);
    ModUnique(d + 1, 256, if r == 255 then q + 1 else q, if r == 255 then 0 else r + 1);
    ModUnique(d + 256, 256, q + 1, r);
  }

  lemma ReadCounter(s: State, t: Tid, step: ReadStep, s': State)
    requires CounterOk(s) && ThreadAt(s, t) && ReadNext(s, t, step, s')
    ensures CounterOk(s')
  {
    hide Holds, Count8, Low8;
    if step.ReadSub? {
      assert t in s.readers;
      assert |s.readers - multiset{t}| == |s.readers| - 1;
    }
  }

  lemma WriteKeeps(s: State, t: Tid, step: WriteStep, s': State, u: Tid)
    requires Inv(s) && WriteNext(s, t, step, s') && Bounded(s')
    ensures CounterOk(s') && ThreadAt(s', u)
  {
    assert ThreadAt(s, t) && ThreadAt(s, u);
    hide Holds, Count8;
    WriteThread(s, t, step, s', u);
  }

  lemma WriteThread(s: State, t: Tid, step: WriteStep, s': State, u: Tid)
    requires CounterOk(s) && ThreadAt(s, t) && ThreadAt(s, u) && WriteNext(s, t, step, s') && Get(s'.threads, t, NoLocal).writesHeld <= TWO32
    ensures ThreadAt(s', u)
  {
    if u == t {
      WriteOwn(s, t, step, s');
    } else {
      WriteOther(s, t, step, s', u);
    }
  }

  lemma WriteOwn(s: State, t: Tid, step: WriteStep, s': State)
    requires CounterOk(s) && ThreadAt(s, t) && WriteNext(s, t, step, s') && Get(s'.threads, t, NoLocal).writesHeld <= TWO32
    ensures ThreadAt(s', t)
  {
    hide Holds, Count8;
  }

  lemma WriteOther(s: State, t: Tid, step: WriteStep, s': State, u: Tid)
    requires CounterOk(s) && ThreadAt(s, t) && ThreadAt(s, u) && WriteNext(s, t, step, s') && u != t
    ensures ThreadAt(s', u)
  {
    hide Holds, Count8;
  }

  lemma StepKeeps(s: State, t: Tid, step: Step, s': State)
    requires Inv(s) && Next(s, t, step, s')
    ensures Inv(s')
  {
    forall u ensures CounterOk(s') && ThreadAt(s', u) {
      match step
      case Read(r) => ReadKeeps(s, t, r, s', u);
      case Write(w) => WriteKeeps(s, t, w, s', u);
    }
    assert CounterOk(s') && ThreadAt(s', t);
  }

  // ---------- whole runs ----------

  datatype Move = Move(t: Tid, step: Step)

  ghost predicate Run(run: seq<State>, moves: seq<Move>) {
    && |run| == |moves| + 1 && Init(run[0])
    && forall k :: 0 <= k < |moves| ==> Next(run[k], moves[k].t, moves[k].step, run[k + 1])
  }

  lemma {:induction false} RunKeeps(run: seq<State>, moves: seq<Move>, k: nat)
    requires Run(run, moves) && k < |run|
    ensures Inv(run[k])
  {
    if k == 0 {
      InitInv(run[0]);
    } else {
      RunKeeps(run, moves, k - 1);
      StepKeeps(run[k - 1], moves[k - 1].t, moves[k - 1].step, run[k]);
    }
  }

  /** In every interleaving the base counter is the number of threads that hold the lock for reading, or
      all ones while one thread holds it for writing. */
  lemma CounterMeans(run: seq<State>, moves: seq<Move>, k: nat)
    requires Run(run, moves) && k < |run|
    ensures run[k].cnt == LOCKED <==> run[k].writer.Some?
    ensures run[k].writer.None? ==> run[k].cnt == |run[k].readers| <= MAX_READS
    ensures run[k].writer.Some? ==> run[k].readers == multiset{}
  {
    RunKeeps(run, moves, k);
  }

  /** A thread with an unreleased write acquisition excludes every other thread's acquisitions of either
      kind, and its recursion count is exactly the number of acquisitions it has not released. */
  lemma WriterExcludes(run: seq<State>, moves: seq<Move>, k: nat, t: Tid, u: Tid)
    requires Run(run, moves) && k < |run| && Look(run[k], t).writesHeld > 0
    ensures run[k].owner == Some(t) && run[k].wrCnt == Low32(Look(run[k], t).writesHeld)
    ensures Look(run[k], u).readsHeld == 0 && (u != t ==> Look(run[k], u).writesHeld == 0)
  {
    RunKeeps(run, moves, k);
    assert ThreadAt(run[k], t) && ThreadAt(run[k], u);
  }

  /** A thread's read count is the number of read acquisitions it has not released, modulo 256, so it is
      that number exactly while there are fewer than 256; at any depth the thread holds the base lock. */
  lemma ReadDepth(run: seq<State>, moves: seq<Move>, k: nat, t: Tid)
    requires Run(run, moves) && k < |run|
    ensures Look(run[k], t).rdCnt == Look(run[k], t).readsHeld <==> Look(run[k], t).readsHeld < 256
    ensures Look(run[k], t).readsHeld > 0 ==> t in run[k].readers
  {
    RunKeeps(run, moves, k);
    assert ThreadAt(run[k], t);
  }

  /** The unsynchronised look at the owner is safe: a thread outside the lock functions finds itself there
      exactly when it has unreleased write acquisitions. */
  lemma OwnerReadIsSafe(run: seq<State>, moves: seq<Move>, k: nat, t: Tid)
    requires Run(run, moves) && k < |run| && Look(run[k], t).pc.Outside?
    ensures run[k].owner == Some(t) <==> Look(run[k], t).writesHeld > 0
  {
    RunKeeps(run, moves, k);
    assert ThreadAt(run[k], t);
  }

  /** An unlock goes on to give up the lock exactly when it undoes the outermost acquisition. */
  lemma OutermostReleases(run: seq<State>, moves: seq<Move>, k: nat)
    requires Run(run, moves) && k < |moves| && moves[k].step == Write(WriteUnlock)
    ensures var t := moves[k].t;
      Look(run[k + 1], t).pc.WriteDrop? <==> Look(run[k], t).writesHeld == 1
  {
    RunKeeps(run, moves, k);
    var t := moves[k].t;
    assert Next(run[k], t, moves[k].step, run[k + 1]);
    assert ThreadAt(run[k], t);
  }

  /** At most these threads have used the lock, none of them nested 256 deep for reading. */
  ghost predicate UsedBy(s: State, all: set<Tid>) {
    forall t {:trigger Get(s.threads, t, NoLocal)} ::
      Get(s.threads, t, NoLocal).readsHeld < 256 && (t in all || Get(s.threads, t, NoLocal) == NoLocal)
  }

  /** Each of them then holds the base lock once at most. */
  lemma HoldsOnce(s: State, all: set<Tid>, t: Tid)
    requires ThreadAt(s, t) && UsedBy(s, all)
    ensures s.readers[t] <= if t in all then 1 else 0
  {
    assert Get(s.threads, t, NoLocal).readsHeld < 256;
  }

  /** With fewer than 2^31 threads, none nested 256 deep, there is always room for one more reader: one
      that comes to the base lock is kept waiting exactly when there is a writer. */
  lemma FewThreads(run: seq<State>, moves: seq<Move>, k: nat, all: set<Tid>)
    requires Run(run, moves) && k < |run| && UsedBy(run[k], all) && |all| < MAX_READS
    ensures |run[k].readers| <= |all|
    ensures run[k].cnt >= MAX_READS <==> run[k].writer.Some?
  {
    RunKeeps(run, moves, k);
    forall t ensures run[k].readers[t] <= if t in all then 1 else 0 {
      assert ThreadAt(run[k], t);
      HoldsOnce(run[k], all, t);
    }
    OneEach(run[k].readers, all);
  }

  lemma {:induction false} OneEach(readers: multiset<Tid>, all: set<Tid>)
    requires forall t :: readers[t] <= if t in all then 1 else 0
    ensures |readers| <= |all|
    decreases all
  {
    if all == {} {
      assert readers == multiset{};
    } else {
      var t :| t in all;
      var rest := readers[t := 0];
      OneEach(rest, all - {t});
      assert readers == rest[t := readers[t]];
    }
  }
}
