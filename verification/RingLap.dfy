/** What the bound on passing items is for: a run in which 2^32 items go by while one producer is between
    its reads and its exchange. */
module RingLap {
  import opened Bits
  import opened RingBuffer
  import opened RingProtocol

  ghost predicate Reaches(run: seq<State>, moves: seq<Move>, s: State) {
    Run(run, moves) && run[|moves|] == s
  }

  ghost predicate Reachable(s: State) {
    exists run, moves :: Reaches(run, moves, s)
  }

  lemma ReachStep(s: State, t: Tid, a: Action, s': State)
    requires Reachable(s) && |s.slots| == s.Size() && Step(s, t, a, s')
    ensures Reachable(s')
  {
    var run, moves :| Reaches(run, moves, s);
    hide Step;
    var run', moves' := run + [s'], moves + [Move(t, a)];
    forall i | 0 <= i < |moves'| ensures Moves(run'[i], moves'[i], run'[i + 1]) {
      assert i < |moves| ==> moves'[i] == moves[i];
    }
    assert Reaches(run', moves', s');
  }

  /** A ring of size 2 through which k items have gone; thread 0 read its counters before the first. */
  function Gone(k: nat): State {
    State(1, 1, false, false, k, k, k, k, [7, 7], seq(k, _ => 7), seq(k, _ => 7), Late(Idle))
  }

  /** Thread 0 waiting for its exchange, thread 1 as given. */
  function Late(l: Local): map<Tid, Local> {
    map[0 := PTail([9], Fixed, 0, 0, 1), 1 := l]
  }

  lemma LateLooks(l: Local)
    ensures Look(Late(l), 0) == PTail([9], Fixed, 0, 0, 1) && Look(Late(l), 1) == l
    ensures forall l' :: Put(Late(l), 1, l') == Late(l')
  {
  }

  /** Item k has been enqueued and published. */
  function Filled(k: nat): State {
    Gone(k).(prodHead := k + 1, prodTail := k + 1, produced := seq(k + 1, _ => 7))
  }

  lemma OneMore(k: nat)
    ensures seq(k, _ => 7) + [7] == seq(k + 1, _ => 7)
  {
  }

  lemma Enqueues(k: nat)
    requires Reachable(Gone(k))
    ensures Reachable(Filled(k))
  {
    var s0 := Gone(k);
    var s1 := s0.(threads := Late(PStart([7], Fixed)));
    var s2 := s0.(threads := Late(PHead([7], Fixed, k)));
    var s3 := s0.(threads := Late(PTail([7], Fixed, k, k, 1)));
    var s4 := s0.(threads := Late(PCopy(k, [7], 0)), prodHead := k + 1, produced := seq(k + 1, _ => 7));
    var s5 := s4.(threads := Late(PCopy(k, [7], 1)));
    LateLooks(Idle);
    ReachStep(s0, 1, BeginEnqueue([7], Fixed), s1);
    LateLooks(PStart([7], Fixed));
    ReachStep(s1, 1, ReadProdHead, s2);
    LateLooks(PHead([7], Fixed, k));
    ReachStep(s2, 1, ReadConsTail, s3);
    Exchanges(k, s3, s4);
    Writes7(k, s4, s5);
    LateLooks(PCopy(k, [7], 1));
    ReachStep(s5, 1, PublishProd, Filled(k));
  }

  lemma Exchanges(k: nat, s3: State, s4: State)
    requires s3 == Gone(k).(threads := Late(PTail([7], Fixed, k, k, 1))) && Reachable(s3)
    requires s4 == Gone(k).(threads := Late(PCopy(k, [7], 0)), prodHead := k + 1, produced := seq(k + 1, _ => 7))
    ensures Reachable(s4)
  {
    LateLooks(PTail([7], Fixed, k, k, 1));
    OneMore(k);
    assert FreeSeen(1, k, k) == 1;
    assert [7][..1] == [7];
    ReachStep(s3, 1, ProdCas, s4);
  }

  lemma Writes7(k: nat, s4: State, s5: State)
    requires s4 == Gone(k).(threads := Late(PCopy(k, [7], 0)), prodHead := k + 1, produced := seq(k + 1, _ => 7)) && Reachable(s4)
    requires s5 == s4.(threads := Late(PCopy(k, [7], 1)))
    ensures Reachable(s5)
  {
    LateLooks(PCopy(k, [7], 0));
    var i := Slot(Low32(k) + 0, 2);
    assert [7, 7][i := 7] == [7, 7];
    ReachStep(s4, 1, WriteSlot, s5);
  }

  lemma Dequeues(k: nat)
    requires Reachable(Filled(k))
    ensures Reachable(Gone(k + 1))
  {
    var s0 := Filled(k);
    var s1 := s0.(threads := Late(CStart(1, Fixed)));
    var s2 := s0.(threads := Late(CHead(1, Fixed, k)));
    var s3 := s0.(threads := Late(CTail(1, Fixed, k, k + 1, 1)));
    var s4 := s0.(threads := Late(CCopy(k, 1, [])), consHead := k + 1);
    LateLooks(Idle);
    ReachStep(s0, 1, BeginDequeue(1, Fixed), s1);
    LateLooks(CStart(1, Fixed));
    ReachStep(s1, 1, ReadConsHead, s2);
    LateLooks(CHead(1, Fixed, k));
    ReachStep(s2, 1, ReadProdTail, s3);
    Takes(k, s3, s4);
    Releases(k, s4);
  }

  lemma Releases(k: nat, s4: State)
    requires s4 == Filled(k).(threads := Late(CCopy(k, 1, [])), consHead := k + 1) && Reachable(s4)
    ensures Reachable(Gone(k + 1))
  {
    var s5 := s4.(threads := Late(CCopy(k, 1, [7])));
    Loads(k, s4, s5);
    LateLooks(CCopy(k, 1, [7]));
    OneMore(k);
    ReachStep(s5, 1, PublishCons, Gone(k + 1));
  }

  lemma Loads(k: nat, s4: State, s5: State)
    requires s4 == Filled(k).(threads := Late(CCopy(k, 1, [])), consHead := k + 1) && Reachable(s4)
    requires s5 == s4.(threads := Late(CCopy(k, 1, [7])))
    ensures Reachable(s5)
  {
    LateLooks(CCopy(k, 1, []));
    Reads7(Slot(Low32(k) + 0, 2));
    ReachStep(s4, 1, ReadSlot, s5);
  }

  lemma Reads7(i: nat)
    requires i < 2
    ensures [] + [[7, 7][i]] == [7]
  {
  }

  lemma Takes(k: nat, s3: State, s4: State)
    requires s3 == Filled(k).(threads := Late(CTail(1, Fixed, k, k + 1, 1))) && Reachable(s3)
    requires s4 == Filled(k).(threads := Late(CCopy(k, 1, [])), consHead := k + 1)
    ensures Reachable(s4)
  {
    LateLooks(CTail(1, Fixed, k, k + 1, 1));
    Difference32(k + 1, k);
    assert EntriesSeen(k + 1, k) == 1;
    ReachStep(s3, 1, ConsCas, s4);
  }

  /** A new ring that only thread 1 has used. */
  function Early(z: nat, l: Local): State {
    State(1, 1, false, false, z, z, z, z, [7, 7], [], [], map[1 := l])
  }

  lemma EarlyLooks(z: nat, l: Local)
    ensures Early(z, l).At(1) == l && Early(z, l).At(0) == Idle
    ensures forall l' :: Early(z, l).Set(1, l') == Early(z, l')
  {
  }

  /** Thread 1 calls a dequeue on the new ring. */
  lemma Calls(z: nat)
    requires z == 0
    ensures Reachable(Early(z, CStart(1, Fixed)))
  {
    var s0 := State(1, 1, false, false, z, z, z, z, [7, 7], [], [], map[]);
    assert Pow2(1) == 2;
    assert Init(s0);
    assert Reaches([s0], [], s0);
    assert s0.Set(1, CStart(1, Fixed)) == Early(z, CStart(1, Fixed));
    ReachStep(s0, 1, BeginDequeue(1, Fixed), Early(z, CStart(1, Fixed)));
  }

  /** It finds the ring empty and gives up. */
  lemma GivesUp(z: nat)
    requires z == 0
    ensures Reachable(Early(z, Idle))
  {
    Calls(z);
    EarlyLooks(z, CStart(1, Fixed));
    ReachStep(Early(z, CStart(1, Fixed)), 1, ReadConsHead, Early(z, CHead(1, Fixed, z)));
    EarlyLooks(z, CHead(1, Fixed, z));
    ReachStep(Early(z, CHead(1, Fixed, z)), 1, ReadProdTail, Early(z, CTail(1, Fixed, z, z, 0)));
    EarlyLooks(z, CTail(1, Fixed, z, z, 0));
    assert EntriesSeen(z, z) == 0;
    ReachStep(Early(z, CTail(1, Fixed, z, z, 0)), 1, DequeueFails, Early(z, Idle));
  }

  /** Thread 0 reads both counters of the empty ring. */
  lemma Starts(z: nat)
    requires z == 0
    ensures Reachable(Gone(z))
  {
    GivesUp(z);
    EarlyLooks(z, Idle);
    var s := Early(z, Idle);
    var s1, s2, s3 := s.Set(0, PStart([9], Fixed)), s.Set(0, PHead([9], Fixed, z)), s.Set(0, PTail([9], Fixed, z, z, 1));
    ReachStep(s, 0, BeginEnqueue([9], Fixed), s1);
    SetTwice(s, 0, PStart([9], Fixed), PHead([9], Fixed, z));
    ReachStep(s1, 0, ReadProdHead, s2);
    SetTwice(s, 0, PHead([9], Fixed, z), PTail([9], Fixed, z, z, 1));
    ReachStep(s2, 0, ReadConsTail, s3);
    assert s3 == Gone(z);
  }

  lemma SetTwice(s: State, t: Tid, l: Local, l': Local)
    ensures s.Set(t, l).Set(t, l') == s.Set(t, l') && s.Set(t, l).At(t) == l
  {
    assert Put(Put(s.threads, t, l), t, l') == Put(s.threads, t, l');
  }

  lemma {:induction false} GoesBy(k: nat)
    ensures Reachable(Gone(k))
  {
    if k == 0 {
      Starts(k);
    } else {
      GoesBy(k - 1);
      Enqueues(k - 1);
      Dequeues(k - 1);
    }
  }

  /** 2^32 items after thread 0 read the counters of the empty ring, it is full again. */
  function LappedState(): State {
    Filled(0xFFFF_FFFF)
  }

  /** That state ends a run, and in it the exchange of thread 0 finds the word it read and goes for one
      entry although none is free: the ring would hold more than mask entries. The bound on passing
      items cannot be dropped. */
  lemma LapDefeatsTheExchange()
    ensures Reachable(LappedState())
    ensures var s := LappedState();
      var l := s.At(0);
      && l.PTail? && Low32(s.prodHead) == Low32(l.head) && EnqueueBurst(s, l) == 1
      && s.prodHead == l.head + 0x1_0000_0000
      && s.prodHead + EnqueueBurst(s, l) > s.consTail + s.mask
  {
    GoesBy(0xFFFF_FFFF);
    Enqueues(0xFFFF_FFFF);
    LateLooks(Idle);
    assert FreeSeen(1, 0, 0) == 1;
  }
}
