/** The receive ring of the PCIe driver: the device offers descriptors, the host starts a transfer for each
    and later gives the packets to the kernel. */
module RxRing {
  import opened Bits

  /** What the device wrote into a descriptor. */
  datatype Entry = Entry(status: nat, len: nat)
  {
    /** The length noted for it; 0 marks an error packet. */
    function Len(): nat { if status != 0 then 0 else len }
  }

  /** The outcomes of one call that come from outside: the descriptors, and whether the buffer allocation and
      the transfer set-up of a slot succeed. */
  datatype World = World(entry: nat -> Entry, starts: nat -> bool)
  {
    /** The slot is passed: an error packet, or its transfer was started. */
    predicate Passes(i: nat) { entry(i).status != 0 || starts(i) }
  }

  /** The slots of descriptors [a, b) of the endless sequence of descriptors, in order. */
  function Slots(a: nat, b: nat, size: nat): (r: seq<nat>)
    requires a <= b && size >= 1
    ensures |r| == b - a
  {
    seq<nat>(b - a, i requires 0 <= i => Slot(a + i, size))
  }

  /** The index j slots on from index a, and the number of slots from index a on to index t. */
  function Pos(a: nat, j: nat, size: nat): nat
    requires a < size
  {
    if a + j < size then a + j else a + j - size
  }

  function Dist(a: nat, t: nat, size: nat): nat
    requires a < size && t < size
  {
    if a <= t then t - a else t + size - a
  }

  /** The indices of the j slots from index a on. */
  function Positions(a: nat, j: nat, size: nat): (r: seq<nat>)
    requires a < size && j <= size
    ensures |r| == j
  {
    seq<nat>(j, i requires 0 <= i < j => Pos(a, i, size))
  }

  lemma OneMorePosition(a: nat, j: nat, size: nat)
    requires a < size && j < size
    ensures Positions(a, j, size) + [Pos(a, j, size)] == Positions(a, j + 1, size)
  {
  }

  /** Indices follow the endless sequence of descriptors within one ring length. */
  lemma SlotFrom(a: nat, k: nat, size: nat)
    requires size >= 1 && a <= k < a + size
    ensures Slot(k, size) == Pos(Slot(a, size), k - a, size)
    ensures k - a == Dist(Slot(a, size), Slot(k, size), size)
  {
    SlotAdd(a, k - a, size);
  }

  lemma OneMoreSlot(a: nat, b: nat, size: nat)
    requires a <= b && size >= 1
    ensures Slots(a, b + 1, size) == Slots(a, b, size) + [Slot(b, size)]
  {
  }

  /** (i + 1) % size */
  method NextIndex(i: nat, size: nat) returns (r: nat)
    requires i < size
    ensures r == Pos(i, 1, size)
  {
    r := (i + 1) % size;
    if i + 1 == size {
      ModUnique(i + 1, size, 1, 0);
    } else {
      ModUnique(i + 1, size, 0, i + 1);
    }
  }

  lemma Advance(a: nat, t: nat, more: nat, size: nat)
    requires size >= 1 && a <= t < a + size && more <= Dist(Slot(a, size), Slot(t, size), size)
    ensures a + more <= t && Slot(a + more, size) == Pos(Slot(a, size), more, size)
    ensures a + more < t <==> more < Dist(Slot(a, size), Slot(t, size), size)
  {
    SlotFrom(a, t, size);
    SlotFrom(a, a + more, size);
  }

  lemma LogGrows(a: nat, more: nat, size: nat)
    requires size >= 1 && more < size
    ensures Slots(0, a, size) + Positions(Slot(a, size), more, size) == Slots(0, a + more, size)
  {
    var x, y := Slots(0, a, size) + Positions(Slot(a, size), more, size), Slots(0, a + more, size);
    forall i | 0 <= i < |y| ensures x[i] == y[i] {
      if i >= a {
        SlotFrom(a, i, size);
      }
    }
  }

  /** The return value of mpodp_start_rx: from the two indices alone, the number of descriptors passed and not
      yet retired, wherever in the endless sequence of descriptors the ring is. */
  method InFlight(used: nat, avail: nat, size: nat, ghost retired: nat, ghost passed: nat) returns (r: nat)
    requires size >= 1 && retired <= passed < retired + size
    requires used == Slot(retired, size) && avail == Slot(passed, size)
    ensures r == passed - retired
  {
    SlotFrom(retired, passed, size);
    r := if avail >= used then avail - used else avail + size - used;
  }

  class RxQueue {
    const size: nat
    /** ring[i].len, as noted when the slot was passed. */
    const lens: array<nat>
    var used: nat
    var avail: nat
    var tail: nat
    /** What the device reads as the head. */
    var head: nat
    /** Descriptors retired, passed and offered since the beginning. */
    ghost var retired: nat
    ghost var passed: nat
    ghost var offered: nat
    /** The slots started or skipped, and the slots retired, in the order it happened. */
    ghost var startLog: seq<nat>
    ghost var retireLog: seq<nat>
    /** What each descriptor said when it was passed, and the packets given to the kernel: slot and length. */
    ghost var noted: seq<Entry>
    ghost var handed: seq<(nat, nat)>

    constructor (size: nat)
      requires size >= 1
      ensures Valid() && fresh(lens) && this.size == size && retired == passed == offered == 0
    {
      this.size, lens := size, new nat[size];
      used, avail, tail, head := 0, 0, 0, 0;
      retired, passed, offered, startLog, retireLog, noted, handed := 0, 0, 0, [], [], [], [];
    }

    /** used, avail and the device's tail are in circular order, with one entry kept free; everything was
        passed once and retired once, in order; the ring still has the lengths noted for the descriptors in
        flight; and the kernel got the good packets of the retired descriptors, in order. */
    ghost predicate Sound()
      reads this, lens
    {
      && Indexed()
      && (forall k :: retired <= k < passed ==> lens[Slot(k, size)] == noted[k].Len())
      && handed == Delivered(noted, 0, retired, size)
    }

    /** Between calls the device also knows how far its descriptors are free again. */
    ghost predicate Valid()
      reads this, lens
    {
      Sound() && head == used
    }

    ghost predicate Indexed()
      reads this
    {
      && size >= 1 && lens.Length == size
      && retired <= passed <= offered < retired + size
      && used == Slot(retired, size) && avail == Slot(passed, size)
      && startLog == Slots(0, passed, size) && retireLog == Slots(0, retired, size)
      && |noted| == passed
    }

    /** How many descriptors a device that reads h as the head may offer: it leaves one entry free. */
    ghost function Room(h: nat): int
      requires size >= 1 && h < size
      reads this
    {
      size - 1 - Dist(h, Slot(offered, size), size)
    }

    /** The device offers n more descriptors, as many as the head it reads allows. */
    ghost method DeviceOffers(n: nat)
      requires Valid() && n <= Room(head)
      modifies `offered
      ensures Valid() && offered == old(offered) + n
    {
      SlotFrom(retired, offered, size);
      offered := offered + n;
    }

    /** One loop of mpodp_start_rx: pass slots up to the limit, or to the first that cannot be started. */
    method PassUpTo(limit: nat, w: World, ghost from: nat, ghost done: nat, ghost log: seq<nat>) returns (early: bool)
      requires lens.Length == size && avail <= limit <= size
      requires from < size && done + (limit - avail) < size && (avail < limit ==> Pos(from, done, size) == avail)
      requires (limit <= from || avail >= from) && startLog == log + Positions(from, done, size)
      modifies `avail, `startLog, lens
      ensures old(avail) <= avail <= limit && (early <==> avail < limit)
      ensures startLog == log + Positions(from, done + (avail - old(avail)), size)
      ensures forall i :: old(avail) <= i < avail ==> w.Passes(i)
      ensures early ==> !w.Passes(avail)
      ensures forall i :: 0 <= i < size ==> lens[i] == if old(avail) <= i < avail || (early && i == avail) then w.entry(i).Len() else old(lens[i])
    {
      early := false;
      while avail != limit
        modifies `avail, `startLog, lens
        invariant old(avail) <= avail <= limit
        invariant startLog == log + Positions(from, done + (avail - old(avail)), size)
        invariant forall i :: old(avail) <= i < avail ==> w.Passes(i)
        invariant forall i :: 0 <= i < size ==> lens[i] == if old(avail) <= i < avail then w.entry(i).Len() else old(lens[i])
        decreases limit - avail
      {
        var e := w.entry(avail);
        if e.status != 0 {
          lens[avail] := 0;
        } else {
          lens[avail] := e.len;
          if !w.starts(avail) {
            early := true;
            return;
          }
        }
        OneMorePosition(from, done + (avail - old(avail)), size);
        startLog := startLog + [avail];
        avail := avail + 1;
      }
    }

    /** The transfer of the slot was started, or the slot holds an error packet, and its length was noted. */
    ghost predicate PassedAt(w: World, i: nat)
      reads lens
    {
      i < lens.Length && w.Passes(i) && lens[i] == w.entry(i).Len()
    }

    lemma PassedSlots(w: World, from: nat, a: nat, more: nat)
      requires size >= 1 && more < size && from == Slot(a, size) && forall j :: 0 <= j < more ==> PassedAt(w, Pos(from, j, size))
      ensures forall k :: a <= k < a + more ==> PassedAt(w, Slot(k, size))
    {
      hide Slot, Pos, PassedAt;
      forall k | a <= k < a + more ensures PassedAt(w, Slot(k, size)) {
        SlotFrom(a, k, size);
        assert PassedAt(w, Pos(from, k - a, size));
      }
    }

    /** Both loops of mpodp_start_rx: first to the end of the ring if the tail is behind, then to the tail. */
    method PassToTail(w: World) returns (ghost more: nat)
      requires lens.Length == size && avail < size && tail < size
      modifies `avail, `startLog, lens
      ensures more <= Dist(old(avail), tail, size) && startLog == old(startLog) + Positions(old(avail), more, size)
      ensures more <= Dist(old(avail), tail, size) && avail == Pos(old(avail), more, size) < size
      ensures forall j :: 0 <= j < more ==> PassedAt(w, Pos(old(avail), j, size))
      ensures more < Dist(old(avail), tail, size) ==> !w.Passes(avail)
      ensures forall i :: 0 <= i < size && i != avail && Dist(old(avail), i, size) >= more ==> lens[i] == old(lens[i])
    {
      ghost var from, log := avail, startLog;
      var limit := if avail > tail then size else tail;
      var early := PassUpTo(limit, w, from, 0, startLog);
      more := avail - from;
      if !early && limit != tail {
        limit := tail;
        avail := 0;
        early := PassUpTo(limit, w, from, more, log);
        more := more + avail;
      }
    }

    /** mpodp_start_rx: every offered descriptor from avail on is passed once, in order and across the end of
        the ring, up to the first that cannot be started, which is tried again by the next call. What the
        descriptors say is noted, and what was noted before stays. Returns the number of descriptors
        passed and not yet retired. */
    method StartRx(reset: bool, tailNow: nat, w: World) returns (inFlight: nat)
      requires Valid() && tailNow == Slot(offered, size)
      modifies `avail, `tail, `passed, `startLog, `noted, lens
      ensures Valid() && avail < size
      ensures reset ==> inFlight == 0 && passed == old(passed)
      ensures !reset ==> inFlight == passed - retired
      ensures old(passed) <= passed <= offered
      ensures forall k :: old(passed) <= k < passed ==> w.Passes(Slot(k, size)) && noted[k] == w.entry(Slot(k, size))
      ensures noted[..old(passed)] == old(noted)
      ensures !reset && passed < offered ==> !w.Passes(Slot(passed, size))
    {
      hide Slot, Slots, Pos, Dist, PassedAt, Delivered;
      if reset {
        return 0;
      }
      tail := tailNow;
      ghost var avail0, lens0 := avail, lens[..];
      ghost var more := PassToTail(w);
      Advance(passed, offered, more, size);
      PassedSlots(w, avail0, passed, more);
      LogGrows(passed, more, size);
      NoteAll(w, lens0, more);
      inFlight := InFlight(used, avail, size, retired, passed);
    }

    /** The passed descriptors are noted; the ones in flight before kept their lengths. */
    ghost method NoteAll(w: World, lens0: seq<nat>, more: nat)
      requires size >= 1 && lens.Length == size == |lens0| && retired <= passed && passed + more <= offered < retired + size
      requires |noted| == passed && avail == Slot(passed + more, size)
      requires forall k :: retired <= k < passed ==> lens0[Slot(k, size)] == noted[k].Len()
      requires forall k :: passed <= k < passed + more ==> PassedAt(w, Slot(k, size))
      requires forall i :: 0 <= i < size && i != avail && Dist(Slot(passed, size), i, size) >= more ==> lens[i] == lens0[i]
      requires handed == Delivered(noted, 0, retired, size)
      modifies `passed, `noted
      ensures passed == old(passed) + more && |noted| == passed && noted[..old(passed)] == old(noted)
      ensures forall k :: old(passed) <= k < passed ==> w.Passes(Slot(k, size)) && noted[k] == w.entry(Slot(k, size))
      ensures forall k :: retired <= k < passed ==> lens[Slot(k, size)] == noted[k].Len()
      ensures handed == Delivered(noted, 0, retired, size)
    {
      hide Slot, Dist, Delivered;
      forall k | retired <= k < passed ensures lens[Slot(k, size)] == noted[k].Len() {
        Undisturbed(k, passed, more, size);
      }
      ghost var was, at := noted, passed;
      noted := noted + seq(more, i requires 0 <= i < more => w.entry(Slot(at + i, size)));
      forall k | passed <= k < passed + more ensures w.Passes(Slot(k, size)) && noted[k] == w.entry(Slot(k, size)) {
        assert PassedAt(w, Slot(k, size)) && noted[k] == w.entry(Slot(at + (k - at), size));
      }
      SameDelivered(was, noted, 0, retired, size);
      passed := passed + more;
    }

    method RetireOne(ghost packet: seq<(nat, nat)>)
      requires Sound() && retired < passed && packet == Packet(noted, retired, size)
      modifies `used, `retired, `retireLog, `handed
      ensures Sound() && retired == old(retired) + 1 && handed == old(handed) + packet
    {
      SlotFrom(retired, retired + 1, size);
      OneMoreSlot(0, retired, size);
      OneMoreDelivered(noted, 0, retired, size);
      hide Slot, Slots, Delivered, Packet, Pos;
      used := NextIndex(used, size);
      retireLog := retireLog + [Slot(retired, size)];
      handed := handed + packet;
      retired := retired + 1;
    }

    /** The indices meet exactly when nothing is in flight. */
    lemma Front()
      requires Sound()
      ensures size >= 1 && retired <= passed == |noted| && (used == avail <==> retired == passed)
    {
      SlotFrom(retired, passed, size);
      Apart(used, avail, size);
    }

    /** One round of mpodp_clean_rx: the oldest descriptor in flight, if it is done. */
    method CleanOne(complete: nat -> bool) returns (done: bool, packet: seq<(nat, nat)>)
      requires Sound() && retired < passed == |noted|
      modifies `used, `retired, `retireLog, `handed
      ensures Sound() && done == Done(noted[old(retired)], Slot(old(retired), size), complete)
      ensures retired == old(retired) + (if done then 1 else 0)
      ensures done ==> packet == Packet(noted, old(retired), size) && handed == old(handed) + packet
      ensures !done ==> handed == old(handed) && used == old(used)
    {
      hide Slots, Delivered, Slot;
      packet := [];
      assert lens[used] == noted[retired].Len();
      done := IsDone(used, complete);
      if done {
        packet := if lens[used] != 0 then [(used, lens[used])] else [];
        RetireOne(packet);
      }
    }

    /** mpodp_clean_rx: passed descriptors are retired in order, one each, until the budget is used up, none
        is left, or a transfer is not complete; the device is told the new head. An error packet counts as
        complete and is not delivered, and neither is a started packet of length 0. */
    method CleanRx(budget: nat, complete: nat -> bool) returns (worked: nat, delivered: seq<(nat, nat)>)
      requires Valid()
      modifies `used, `head, `retired, `retireLog, `handed
      ensures Valid() && retired == old(retired) + worked && worked <= budget
      ensures worked == budget || retired == passed || !Done(noted[retired], Slot(retired, size), complete)
      ensures forall k :: old(retired) <= k < retired ==> Done(noted[k], Slot(k, size), complete)
      ensures delivered == Delivered(noted, old(retired), retired, size) && handed == old(handed) + delivered
    {
      hide Slot, Sound, Done;
      worked, delivered := 0, [];
      var left := budget;
      Front();
      assert Delivered(noted, retired, retired, size) == [];
      hide Delivered;
      while left > 0 && used != avail
        modifies `used, `retired, `retireLog, `handed
        invariant Sound() && retired == old(retired) + worked && worked + left == budget
        invariant worked == 0 ==> used == old(used)
        invariant retired <= passed == |noted| && size >= 1 && (used == avail <==> retired == passed)
        invariant forall k :: old(retired) <= k < retired ==> Done(noted[k], Slot(k, size), complete)
        invariant delivered == Delivered(noted, old(retired), retired, size) && handed == old(handed) + delivered
        decreases left
      {
        OneMoreDelivered(noted, old(retired), retired, size);
        var done, packet := CleanOne(complete);
        if !done {
          break;
        }
        left := left - 1;
        delivered := delivered + packet;
        worked := worked + 1;
        Front();
      }
      if worked > 0 {
        TellHead();
      }
    }

    /** The device is told how far its descriptors are free again. */
    method TellHead()
      requires Sound()
      modifies `head
      ensures Valid() && head == used
    {
      head := used;
    }

    /** mpodp_rx_is_done */
    method IsDone(i: nat, complete: nat -> bool) returns (r: bool)
      requires i < lens.Length
      ensures r == (lens[i] == 0 || complete(i))
    {
      if lens[i] == 0 {
        return true;
      }
      r := complete(i);
    }

    /** What mpodp_poll does for one queue: completed packets go to the kernel, the device may offer as many more
        descriptors as the head it is then told allows, and new transfers are started. Over the whole life of the queue the kernel has got
        the good packets of the retired descriptors, each once and in order, with the lengths their
        descriptors had when they were passed. */
    method Poll(budget: nat, complete: nat -> bool, ghost offer: nat -> nat, reset: bool, tailNow: nat -> nat, w: World)
        returns (worked: nat, pending: nat)
      requires Valid() && forall h :: 0 <= h < size ==> Follows(offer(h), tailNow(h), h)
      modifies this, lens
      ensures Valid() && handed == Delivered(noted, 0, retired, size)
      ensures retired == old(retired) + worked && worked <= budget && offered == old(offered) + offer(head) && old(passed) <= passed
      ensures pending == if reset then 0 else passed - retired
      ensures noted[..old(passed)] == old(noted)
      ensures forall k :: old(passed) <= k < passed ==> noted[k] == w.entry(Slot(k, size))
    {
      hide Slot, Slots, Delivered, Done;
      worked := 0;
      if budget > 0 {
        var delivered;
        worked, delivered := CleanRx(budget, complete);
      }
      assert Follows(offer(head), tailNow(head), head);
      DeviceOffers(offer(head));
      pending := StartRx(reset, tailNow(head), w);
    }

    /** What a device may do that reads h as the head: offer n descriptors, and write the tail that follows. */
    ghost predicate Follows(n: nat, tail: nat, h: nat)
      requires size >= 1 && h < size
      reads this
    {
      n <= Room(h) && tail == Slot(offered + n, size)
    }
  }

  /** Whether descriptor e in slot i can be retired. */
  predicate Done(e: Entry, i: nat, complete: nat -> bool) {
    e.Len() == 0 || complete(i)
  }

  /** What the kernel gets for descriptor k: nothing for an error packet or an empty one. */
  function Packet(noted: seq<Entry>, k: nat, size: nat): seq<(nat, nat)>
    requires k < |noted| && size >= 1
  {
    if noted[k].status == 0 && noted[k].len != 0 then [(Slot(k, size), noted[k].len)] else []
  }

  /** The packets of descriptors [a, b), in order. */
  function Delivered(noted: seq<Entry>, a: nat, b: nat, size: nat): seq<(nat, nat)>
    requires a <= b <= |noted| && size >= 1
    decreases b
  {
    if a == b then [] else Delivered(noted, a, b - 1, size) + Packet(noted, b - 1, size)
  }

  lemma OneMoreDelivered(noted: seq<Entry>, a: nat, b: nat, size: nat)
    requires a <= b < |noted| && size >= 1
    ensures Delivered(noted, a, b + 1, size) == Delivered(noted, a, b, size) + Packet(noted, b, size)
  {
  }

  lemma {:induction false} SameDelivered(noted: seq<Entry>, noted': seq<Entry>, a: nat, b: nat, size: nat)
    requires a <= b <= |noted| <= |noted'| && noted'[..|noted|] == noted && size >= 1
    ensures Delivered(noted', a, b, size) == Delivered(noted, a, b, size)
    decreases b
  {
    if a < b {
      SameDelivered(noted, noted', a, b - 1, size);
      assert noted'[b - 1] == noted'[..|noted|][b - 1];
    }
  }

  /** A descriptor in flight is neither among the slots just passed nor the one a failed start wrote to. */
  lemma Undisturbed(k: nat, passed: nat, more: nat, size: nat)
    requires size >= 1 && k < passed && passed + more < k + size
    ensures Slot(k, size) != Slot(passed + more, size)
    ensures Dist(Slot(passed, size), Slot(k, size), size) >= more
  {
    SlotsDistinct(k, passed + more, size);
    SlotFrom(k, passed, size);
    Around(Slot(k, size), Slot(passed, size), size);
    SlotsDistinct(k, passed, size);
  }

  lemma Around(a: nat, b: nat, size: nat)
    requires a < size && b < size && a != b
    ensures Dist(a, b, size) + Dist(b, a, size) == size
  {
  }

  lemma Apart(a: nat, b: nat, size: nat)
    requires a < size && b < size
    ensures Dist(a, b, size) == 0 <==> a == b
  {
  }
}
